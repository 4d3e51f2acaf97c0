/**
 * GameInfo.cs (the older revision): map tracking read through deep pointers,
 * three state getters, and the registry of "loaded_map_*" events with their
 * predicates.
 */
module LegacyGameInfo {
  import opened Wrappers
  import opened DeepPointers

  const MapAddress: DeepPointer := NewPointer(0x6FD148, [])
  const GameStateAddress: DeepPointer := NewPointer(0x7020A4, [])
  const IntermissionTimeAddress: DeepPointer := NewPointer(0x64F668, [])
  const QdqTotalTimeAddress: DeepPointer := NewPointer(0x6FBFF8, [0x2948])

  const MaxMapLength: nat := 5

  // ---------------------------------------------------------------------------
  // Map tracking
  // ---------------------------------------------------------------------------

  /** The three map properties; None is a C# null (the state before any change). */
  datatype MapState = MapState(prevMap: Option<string>, currMap: Option<string>, mapChanged: bool)

  /** What UpdateMap does with the string it read (the empty string after a failed read). */
  function NextMapState(s: MapState, mapName: string): (r: MapState)
    ensures r.mapChanged <==> mapName != "" && Some(mapName) != s.currMap
    ensures r.mapChanged ==> r.prevMap == s.currMap && r.currMap == Some(mapName)
    ensures !r.mapChanged ==> r.prevMap == s.prevMap && r.currMap == s.currMap
  {
    if |mapName| > 0 && Some(mapName) != s.currMap then MapState(s.currMap, Some(mapName), true)
    else MapState(s.prevMap, s.currMap, false)
  }

  /** Reading the same map twice: the second update reports no change and keeps the state. */
  lemma UpdateMapTwice(s: MapState, mapName: string)
    ensures !NextMapState(NextMapState(s, mapName), mapName).mapChanged
    ensures NextMapState(NextMapState(s, mapName), mapName).currMap == NextMapState(s, mapName).currMap
    ensures NextMapState(NextMapState(s, mapName), mapName).prevMap == NextMapState(s, mapName).prevMap
  {
  }

  /** CurrMap never holds the empty string: a failed or empty read is ignored. */
  lemma CurrMapNeverEmpty(s: MapState, mapName: string)
    requires s.currMap != Some("")
    ensures NextMapState(s, mapName).currMap != Some("")
  {
  }

  class GameInfo {
    const gameProcess: GameProcess
    var prevMap: Option<string>
    var currMap: Option<string>
    var mapChanged: bool

    constructor (gameProcess: GameProcess)
      ensures this.gameProcess == gameProcess
      ensures prevMap == None && currMap == None && !mapChanged
    {
      this.gameProcess := gameProcess;
      prevMap, currMap, mapChanged := None, None, false;
    }

    function State(): MapState
      reads this
    {
      MapState(prevMap, currMap, mapChanged)
    }

    /** The Int32 at a pointer is readable and nonzero; a failed read counts as zero. */
    static function NonzeroInt(proc: ProcessView, p: DeepPointer): (r: bool)
      requires p.Valid()
      ensures r <==> Resolve(proc, p).Some? &&
                     match ReadValue(proc.memory, Resolve(proc, p).value + p.LastOffset(), IntKind)
                     case Some(v) => v != IntValue(0)
                     case None => false
    {
      var (ok, v) := Deref(proc, p, IntKind);
      ok && v.i != 0
    }

    /** IsPaused: the game-state word is readable and nonzero. */
    function IsPaused(): (r: bool)
      reads this, gameProcess
      ensures r <==> NonzeroInt(gameProcess.view, GameStateAddress)
      ensures r ==> Resolve(gameProcess.view, GameStateAddress).Some?
    {
      NonzeroInt(gameProcess.view, GameStateAddress)
    }

    /** InIntermission: the intermission word is readable and nonzero. */
    function InIntermission(): (r: bool)
      reads this, gameProcess
      ensures r <==> NonzeroInt(gameProcess.view, IntermissionTimeAddress)
      ensures r ==> Resolve(gameProcess.view, IntermissionTimeAddress).Some?
    {
      NonzeroInt(gameProcess.view, IntermissionTimeAddress)
    }

    /** IngameTime: the float bit pattern read through the QdQ pointer, 0.0 on failure. */
    function IngameTime(): (bits: nat)
      reads this, gameProcess
      ensures Deref(gameProcess.view, QdqTotalTimeAddress, FloatKind).0 ==>
                Deref(gameProcess.view, QdqTotalTimeAddress, FloatKind).1 == FloatValue(bits)
      ensures !Deref(gameProcess.view, QdqTotalTimeAddress, FloatKind).0 ==> bits == 0
    {
      var (ok, v) := Deref(gameProcess.view, QdqTotalTimeAddress, FloatKind);
      if ok then v.bits else 0
    }

    /** The map name as UpdateMap reads it: at most five bytes, "" on failure. */
    function ReadMap(): (mapName: string)
      reads this, gameProcess
      ensures mapName == DerefString(gameProcess.view, MapAddress, MaxMapLength).1
      ensures |mapName| <= MaxMapLength
    {
      DerefString(gameProcess.view, MapAddress, MaxMapLength).1
    }

    method UpdateMap()
      modifies this
      ensures State() == NextMapState(old(State()), old(ReadMap()))
      ensures mapChanged <==> old(ReadMap()) != "" && Some(old(ReadMap())) != old(currMap)
    {
      var ok, mapName := DerefStringFrom(gameProcess.view, MapAddress, MaxMapLength);
      if |mapName| > 0 && Some(mapName) != currMap {
        prevMap := currMap;
        currMap := Some(mapName);
        mapChanged := true;
      } else {
        mapChanged := false;
      }
    }

    method Update()
      modifies this
      ensures State() == NextMapState(old(State()), old(ReadMap()))
    {
      UpdateMap();
    }
  }

  // ---------------------------------------------------------------------------
  // Events and their registry
  // ---------------------------------------------------------------------------

  /** The two event kinds of this revision. */
  datatype GameEvent = LoadedMap(mapName: string) | Empty {
    function Id(): (id: string)
      ensures id == "empty" <==> this.Empty?
      ensures this.LoadedMap? ==> |id| >= 11 && id[..11] == "loaded_map_" && id[11..] == this.mapName
    {
      match this
      case LoadedMap(m) => EventKey(m)
      case Empty => "empty"
    }
  }

  function EventKey(mapName: string): string {
    "loaded_map_" + mapName
  }

  /**
   * HasOccured, over the two properties it reads: a map event occurs while
   * its map is current and no intermission is showing; Empty never occurs.
   */
  predicate HasOccured(e: GameEvent, inIntermission: bool, currMap: Option<string>)
    ensures HasOccured(e, inIntermission, currMap) ==> e.LoadedMap? && !inIntermission
    ensures HasOccured(e, inIntermission, currMap) ==> currMap == Some(e.mapName)
  {
    match e
    case LoadedMap(m) => !inIntermission && currMap == Some(m)
    case Empty => false
  }

  /** Distinct maps never occur together, and the sentinel never occurs. */
  lemma OccurrenceIsExclusive(a: string, b: string, inIntermission: bool, currMap: Option<string>)
    requires HasOccured(LoadedMap(a), inIntermission, currMap)
    requires HasOccured(LoadedMap(b), inIntermission, currMap)
    ensures a == b
    ensures !HasOccured(Empty, inIntermission, currMap)
    ensures !inIntermission && currMap == Some(a)
  {
  }

  /** The maps GetEvents registers, in order: the start map, the four episodes, the end map. */
  const Episode1: seq<string> := ["e1m1", "e1m2", "e1m3", "e1m4", "e1m5", "e1m6", "e1m7", "e1m8"]
  const Episode2: seq<string> := ["e2m1", "e2m2", "e2m3", "e2m4", "e2m5", "e2m6", "e2m7"]
  const Episode3: seq<string> := ["e3m1", "e3m2", "e3m3", "e3m4", "e3m5", "e3m6", "e3m7"]
  const Episode4: seq<string> := ["e4m1", "e4m2", "e4m3", "e4m4", "e4m5", "e4m6", "e4m7", "e4m8"]
  const MapNames: seq<string> := ["start"] + Episode1 + Episode2 + Episode3 + Episode4 + ["end"]

  /** The dictionary after adding one "loaded_map_" entry per name, in order. */
  function RegistryOf(names: seq<string>): map<string, GameEvent> {
    if names == [] then map[]
    else
      var last := names[|names| - 1];
      RegistryOf(names[..|names| - 1])[EventKey(last) := LoadedMap(last)]
  }

  /** The dictionary GameEvent.GetEvents builds. */
  function Registry(): map<string, GameEvent> {
    RegistryOf(MapNames)
  }

  predicate Distinct(names: seq<string>) {
    forall i, j :: 0 <= i < j < |names| ==> names[i] != names[j]
  }

  lemma EventKeyInjective(a: string, b: string)
    ensures EventKey(a) == EventKey(b) <==> a == b
  {
    assert a == EventKey(a)[11..];
    assert b == EventKey(b)[11..];
  }

  /** Every name has its entry, keyed by its event key. */
  lemma {:induction false} RegistryHasNames(names: seq<string>)
    ensures forall m :: m in names ==> EventKey(m) in RegistryOf(names) && RegistryOf(names)[EventKey(m)] == LoadedMap(m)
  {
    if names != [] {
      var init, last := names[..|names| - 1], names[|names| - 1];
      assert names == init + [last];
      RegistryHasNames(init);
      forall m | m in names
        ensures EventKey(m) in RegistryOf(names) && RegistryOf(names)[EventKey(m)] == LoadedMap(m)
      {
        if m != last {
          assert m in init;
          EventKeyInjective(m, last);
        }
      }
    }
  }

  /** Every entry belongs to a name. */
  lemma {:induction false} RegistryOnlyNames(names: seq<string>)
    ensures forall k :: k in RegistryOf(names) ==> exists m :: m in names && k == EventKey(m) && RegistryOf(names)[k] == LoadedMap(m)
  {
    if names != [] {
      var init, last := names[..|names| - 1], names[|names| - 1];
      RegistryOnlyNames(init);
      forall k | k in RegistryOf(names)
        ensures exists m :: m in names && k == EventKey(m) && RegistryOf(names)[k] == LoadedMap(m)
      {
        if k == EventKey(last) {
          assert last in names;
        } else {
          assert k in RegistryOf(init);
          var m :| m in init && k == EventKey(m) && RegistryOf(init)[k] == LoadedMap(m);
          assert m in names;
        }
      }
    }
  }

  /** A name not yet added has no entry: each Add meets a fresh key. */
  lemma KeyFresh(names: seq<string>, x: string)
    requires x !in names
    ensures EventKey(x) !in RegistryOf(names)
  {
    RegistryOnlyNames(names);
    forall k | k in RegistryOf(names) ensures k != EventKey(x) {
      var m :| m in names && k == EventKey(m) && RegistryOf(names)[k] == LoadedMap(m);
      EventKeyInjective(m, x);
    }
  }

  /** With distinct names, no Add overwrites: one entry per name. */
  lemma {:induction false} RegistrySize(names: seq<string>)
    requires Distinct(names)
    ensures |RegistryOf(names)| == |names|
  {
    if names != [] {
      var init, last := names[..|names| - 1], names[|names| - 1];
      assert Distinct(init);
      assert last !in init by {
        forall i | 0 <= i < |init| ensures init[i] != last {
          assert names[i] == init[i];
        }
      }
      KeyFresh(init, last);
      RegistrySize(init);
    }
  }

  /**
   * The dictionary's keys are the names' keys, each entry is the map event of
   * its name with Id equal to its key, and with distinct names there is one
   * entry per name.
   */
  lemma RegistryOfShape(names: seq<string>)
    ensures forall m :: m in names ==> EventKey(m) in RegistryOf(names) && RegistryOf(names)[EventKey(m)] == LoadedMap(m)
    ensures forall k :: k in RegistryOf(names) ==>
              RegistryOf(names)[k].LoadedMap? && RegistryOf(names)[k].mapName in names && RegistryOf(names)[k].Id() == k
    ensures Distinct(names) ==> |RegistryOf(names)| == |names|
  {
    RegistryHasNames(names);
    RegistryOnlyNames(names);
    if Distinct(names) {
      RegistrySize(names);
    }
  }

  /** Two lists without duplicates and without a common name concatenate without duplicates. */
  lemma DistinctConcat(a: seq<string>, b: seq<string>)
    requires Distinct(a) && Distinct(b)
    requires forall i, j :: 0 <= i < |a| && 0 <= j < |b| ==> a[i] != b[j]
    ensures Distinct(a + b)
  {
    forall i, j | 0 <= i < j < |a + b| ensures (a + b)[i] != (a + b)[j] {
      if j < |a| {
        assert (a + b)[i] == a[i] && (a + b)[j] == a[j];
      } else if i < |a| {
        assert (a + b)[i] == a[i] && (a + b)[j] == b[j - |a|];
      } else {
        assert (a + b)[i] == b[i - |a|] && (a + b)[j] == b[j - |a|];
      }
    }
  }

  /** The maps of one episode: "e<n>m1", "e<n>m2", ... */
  predicate EpisodeMaps(names: seq<string>, episode: char) {
    forall i :: 0 <= i < |names| ==> |names[i]| == 4 && names[i][1] == episode && names[i][3] as int == '1' as int + i
  }

  /** No name of the list belongs to the given episode. */
  predicate OutsideEpisode(names: seq<string>, episode: char) {
    forall i :: 0 <= i < |names| ==> |names[i]| != 4 || names[i][1] != episode
  }

  /** Every name of the list has at least four characters. */
  predicate AtLeastFour(names: seq<string>) {
    forall i :: 0 <= i < |names| ==> |names[i]| >= 4
  }

  lemma OutsideConcat(a: seq<string>, b: seq<string>, episode: char)
    requires OutsideEpisode(a, episode) && OutsideEpisode(b, episode)
    ensures OutsideEpisode(a + b, episode)
  {
    forall i | 0 <= i < |a + b| ensures |(a + b)[i]| != 4 || (a + b)[i][1] != episode {
      if i < |a| { assert (a + b)[i] == a[i]; } else { assert (a + b)[i] == b[i - |a|]; }
    }
  }

  lemma AtLeastFourConcat(a: seq<string>, b: seq<string>)
    requires AtLeastFour(a) && AtLeastFour(b)
    ensures AtLeastFour(a + b)
  {
    forall i | 0 <= i < |a + b| ensures |(a + b)[i]| >= 4 {
      if i < |a| { assert (a + b)[i] == a[i]; } else { assert (a + b)[i] == b[i - |a|]; }
    }
  }

  /** An episode's maps are distinct, at least four long, and outside every other episode. */
  lemma EpisodeFacts(names: seq<string>, episode: char)
    requires EpisodeMaps(names, episode)
    ensures Distinct(names) && AtLeastFour(names)
    ensures forall other :: other != episode ==> OutsideEpisode(names, other)
  {
    forall i, j | 0 <= i < j < |names| ensures names[i] != names[j] {
      assert names[i][3] != names[j][3];
    }
  }

  /** Appending an episode to a list that has none of its maps keeps the names distinct. */
  lemma AppendEpisode(a: seq<string>, b: seq<string>, episode: char)
    requires Distinct(a) && OutsideEpisode(a, episode) && EpisodeMaps(b, episode)
    ensures Distinct(a + b)
  {
    EpisodeFacts(b, episode);
    forall i, j | 0 <= i < |a| && 0 <= j < |b| ensures a[i] != b[j] {
      assert |b[j]| == 4 && b[j][1] == episode;
    }
    DistinctConcat(a, b);
  }

  /**
   * One Add of the building loop: the i-th name's key is not yet present,
   * and adding it extends the dictionary of the first i names.
   */
  lemma RegistryStep(names: seq<string>, i: nat)
    requires Distinct(names) && i < |names|
    ensures EventKey(names[i]) !in RegistryOf(names[..i])
    ensures RegistryOf(names[..i + 1]) == RegistryOf(names[..i])[EventKey(names[i]) := LoadedMap(names[i])]
  {
    assert names[..i + 1][..i] == names[..i];
    forall j | 0 <= j < i ensures names[..i][j] != names[i] {
      assert names[..i][j] == names[j];
    }
    KeyFresh(names[..i], names[i]);
  }

  lemma MapNamesDistinct()
    ensures Distinct(MapNames)
  {
    var e1, e2, e3, e4 := Episode1, Episode2, Episode3, Episode4;
    assert EpisodeMaps(e1, '1') && EpisodeMaps(e2, '2') && EpisodeMaps(e3, '3') && EpisodeMaps(e4, '4');
    EpisodeFacts(e1, '1');
    EpisodeFacts(e2, '2');
    EpisodeFacts(e3, '3');
    EpisodeFacts(e4, '4');
    var p0 := ["start"];
    assert Distinct(p0) && AtLeastFour(p0);
    assert forall c :: OutsideEpisode(p0, c);
    AppendEpisode(p0, e1, '1');
    var p1 := p0 + e1;
    OutsideConcat(p0, e1, '2');
    AppendEpisode(p1, e2, '2');
    var p2 := p1 + e2;
    OutsideConcat(p0, e1, '3');
    OutsideConcat(p1, e2, '3');
    AppendEpisode(p2, e3, '3');
    var p3 := p2 + e3;
    OutsideConcat(p0, e1, '4');
    OutsideConcat(p1, e2, '4');
    OutsideConcat(p2, e3, '4');
    AppendEpisode(p3, e4, '4');
    var p4 := p3 + e4;
    AtLeastFourConcat(p0, e1);
    AtLeastFourConcat(p1, e2);
    AtLeastFourConcat(p2, e3);
    AtLeastFourConcat(p3, e4);
    forall i | 0 <= i < |p4| ensures p4[i] != "end" {
      assert |p4[i]| >= 4;
    }
    DistinctConcat(p4, ["end"]);
  }

  /** The registry has 32 entries, keyed "loaded_map_" + map, each with Id equal to its key. */
  lemma RegistryShape()
    ensures |Registry()| == 32
    ensures forall m :: m in MapNames ==> EventKey(m) in Registry() && Registry()[EventKey(m)] == LoadedMap(m)
    ensures forall k :: k in Registry() ==> Registry()[k].Id() == k && Registry()[k].LoadedMap? && Registry()[k].mapName in MapNames
  {
    MapNamesDistinct();
    RegistryOfShape(MapNames);
  }

  /** The lazily built static dictionary; None until the first GetEvents call. */
  class EventCache {
    var events: Option<map<string, GameEvent>>

    ghost predicate Valid()
      reads this
    {
      events.Some? ==> events.value == Registry()
    }

    constructor ()
      ensures Valid() && events == None
    {
      events := None;
    }

    /**
     * GetEvents: builds the dictionary on the first call (an Add per map,
     * none of which meets an existing key) and returns the same one afterwards.
     */
    method GetEvents() returns (r: map<string, GameEvent>)
      requires Valid()
      modifies this
      ensures Valid() && events == Some(r)
      ensures r == Registry()
      ensures old(events).Some? ==> r == old(events).value
    {
      if events.None? {
        MapNamesDistinct();
        var built: map<string, GameEvent> := map[];
        var i := 0;
        while i < |MapNames|
          invariant 0 <= i <= |MapNames|
          invariant built == RegistryOf(MapNames[..i])
        {
          var m := MapNames[i];
          RegistryStep(MapNames, i);
          assert EventKey(m) !in built;
          built := built[EventKey(m) := LoadedMap(m)];
          i := i + 1;
        }
        assert MapNames[..i] == MapNames;
        events := Some(built);
      }
      r := events.value;
    }
  }
}
