/**
 * QuakeGame.cs (the newer revision): legacy event ids, the two event
 * predicates, and the per-tick map, game-state and timing reconciliation
 * of the JoeQuake GameInfo.
 *
 * The memory reads this revision makes go through helpers of a base library
 * that is not part of this model, so each tick's reads are an input
 * (`TickReads`). Times are single-precision floats in the game; they are
 * `real` here.
 */
module QuakeGame {
  import opened Wrappers
  import opened Text

  /**
   * QuakeState. The raw Int32 is cast to the enum unchecked, so the state
   * can hold any integer; only these three have names.
   */
  const Playing: int := 0
  const Intermission: int := 1
  const IntermissionText: int := 2

  /** Seconds of map time a fresh map may show before its timer is trusted. */
  const StabilisationThreshold: real := 3.0

  // ---------------------------------------------------------------------------
  // Events
  // ---------------------------------------------------------------------------

  datatype QuakeEvent = LoadedMap(mapName: string) | ShubNiggurathDead | Empty

  const LegacyPrefix: string := "loaded_map_"

  /**
   * StartsWith, compared character by character. The source calls the
   * culture-sensitive String.StartsWith(string); see the README.
   */
  predicate StartsWith(s: string, prefix: string) {
    |prefix| <= |s| && s[..|prefix|] == prefix
  }

  /**
   * ReadLegacyEvent: an id with the old map prefix becomes a map event named
   * by the id with every occurrence of the prefix removed; every other id,
   * "empty" included, becomes the empty event.
   */
  function ReadLegacyEvent(id: string): (e: QuakeEvent)
    ensures e.LoadedMap? <==> StartsWith(id, LegacyPrefix)
    ensures e.LoadedMap? ==> e.mapName == RemoveAll(id, LegacyPrefix)
    ensures !e.LoadedMap? ==> e == Empty
  {
    if StartsWith(id, LegacyPrefix) then LoadedMap(RemoveAll(id, LegacyPrefix))
    else if id == "empty" then Empty
    else Empty
  }

  /** An old id "loaded_map_" + m reads back as the map event of m when m holds no second prefix. */
  lemma ReadLegacyMapId(m: string)
    requires !Contains(m, LegacyPrefix)
    ensures ReadLegacyEvent(LegacyPrefix + m) == LoadedMap(m)
  {
    var id := LegacyPrefix + m;
    assert id[..|LegacyPrefix|] == LegacyPrefix;
    assert id[|LegacyPrefix|..] == m;
    RemoveAllAbsent(m, LegacyPrefix);
  }

  /** A name shorter than the prefix cannot contain it. */
  lemma ShortNameHasNoPrefix(m: string)
    requires |m| < |LegacyPrefix|
    ensures !Contains(m, LegacyPrefix)
  {
  }

  /**
   * Every old id built from a name shorter than the prefix reads back as the
   * map event of that name; the old registry's names have at most 5 characters.
   */
  lemma ReadLegacyShortIds(m: string)
    requires |m| < |LegacyPrefix|
    ensures ReadLegacyEvent(LegacyPrefix + m) == LoadedMap(m)
    ensures ReadLegacyEvent(LegacyPrefix + m).mapName == m
  {
    ShortNameHasNoPrefix(m);
    ReadLegacyMapId(m);
  }

  /** Replace removes every occurrence, so two different ids can name the same map. */
  lemma ReadLegacyDoublePrefix()
    ensures ReadLegacyEvent("loaded_map_loaded_map_e1m1") == LoadedMap("e1m1")
    ensures ReadLegacyEvent("loaded_map_e1m1") == LoadedMap("e1m1")
    ensures ReadLegacyEvent("empty") == Empty && ReadLegacyEvent("loaded_map") == Empty
  {
    var id := "loaded_map_loaded_map_e1m1";
    assert id[..11] == LegacyPrefix;
    assert id[11..][..11] == LegacyPrefix;
    assert id[11..][11..] == "e1m1";
    assert RemoveAll("e1m1", LegacyPrefix) == "e1m1";
    assert RemoveAll(id[11..], LegacyPrefix) == "e1m1";
    ReadLegacyShortIds("e1m1");
  }

  // ---------------------------------------------------------------------------
  // The tracked state
  // ---------------------------------------------------------------------------

  /**
   * The GameInfo properties of this revision; a None map is the C# null the
   * map holds before the first update.
   */
  datatype Info = Info(
    currMap: Option<string>,
    mapChanged: bool,
    gameState: int,
    intermissionTime: real,
    mapTime: real,
    mapTimeUpdateDone: bool,
    gameTime: real)

  /** A freshly created GameInfo: every field at its .NET default. */
  const Initial: Info := Info(None, false, Playing, 0.0, 0.0, false, 0.0)

  /**
   * LoadedMapEvent.HasOccured (this revision) and
   * ShubNiggurathDeadEvent.HasOccured; the empty event never occurs.
   */
  predicate HasOccured(e: QuakeEvent, s: Info)
    ensures HasOccured(e, s) ==> e != Empty && s.currMap.Some?
    ensures HasOccured(e, s) && e.LoadedMap? ==> s.mapChanged
    ensures HasOccured(e, s) && e == ShubNiggurathDead ==> s.gameState != Playing
  {
    match e
    case LoadedMap(m) => s.mapChanged && s.currMap == Some(m)
    case ShubNiggurathDead => s.currMap == Some("end") && s.gameState == IntermissionText
    case Empty => false
  }

  /** At most one map event occurs in a state, and only for the current map. */
  lemma LoadedMapExclusive(a: string, b: string, s: Info)
    requires HasOccured(LoadedMap(a), s) && HasOccured(LoadedMap(b), s)
    ensures a == b && s.currMap == Some(a) && s.mapChanged
  {
  }


  // ---------------------------------------------------------------------------
  // One tick
  // ---------------------------------------------------------------------------

  /**
   * The reads of one tick: the map buffer as a string ("" when the read
   * failed), the raw game state, the authoritative QdQ map time through its
   * deep pointer, and the map timer.
   */
  datatype TickReads = TickReads(mapName: string, gameState: Option<int>, qdqMapTime: Option<real>, mapTime: Option<real>)

  /** UpdateMap: any read that differs from the current map, "" included, replaces it. */
  function NextMap(s: Info, mapName: string): (r: Info)
    ensures r.mapChanged <==> s.currMap != Some(mapName)
    ensures r.currMap == Some(mapName)
    ensures r.gameState == s.gameState && r.intermissionTime == s.intermissionTime && r.mapTime == s.mapTime
    ensures r.mapTimeUpdateDone == s.mapTimeUpdateDone && r.gameTime == s.gameTime
  {
    if Some(mapName) != s.currMap then s.(currMap := Some(mapName), mapChanged := true)
    else s.(mapChanged := false)
  }

  /** A failed state read keeps the previous state. */
  function NextGameState(s: Info, read: Option<int>): int {
    match read
    case Some(g) => g
    case None => s.gameState
  }

  /**
   * Folding the map time into the intermission total when an intermission
   * begins: the QdQ time when positive, else the stored map time; nothing
   * when the QdQ read fails.
   */
  function FoldMapTime(s: Info, qdq: Option<real>): (r: Info)
    ensures qdq.None? ==> r == s
    ensures qdq.Some? ==> r.mapTime == 0.0 && r == s.(intermissionTime := r.intermissionTime, mapTime := 0.0)
    ensures qdq.Some? && qdq.value > 0.0 ==> r.intermissionTime == s.intermissionTime + qdq.value
    ensures qdq.Some? && qdq.value <= 0.0 ==> r.intermissionTime + r.mapTime == s.intermissionTime + s.mapTime
  {
    match qdq
    case None => s
    case Some(q) =>
      if q > 0.0 then s.(intermissionTime := s.intermissionTime + q, mapTime := 0.0)
      else s.(intermissionTime := s.intermissionTime + s.mapTime, mapTime := 0.0)
  }

  /**
   * A successful map-timer read while playing: a drop is added to the
   * intermission total, and the read is taken unless the stored time is 0
   * and the read is not below the threshold.
   */
  function AcceptMapTime(s: Info, mt: real): Info {
    var it := if s.mapTime > mt then s.intermissionTime + (s.mapTime - mt) else s.intermissionTime;
    var m := if s.mapTime != 0.0 || mt < StabilisationThreshold then mt else s.mapTime;
    s.(intermissionTime := it, mapTime := m)
  }

  /** UpdateInfo as a function of the state before the tick and the tick's reads. */
  function Tick(s: Info, r: TickReads): (t: Info)
    ensures t.currMap == Some(r.mapName)
    ensures t.gameState == Playing ==> !t.mapTimeUpdateDone && t.gameTime == t.mapTime + t.intermissionTime
    ensures t.gameState != Playing ==> t.mapTimeUpdateDone && t.gameTime == t.intermissionTime
  {
    var s1 := NextMap(s, r.mapName);
    var s2 := s1.(gameState := NextGameState(s1, r.gameState));
    if s2.gameState != Playing then
      var s3 := if !s2.mapTimeUpdateDone then FoldMapTime(s2, r.qdqMapTime).(mapTimeUpdateDone := true) else s2;
      s3.(gameTime := s3.intermissionTime)
    else
      var s3 := s2.(mapTimeUpdateDone := false);
      var s4 := match r.mapTime case None => s3 case Some(mt) => AcceptMapTime(s3, mt);
      var s5 := if s4.currMap == Some("start") then s4.(mapTime := 0.0) else s4;
      s5.(gameTime := s5.mapTime + s5.intermissionTime)
  }

  /** ResetInfo: the map, the state and the intermission total go back to their start values. */
  function Reset(s: Info): (r: Info)
    ensures r.gameState == Playing && r.intermissionTime == 0.0
    ensures forall m :: m != "" ==> NextMap(r, m).mapChanged
    ensures r == s.(currMap := r.currMap, gameState := Playing, intermissionTime := 0.0)
  {
    s.(currMap := Some(""), gameState := Playing, intermissionTime := 0.0)
  }

  // ---------------------------------------------------------------------------
  // Properties of a tick
  // ---------------------------------------------------------------------------

  /** The map changes exactly when the read differs, and the read becomes the current map. */
  lemma TickMap(s: Info, r: TickReads)
    ensures Tick(s, r).mapChanged <==> s.currMap != Some(r.mapName)
    ensures Tick(s, r).currMap == Some(r.mapName)
  {
  }

  /** A failed state read keeps the state; a successful one is taken as it is. */
  lemma TickGameState(s: Info, r: TickReads)
    ensures r.gameState.None? ==> Tick(s, r).gameState == s.gameState
    ensures r.gameState.Some? ==> Tick(s, r).gameState == r.gameState.value
  {
  }

  /**
   * Shub-Niggurath's death is seen on a tick exactly when that tick reads map
   * "end" and the game state after it is the finale text; the plain
   * intermission screen does not count.
   */
  lemma ShubNiggurathDeadOnTick(s: Info, r: TickReads)
    ensures HasOccured(ShubNiggurathDead, Tick(s, r)) <==>
              r.mapName == "end" && (if r.gameState.Some? then r.gameState.value else s.gameState) == IntermissionText
    ensures Tick(s, r).gameState == Intermission ==> !HasOccured(ShubNiggurathDead, Tick(s, r))
  {
    TickMap(s, r);
    TickGameState(s, r);
  }

  /**
   * Unlike a map load, the boss event is not tied to a change: it keeps
   * occurring on every later tick that stays on "end" with the finale text
   * (or whose state read fails), while the map's own load event is over.
   */
  lemma ShubNiggurathDeadPersists(s: Info, r1: TickReads, r2: TickReads)
    requires HasOccured(ShubNiggurathDead, Tick(s, r1))
    requires r2.mapName == "end" && (r2.gameState.None? || r2.gameState == Some(IntermissionText))
    ensures HasOccured(ShubNiggurathDead, Tick(Tick(s, r1), r2))
    ensures !HasOccured(LoadedMap("end"), Tick(Tick(s, r1), r2))
  {
    ShubNiggurathDeadOnTick(Tick(s, r1), r2);
    TickMap(Tick(s, r1), r2);
  }

  /**
   * After every tick the fold flag is set exactly when the game is not
   * playing, and outside play the game time is the intermission total.
   */
  lemma TickFlagAndGameTime(s: Info, r: TickReads)
    ensures Tick(s, r).mapTimeUpdateDone <==> Tick(s, r).gameState != Playing
    ensures Tick(s, r).gameState != Playing ==> Tick(s, r).gameTime == Tick(s, r).intermissionTime
    ensures Tick(s, r).gameState == Playing ==> Tick(s, r).gameTime == Tick(s, r).mapTime + Tick(s, r).intermissionTime
  {
  }

  /** The first non-playing tick folds the map time in, as the QdQ read allows. */
  lemma FoldOnEntry(s: Info, r: TickReads)
    requires !s.mapTimeUpdateDone && Tick(s, r).gameState != Playing
    ensures r.qdqMapTime.Some? && r.qdqMapTime.value > 0.0 ==>
              Tick(s, r).intermissionTime == s.intermissionTime + r.qdqMapTime.value && Tick(s, r).mapTime == 0.0
    ensures r.qdqMapTime.Some? && r.qdqMapTime.value <= 0.0 ==>
              Tick(s, r).intermissionTime == s.intermissionTime + s.mapTime && Tick(s, r).mapTime == 0.0
    ensures r.qdqMapTime.None? ==>
              Tick(s, r).intermissionTime == s.intermissionTime && Tick(s, r).mapTime == s.mapTime
  {
  }

  /** Later non-playing ticks of the same stretch fold nothing. */
  lemma FoldAtMostOnce(s: Info, r: TickReads)
    requires s.mapTimeUpdateDone && Tick(s, r).gameState != Playing
    ensures Tick(s, r).intermissionTime == s.intermissionTime && Tick(s, r).mapTime == s.mapTime
    ensures Tick(s, r).gameTime == s.intermissionTime
  {
  }

  /** Two non-playing ticks in a row: the second leaves both times as the first left them. */
  lemma NoSecondFold(s: Info, r1: TickReads, r2: TickReads)
    requires Tick(s, r1).gameState != Playing && Tick(Tick(s, r1), r2).gameState != Playing
    ensures Tick(Tick(s, r1), r2).intermissionTime == Tick(s, r1).intermissionTime
    ensures Tick(Tick(s, r1), r2).mapTime == Tick(s, r1).mapTime
  {
    TickFlagAndGameTime(s, r1);
    FoldAtMostOnce(Tick(s, r1), r2);
  }

  /**
   * While playing on a map other than "start", the sum of map time and
   * intermission total never decreases across a tick.
   */
  lemma PlayingSumNeverDecreases(s: Info, r: TickReads)
    requires Tick(s, r).gameState == Playing && r.mapName != "start"
    ensures Tick(s, r).mapTime + Tick(s, r).intermissionTime >= s.mapTime + s.intermissionTime
    ensures Tick(s, r).intermissionTime >= s.intermissionTime
  {
  }

  /** A drop in the map timer is absorbed: the sum is kept exactly and the new reading is taken. */
  lemma DropIsAbsorbed(s: Info, r: TickReads)
    requires Tick(s, r).gameState == Playing && r.mapName != "start"
    requires r.mapTime.Some? && r.mapTime.value < s.mapTime
    ensures Tick(s, r).intermissionTime == s.intermissionTime + (s.mapTime - r.mapTime.value)
    ensures Tick(s, r).mapTime == r.mapTime.value
    ensures Tick(s, r).gameTime == s.mapTime + s.intermissionTime
  {
  }

  /** With the stored map time at 0, a reading is taken exactly when it is below 3 seconds. */
  lemma Stabilisation(s: Info, r: TickReads)
    requires Tick(s, r).gameState == Playing && r.mapName != "start"
    requires s.mapTime == 0.0 && r.mapTime.Some?
    ensures Tick(s, r).mapTime == (if r.mapTime.value < 3.0 then r.mapTime.value else 0.0)
  {
  }

  /** The threshold itself is rejected and a reading just below it is taken. */
  lemma StabilisationBoundary(s: Info)
    requires s.mapTime == 0.0
    ensures Tick(s, TickReads("e1m1", Some(Playing), None, Some(3.0))).mapTime == 0.0
    ensures Tick(s, TickReads("e1m1", Some(Playing), None, Some(2.999))).mapTime == 2.999
  {
  }

  /** On map "start" the map time is forced to 0, so the game time is the intermission total. */
  lemma StartMapCountsNothing(s: Info, r: TickReads)
    requires Tick(s, r).gameState == Playing && r.mapName == "start"
    ensures Tick(s, r).mapTime == 0.0
    ensures Tick(s, r).gameTime == Tick(s, r).intermissionTime
  {
  }

  /** A quickload from 12 s back to 0.4 s keeps the game time running from 17 s. */
  lemma QuickloadExample()
    ensures var s := Info(Some("e1m1"), false, Playing, 5.0, 12.0, false, 17.0);
            var t := Tick(s, TickReads("e1m1", Some(Playing), None, Some(0.4)));
            t.intermissionTime == 16.6 && t.mapTime == 0.4 && t.gameTime == 17.0 && !t.mapChanged
  {
  }

  /** The states a run of ticks passes through, the starting state excluded. */
  function Run(s: Info, rs: seq<TickReads>): (trace: seq<Info>)
    ensures |trace| == |rs|
    decreases |rs|
  {
    if rs == [] then [] else [Tick(s, rs[0])] + Run(Tick(s, rs[0]), rs[1..])
  }

  /** Every tick of a run is a playing tick on a map other than "start". */
  predicate PlayingOffStart(rs: seq<TickReads>, trace: seq<Info>)
    requires |rs| == |trace|
  {
    forall i :: 0 <= i < |rs| ==> trace[i].gameState == Playing && rs[i].mapName != "start"
  }

  /**
   * Game time never decreases over a run of playing ticks away from "start",
   * starting from a state whose game time is its map time plus its
   * intermission total (as every playing tick leaves it).
   */
  lemma {:induction false} PlayingRunMonotone(s: Info, rs: seq<TickReads>)
    requires s.gameTime == s.mapTime + s.intermissionTime
    requires PlayingOffStart(rs, Run(s, rs))
    ensures forall i :: 0 <= i < |rs| ==> Run(s, rs)[i].gameTime >= s.gameTime
    ensures forall i, j :: 0 <= i < j < |rs| ==> Run(s, rs)[i].gameTime <= Run(s, rs)[j].gameTime
    decreases |rs|
  {
    if rs != [] {
      var t := Tick(s, rs[0]);
      var trace := Run(s, rs);
      assert trace == [t] + Run(t, rs[1..]);
      assert trace[0] == t;
      PlayingSumNeverDecreases(s, rs[0]);
      TickFlagAndGameTime(s, rs[0]);
      assert PlayingOffStart(rs[1..], Run(t, rs[1..])) by {
        forall i | 0 <= i < |rs| - 1
          ensures Run(t, rs[1..])[i].gameState == Playing && rs[1..][i].mapName != "start"
        {
          assert Run(t, rs[1..])[i] == trace[i + 1];
        }
      }
      PlayingRunMonotone(t, rs[1..]);
      forall i, j | 0 <= i < j < |rs| ensures trace[i].gameTime <= trace[j].gameTime {
        assert trace[j] == Run(t, rs[1..])[j - 1];
        if i > 0 {
          assert trace[i] == Run(t, rs[1..])[i - 1];
        }
      }
    }
  }

  /** A map event fires on the tick that loads the map, and not again while the map stays. */
  lemma LoadedMapOncePerLoad(s: Info, r1: TickReads, r2: TickReads)
    requires s.currMap != Some(r1.mapName)
    requires r2.mapName == r1.mapName
    ensures HasOccured(LoadedMap(r1.mapName), Tick(s, r1))
    ensures !HasOccured(LoadedMap(r1.mapName), Tick(Tick(s, r1), r2))
  {
  }

  /** ResetInfo changes the map, the state and the intermission total, and nothing else. */
  lemma ResetChangesOnlyItsFields(s: Info)
    ensures Reset(s).currMap == Some("") && Reset(s).gameState == Playing && Reset(s).intermissionTime == 0.0
    ensures Reset(s).mapTime == s.mapTime && Reset(s).mapTimeUpdateDone == s.mapTimeUpdateDone
    ensures Reset(s).mapChanged == s.mapChanged && Reset(s).gameTime == s.gameTime
  {
  }

  /** After a reset, the next tick that reads a map name reports it as loaded again. */
  lemma ResetReloadsMap(s: Info, r: TickReads)
    requires r.mapName != ""
    ensures HasOccured(LoadedMap(r.mapName), Tick(Reset(s), r))
  {
  }

  // ---------------------------------------------------------------------------
  // The object
  // ---------------------------------------------------------------------------

  class GameInfo {
    var currMap: Option<string>
    var mapChanged: bool
    var currGameState: int
    var intermissionTime: real
    var mapTime: real
    var mapTimeUpdateDone: bool
    var gameTime: real

    constructor ()
      ensures State() == Initial
    {
      currMap, mapChanged, currGameState := None, false, Playing;
      intermissionTime, mapTime, mapTimeUpdateDone, gameTime := 0.0, 0.0, false, 0.0;
    }

    function State(): Info
      reads this
    {
      Info(currMap, mapChanged, currGameState, intermissionTime, mapTime, mapTimeUpdateDone, gameTime)
    }

    method UpdateMap(mapName: string)
      modifies this
      ensures State() == NextMap(old(State()), mapName)
    {
      if Some(mapName) != currMap {
        currMap := Some(mapName);
        mapChanged := true;
      } else {
        mapChanged := false;
      }
    }

    /** UpdateInfo, step by step as the game is polled. */
    method UpdateInfo(r: TickReads)
      modifies this
      ensures State() == Tick(old(State()), r)
    {
      UpdateMap(r.mapName);

      if r.gameState.Some? {
        currGameState := r.gameState.value;
      }

      if currGameState != Playing {
        if !mapTimeUpdateDone {
          if r.qdqMapTime.Some? {
            var qdq := r.qdqMapTime.value;
            if qdq > 0.0 {
              intermissionTime := intermissionTime + qdq;
              mapTime := 0.0;
            } else {
              intermissionTime := intermissionTime + mapTime;
              mapTime := 0.0;
            }
          }
          mapTimeUpdateDone := true;
        }
        gameTime := intermissionTime;
      } else {
        mapTimeUpdateDone := false;
        if r.mapTime.Some? {
          var mt := r.mapTime.value;
          if mapTime > mt {
            intermissionTime := intermissionTime + (mapTime - mt);
          }
          if mapTime != 0.0 || mt < StabilisationThreshold {
            mapTime := mt;
          }
        }
        if currMap == Some("start") {
          mapTime := 0.0;
        }
        gameTime := mapTime + intermissionTime;
      }
    }

    method ResetInfo()
      modifies this
      ensures State() == Reset(old(State()))
    {
      currMap := Some("");
      currGameState := Playing;
      intermissionTime := 0.0;
    }
  }
}
