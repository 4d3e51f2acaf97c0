/**
 * Settings.cs: the list of events the runner uses, its buttons, the dirty
 * flag that tells the component to rebuild its event list, and the settings
 * document (the used events by id, and the game-time switch).
 *
 * The two list boxes are sequences of events; a list box's selection is a
 * parameter of the button that reads it.
 */
module EventSettings {
  import opened Wrappers
  import opened Text
  import opened LegacyGameInfo

  // ---------------------------------------------------------------------------
  // Events of the registry
  // ---------------------------------------------------------------------------

  /** Every entry of a dictionary is filed under its own id. */
  ghost predicate KeyedById(events: map<string, GameEvent>) {
    forall k :: k in events ==> events[k].Id() == k
  }

  /** An event the dictionary holds, under its id. */
  predicate Registered(e: GameEvent, events: map<string, GameEvent>) {
    e.Id() in events && events[e.Id()] == e
  }

  predicate AllRegistered(es: seq<GameEvent>, events: map<string, GameEvent>) {
    forall i :: 0 <= i < |es| ==> Registered(es[i], events)
  }

  /**
   * The available events, in the order the dictionary was filled (the
   * order its Values enumerate in).
   */
  function AvailEvents(): (r: seq<GameEvent>)
    ensures |r| == |MapNames|
    ensures forall i :: 0 <= i < |r| ==> r[i] == LoadedMap(MapNames[i])
  {
    seq(|MapNames|, i requires 0 <= i < |MapNames| => LoadedMap(MapNames[i]))
  }

  /**
   * The loop of the constructor: the dictionary's values, listed in the order
   * their names were added.
   */
  method ListValues(evs: map<string, GameEvent>, names: seq<string>) returns (values: seq<GameEvent>)
    requires evs == RegistryOf(names)
    ensures |values| == |names|
    ensures forall i :: 0 <= i < |names| ==> values[i] == LoadedMap(names[i]) && Registered(values[i], evs)
  {
    RegistryOfShape(names);
    values := [];
    var i := 0;
    while i < |names|
      invariant 0 <= i <= |names|
      invariant |values| == i
      invariant forall j :: 0 <= j < i ==> values[j] == LoadedMap(names[j]) && Registered(values[j], evs)
    {
      assert names[i] in names;
      values := values + [evs[EventKey(names[i])]];
      i := i + 1;
    }
  }

  /** The registry files every entry under its id and holds every available event. */
  lemma RegistryHoldsAvailEvents()
    ensures KeyedById(Registry())
    ensures AllRegistered(AvailEvents(), Registry())
  {
    RegistryShape();
    forall i | 0 <= i < |AvailEvents()| ensures Registered(AvailEvents()[i], Registry()) {
      assert MapNames[i] in MapNames;
    }
  }

  // ---------------------------------------------------------------------------
  // Pure list operations
  // ---------------------------------------------------------------------------

  /** The items a list keeps when the items marked in `selected` are removed. */
  function Kept(items: seq<GameEvent>, selected: seq<bool>): (r: seq<GameEvent>)
    requires |items| == |selected|
    ensures |r| <= |items|
    decreases |items|
  {
    if items == [] then []
    else (if selected[0] then [] else [items[0]]) + Kept(items[1..], selected[1..])
  }

  /** The number of marked positions. */
  function CountSelected(selected: seq<bool>): nat {
    if selected == [] then 0 else (if selected[0] then 1 else 0) + CountSelected(selected[1..])
  }

  /** Removal keeps exactly the unmarked items, in order: as many as are unmarked, all of them registered. */
  lemma {:induction false} KeptShape(items: seq<GameEvent>, selected: seq<bool>, events: map<string, GameEvent>)
    requires |items| == |selected|
    ensures |Kept(items, selected)| == |items| - CountSelected(selected)
    ensures AllRegistered(items, events) ==> AllRegistered(Kept(items, selected), events)
    ensures (forall i :: 0 <= i < |selected| ==> !selected[i]) ==> Kept(items, selected) == items
    ensures (forall i :: 0 <= i < |selected| ==> selected[i]) ==> Kept(items, selected) == []
    decreases |items|
  {
    if items != [] {
      KeptShape(items[1..], selected[1..], events);
      if AllRegistered(items, events) {
        assert AllRegistered(items[1..], events) by {
          forall i | 0 <= i < |items| - 1 ensures Registered(items[1..][i], events) {
            assert items[1..][i] == items[i + 1];
          }
        }
      }
      if forall i :: 0 <= i < |selected| ==> !selected[i] {
        assert !selected[0];
        assert forall i :: 0 <= i < |selected| - 1 ==> !selected[1..][i] by {
          forall i | 0 <= i < |selected| - 1 ensures !selected[1..][i] {
            assert selected[1..][i] == selected[i + 1];
          }
        }
        assert items == [items[0]] + items[1..];
      }
      if forall i :: 0 <= i < |selected| ==> selected[i] {
        assert forall i :: 0 <= i < |selected| - 1 ==> selected[1..][i] by {
          forall i | 0 <= i < |selected| - 1 ensures selected[1..][i] {
            assert selected[1..][i] == selected[i + 1];
          }
        }
      }
    }
  }

  /** Removing one marked item, and its mark, leaves what the list keeps unchanged. */
  lemma {:induction false} KeptRemoveMarked(items: seq<GameEvent>, selected: seq<bool>, i: nat)
    requires |items| == |selected| && i < |items| && selected[i]
    ensures Kept(items[..i] + items[i + 1..], selected[..i] + selected[i + 1..]) == Kept(items, selected)
    decreases i
  {
    if i == 0 {
      assert items[..0] + items[1..] == items[1..];
      assert selected[..0] + selected[1..] == selected[1..];
    } else {
      var its, sel := items[..i] + items[i + 1..], selected[..i] + selected[i + 1..];
      assert its[0] == items[0] && sel[0] == selected[0];
      assert its[1..] == items[1..][..i - 1] + items[1..][i..];
      assert sel[1..] == selected[1..][..i - 1] + selected[1..][i..];
      KeptRemoveMarked(items[1..], selected[1..], i - 1);
    }
  }

  /** The first marked position, as ListBox.SelectedIndices[0] gives it. */
  function FirstSelected(selected: seq<bool>): (r: Option<nat>)
    ensures r.Some? ==> r.value < |selected| && selected[r.value] && forall j :: 0 <= j < r.value ==> !selected[j]
    ensures r.None? ==> forall j :: 0 <= j < |selected| ==> !selected[j]
  {
    if selected == [] then None
    else if selected[0] then Some(0)
    else match FirstSelected(selected[1..])
      case None => None
      case Some(k) => Some(k + 1)
  }

  /** The list with the item at i moved one place up (towards the front). */
  function MovedUp(s: seq<GameEvent>, i: nat): (r: seq<GameEvent>)
    requires i < |s|
    ensures |r| == |s| && multiset(r) == multiset(s)
    ensures i == 0 ==> r == s
    ensures i > 0 ==> r[i - 1] == s[i] && r[i] == s[i - 1] &&
                      forall j :: 0 <= j < |s| && j != i - 1 && j != i ==> r[j] == s[j]
  {
    if i == 0 then s
    else
      assert s == s[..i - 1] + [s[i - 1], s[i]] + s[i + 1..];
      s[..i - 1] + [s[i], s[i - 1]] + s[i + 1..]
  }

  /** The list with the item at i moved one place down (towards the back). */
  function MovedDown(s: seq<GameEvent>, i: nat): (r: seq<GameEvent>)
    requires i < |s|
    ensures |r| == |s| && multiset(r) == multiset(s)
    ensures i == |s| - 1 ==> r == s
    ensures i < |s| - 1 ==> r[i + 1] == s[i] && r[i] == s[i + 1] &&
                            forall j :: 0 <= j < |s| && j != i && j != i + 1 ==> r[j] == s[j]
  {
    if i == |s| - 1 then s
    else
      assert s == s[..i] + [s[i], s[i + 1]] + s[i + 2..];
      s[..i] + [s[i + 1], s[i]] + s[i + 2..]
  }

  /** Removing the item at i and inserting it one place earlier is the swap with its predecessor. */
  lemma MoveUpSplice(s: seq<GameEvent>, i: nat)
    requires 0 < i < |s|
    ensures var removed := s[..i] + s[i + 1..]; removed[..i - 1] + [s[i]] + removed[i - 1..] == MovedUp(s, i)
  {
    var removed := s[..i] + s[i + 1..];
    var r := removed[..i - 1] + [s[i]] + removed[i - 1..];
    var m := MovedUp(s, i);
    assert |r| == |m|;
    forall j | 0 <= j < |r|
      ensures r[j] == m[j]
    {
      if j < i - 1 {
        assert r[j] == s[j];
      } else if j > i {
        assert r[j] == removed[j - 1] == s[j];
      }
    }
  }

  /** Removing the item at i and inserting it one place later is the swap with its successor. */
  lemma MoveDownSplice(s: seq<GameEvent>, i: nat)
    requires i < |s| - 1
    ensures var removed := s[..i] + s[i + 1..]; removed[..i + 1] + [s[i]] + removed[i + 1..] == MovedDown(s, i)
  {
    var removed := s[..i] + s[i + 1..];
    var r := removed[..i + 1] + [s[i]] + removed[i + 1..];
    var m := MovedDown(s, i);
    assert |r| == |m|;
    forall j | 0 <= j < |r|
      ensures r[j] == m[j]
    {
      if j < i {
        assert r[j] == s[j];
      } else if j == i {
        assert r[j] == removed[i] == s[i + 1];
      } else if j > i + 1 {
        assert r[j] == removed[j - 1] == s[j];
      }
    }
  }

  lemma MovedUpRegistered(s: seq<GameEvent>, i: nat, events: map<string, GameEvent>)
    requires i < |s| && AllRegistered(s, events)
    ensures AllRegistered(MovedUp(s, i), events)
  {
    var r := MovedUp(s, i);
    forall j | 0 <= j < |r|
      ensures Registered(r[j], events)
    {
      if i > 0 && j == i - 1 {
        assert r[j] == s[i];
      } else if i > 0 && j == i {
        assert r[j] == s[i - 1];
      } else {
        assert r[j] == s[j];
      }
    }
  }

  lemma MovedDownRegistered(s: seq<GameEvent>, i: nat, events: map<string, GameEvent>)
    requires i < |s| && AllRegistered(s, events)
    ensures AllRegistered(MovedDown(s, i), events)
  {
    var r := MovedDown(s, i);
    forall j | 0 <= j < |r|
      ensures Registered(r[j], events)
    {
      if i < |s| - 1 && j == i {
        assert r[j] == s[i + 1];
      } else if i < |s| - 1 && j == i + 1 {
        assert r[j] == s[i];
      } else {
        assert r[j] == s[j];
      }
    }
  }

  /** Moving an item up and then down again restores the list, and vice versa. */
  lemma MoveUpDownInverse(s: seq<GameEvent>, i: nat)
    requires 0 < i < |s|
    ensures MovedDown(MovedUp(s, i), i - 1) == s
    ensures MovedUp(MovedDown(s, i - 1), i) == s
  {
    var up := MovedUp(s, i);
    var back := MovedDown(up, i - 1);
    assert |back| == |s|;
    forall j | 0 <= j < |s| ensures back[j] == s[j] {
      if j != i - 1 && j != i {
        assert back[j] == up[j];
      }
    }
    var down := MovedDown(s, i - 1);
    var forth := MovedUp(down, i);
    assert |forth| == |s|;
    forall j | 0 <= j < |s| ensures forth[j] == s[j] {
      if j != i - 1 && j != i {
        assert forth[j] == down[j];
      }
    }
  }

  // ---------------------------------------------------------------------------
  // The settings document
  // ---------------------------------------------------------------------------

  /**
   * The settings node: the texts of the children of "usedEvents" and the
   * text of "updateGameTime"; None where the element is missing.
   */
  datatype SettingsDoc = SettingsDoc(usedEvents: Option<seq<string>>, updateGameTime: Option<string>)

  /** The ids GetSettings writes, one per used event, in order. */
  function Ids(es: seq<GameEvent>): (ids: seq<string>)
    ensures |ids| == |es|
  {
    if es == [] then [] else Ids(es[..|es| - 1]) + [es[|es| - 1].Id()]
  }

  /** The events SetSettings appends: the registry's entry for each known id, in document order. */
  function Load(events: map<string, GameEvent>, ids: seq<string>): (r: seq<GameEvent>)
    ensures |r| <= |ids|
    ensures forall i :: 0 <= i < |r| ==> r[i] in events.Values
  {
    if ids == [] then []
    else
      var id := ids[|ids| - 1];
      Load(events, ids[..|ids| - 1]) + (if id in events then [events[id]] else [])
  }

  /** Ids the dictionary does not know are dropped; known ones load their entries. */
  lemma {:induction false} LoadFilters(events: map<string, GameEvent>, ids: seq<string>)
    requires KeyedById(events)
    ensures |Load(events, ids)| <= |ids|
    ensures AllRegistered(Load(events, ids), events)
    ensures (forall i :: 0 <= i < |ids| ==> ids[i] !in events) ==> Load(events, ids) == []
    ensures forall i :: 0 <= i < |ids| && ids[i] in events ==> events[ids[i]] in Load(events, ids)
    ensures (forall i :: 0 <= i < |ids| ==> ids[i] in events) ==> |Load(events, ids)| == |ids|
  {
    if ids != [] {
      var init, id := ids[..|ids| - 1], ids[|ids| - 1];
      LoadFilters(events, init);
      forall i | 0 <= i < |ids| && ids[i] in events ensures events[ids[i]] in Load(events, ids) {
        if i < |init| {
          assert ids[i] == init[i];
        }
      }
      if forall i :: 0 <= i < |ids| ==> ids[i] in events {
        assert forall i :: 0 <= i < |init| ==> init[i] in events by {
          forall i | 0 <= i < |init| ensures init[i] in events {
            assert init[i] == ids[i];
          }
        }
      }
      if forall i :: 0 <= i < |ids| ==> ids[i] !in events {
        assert forall i :: 0 <= i < |init| ==> init[i] !in events by {
          forall i | 0 <= i < |init| ensures init[i] !in events {
            assert init[i] == ids[i];
          }
        }
      }
    }
  }

  /** Loading a single id gives its entry when the dictionary knows it, and nothing otherwise. */
  lemma LoadOne(events: map<string, GameEvent>, id: string)
    ensures Load(events, [id]) == (if id in events then [events[id]] else [])
  {
    assert [id][..0] == [];
  }

  /** Loading splits over a concatenation of id lists: each part loads in place, in order. */
  lemma {:induction false} LoadAppend(events: map<string, GameEvent>, a: seq<string>, b: seq<string>)
    ensures Load(events, a + b) == Load(events, a) + Load(events, b)
    decreases |b|
  {
    if b == [] {
      assert a + b == a;
    } else {
      var init := b[..|b| - 1];
      assert (a + b)[..|a + b| - 1] == a + init;
      assert (a + b)[|a + b| - 1] == b[|b| - 1];
      LoadAppend(events, a, init);
    }
  }

  /** The document read front to back: each id in turn contributes its entry when the dictionary knows it. */
  function KnownInOrder(events: map<string, GameEvent>, ids: seq<string>): seq<GameEvent> {
    if ids == [] then []
    else (if ids[0] in events then [events[ids[0]]] else []) + KnownInOrder(events, ids[1..])
  }

  /** Load appends, in document order, one entry per known id and nothing for an unknown one. */
  lemma {:induction false} LoadInDocumentOrder(events: map<string, GameEvent>, ids: seq<string>)
    ensures Load(events, ids) == KnownInOrder(events, ids)
    decreases |ids|
  {
    if ids != [] {
      assert ids == [ids[0]] + ids[1..];
      LoadAppend(events, [ids[0]], ids[1..]);
      LoadOne(events, ids[0]);
      LoadInDocumentOrder(events, ids[1..]);
    }
  }

  /** Writing events of a dictionary out as ids and loading the ids back gives the same events. */
  lemma {:induction false} IdsRoundTrip(es: seq<GameEvent>, events: map<string, GameEvent>)
    requires AllRegistered(es, events)
    ensures Load(events, Ids(es)) == es
  {
    if es != [] {
      var init, e := es[..|es| - 1], es[|es| - 1];
      assert AllRegistered(init, events) by {
        forall i | 0 <= i < |init| ensures Registered(init[i], events) {
          assert init[i] == es[i];
        }
      }
      IdsRoundTrip(init, events);
      var ids := Ids(es);
      assert ids[..|ids| - 1] == Ids(init);
      assert es == init + [e];
    }
  }

  /** bool.ToString() */
  function BoolText(b: bool): string {
    if b then "True" else "False"
  }

  /** The characters Boolean.TryParse trims: ASCII white space and NUL. */
  predicate IsTrimmed(c: char) {
    c == ' ' || (9 <= c as int <= 13) || c == '\0'
  }

  function TrimStart(s: string): (r: string)
    ensures |r| <= |s| && r == s[|s| - |r|..]
    ensures r != [] ==> !IsTrimmed(r[0])
    ensures forall i :: 0 <= i < |s| - |r| ==> IsTrimmed(s[i])
    decreases |s|
  {
    if s != [] && IsTrimmed(s[0]) then TrimStart(s[1..]) else s
  }

  function TrimEnd(s: string): (r: string)
    ensures |r| <= |s| && r == s[..|r|]
    ensures r != [] ==> !IsTrimmed(r[|r| - 1])
    ensures forall i :: |r| <= i < |s| ==> IsTrimmed(s[i])
    decreases |s|
  {
    if s != [] && IsTrimmed(s[|s| - 1]) then TrimEnd(s[..|s| - 1]) else s
  }

  /**
   * Boolean.TryParse: "True" or "False" in any letter case, with white space
   * and NUL characters around it ignored.
   */
  function TryParseBool(s: string): (r: Option<bool>)
    ensures r == Some(true) <==> EqualsIgnoreCase(TrimEnd(TrimStart(s)), "True")
    ensures r == Some(false) <==> EqualsIgnoreCase(TrimEnd(TrimStart(s)), "False")
    ensures r.None? <==> !EqualsIgnoreCase(TrimEnd(TrimStart(s)), "True") && !EqualsIgnoreCase(TrimEnd(TrimStart(s)), "False")
  {
    var t := TrimEnd(TrimStart(s));
    if EqualsIgnoreCase(t, "True") then Some(true)
    else if EqualsIgnoreCase(t, "False") then Some(false)
    else None
  }

  /** What the written flag parses back to. */
  lemma BoolTextRoundTrip(b: bool)
    ensures TryParseBool(BoolText(b)) == Some(b)
  {
    if b {
      TrueTextParses();
    } else {
      FalseTextParses();
    }
  }

  /** "True", as written for true, needs no trimming and parses as true. */
  lemma TrueTextParses()
    ensures TryParseBool("True") == Some(true)
  {
    var t := "True";
    assert !IsTrimmed(t[0]) && !IsTrimmed(t[3]);
    assert TrimStart(t) == t;
    assert TrimEnd(t) == t;
  }

  /** "False", as written for false, needs no trimming and parses as false. */
  lemma FalseTextParses()
    ensures TryParseBool("False") == Some(false)
  {
    var t := "False";
    assert !IsTrimmed(t[0]) && !IsTrimmed(t[4]);
    assert TrimStart(t) == t;
    assert TrimEnd(t) == t;
    assert !EqualsIgnoreCase(t, "True");
  }

  /** Letter case does not matter. */
  lemma TryParseBoolAccepts()
    ensures TryParseBool("true") == Some(true)
  {
    var t := "true";
    assert !IsTrimmed(t[0]) && !IsTrimmed(t[3]);
    assert TrimStart(t) == t;
    assert TrimEnd(t) == t;
    assert LowerChar('T') == 't';
    assert EqualsIgnoreCase(t, "True");
  }

  /** Other words do not parse. */
  lemma TryParseBoolRejectsWord()
    ensures TryParseBool("yes") == None
  {
    var t := "yes";
    assert !IsTrimmed(t[0]) && !IsTrimmed(t[2]);
    assert TrimStart(t) == t;
    assert TrimEnd(t) == t;
    assert Lower(t)[0] == 'y';
  }

  /** The empty text does not parse. */
  lemma TryParseBoolRejectsEmpty()
    ensures TryParseBool("") == None
  {
  }

  /** The game-time switch after reading the document: changed only by an element that parses. */
  function LoadedFlag(current: bool, text: Option<string>): (b: bool)
    ensures text.None? ==> b == current
    ensures text.Some? && TryParseBool(text.value).None? ==> b == current
    ensures text.Some? && TryParseBool(text.value).Some? ==> b == TryParseBool(text.value).value
  {
    match text
    case None => current
    case Some(t) => TryParseBool(t).GetOr(current)
  }

  // ---------------------------------------------------------------------------
  // The control
  // ---------------------------------------------------------------------------

  class Settings {
    const events: map<string, GameEvent>
    const availEvents: seq<GameEvent>
    var usedEvents: seq<GameEvent>
    var updateGameTime: bool
    var eventsChanged: bool

    /** Both lists hold entries of the dictionary, which files each entry under its id. */
    ghost predicate Valid()
      reads this
    {
      KeyedById(events) && AllRegistered(availEvents, events) && AllRegistered(usedEvents, events)
    }

    /** The constructor: fetch the dictionary, list its values as the available events. */
    constructor (cache: EventCache)
      requires cache.Valid()
      modifies cache
      ensures Valid() && cache.Valid()
      ensures events == Registry() && availEvents == AvailEvents()
      ensures usedEvents == [] && !updateGameTime && !eventsChanged
    {
      var evs := cache.GetEvents();
      var avail := ListValues(evs, MapNames);
      RegistryHoldsAvailEvents();
      events := evs;
      availEvents := avail;
      usedEvents := [];
      updateGameTime := false;
      eventsChanged := false;
    }

    /** GetEventList: the used events followed by exactly one empty event. */
    method GetEventList() returns (list: array<GameEvent>)
      ensures fresh(list)
      ensures list[..] == usedEvents + [Empty]
      ensures list.Length == |usedEvents| + 1 && list[|usedEvents|] == Empty
    {
      var length := |usedEvents|;
      list := new GameEvent[length + 1](_ => Empty);
      var i := 0;
      while i < length
        invariant 0 <= i <= length
        invariant forall j :: 0 <= j < i ==> list[j] == usedEvents[j]
      {
        list[i] := usedEvents[i];
        i := i + 1;
      }
      list[length] := Empty;
      assert list[..] == usedEvents + [Empty];
    }

    /** The add button: the selected available events, in selection order, go to the end. */
    method AddEvents(selected: seq<nat>)
      requires Valid()
      requires forall k :: 0 <= k < |selected| ==> selected[k] < |availEvents|
      modifies this
      ensures Valid()
      ensures usedEvents == old(usedEvents) + seq(|selected|, k requires 0 <= k < |selected| => availEvents[selected[k]])
      ensures eventsChanged && updateGameTime == old(updateGameTime)
    {
      ghost var added := seq(|selected|, k requires 0 <= k < |selected| => availEvents[selected[k]]);
      var i := 0;
      while i < |selected|
        invariant 0 <= i <= |selected|
        invariant usedEvents == old(usedEvents) + added[..i]
        invariant AllRegistered(usedEvents, events)
        invariant updateGameTime == old(updateGameTime)
      {
        usedEvents := usedEvents + [availEvents[selected[i]]];
        i := i + 1;
      }
      assert added[..i] == added;
      eventsChanged := true;
    }

    /** The remove button: drops every selected item, first selected index first. */
    method RemoveEvents(selected: seq<bool>)
      requires Valid() && |selected| == |usedEvents|
      modifies this
      ensures Valid()
      ensures usedEvents == Kept(old(usedEvents), selected)
      ensures |usedEvents| == |old(usedEvents)| - CountSelected(selected)
      ensures eventsChanged && updateGameTime == old(updateGameTime)
    {
      KeptShape(usedEvents, selected, events);
      var marks := selected;
      while FirstSelected(marks).Some?
        invariant |marks| == |usedEvents|
        invariant Kept(usedEvents, marks) == Kept(old(usedEvents), selected)
        invariant updateGameTime == old(updateGameTime)
        decreases |marks|
      {
        var i := FirstSelected(marks).value;
        KeptRemoveMarked(usedEvents, marks, i);
        usedEvents := usedEvents[..i] + usedEvents[i + 1..];
        marks := marks[..i] + marks[i + 1..];
      }
      KeptShape(usedEvents, marks, events);
      eventsChanged := true;
    }

    /** The all button: every available event is appended. */
    method AddAllEvents()
      requires Valid()
      modifies this
      ensures Valid()
      ensures usedEvents == old(usedEvents) + availEvents
      ensures eventsChanged && updateGameTime == old(updateGameTime)
    {
      usedEvents := usedEvents + availEvents;
      eventsChanged := true;
    }

    /** The none button: empties the list and, unlike the others, leaves the dirty flag alone. */
    method ClearEvents()
      requires Valid()
      modifies this
      ensures Valid()
      ensures usedEvents == []
      ensures eventsChanged == old(eventsChanged) && updateGameTime == old(updateGameTime)
    {
      usedEvents := [];
    }

    /** The up button, for one selected index: remove the item and insert it one place earlier. */
    method MoveUp(index: nat)
      requires Valid() && index < |usedEvents|
      modifies this
      ensures Valid()
      ensures usedEvents == MovedUp(old(usedEvents), index)
      ensures eventsChanged == old(eventsChanged) && updateGameTime == old(updateGameTime)
    {
      if index != 0 {
        var item := usedEvents[index];
        var removed := usedEvents[..index] + usedEvents[index + 1..];
        MoveUpSplice(usedEvents, index);
        MovedUpRegistered(usedEvents, index, events);
        usedEvents := removed[..index - 1] + [item] + removed[index - 1..];
      }
    }

    /** The down button, for one selected index: remove the item and insert it one place later. */
    method MoveDown(index: nat)
      requires Valid() && index < |usedEvents|
      modifies this
      ensures Valid()
      ensures usedEvents == MovedDown(old(usedEvents), index)
      ensures eventsChanged == old(eventsChanged) && updateGameTime == old(updateGameTime)
    {
      if index != |usedEvents| - 1 {
        var item := usedEvents[index];
        var removed := usedEvents[..index] + usedEvents[index + 1..];
        MoveDownSplice(usedEvents, index);
        MovedDownRegistered(usedEvents, index, events);
        usedEvents := removed[..index + 1] + [item] + removed[index + 1..];
      }
    }

    /** The game-time check box. */
    method SetUpdateGameTime(checked: bool)
      modifies this
      ensures updateGameTime == checked
      ensures usedEvents == old(usedEvents) && eventsChanged == old(eventsChanged)
    {
      updateGameTime := checked;
    }

    /** Closing the settings: EventsChanged is raised only when the list was edited, and the flag clears. */
    method HandleDestroyed() returns (raised: bool)
      modifies this
      ensures raised == old(eventsChanged) && !eventsChanged
      ensures usedEvents == old(usedEvents) && updateGameTime == old(updateGameTime)
    {
      raised := false;
      if eventsChanged {
        eventsChanged := false;
        raised := true;
      }
    }

    /** GetSettings: one id per used event, in order, and the switch as "True" or "False". */
    method GetSettings() returns (doc: SettingsDoc)
      requires Valid()
      ensures doc.usedEvents == Some(Ids(usedEvents))
      ensures doc.updateGameTime == Some(BoolText(updateGameTime))
      ensures Load(events, doc.usedEvents.value) == usedEvents
      ensures TryParseBool(doc.updateGameTime.value) == Some(updateGameTime)
    {
      var ids: seq<string> := [];
      var i := 0;
      while i < |usedEvents|
        invariant 0 <= i <= |usedEvents|
        invariant ids == Ids(usedEvents[..i])
      {
        assert usedEvents[..i + 1][..i] == usedEvents[..i];
        ids := ids + [usedEvents[i].Id()];
        i := i + 1;
      }
      assert usedEvents[..i] == usedEvents;
      doc := SettingsDoc(Some(ids), Some(BoolText(updateGameTime)));
      BoolTextRoundTrip(updateGameTime);
      IdsRoundTrip(usedEvents, events);
    }

    /**
     * SetSettings: known ids are appended to the list as it is, the dirty flag
     * clears and EventsChanged is raised whenever the document lists events;
     * the switch follows the document only where its text parses.
     */
    method SetSettings(doc: SettingsDoc) returns (raised: bool)
      requires Valid()
      modifies this
      ensures Valid()
      ensures doc.usedEvents.None? ==> usedEvents == old(usedEvents) && eventsChanged == old(eventsChanged)
      ensures doc.usedEvents.Some? ==> usedEvents == old(usedEvents) + Load(events, doc.usedEvents.value) && !eventsChanged
      ensures raised <==> doc.usedEvents.Some?
      ensures updateGameTime == LoadedFlag(old(updateGameTime), doc.updateGameTime)
    {
      raised := false;
      if doc.usedEvents.Some? {
        AppendKnown(doc.usedEvents.value);
        eventsChanged := false;
        raised := true;
      }
      LoadGameTimeFlag(doc.updateGameTime);
    }

    /** The last part of SetSettings: the switch follows the element only where its text parses. */
    method LoadGameTimeFlag(text: Option<string>)
      modifies this
      ensures updateGameTime == LoadedFlag(old(updateGameTime), text)
      ensures usedEvents == old(usedEvents) && eventsChanged == old(eventsChanged)
    {
      if text.Some? {
        var parsed := TryParseBool(text.value);
        if parsed.Some? {
          updateGameTime := parsed.value;
        }
      }
    }

    /** The loop of SetSettings: each id the dictionary knows appends its entry. */
    method AppendKnown(ids: seq<string>)
      requires Valid()
      modifies this
      ensures Valid()
      ensures usedEvents == old(usedEvents) + Load(events, ids)
      ensures updateGameTime == old(updateGameTime) && eventsChanged == old(eventsChanged)
    {
      var i := 0;
      while i < |ids|
        invariant 0 <= i <= |ids|
        invariant usedEvents == old(usedEvents) + Load(events, ids[..i])
        invariant updateGameTime == old(updateGameTime) && eventsChanged == old(eventsChanged)
      {
        assert ids[..i + 1][..i] == ids[..i];
        if ids[i] in events {
          usedEvents := usedEvents + [events[ids[i]]];
        }
        i := i + 1;
      }
      assert ids[..i] == ids;
      LoadFilters(events, ids);
      assert AllRegistered(usedEvents, events) by {
        forall j | 0 <= j < |usedEvents| ensures Registered(usedEvents[j], events) {
          if j >= |old(usedEvents)| {
            assert usedEvents[j] == Load(events, ids)[j - |old(usedEvents)|];
          }
        }
      }
    }
  }

  /**
   * Saving the settings and loading them into a fresh control restores the
   * used list and the switch.
   */
  method SettingsRoundTrip(src: Settings, cache: EventCache) returns (dst: Settings)
    requires src.Valid() && src.events == Registry() && cache.Valid()
    modifies cache
    ensures dst.usedEvents == src.usedEvents && dst.updateGameTime == src.updateGameTime
    ensures !dst.eventsChanged
  {
    var doc := src.GetSettings();
    dst := new Settings(cache);
    var _ := dst.SetSettings(doc);
  }
}
