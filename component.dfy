/**
 * Component.cs: the auto splitter's per-frame Update, which polls the game,
 * publishes game time and starts or splits the timer when the event under
 * the split cursor has occurred; the reset hook; and the hand-over of the
 * event list from the settings control.
 *
 * Component.cs is written against both revisions at once: it calls Reset,
 * IntermissionTime and MapTime, which only the newer GameInfo has, and it
 * takes its events from the settings control, whose events are the older
 * ones. Here the component holds the newer GameInfo (QuakeGame), evaluates
 * the older events (LegacyGameInfo) against its current map, and takes
 * InIntermission, which the newer GameInfo lacks, as a per-frame reading.
 *
 * The LiveSplit timer is the host; its Start, Split and SetGameTime are
 * modelled by the small Timer class below.
 */
module AutoSplitter {
  import opened Wrappers
  import QuakeGame
  import LegacyGameInfo
  import EventSettings

  // ---------------------------------------------------------------------------
  // The host timer
  // ---------------------------------------------------------------------------

  datatype Phase = NotRunning | Running | Paused | Ended

  /**
   * The part of the host's state the component reads or drives. The split
   * index is -1 before the run starts and equals the number of segments
   * once the run has ended.
   */
  datatype TimerState = TimerState(phase: Phase, splitIndex: int, segments: nat, gameTime: real, gameTimePaused: bool)

  predicate TimerValid(t: TimerState) {
    t.segments >= 1 && -1 <= t.splitIndex <= t.segments &&
    (t.phase == NotRunning <==> t.splitIndex == -1) &&
    (t.phase == Ended <==> t.splitIndex == t.segments)
  }

  /** Start: only a timer that is not running starts, at the first segment. */
  function StartTimer(t: TimerState): TimerState {
    if t.phase == NotRunning then t.(phase := Running, splitIndex := 0) else t
  }

  /** Split: only a running timer splits; splitting the last segment ends the run. */
  function SplitTimer(t: TimerState): TimerState {
    if t.phase == Running then
      var i := t.splitIndex + 1;
      t.(splitIndex := i, phase := if i == t.segments then Ended else Running)
    else
      t
  }

  /** Start and Split keep the timer consistent and move the split index by at most one. */
  lemma TimerTransitions(t: TimerState)
    requires TimerValid(t)
    ensures TimerValid(StartTimer(t)) && TimerValid(SplitTimer(t))
    ensures StartTimer(t).splitIndex == t.splitIndex + 1 <==> t.phase == NotRunning
    ensures StartTimer(t).splitIndex != t.splitIndex + 1 ==> StartTimer(t) == t
    ensures SplitTimer(t).splitIndex == t.splitIndex + 1 <==> t.phase == Running
    ensures SplitTimer(t).splitIndex != t.splitIndex + 1 ==> SplitTimer(t) == t
    ensures SplitTimer(t).phase == Ended <==> t.phase == Ended || (t.phase == Running && t.splitIndex == t.segments - 1)
  {
  }

  class Timer {
    var phase: Phase
    var splitIndex: int
    const segments: nat
    var gameTime: real
    var gameTimePaused: bool

    constructor (segments: nat)
      ensures State() == TimerState(NotRunning, -1, segments, 0.0, false)
    {
      this.segments := segments;
      phase, splitIndex, gameTime, gameTimePaused := NotRunning, -1, 0.0, false;
    }

    function State(): TimerState
      reads this
    {
      TimerState(phase, splitIndex, segments, gameTime, gameTimePaused)
    }

    method Start()
      modifies this
      ensures State() == StartTimer(old(State()))
    {
      if phase == NotRunning {
        phase, splitIndex := Running, 0;
      }
    }

    method Split()
      modifies this
      ensures State() == SplitTimer(old(State()))
    {
      if phase == Running {
        splitIndex := splitIndex + 1;
        phase := if splitIndex == segments then Ended else Running;
      }
    }

    method SetGameTime(seconds: real)
      modifies this
      ensures State() == old(State()).(gameTime := seconds)
    {
      gameTime := seconds;
    }

    method PauseGameTime()
      modifies this
      ensures State() == old(State()).(gameTimePaused := true)
    {
      gameTimePaused := true;
    }
  }

  // ---------------------------------------------------------------------------
  // One frame, as a function
  // ---------------------------------------------------------------------------

  /**
   * What one frame observes: whether the attached process has exited,
   * whether a process named joequake-gl is found, whether an intermission
   * is showing, and the values GameInfo.UpdateInfo polls.
   */
  datatype Observation = Observation(exited: bool, found: bool, inIntermission: bool, polled: QuakeGame.TickReads)

  /** The component's state: attached process, game info, host timer and event list. */
  datatype Splitter = Splitter(
    attached: bool,
    info: Option<QuakeGame.Info>,
    timer: TimerState,
    eventList: seq<LegacyGameInfo.GameEvent>)

  /** The event list ends with the empty sentinel, and an attached process has its info. */
  predicate SplitterValid(s: Splitter) {
    TimerValid(s.timer) && |s.eventList| >= 1 && s.eventList[|s.eventList| - 1] == LegacyGameInfo.Empty &&
    (s.attached ==> s.info.Some?)
  }

  /** The event after the last split exists: the cursor is the index Update reads. */
  predicate CursorInRange(t: TimerState, eventList: seq<LegacyGameInfo.GameEvent>) {
    -1 <= t.splitIndex < |eventList| - 1
  }

  predicate Ready(s: Splitter) {
    SplitterValid(s) && CursorInRange(s.timer, s.eventList)
  }

  /** A frame with a live process: one attached and not exited. */
  predicate Live(s: Splitter, obs: Observation) {
    s.attached && !obs.exited
  }

  /** The event under the cursor has occurred, by the older revision's HasOccured. */
  predicate CursorFires(t: TimerState, eventList: seq<LegacyGameInfo.GameEvent>, inIntermission: bool, info: QuakeGame.Info)
    requires CursorInRange(t, eventList)
  {
    LegacyGameInfo.HasOccured(eventList[t.splitIndex + 1], inIntermission, info.currMap)
  }

  /**
   * The timer after a live frame, given the updated info: game time paused,
   * the intermission total shown during an intermission, start (from zero)
   * or split when the cursor event occurred, and the running total shown
   * when the game-time switch is on.
   */
  function LiveTick(t: TimerState, info: QuakeGame.Info, eventList: seq<LegacyGameInfo.GameEvent>, inIntermission: bool, updateGameTime: bool): (r: TimerState)
    requires CursorInRange(t, eventList)
    ensures r.gameTimePaused && r.segments == t.segments
    ensures !CursorFires(t, eventList, inIntermission, info) ==> r.phase == t.phase && r.splitIndex == t.splitIndex
    ensures updateGameTime ==> r.gameTime == info.intermissionTime + info.mapTime
  {
    var paused := t.(gameTimePaused := true);
    var shown := if inIntermission then paused.(gameTime := info.intermissionTime) else paused;
    var decided :=
      if !CursorFires(t, eventList, inIntermission, info) then shown
      else if shown.phase == NotRunning then StartTimer(shown.(gameTime := 0.0))
      else SplitTimer(shown);
    if updateGameTime then decided.(gameTime := info.intermissionTime + info.mapTime) else decided
  }

  /** Update as a function of the state before the frame and what the frame observes. */
  function Step(s: Splitter, obs: Observation, updateGameTime: bool): (r: Splitter)
    requires Ready(s)
    ensures r.eventList == s.eventList
    ensures r.attached <==> Live(s, obs) || obs.found
    ensures !Live(s, obs) ==> r.timer == s.timer
    ensures !Live(s, obs) && obs.found ==> r.info == Some(QuakeGame.Initial)
  {
    if Live(s, obs) then
      var info := QuakeGame.Tick(s.info.value, obs.polled);
      s.(info := Some(info), timer := LiveTick(s.timer, info, s.eventList, obs.inIntermission, updateGameTime))
    else if obs.found then
      s.(attached := true, info := Some(QuakeGame.Initial))
    else
      s.(attached := false)
  }

  // ---------------------------------------------------------------------------
  // Properties of a frame
  // ---------------------------------------------------------------------------

  /**
   * A frame keeps the component ready for the next one. The split index
   * stays or moves forward by one, and it moves exactly when the frame was
   * live, the cursor event occurred and the timer was not running (start)
   * or running (split). The event list is not touched.
   */
  lemma StepAdvancesCursor(s: Splitter, obs: Observation, updateGameTime: bool)
    requires Ready(s)
    ensures var n := Step(s, obs, updateGameTime);
      Ready(n) && n.eventList == s.eventList && n.timer.segments == s.timer.segments &&
      (n.timer.splitIndex == s.timer.splitIndex || n.timer.splitIndex == s.timer.splitIndex + 1)
    ensures var n := Step(s, obs, updateGameTime);
      n.timer.splitIndex == s.timer.splitIndex + 1 <==>
        Live(s, obs) && (s.timer.phase == NotRunning || s.timer.phase == Running) &&
        LegacyGameInfo.HasOccured(s.eventList[s.timer.splitIndex + 1], obs.inIntermission, n.info.value.currMap)
  {
    if Live(s, obs) {
      var info := QuakeGame.Tick(s.info.value, obs.polled);
      var t := s.timer;
      var paused := t.(gameTimePaused := true);
      var shown := if obs.inIntermission then paused.(gameTime := info.intermissionTime) else paused;
      TimerTransitions(shown);
      TimerTransitions(shown.(gameTime := 0.0));
      if CursorFires(t, s.eventList, obs.inIntermission, info) {
        assert s.eventList[t.splitIndex + 1] != LegacyGameInfo.Empty;
      }
    }
  }

  /** With no live process nothing is evaluated: the timer is untouched and only the attachment changes. */
  lemma DetachedFrame(s: Splitter, obs: Observation, updateGameTime: bool)
    requires Ready(s) && !Live(s, obs)
    ensures Step(s, obs, updateGameTime).timer == s.timer
    ensures Step(s, obs, updateGameTime).attached == obs.found
    ensures obs.found ==> Step(s, obs, updateGameTime).info == Some(QuakeGame.Initial)
    ensures !obs.found ==> Step(s, obs, updateGameTime).info == s.info
  {
  }

  /** Once the cursor sits on the trailing sentinel, the timer neither starts nor splits again. */
  lemma SentinelStopsSplitting(s: Splitter, obs: Observation, updateGameTime: bool)
    requires Ready(s) && s.timer.splitIndex == |s.eventList| - 2
    ensures Step(s, obs, updateGameTime).timer.splitIndex == s.timer.splitIndex
    ensures Step(s, obs, updateGameTime).timer.phase == s.timer.phase
  {
  }

  /** Only the event under the cursor decides: lists that agree there give the same timer. */
  lemma OnlyCursorEvaluated(s: Splitter, other: seq<LegacyGameInfo.GameEvent>, obs: Observation, updateGameTime: bool)
    requires Ready(s) && Ready(s.(eventList := other))
    requires other[s.timer.splitIndex + 1] == s.eventList[s.timer.splitIndex + 1]
    ensures Step(s.(eventList := other), obs, updateGameTime).timer == Step(s, obs, updateGameTime).timer
  {
  }

  /**
   * The game time a live frame leaves on the timer: the running total when
   * the switch is on; otherwise zero on a start, the intermission total
   * during an intermission, and the previous value elsewhere. Game time is
   * paused on every live frame.
   */
  lemma PublishedGameTime(s: Splitter, obs: Observation, updateGameTime: bool)
    requires Ready(s) && Live(s, obs)
    ensures var n := Step(s, obs, updateGameTime); var info := n.info.value;
      n.timer.gameTimePaused &&
      (updateGameTime ==> n.timer.gameTime == info.intermissionTime + info.mapTime) &&
      (!updateGameTime && s.timer.phase == NotRunning && n.timer.phase == Running ==> n.timer.gameTime == 0.0) &&
      (!updateGameTime && obs.inIntermission && !(s.timer.phase == NotRunning && n.timer.phase == Running) ==>
         n.timer.gameTime == info.intermissionTime) &&
      (!updateGameTime && !obs.inIntermission && !(s.timer.phase == NotRunning && n.timer.phase == Running) ==>
         n.timer.gameTime == s.timer.gameTime)
    ensures Step(s, obs, updateGameTime).info == Some(QuakeGame.Tick(s.info.value, obs.polled))
  {
  }

  // ---------------------------------------------------------------------------
  // Runs of frames
  // ---------------------------------------------------------------------------

  /** The states after each frame of a run, with the game-time switch fixed. */
  function Run(s: Splitter, frames: seq<Observation>, updateGameTime: bool): (trace: seq<Splitter>)
    requires Ready(s)
    ensures |trace| == |frames|
    ensures forall i :: 0 <= i < |trace| ==> Ready(trace[i]) && trace[i].eventList == s.eventList
    decreases |frames|
  {
    if frames == [] then []
    else
      var n := Step(s, frames[0], updateGameTime);
      StepAdvancesCursor(s, frames[0], updateGameTime);
      [n] + Run(n, frames[1..], updateGameTime)
  }

  /** The state a frame of the run starts from. */
  function Before(s: Splitter, trace: seq<Splitter>, i: nat): Splitter
    requires i <= |trace|
  {
    if i == 0 then s else trace[i - 1]
  }

  /** Along the run the split index never drops below its start or below an earlier frame's. */
  predicate NeverBack(s: Splitter, trace: seq<Splitter>) {
    forall i, j :: 0 <= i <= j < |trace| ==> s.timer.splitIndex <= trace[i].timer.splitIndex <= trace[j].timer.splitIndex
  }

  /** Each frame of a run keeps the split index or moves it forward by one. */
  predicate StepsByOne(s: Splitter, trace: seq<Splitter>) {
    forall i :: 0 <= i < |trace| ==>
      Before(s, trace, i).timer.splitIndex <= trace[i].timer.splitIndex <= Before(s, trace, i).timer.splitIndex + 1
  }

  /** Frame-by-frame steps that never go back add up to a split index that never goes back. */
  lemma {:induction false} StepsNeverBack(s: Splitter, trace: seq<Splitter>, j: nat)
    requires StepsByOne(s, trace) && j < |trace|
    ensures forall i :: 0 <= i <= j ==> s.timer.splitIndex <= trace[i].timer.splitIndex <= trace[j].timer.splitIndex
    decreases j
  {
    assert Before(s, trace, j).timer.splitIndex <= trace[j].timer.splitIndex;
    if j > 0 {
      StepsNeverBack(s, trace, j - 1);
      assert Before(s, trace, j) == trace[j - 1];
    }
  }

  /** One step by at most one, followed by a trace that steps by at most one, steps by at most one. */
  lemma StepsByOneCons(s: Splitter, n: Splitter, rest: seq<Splitter>)
    requires s.timer.splitIndex <= n.timer.splitIndex <= s.timer.splitIndex + 1
    requires StepsByOne(n, rest)
    ensures StepsByOne(s, [n] + rest)
  {
    var trace := [n] + rest;
    forall i | 0 < i < |trace|
      ensures Before(s, trace, i).timer.splitIndex <= trace[i].timer.splitIndex <= Before(s, trace, i).timer.splitIndex + 1
    {
      assert trace[i] == rest[i - 1];
      assert Before(s, trace, i) == Before(n, rest, i - 1);
    }
  }

  /** Each frame of a run moves the split index by at most one. */
  lemma {:induction false} RunStepsByOne(s: Splitter, frames: seq<Observation>, updateGameTime: bool)
    requires Ready(s)
    ensures StepsByOne(s, Run(s, frames, updateGameTime))
    decreases |frames|
  {
    if frames != [] {
      var n := Step(s, frames[0], updateGameTime);
      StepAdvancesCursor(s, frames[0], updateGameTime);
      RunStepsByOne(n, frames[1..], updateGameTime);
      assert Run(s, frames, updateGameTime) == [n] + Run(n, frames[1..], updateGameTime);
      StepsByOneCons(s, n, Run(n, frames[1..], updateGameTime));
    }
  }

  /** Over a run the split index never moves backwards, and each frame moves it by at most one. */
  lemma RunCursorMonotone(s: Splitter, frames: seq<Observation>, updateGameTime: bool)
    requires Ready(s)
    ensures NeverBack(s, Run(s, frames, updateGameTime))
    ensures StepsByOne(s, Run(s, frames, updateGameTime))
  {
    var trace := Run(s, frames, updateGameTime);
    RunStepsByOne(s, frames, updateGameTime);
    forall j | 0 <= j < |trace|
      ensures forall i :: 0 <= i <= j ==> s.timer.splitIndex <= trace[i].timer.splitIndex <= trace[j].timer.splitIndex
    {
      StepsNeverBack(s, trace, j);
    }
  }

  /** Frame i of a run moves the split index, and the cursor event it moved past. */
  predicate Advanced(s: Splitter, trace: seq<Splitter>, i: nat)
    requires i < |trace|
  {
    trace[i].timer.splitIndex == Before(s, trace, i).timer.splitIndex + 1
  }

  /**
   * Every event of the list starts or splits the timer at most once, and in
   * list order: two frames that move the split index moved it past different
   * events, the earlier frame past the earlier event.
   */
  lemma EventsFireInOrder(s: Splitter, frames: seq<Observation>, updateGameTime: bool, i: nat, j: nat)
    requires Ready(s)
    requires i < j < |frames|
    requires Advanced(s, Run(s, frames, updateGameTime), i) && Advanced(s, Run(s, frames, updateGameTime), j)
    ensures var trace := Run(s, frames, updateGameTime);
      Before(s, trace, i).timer.splitIndex < Before(s, trace, j).timer.splitIndex
  {
    RunCursorMonotone(s, frames, updateGameTime);
  }

  // ---------------------------------------------------------------------------
  // The component
  // ---------------------------------------------------------------------------

  class Component {
    const settings: EventSettings.Settings
    const timer: Timer
    var attached: bool
    var info: QuakeGame.GameInfo?
    var eventList: array<LegacyGameInfo.GameEvent>

    function State(): Splitter
      reads this, timer, info, eventList
    {
      Splitter(attached, if info == null then None else Some(info.State()), timer.State(), eventList[..])
    }

    /** The constructor: fresh settings, and the event list taken from them. */
    constructor (state: Timer, cache: LegacyGameInfo.EventCache)
      requires cache.Valid()
      modifies cache
      ensures settings.Valid() && fresh(settings) && timer == state
      ensures State() == Splitter(false, None, state.State(), [LegacyGameInfo.Empty])
      ensures TimerValid(state.State()) ==> SplitterValid(State())
    {
      var s := new EventSettings.Settings(cache);
      var list := s.GetEventList();
      settings := s;
      timer := state;
      attached := false;
      info := null;
      eventList := list;
    }

    /** State_OnReset: the game info forgets the map, the state and the intermission total. */
    method OnReset()
      requires info != null
      modifies info
      ensures info.State() == QuakeGame.Reset(old(info.State()))
    {
      info.ResetInfo();
    }

    /** Update: one frame, step by step. */
    method Update(obs: Observation)
      requires Ready(State())
      modifies this, timer, info
      ensures State() == Step(old(State()), obs, settings.updateGameTime)
      ensures Ready(State())
    {
      StepAdvancesCursor(State(), obs, settings.updateGameTime);
      if attached && !obs.exited {
        LiveFrame(obs);
      } else if obs.found {
        attached := true;
        info := new QuakeGame.GameInfo();
      } else {
        attached := false;
      }
    }

    /** The live branch of Update: poll the game, publish game time, start or split. */
    method LiveFrame(obs: Observation)
      requires info != null && CursorInRange(timer.State(), eventList[..])
      modifies timer, info
      ensures info.State() == QuakeGame.Tick(old(info.State()), obs.polled)
      ensures timer.State() == LiveTick(old(timer.State()), info.State(), eventList[..], obs.inIntermission, settings.updateGameTime)
    {
      timer.PauseGameTime();
      info.UpdateInfo(obs.polled);
      if obs.inIntermission {
        timer.SetGameTime(info.intermissionTime);
      }
      if LegacyGameInfo.HasOccured(eventList[timer.splitIndex + 1], obs.inIntermission, info.currMap) {
        if timer.phase == NotRunning {
          timer.SetGameTime(0.0);
          timer.Start();
        } else {
          timer.Split();
        }
      }
      if settings.updateGameTime {
        timer.SetGameTime(info.intermissionTime + info.mapTime);
      }
    }

    /** settings_EventsChanged: the event list is rebuilt from the settings. */
    method OnEventsChanged()
      modifies this
      ensures eventList[..] == settings.usedEvents + [LegacyGameInfo.Empty]
      ensures attached == old(attached) && info == old(info)
      ensures SplitterValid(old(State())) ==> SplitterValid(State())
    {
      eventList := settings.GetEventList();
    }

    /** GetSettings: delegated to the settings control. */
    method GetSettings() returns (doc: EventSettings.SettingsDoc)
      requires settings.Valid()
      ensures doc.usedEvents == Some(EventSettings.Ids(settings.usedEvents))
      ensures doc.updateGameTime == Some(EventSettings.BoolText(settings.updateGameTime))
      ensures EventSettings.Load(settings.events, doc.usedEvents.value) == settings.usedEvents
      ensures EventSettings.TryParseBool(doc.updateGameTime.value) == Some(settings.updateGameTime)
    {
      doc := settings.GetSettings();
    }

    /** SetSettings: delegated; when the control raises EventsChanged the list is rebuilt. */
    method SetSettings(doc: EventSettings.SettingsDoc)
      requires settings.Valid()
      modifies this, settings
      ensures settings.Valid()
      ensures doc.usedEvents.Some? ==>
        settings.usedEvents == old(settings.usedEvents) + EventSettings.Load(settings.events, doc.usedEvents.value) &&
        !settings.eventsChanged &&
        eventList[..] == settings.usedEvents + [LegacyGameInfo.Empty]
      ensures doc.usedEvents.None? ==>
        settings.usedEvents == old(settings.usedEvents) && settings.eventsChanged == old(settings.eventsChanged) &&
        eventList == old(eventList)
      ensures settings.updateGameTime == EventSettings.LoadedFlag(old(settings.updateGameTime), doc.updateGameTime)
      ensures attached == old(attached) && info == old(info)
    {
      var raised := settings.SetSettings(doc);
      if raised {
        OnEventsChanged();
      }
    }
  }
}
