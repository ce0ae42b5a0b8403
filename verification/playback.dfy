/**
 The replay state machine of `PlotApp`: a race that is started, stopped and
 advanced one recorded event at a time as wall-clock time passes. Every
 reading of the clock is an explicit `now` argument, in milliseconds.
 */
module Playback {
  import opened Race
  import opened Schedule

  /**
   The application state. `currentIndex` counts the events consumed so far;
   `nextUpdateTime` is the instant at which the next event falls due.
   The index is not kept within the event log: once the last event has been
   consumed it goes on growing, one step per due tick.
   */
  datatype PlotApp = PlotApp(
    coordinates: seq<LedCoordinate>,
    runRaceData: seq<RunRace>,
    startDatetime: int,
    raceStarted: bool,
    colors: ColorTable,
    currentIndex: nat,
    nextUpdateTime: int)

  /**
   The schedule every reachable state keeps: the deadline is the start
   instant plus the due offset of the event at the index, or of the last
   event once the index has run past the end. With no events the deadline is
   whatever instant it was first given.
   */
  predicate Scheduled(app: PlotApp)
  {
    var data := app.runRaceData;
    |data| > 0 ==>
      app.nextUpdateTime == app.startDatetime + Elapsed(data, if app.currentIndex < |data| then app.currentIndex else |data| - 1)
  }

  /**
   Recomputes the deadline while the index still names an event; past the
   end it leaves the state exactly as it was.
   */
  function CalculateNextUpdateTime(app: PlotApp): (r: PlotApp)
    ensures app.currentIndex < |app.runRaceData| ==>
      r == app.(nextUpdateTime := app.startDatetime + Elapsed(app.runRaceData, app.currentIndex))
    ensures app.currentIndex >= |app.runRaceData| ==> r == app
  {
    if app.currentIndex < |app.runRaceData| then
      SumOfTakeIsElapsed(app.runRaceData, app.currentIndex);
      app.(nextUpdateTime := app.startDatetime + SumTimeDeltas(Take(app.runRaceData, app.currentIndex + 1)))
    else
      app
  }

  /**
   Builds the application, stopped at the first event. The clock is read
   twice: `startNow` becomes the start instant, `deadlineNow` the deadline
   that stands when there is no event to schedule.
   */
  function New(coordinates: seq<LedCoordinate>, runRaceData: seq<RunRace>, colors: ColorTable,
               startNow: int, deadlineNow: int): (r: PlotApp)
    ensures r.coordinates == coordinates && r.runRaceData == runRaceData && r.colors == colors
    ensures !r.raceStarted && r.currentIndex == 0 && r.startDatetime == startNow
    ensures |runRaceData| > 0 ==> r.nextUpdateTime == startNow + runRaceData[0].timeDelta
    ensures |runRaceData| == 0 ==> r.nextUpdateTime == deadlineNow
    ensures Scheduled(r)
  {
    CalculateNextUpdateTime(PlotApp(coordinates, runRaceData, startNow, false, colors, 0, deadlineNow))
  }

  /** Stops the race and rewinds it to the first event, restarting the clock at `now`. */
  function Reset(app: PlotApp, now: int): (r: PlotApp)
    ensures r == app.(raceStarted := false, currentIndex := 0, startDatetime := now,
                      nextUpdateTime := if |app.runRaceData| > 0 then now + app.runRaceData[0].timeDelta else app.nextUpdateTime)
    ensures Scheduled(r)
  {
    CalculateNextUpdateTime(app.(startDatetime := now, raceStarted := false, currentIndex := 0))
  }

  /**
   The START button: (re)starts the race from the first event with the clock
   started at `now`, discarding any replay in progress.
   */
  function StartRace(app: PlotApp, now: int): (r: PlotApp)
    ensures r == app.(raceStarted := true, currentIndex := 0, startDatetime := now,
                      nextUpdateTime := if |app.runRaceData| > 0 then now + app.runRaceData[0].timeDelta else app.nextUpdateTime)
    ensures r == Reset(app, now).(raceStarted := true)
    ensures Scheduled(r)
  {
    CalculateNextUpdateTime(app.(raceStarted := true, startDatetime := now, currentIndex := 0))
  }

  /**
   The per-frame tick. While the race runs and the deadline has been
   reached, it consumes exactly one event, however many deadlines have
   passed, and reschedules only if the new index still names an event.
   */
  function UpdateRace(app: PlotApp, now: int): (r: PlotApp)
    ensures !app.raceStarted ==> r == app
    ensures r.currentIndex == app.currentIndex || r.currentIndex == app.currentIndex + 1
    ensures r.currentIndex == app.currentIndex + 1 <==> app.raceStarted && now >= app.nextUpdateTime
    ensures r.currentIndex == app.currentIndex ==> r == app
    ensures r == app.(currentIndex := r.currentIndex, nextUpdateTime := r.nextUpdateTime)
    ensures r.currentIndex >= |app.runRaceData| ==> r.nextUpdateTime == app.nextUpdateTime
    ensures r.currentIndex < |app.runRaceData| && r.currentIndex != app.currentIndex ==>
      r.nextUpdateTime == app.startDatetime + Elapsed(app.runRaceData, r.currentIndex)
    ensures Scheduled(app) ==> Scheduled(r)
  {
    if app.raceStarted && now >= app.nextUpdateTime then
      var advanced := app.(currentIndex := app.currentIndex + 1);
      if advanced.currentIndex < |app.runRaceData| then CalculateNextUpdateTime(advanced) else advanced
    else
      app
  }

  /**
   Replay is synchronised with the clock: in a scheduled state whose index
   names an event, a running tick consumes that event exactly when `now`
   has reached the instant the event falls due.
   */
  lemma TickConsumesOnlyDueEvents(app: PlotApp, now: int)
    requires Scheduled(app) && app.raceStarted && app.currentIndex < |app.runRaceData|
    ensures UpdateRace(app, now).currentIndex > app.currentIndex
        <==> now >= app.startDatetime + Elapsed(app.runRaceData, app.currentIndex)
  {
  }

  /**
   For the same start instant, the deadline computed at a later index is
   never earlier than the one computed at an earlier index.
   */
  lemma {:induction false} DeadlineMonotoneInIndex(app: PlotApp, i: nat, j: nat)
    requires i <= j < |app.runRaceData|
    ensures CalculateNextUpdateTime(app.(currentIndex := i)).nextUpdateTime
         <= CalculateNextUpdateTime(app.(currentIndex := j)).nextUpdateTime
  {
    ElapsedMonotone(app.runRaceData, i, j);
  }

  /** The controls that reach the state machine: a frame tick and the two buttons. */
  datatype Control = Tick(now: int) | Start(now: int) | Stop(now: int)

  /** The effect of one control. */
  function Step(app: PlotApp, c: Control): PlotApp
  {
    match c
    case Tick(now) => UpdateRace(app, now)
    case Start(now) => StartRace(app, now)
    case Stop(now) => Reset(app, now)
  }

  /** The state after a sequence of controls, applied in order. */
  function Run(app: PlotApp, cs: seq<Control>): PlotApp
    decreases |cs|
  {
    if cs == [] then app else Run(Step(app, cs[0]), cs[1..])
  }

  /**
   Every state reached from construction keeps the schedule, and the layout,
   the event log and the colour table never change.
   */
  lemma {:induction false} RunKeepsSchedule(app: PlotApp, cs: seq<Control>)
    requires Scheduled(app)
    ensures Scheduled(Run(app, cs))
    ensures Run(app, cs).coordinates == app.coordinates
    ensures Run(app, cs).runRaceData == app.runRaceData
    ensures Run(app, cs).colors == app.colors
    decreases |cs|
  {
    if cs != [] {
      RunKeepsSchedule(Step(app, cs[0]), cs[1..]);
    }
  }

  /** Every state reachable from `New` keeps the schedule. */
  lemma ReachableIsScheduled(coordinates: seq<LedCoordinate>, runRaceData: seq<RunRace>, colors: ColorTable,
                             startNow: int, deadlineNow: int, cs: seq<Control>)
    ensures Scheduled(Run(New(coordinates, runRaceData, colors, startNow, deadlineNow), cs))
  {
    RunKeepsSchedule(New(coordinates, runRaceData, colors, startNow, deadlineNow), cs);
  }

  /**
   Ticks alone never rewind the replay, and each tick consumes at most one
   event; only START and STOP set the index back.
   */
  lemma {:induction false} TicksNeverRewind(app: PlotApp, cs: seq<Control>)
    requires forall i :: 0 <= i < |cs| ==> cs[i].Tick?
    ensures app.currentIndex <= Run(app, cs).currentIndex <= app.currentIndex + |cs|
    decreases |cs|
  {
    if cs != [] {
      TicksNeverRewind(Step(app, cs[0]), cs[1..]);
    }
  }

  /** If the index went back, a START or a STOP was among the controls. */
  lemma OnlyButtonsRewind(app: PlotApp, cs: seq<Control>)
    requires Run(app, cs).currentIndex < app.currentIndex
    ensures exists i :: 0 <= i < |cs| && (cs[i].Start? || cs[i].Stop?)
  {
    if forall i :: 0 <= i < |cs| ==> cs[i].Tick? {
      TicksNeverRewind(app, cs);
    }
  }

  /** After STOP, ticks do nothing until START is pressed. */
  lemma {:induction false} StoppedTicksAreIdle(app: PlotApp, stopNow: int, cs: seq<Control>)
    requires forall i :: 0 <= i < |cs| ==> cs[i].Tick?
    ensures Run(Reset(app, stopNow), cs) == Reset(app, stopNow)
  {
    StoppedRunIsIdle(Reset(app, stopNow), cs);
  }

  lemma {:induction false} StoppedRunIsIdle(app: PlotApp, cs: seq<Control>)
    requires !app.raceStarted
    requires forall i :: 0 <= i < |cs| ==> cs[i].Tick?
    ensures Run(app, cs) == app
    decreases |cs|
  {
    if cs != [] {
      StoppedRunIsIdle(Step(app, cs[0]), cs[1..]);
    }
  }
}
