/**
 One frame of the application: the tick, then the two buttons, then the map
 of lit LEDs that the frame draws. Each reading of the clock during the frame
 is a separate argument.
 */
module Frame {
  import opened Race
  import opened Playback
  import opened LedMap

  /** Whether a button was clicked during the frame, and when the clock was read for it. */
  datatype Click = NotClicked | Clicked(now: int)

  /** What happens during one frame. */
  datatype FrameInput = FrameInput(tickNow: int, start: Click, stop: Click)

  /** The state after the frame and the LEDs it lights. */
  datatype FrameOutput = FrameOutput(app: PlotApp, ledColors: map<CoordKey, Color32>)

  /**
   One frame: tick at `tickNow`, then START if clicked, then STOP if clicked,
   then the lit map of the resulting state.
   */
  function Update(app: PlotApp, input: FrameInput): (r: FrameOutput)
    ensures input.stop.Clicked? ==>
      !r.app.raceStarted && r.app.currentIndex == 0 && r.app.startDatetime == input.stop.now && r.ledColors == map[]
    ensures input.stop.NotClicked? && input.start.Clicked? ==>
      r.app.raceStarted && r.app.currentIndex == 0 && r.app.startDatetime == input.start.now && r.ledColors == map[]
    ensures input.stop.NotClicked? && input.start.NotClicked? ==> r.app == UpdateRace(app, input.tickNow)
    ensures input.stop.NotClicked? && input.start.NotClicked? ==>
      (r.app.currentIndex == app.currentIndex + 1 <==> app.raceStarted && input.tickNow >= app.nextUpdateTime)
    ensures r.app.runRaceData == app.runRaceData && r.app.colors == app.colors && r.app.coordinates == app.coordinates
    ensures Scheduled(app) ==> Scheduled(r.app)
    ensures r.ledColors == LedColors(r.app)
    ensures forall k :: k in r.ledColors <==>
      exists i :: 0 <= i < Consumed(r.app) && KeyOf(app.runRaceData[i]) == k
  {
    var ticked := UpdateRace(app, input.tickNow);
    var started := match input.start
      case Clicked(now) => StartRace(ticked, now)
      case NotClicked => ticked;
    var stopped := match input.stop
      case Clicked(now) => Reset(started, now)
      case NotClicked => started;
    FrameOutput(stopped, LedColors(stopped))
  }

  /** The replay of a two-event log in which both drivers pass the same LED. */
  const RED: Color32 := FromRgb(220, 0, 0)
  const BLUE: Color32 := FromRgb(30, 65, 255)

  function TwoEventLog(): seq<RunRace>
  {
    [RunRace(0, 5, 0.0, 0.0, 100), RunRace(1, 7, 0.0, 0.0, 50)]
  }

  /**
   Started at `t`, ticked at `t + 100` and `t + 150`: both events are
   consumed, the LED at the origin shows the later driver's colour, and it is
   the only LED lit. A tick one millisecond before the first deadline
   consumes nothing.
   */
  lemma LaterDriverWinsScenario(t: int, t0: int, t1: int)
    ensures var app := StartRace(New([LedCoordinate(0.0, 0.0), LedCoordinate(1.0, 0.0), LedCoordinate(0.0, 1.0)],
                                     TwoEventLog(), map[5 := RED, 7 := BLUE], t0, t1), t);
            && UpdateRace(app, t + 99) == app
            && var done := UpdateRace(UpdateRace(app, t + 100), t + 150);
            && done.currentIndex == 2
            && LedColors(done) == map[(0, 0) := BLUE]
  {
  }
}
