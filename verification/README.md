# F1 LED circuit replay: a Dafny model

This project models the replay engine of the F1 LED circuit simulation, `PlotApp` in
`src/main.rs`. The engine replays a recorded race onto a map of track LEDs. The race is a
sequence of events (`RunRace`). Each event holds a driver number, a position, and
`time_delta`, the gap in milliseconds since the previous event. After START, the engine
consumes one event each time wall-clock time passes the event's deadline. Every frame it
rebuilds the map of lit LEDs from the events consumed so far.

The model is split into five modules:

- `Race` (`race.dfy`): the records. `RunRace` is an event, `LedCoordinate` is an LED of the
  layout, and `Color32` is a colour. The colour table is a `map<U32, Color32>` and `WHITE`
  is its fallback colour.
- `Schedule` (`schedule.dfy`): when each event falls due. `SumTimeDeltas` is the summing
  loop of `calculate_next_update_time`. `Elapsed(data, i)` is the reference definition of
  the same quantity: the due offset of event `i`, given as a recurrence.
- `Playback` (`playback.dfy`): the state machine. It holds the `PlotApp` record and its
  transitions: `New`, `Reset` (STOP), `StartRace` (START), `UpdateRace` (the tick) and
  `CalculateNextUpdateTime`. `Scheduled` is the deadline invariant that every reachable
  state keeps. `Run` applies a sequence of ticks and button presses in order.
- `LedMap` (`led_map.dfy`): the lit map. `ScaleF64` and `KeyOf` quantise a position to an
  integer key. `ColorOf` looks up a driver's colour. `Paint` is the insertion loop and
  `LedColors` is the map one frame draws.
- `Frame` (`frame.dfy`): one call of `update`. It runs the tick, then the START handler,
  then the STOP handler, and then builds the lit map. This module also holds a worked
  two-driver scenario.

Time is an integer count of milliseconds. Each read of the clock (`Utc::now()`) is an
argument of the transition that makes it. `new` reads the clock twice, so `New` takes two
instants. The first is the start time. The second is the deadline that stands when there
is no event to schedule.

Three behaviours of the code are easy to misread, and the model follows the code in each:

- The code does not keep `current_index` within the event log. After the last event is
  consumed, the deadline is no longer recomputed (src/main.rs:78). Each later running tick
  therefore finds the deadline passed and increments the index again. So the invariant
  `Scheduled` uses the index capped at the last event, and the lit map uses the index
  capped at the log length (`Consumed`).
- STOP sets the deadline to `now` plus the `time_delta` of the first event, not to `now`.
  When there are no events, it leaves the deadline unchanged.
- The code divides by the layout's width and height with no zero guard
  (src/main.rs:144-145, 158-159). This is floating-point drawing code, which the model
  leaves out.

## Model

| member | source | states |
|---|---|---|
| `Schedule.Take` | src/main.rs:132 | The events `iter().take(n)` visits, both here and in the summing loop at line 65: the first `n` events in order, or the whole log when `n` is at least its length. |
| `Schedule.SumTimeDeltas` | src/main.rs:64-67 | The summing loop adds the gaps front to back. Because gaps are unsigned, the total is at least every single gap. |
| `Schedule.SumOfTakeIsElapsed` | src/main.rs:64-67 | The summing loop over the first `i + 1` events gives exactly the due offset `Elapsed(data, i)` of event `i`. |
| `Schedule.ElapsedMonotone` | src/main.rs:64-68 | Gaps are unsigned, so a later event is never due before an earlier one. The difference between two due offsets is the sum of the gaps between the two events. |
| `Playback.CalculateNextUpdateTime` | src/main.rs:62-70 | If the index names an event, the deadline becomes the start time plus that event's due offset, and no other field changes. If the index is at or past the end, the state is returned unchanged. |
| `Playback.New` | src/main.rs:39-51 | Construction gives a stopped race at index 0 whose start time is the first clock read. The deadline is the start time plus the first gap. With no events, the deadline is the second clock read. The result is scheduled. |
| `Playback.Reset` | src/main.rs:54-60 | STOP clears `race_started`, sets the index to 0 and restarts the clock at `now`. The deadline becomes `now` plus the first gap, or stays unchanged when there are no events. Nothing else changes, and the result is scheduled. |
| `Playback.StartRace` | src/main.rs:115-121 | START gives the same state as STOP at the same instant, except that `race_started` is true. The result is scheduled. |
| `Playback.UpdateRace` | src/main.rs:72-83 | A tick while stopped changes nothing. Otherwise the index grows by exactly one if and only if `now` has reached the deadline, and by nothing else. Only the index and the deadline can change. The deadline is recomputed only while the new index names an event. A tick keeps the schedule invariant. |
| `Playback.TickConsumesOnlyDueEvents` | src/main.rs:72-83 | In a scheduled running state whose index names an event, a tick consumes that event if and only if `now` has reached the start time plus the event's due offset. |
| `Playback.DeadlineMonotoneInIndex` | src/main.rs:62-70 | For the same start time, the deadline computed at a larger index is never earlier than the one computed at a smaller index. |
| `Playback.RunKeepsSchedule` | src/main.rs:54-83 | Any sequence of ticks, STARTs and STOPs keeps the deadline invariant. The layout, the event log and the colour table never change. |
| `Playback.ReachableIsScheduled` | src/main.rs:39-83 | Every state reachable from construction satisfies the deadline invariant. |
| `Playback.TicksNeverRewind` | src/main.rs:72-83 | Ticks alone never decrease the index. Each tick raises it by at most one. |
| `Playback.OnlyButtonsRewind` | src/main.rs:115-124 | If the index went down over a sequence of controls, the sequence contained a START or a STOP. |
| `Playback.StoppedRunIsIdle` | src/main.rs:72-73 | Any number of ticks on a stopped race leaves the state unchanged. |
| `Playback.StoppedTicksAreIdle` | src/main.rs:54-83 | After STOP, ticks do nothing until START is pressed. |
| `LedMap.ScaleF64` | src/main.rs:85-87 | Quantisation multiplies by the scale and truncates toward zero. The result lies within the 64-bit signed range, and values beyond that range saturate to its bounds. |
| `LedMap.Consumed` | src/main.rs:132 | The map is built from at most the index and at most the log length. It uses the index until the index passes the end of the log. |
| `LedMap.PaintLastWriteWins` | src/main.rs:132-141 | After the insertion loop, a key is present if and only if it was present before or some event has it. It holds the colour of the last event with that key. A key that no event has keeps its old value. |
| `LedMap.KeyOf` | src/main.rs:135-138 | An event's key is its two coordinates scaled by 1,000,000 and truncated. Each component lies in the 64-bit signed range, and for an in-range non-negative coordinate it is the whole part of the scaled value. |
| `LedMap.ColorOf` | src/main.rs:133 | A driver's colour is its table entry. A driver missing from the table gets WHITE. Either way the colour is a table colour or WHITE. |
| `LedMap.Paint` | src/main.rs:132-141 | The insertion loop never removes a key already present, and the last event it inserts always shows its driver's colour at its key. |
| `LedMap.PaintFromEmpty` | src/main.rs:129-141 | Starting from an empty map, the loop lights the key of every event it visits, and each lit key shows the colour of the last event with that key. |
| `LedMap.LedColors` | src/main.rs:129-141 | The lit map of a state. The key of every consumed event, meaning one of the first `Consumed` events, is lit. Every lit key shows the colour of the highest-index consumed event with that key, whatever that event's `date` says. That colour is therefore a table colour or WHITE, and no unconsumed event has any effect. |
| `LedMap.UnmappedDriverIsWhite` | src/main.rs:133 | A key whose last consumed event belongs to a driver missing from the colour table is lit white. |
| `LedMap.LedColorsDependOnlyOnConsumed` | src/main.rs:129-141 | Two states with the same colour table and the same consumed events draw the same map. So building the map twice from one state gives the same map. |
| `LedMap.LedColorsSaturate` | src/main.rs:132 | Every index at or past the end of the log draws the same map. |
| `Frame.Update` | src/main.rs:91-141 | A frame with STOP clicked ends stopped at index 0 with nothing lit. A frame with only START clicked ends running at index 0 with nothing lit. A frame with no click is exactly one tick: the index advances if and only if the race runs and `now` has reached the deadline. Each frame keeps the schedule and the static data. The map drawn is the lit map of the state after the frame, so a key is lit if and only if a consumed event has it. |
| `Frame.LaterDriverWinsScenario` | src/main.rs:72-141 | Take two events at the origin, for drivers 5 and 7, with gaps of 100 and 50. START at `t`, then tick at `t + 100` and at `t + 150`. Both events are consumed and the origin alone is lit, in driver 7's colour. A tick at `t + 99` does nothing. |

## Left out

- CSV ingestion (`read_coordinates`, `read_race_data`) and the serde derives: these are file I/O and library parsing. The model takes the loaded sequences as given.
- Drawing: the panels, buttons, painter and rectangles, and `request_repaint`. Button clicks appear only as calls to `StartRace` and `Reset`.
- The bounding-box folds and the normalisation of positions to screen coordinates. These are floating-point drawing code. The code does not guard against a zero extent, and the result is floating-point, so the model does not cover it.
- The timestamp label: it formats the `date` of the event at the index with a library formatter.
- `start_time: Instant`: the code writes it but no logic reads it.
- The concrete colour table of `main`. It is static data, so the model takes the table as a parameter.
- `LedMap.ScaleF64`: positions are `real` rather than `f64`. The product `value * scale` is therefore exact, and the rounding of the float multiplication and the NaN case of the cast are not modelled.
- `Playback.CalculateNextUpdateTime`: the running total is an unbounded integer. The model does not model `u64` overflow of the total, nor the panic of adding an out-of-range `Duration` to a `DateTime`. Both are far beyond the length of a recorded race.
- `Playback.UpdateRace`: the index is an unbounded natural number. The model does not model `usize` overflow of `current_index`.
- Clock resolution: `Utc::now()` and `DateTime<Utc>` are finer than a millisecond, but the model counts time in whole milliseconds. The due test at src/main.rs:76 is therefore decided on a coarser grid, and a tick can fall one frame earlier or later than in the code.
