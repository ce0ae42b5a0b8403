/**
 The map of lit LEDs drawn each frame: every consumed event paints the
 quantised position of its driver in the driver's colour, later events over
 earlier ones.
 */
module LedMap {
  import opened Race
  import opened Schedule
  import opened Playback

  const I64_MIN: int := -0x8000_0000_0000_0000
  const I64_MAX: int := 0x7FFF_FFFF_FFFF_FFFF

  /** The factor positions are multiplied by before truncation. */
  const SCALE_FACTOR: int := 1_000_000

  /** Rounds toward zero. */
  function Truncate(p: real): int
  {
    if p >= 0.0 then p.Floor else -((-p).Floor)
  }

  /**
   Quantises a coordinate: multiplies it by `scale` and converts it to a
   64-bit integer the way a float-to-integer cast does, dropping the fraction
   and saturating at the bounds of the type.
   */
  function ScaleF64(value: real, scale: int): (r: int)
    ensures I64_MIN <= r <= I64_MAX
    ensures 0.0 <= value * scale as real < (I64_MAX + 1) as real ==>
      r as real <= value * scale as real < r as real + 1.0
    ensures (I64_MIN - 1) as real < value * scale as real < 0.0 ==>
      r as real - 1.0 < value * scale as real <= r as real
    ensures value * scale as real >= (I64_MAX + 1) as real ==> r == I64_MAX
    ensures value * scale as real <= (I64_MIN - 1) as real ==> r == I64_MIN
  {
    var t := Truncate(value * scale as real);
    if t > I64_MAX then I64_MAX else if t < I64_MIN then I64_MIN else t
  }

  /**
   The key an event's position is stored under: each coordinate scaled by
   `SCALE_FACTOR` and cut to a 64-bit integer, so that positions closer than
   one millionth share a key once they truncate alike.
   */
  function KeyOf(e: RunRace): (k: CoordKey)
    ensures I64_MIN <= k.0 <= I64_MAX && I64_MIN <= k.1 <= I64_MAX
    ensures 0.0 <= e.xLed * SCALE_FACTOR as real < (I64_MAX + 1) as real ==>
      k.0 as real <= e.xLed * SCALE_FACTOR as real < k.0 as real + 1.0
    ensures 0.0 <= e.yLed * SCALE_FACTOR as real < (I64_MAX + 1) as real ==>
      k.1 as real <= e.yLed * SCALE_FACTOR as real < k.1 as real + 1.0
  {
    (ScaleF64(e.xLed, SCALE_FACTOR), ScaleF64(e.yLed, SCALE_FACTOR))
  }

  /** The colour a driver is drawn in: its table entry, or white when it has none. */
  function ColorOf(colors: ColorTable, driver: U32): (c: Color32)
    ensures c in colors.Values || c == WHITE
    ensures driver in colors ==> c == colors[driver]
    ensures driver !in colors ==> c == WHITE
  {
    if driver in colors then colors[driver] else WHITE
  }

  /**
   The insertion loop: paints each event of `rs` in order into `m`. Nothing
   already painted is removed, and the last event of `rs` always shows.
   */
  function Paint(m: map<CoordKey, Color32>, rs: seq<RunRace>, colors: ColorTable): (r: map<CoordKey, Color32>)
    ensures m.Keys <= r.Keys
    ensures |rs| > 0 ==>
      KeyOf(rs[|rs| - 1]) in r && r[KeyOf(rs[|rs| - 1])] == ColorOf(colors, rs[|rs| - 1].driverNumber)
    decreases |rs|
  {
    if rs == [] then m
    else Paint(m[KeyOf(rs[0]) := ColorOf(colors, rs[0].driverNumber)], rs[1..], colors)
  }

  /** How many events the map is built from: the index, capped at the length of the log. */
  function Consumed(app: PlotApp): (n: nat)
    ensures n <= |app.runRaceData| && n <= app.currentIndex
    ensures n == app.currentIndex || n == |app.runRaceData|
  {
    if app.currentIndex <= |app.runRaceData| then app.currentIndex else |app.runRaceData|
  }

  /**
   The lit LEDs of the current frame, built afresh from the consumed events.
   The map uses only consumed events and the last write wins: a key is lit
   exactly when one of the first `Consumed(app)` events has it, and it shows
   the colour of the highest-index such event, whatever its `date`.
   */
  function LedColors(app: PlotApp): (r: map<CoordKey, Color32>)
    ensures forall i :: 0 <= i < Consumed(app) ==> KeyOf(app.runRaceData[i]) in r
    ensures forall k :: k in r ==> exists i :: (
      && 0 <= i < Consumed(app) && KeyOf(app.runRaceData[i]) == k
      && (forall j :: i < j < Consumed(app) ==> KeyOf(app.runRaceData[j]) != k)
      && r[k] == ColorOf(app.colors, app.runRaceData[i].driverNumber))
  {
    PaintFromEmpty(Take(app.runRaceData, app.currentIndex), app.colors);
    Paint(map[], Take(app.runRaceData, app.currentIndex), app.colors)
  }

  /**
   The fold, characterised: a key is present when it was already in `m` or
   some event of `rs` has it; a key some event has holds the colour of the
   last such event; a key no event has keeps its value from `m`.
   */
  lemma {:induction false} PaintLastWriteWins(m: map<CoordKey, Color32>, rs: seq<RunRace>, colors: ColorTable, k: CoordKey)
    ensures k in Paint(m, rs, colors) <==> k in m || exists i :: 0 <= i < |rs| && KeyOf(rs[i]) == k
    ensures forall i :: 0 <= i < |rs| && KeyOf(rs[i]) == k && (forall j :: i < j < |rs| ==> KeyOf(rs[j]) != k) ==>
      k in Paint(m, rs, colors) && Paint(m, rs, colors)[k] == ColorOf(colors, rs[i].driverNumber)
    ensures k in m && (forall i :: 0 <= i < |rs| ==> KeyOf(rs[i]) != k) ==>
      k in Paint(m, rs, colors) && Paint(m, rs, colors)[k] == m[k]
    decreases |rs|
  {
    if rs != [] {
      var m' := m[KeyOf(rs[0]) := ColorOf(colors, rs[0].driverNumber)];
      var tail := rs[1..];
      PaintLastWriteWins(m', tail, colors, k);
      assert forall i :: 0 < i < |rs| ==> rs[i] == tail[i - 1];
      if exists i :: 0 <= i < |rs| && KeyOf(rs[i]) == k {
        var i :| 0 <= i < |rs| && KeyOf(rs[i]) == k;
        if i > 0 {
          assert KeyOf(tail[i - 1]) == k;
        }
      }
      forall i | 0 <= i < |rs| && KeyOf(rs[i]) == k && (forall j :: i < j < |rs| ==> KeyOf(rs[j]) != k)
        ensures k in Paint(m, rs, colors) && Paint(m, rs, colors)[k] == ColorOf(colors, rs[i].driverNumber)
      {
        if i == 0 {
          assert forall j :: 0 <= j < |tail| ==> KeyOf(tail[j]) != k by {
            forall j | 0 <= j < |tail| ensures KeyOf(tail[j]) != k {
              assert tail[j] == rs[j + 1];
            }
          }
        } else {
          assert tail[i - 1] == rs[i];
          forall j | i - 1 < j < |tail| ensures KeyOf(tail[j]) != k {
            assert tail[j] == rs[j + 1];
          }
        }
      }
    }
  }

  /** The fold characterised for every key, starting from the empty map. */
  lemma PaintFromEmpty(rs: seq<RunRace>, colors: ColorTable)
    ensures forall i :: 0 <= i < |rs| ==> KeyOf(rs[i]) in Paint(map[], rs, colors)
    ensures forall k :: k in Paint(map[], rs, colors) ==> exists i :: (
      && 0 <= i < |rs| && KeyOf(rs[i]) == k
      && (forall j :: i < j < |rs| ==> KeyOf(rs[j]) != k)
      && Paint(map[], rs, colors)[k] == ColorOf(colors, rs[i].driverNumber))
  {
    forall i | 0 <= i < |rs|
      ensures KeyOf(rs[i]) in Paint(map[], rs, colors)
    {
      PaintLastWriteWins(map[], rs, colors, KeyOf(rs[i]));
    }
    forall k | k in Paint(map[], rs, colors)
      ensures exists i :: (
        && 0 <= i < |rs| && KeyOf(rs[i]) == k
        && (forall j :: i < j < |rs| ==> KeyOf(rs[j]) != k)
        && Paint(map[], rs, colors)[k] == ColorOf(colors, rs[i].driverNumber))
    {
      PaintLastWriteWins(map[], rs, colors, k);
      var i := LastWithKey(rs, k);
    }
  }

  /** The index of the last event of `rs` with key `k`, when there is one. */
  function LastWithKey(rs: seq<RunRace>, k: CoordKey): (i: int)
    requires exists i :: 0 <= i < |rs| && KeyOf(rs[i]) == k
    ensures 0 <= i < |rs| && KeyOf(rs[i]) == k
    ensures forall j :: i < j < |rs| ==> KeyOf(rs[j]) != k
    decreases |rs|
  {
    if KeyOf(rs[|rs| - 1]) == k then |rs| - 1
    else
      var i :| 0 <= i < |rs| && KeyOf(rs[i]) == k;
      assert KeyOf(rs[..|rs| - 1][i]) == k;
      LastWithKey(rs[..|rs| - 1], k)
  }

  /**
   A key whose last consumed event belongs to a driver missing from the
   colour table is lit white.
   */
  lemma UnmappedDriverIsWhite(app: PlotApp, i: nat)
    requires i < Consumed(app)
    requires app.runRaceData[i].driverNumber !in app.colors
    requires forall j :: i < j < Consumed(app) ==> KeyOf(app.runRaceData[j]) != KeyOf(app.runRaceData[i])
    ensures KeyOf(app.runRaceData[i]) in LedColors(app)
    ensures LedColors(app)[KeyOf(app.runRaceData[i])] == WHITE
  {
  }

  /**
   The map depends on nothing but the colour table and the consumed events:
   two states that agree on those draw the same LEDs. In particular every
   index at or past the end of the log draws the same map, and building it
   twice from one state gives one map.
   */
  lemma LedColorsDependOnlyOnConsumed(a: PlotApp, b: PlotApp)
    requires a.colors == b.colors
    requires Consumed(a) == Consumed(b)
    requires a.runRaceData[..Consumed(a)] == b.runRaceData[..Consumed(b)]
    ensures LedColors(a) == LedColors(b)
  {
    assert Take(a.runRaceData, a.currentIndex) == a.runRaceData[..Consumed(a)];
    assert Take(b.runRaceData, b.currentIndex) == b.runRaceData[..Consumed(b)];
  }

  /** Past the end of the log the map no longer changes: `take` saturates. */
  lemma LedColorsSaturate(app: PlotApp, index: nat)
    requires app.currentIndex >= |app.runRaceData| && index >= |app.runRaceData|
    ensures LedColors(app.(currentIndex := index)) == LedColors(app)
  {
    LedColorsDependOnlyOnConsumed(app.(currentIndex := index), app);
  }
}
