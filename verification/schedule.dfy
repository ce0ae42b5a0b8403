/**
 When each recorded event falls due, relative to the instant the replay
 started: the running total of the events' `timeDelta` gaps.
 */
module Schedule {
  import opened Race

  /** The events `iter().take(n)` visits: the first `n`, or all of them when there are fewer. */
  function Take(data: seq<RunRace>, n: nat): (r: seq<RunRace>)
    ensures |r| <= n && |r| <= |data|
    ensures n <= |data| ==> |r| == n
    ensures n >= |data| ==> r == data
    ensures forall i :: 0 <= i < |r| ==> r[i] == data[i]
  {
    if n <= |data| then data[..n] else data
  }

  /**
   The accumulation loop of the deadline computation: it adds the events'
   gaps one after the other, starting from zero. The gaps are unsigned, so
   the total is at least every single gap.
   */
  function SumTimeDeltas(rs: seq<RunRace>): (total: nat)
    ensures forall i :: 0 <= i < |rs| ==> rs[i].timeDelta <= total
  {
    if rs == [] then 0 else rs[0].timeDelta + SumTimeDeltas(rs[1..])
  }

  /**
   The instant, in milliseconds after the start of the replay, at which the
   event at index `i` falls due: its own gap added to the due instant of the
   event before it. The first event is due its own gap after the start.
   */
  function Elapsed(data: seq<RunRace>, i: nat): nat
    requires i < |data|
  {
    if i == 0 then data[0].timeDelta else Elapsed(data, i - 1) + data[i].timeDelta
  }

  lemma {:induction false} SumTimeDeltasAppend(rs: seq<RunRace>, e: RunRace)
    ensures SumTimeDeltas(rs + [e]) == SumTimeDeltas(rs) + e.timeDelta
    decreases |rs|
  {
    if rs == [] {
      assert rs + [e] == [e];
    } else {
      assert (rs + [e])[1..] == rs[1..] + [e];
      SumTimeDeltasAppend(rs[1..], e);
    }
  }

  /**
   Summing the gaps of the first `i + 1` events, front to back, gives the
   instant the event at index `i` falls due.
   */
  lemma {:induction false} SumOfTakeIsElapsed(data: seq<RunRace>, i: nat)
    requires i < |data|
    ensures SumTimeDeltas(Take(data, i + 1)) == Elapsed(data, i)
    decreases i
  {
    if i == 0 {
      assert Take(data, 1) == [data[0]];
    } else {
      SumOfTakeIsElapsed(data, i - 1);
      assert Take(data, i + 1) == Take(data, i) + [data[i]];
      SumTimeDeltasAppend(Take(data, i), data[i]);
    }
  }

  /**
   Gaps are unsigned, so a later event never falls due before an earlier one,
   and the gap between the two due instants is the sum of the later gaps.
   */
  lemma {:induction false} ElapsedMonotone(data: seq<RunRace>, i: nat, j: nat)
    requires i <= j < |data|
    ensures Elapsed(data, i) <= Elapsed(data, j)
    ensures Elapsed(data, j) - Elapsed(data, i) == SumTimeDeltas(data[i + 1..j + 1])
    decreases j
  {
    if i == j {
      assert data[i + 1..j + 1] == [];
    } else {
      ElapsedMonotone(data, i, j - 1);
      assert data[i + 1..j + 1] == data[i + 1..j] + [data[j]];
      SumTimeDeltasAppend(data[i + 1..j], data[j]);
    }
  }
}
