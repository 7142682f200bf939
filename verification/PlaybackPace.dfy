/** A replay keeps the proportions of the run: each node appears when its share of the time has passed. */
module PlaybackPace {
  import opened Wrappers
  import opened Totals
  import opened RealArith
  import opened Chronology
  import opened PlaybackSchedule

  /** A run of at most ten seconds is shown in its own time, a longer one in ten seconds: to the nearest
    * millisecond, halves upwards, and never before the first. */
  predicate KeepsPace(entry: int, elapsed: int, total: int) {
    if total <= 10000 then entry == (if elapsed < 1 then 1 else elapsed)
    else if 20000 * elapsed < total then entry == 1
    else total * (2 * entry - 1) <= 20000 * elapsed < total * (2 * entry + 1)
  }

  /** There is one such entry. */
  lemma PaceIsExact(a: int, b: int, elapsed: int, total: int)
    requires total > 0 && KeepsPace(a, elapsed, total) && KeepsPace(b, elapsed, total)
    ensures a == b
  {
    if total > 10000 && 20000 * elapsed >= total {
      NoEntryBetween(a, b, 20000 * elapsed, total);
      NoEntryBetween(b, a, 20000 * elapsed, total);
    }
  }

  lemma LaterEntryReachesFurther(a: int, b: int, total: int)
    requires total > 0 && a < b
    ensures total * (2 * a + 1) <= total * (2 * b - 1)
  {
    var gap := 2 * b - 1 - (2 * a + 1);
    assert total * (2 * b - 1) == total * (2 * a + 1) + total * gap;
    assert total * gap >= 0;
  }

  lemma NoEntryBetween(a: int, b: int, x: int, total: int)
    requires total > 0 && x < total * (2 * a + 1) && total * (2 * b - 1) <= x
    ensures b <= a
  {
    if b > a { LaterEntryReachesFurther(a, b, total); }
  }

  lemma RoundToNearest(x: real)
    ensures Round(x) as real - 0.5 <= x < Round(x) as real + 0.5
  {
  }

  /** The same bounds without the quotient. */
  lemma ScaledBounds(entry: int, elapsed: int, total: int, x: real)
    requires total > 0 && x == elapsed as real * (10000.0 / total as real)
    ensures entry as real - 0.5 <= x <==> total * (2 * entry - 1) <= 20000 * elapsed
    ensures x < entry as real + 0.5 <==> 20000 * elapsed < total * (2 * entry + 1)
  {
    var t := total as real;
    assert x * t == 10000.0 * elapsed as real by { Cancel(elapsed as real, 10000.0, t); }
    InTotals(x, t, entry as real - 0.5);
    InTotals(x, t, entry as real + 0.5);
    ToIntegers(entry, elapsed, total);
    ToIntegers(entry + 1, elapsed, total);
  }

  lemma Cancel(x: real, y: real, t: real)
    requires t != 0.0
    ensures (x * (y / t)) * t == y * x
  {
    var q := y / t;
    assert q * t == y;
    assert (x * q) * t == x * (q * t);
  }

  lemma InTotals(x: real, t: real, y: real)
    requires t > 0.0
    ensures y <= x <==> y * t <= x * t
  {
    if y <= x { ProductMonotone(y, x, t); } else { ProductPositive(y - x, t); }
  }

  lemma ToIntegers(entry: int, elapsed: int, total: int)
    ensures (entry as real - 0.5) * total as real <= 10000.0 * elapsed as real
       <==> total * (2 * entry - 1) <= 20000 * elapsed
  {
    var product := total * entry;
    assert total * (2 * entry - 1) == 2 * product - total;
    assert product as real == total as real * entry as real;
    assert (entry as real - 0.5) * total as real == product as real - 0.5 * total as real;
  }

  lemma EntryKeepsPace(elapsed: int, total: int)
    requires total > 0
    ensures KeepsPace(Entry(elapsed, total), elapsed, total)
  {
    if total <= 10000 {
      assert elapsed as real * Scale(total) == elapsed as real;
    } else {
      var x := elapsed as real * (10000.0 / total as real);
      assert x == elapsed as real * Scale(total);
      RoundToNearest(x);
      ScaledBounds(Round(x), elapsed, total, x);
      ScaledBounds(1, elapsed, total, x);
    }
  }

  // ---- Schedules ----

  /** When each node appears: when it finished, or when it started if it has not. */
  ghost predicate Appear(nodes: seq<TraceNode>, times: seq<int>) {
    && |times| == |nodes|
    && forall i | 0 <= i < |nodes| ::
         if nodes[i].finishedAt.Some? then nodes[i].finishedAt.value == times[i]
         else nodes[i].startedAt == Some(times[i])
  }

  /** The clock starts with the first node, or when that appears if no earlier start of it is known. */
  function ClockStart(nodes: seq<TraceNode>, times: seq<int>): int
    requires nodes != [] && times != []
  {
    match nodes[0].startedAt
    case None => times[0]
    case Some(start) => if start <= times[0] then start else times[0]
  }

  lemma ScheduleByTimes(run: Trace, times: seq<int>)
    requires run.nodes != [] && Appear(run.nodes, times)
    ensures var schedule, start := PlaybackScheduleFor(run), ClockStart(run.nodes, times);
      && (schedule.Some?
          <==> && run.runMode == EventReplay && run.chronology == Completeness.Known
               && (forall i | 0 < i < |times| :: times[i - 1] <= times[i]) && times[|times| - 1] > start)
      && (schedule.Some? ==>
            && |schedule.value| == |run.nodes|
            && forall i | 0 <= i < |times| ::
                 schedule.value[i] == Entry(times[i] - start, times[|times| - 1] - start))
  {
    var nodes := run.nodes;
    var eventTimes := Map(nodes, (n: TraceNode) => if EventTime(n).Some? then EventTime(n).value else 0);
    assert eventTimes == times;
    assert ClockStart(nodes, times) == Origin(nodes, times);
    hide Entry, Origin, ClockStart;
  }

  /** There is a schedule exactly for a replay of nodes that appear in order and take time; each entry keeps
    * pace with the time that has passed when its node appears. */
  lemma ScheduleKeepsPace(run: Trace, times: seq<int>)
    requires run.nodes != [] && Appear(run.nodes, times)
    ensures var schedule, start := PlaybackScheduleFor(run), ClockStart(run.nodes, times);
      && (schedule.Some?
          <==> && run.runMode == EventReplay && run.chronology == Completeness.Known
               && (forall i | 0 < i < |times| :: times[i - 1] <= times[i]) && times[|times| - 1] > start)
      && (schedule.Some? ==>
            && |schedule.value| == |run.nodes|
            && forall i | 0 <= i < |times| ::
                 KeepsPace(schedule.value[i], times[i] - start, times[|times| - 1] - start))
  {
    ScheduleByTimes(run, times);
    hide PlaybackScheduleFor, KeepsPace, Entry, ClockStart;
    var start := ClockStart(run.nodes, times);
    var total := times[|times| - 1] - start;
    if total > 0 {
      forall i | 0 <= i < |times| ensures KeepsPace(Entry(times[i] - start, total), times[i] - start, total) {
        EntryKeepsPace(times[i] - start, total);
      }
    }
  }

  /** Without a time for every node there is no schedule. */
  lemma UntimedHasNoSchedule(run: Trace, i: nat)
    requires i < |run.nodes| && run.nodes[i].finishedAt.None? && run.nodes[i].startedAt.None?
    ensures PlaybackScheduleFor(run).None?
  {
    assert EventTime(run.nodes[i]).None?;
  }

  /** In the replay of a chronology each node appears when its share of the whole duration has passed. */
  lemma ReplayKeepsPace(run: Trace)
    requires run.runMode == EventReplay && run.chronology == Completeness.Known
    requires IsChronology(run.nodes) && ChronologyDuration(run.nodes).Some?
    ensures run.nodes != [] && run.nodes[0].startedAt.Some?
    ensures var schedule, total := PlaybackScheduleFor(run), ChronologyDuration(run.nodes).value;
      && schedule.Some? && |schedule.value| == |run.nodes|
      && forall i | 0 <= i < |run.nodes| ::
           && run.nodes[i].finishedAt.Some?
           && KeepsPace(schedule.value[i], run.nodes[i].finishedAt.value - run.nodes[0].startedAt.value, total)
  {
    hide *;
    DurationOfChronology(run.nodes);
    ScheduleOfChronology(run);
    NodeKeepsPace(run.nodes, 0);
    forall i | 0 <= i < |run.nodes|
      ensures run.nodes[i].finishedAt.Some?
      ensures KeepsPace(EntriesOf(run.nodes)[i],
                        run.nodes[i].finishedAt.value - run.nodes[0].startedAt.value, Elapsed(run.nodes))
    {
      NodeKeepsPace(run.nodes, i);
    }
  }

  lemma NodeKeepsPace(nodes: seq<TraceNode>, i: nat)
    requires IsChronology(nodes) && i < |nodes| && Elapsed(nodes) > 0
    ensures nodes[0].startedAt.Some? && nodes[i].finishedAt.Some?
    ensures KeepsPace(EntriesOf(nodes)[i], nodes[i].finishedAt.value - nodes[0].startedAt.value, Elapsed(nodes))
  {
    hide KeepsPace, Entry;
    assert IsTimed(nodes[0]) && IsTimed(nodes[i]);
    EntryKeepsPace(Finish(nodes[i]) - Start(nodes[0]), Elapsed(nodes));
  }
}
