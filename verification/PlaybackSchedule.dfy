/** When the client shows each node of a replay (`playbackScheduleFor`, `eventTime`). */
module PlaybackSchedule {
  import opened Wrappers
  import opened Totals
  import opened RealArith
  import opened Chronology

  function EventTime(n: TraceNode): Option<int> {
    if n.finishedAt.Some? then n.finishedAt else n.startedAt
  }

  /** `Math.round`: halves go up. */
  function Round(x: real): int { (x + 0.5).Floor }

  const LONGEST := 10000

  function Scale(total: int): real
    requires total > 0
  {
    if total > LONGEST then LONGEST as real / total as real else 1.0
  }

  function Entry(elapsed: int, total: int): int
    requires total > 0
  {
    var shown := Round(elapsed as real * Scale(total));
    if shown < 1 then 1 else shown
  }

  function Origin(nodes: seq<TraceNode>, times: seq<int>): int
    requires nodes != [] && times != []
  {
    if nodes[0].startedAt.Some? && nodes[0].startedAt.value < times[0] then nodes[0].startedAt.value else times[0]
  }

  function PlaybackScheduleFor(run: Trace): Option<seq<int>> {
    if run.runMode != EventReplay || run.chronology != Completeness.Known || run.nodes == [] then None
    else if exists i :: 0 <= i < |run.nodes| && EventTime(run.nodes[i]).None? then None
    else
      var times := Map(run.nodes, (n: TraceNode) => if EventTime(n).Some? then EventTime(n).value else 0);
      if exists i :: 0 < i < |times| && times[i] < times[i - 1] then None
      else
        var origin := Origin(run.nodes, times);
        var total := times[|times| - 1] - origin;
        if total <= 0 then None else Some(Map(times, t => Entry(t - origin, total)))
  }

  lemma RoundMonotone(x: real, y: real)
    requires x <= y
    ensures Round(x) <= Round(y)
  {
  }

  lemma ScaleFacts(total: int)
    requires total > 0
    ensures Scale(total) >= 0.0
    ensures total as real * Scale(total) == if total > LONGEST then LONGEST as real else total as real
  {
    LeDiv(0.0, LONGEST as real, total as real);
  }

  lemma EntryMonotone(a: int, b: int, total: int)
    requires a <= b && total > 0
    ensures Entry(a, total) <= Entry(b, total)
  {
    ScaleFacts(total);
    hide Scale;
    ProductMonotone(a as real, b as real, Scale(total));
    RoundMonotone(a as real * Scale(total), b as real * Scale(total));
  }

  /** Later times are shown no earlier, and the whole is shown within ten seconds. */
  lemma EntryBounds(a: int, b: int, total: int)
    requires 0 <= a <= b <= total && total > 0
    ensures 1 <= Entry(a, total) <= Entry(b, total) <= LONGEST
    ensures Entry(total, total) == if total > LONGEST then LONGEST else total
  {
    EntryMonotone(a, b, total);
    EntryMonotone(b, total, total);
    ScaleFacts(total);
    hide Scale;
    assert Round(total as real * Scale(total)) == if total > LONGEST then LONGEST else total;
  }

  ghost predicate IsSchedule(s: seq<int>, n: nat) {
    && |s| == n
    && (forall i | 0 <= i < n :: 1 <= s[i] <= LONGEST)
    && (forall i, j | 0 <= i <= j < n :: s[i] <= s[j])
  }

  /** The entries of a complete chronology. */
  function EntriesOf(nodes: seq<TraceNode>): (s: seq<int>)
    requires nodes != [] && Elapsed(nodes) > 0
    ensures |s| == |nodes| && forall i | 0 <= i < |nodes| ::
              s[i] == Entry(Finish(nodes[i]) - Start(nodes[0]), Elapsed(nodes))
  {
    seq(|nodes|, i requires 0 <= i < |nodes| => Entry(Finish(nodes[i]) - Start(nodes[0]), Elapsed(nodes)))
  }

  lemma TimesOfReplay(nodes: seq<TraceNode>)
    requires IsChronology(nodes) && nodes != []
    ensures forall i | 0 <= i < |nodes| :: EventTime(nodes[i]) == Some(Finish(nodes[i]))
    ensures forall i | 0 < i < |nodes| :: Finish(nodes[i - 1]) <= Finish(nodes[i])
    ensures nodes[0].startedAt == Some(Start(nodes[0])) && Start(nodes[0]) <= Finish(nodes[0])
  {
    assert IsTimed(nodes[0]);
    forall i | 0 <= i < |nodes| ensures EventTime(nodes[i]) == Some(Finish(nodes[i])) { assert IsTimed(nodes[i]); }
    forall i | 0 < i < |nodes| ensures Finish(nodes[i - 1]) <= Finish(nodes[i]) { NodesAreDisjoint(nodes, i - 1, i); }
  }

  lemma ScheduleOfChronology(run: Trace)
    requires run.runMode == EventReplay && run.chronology == Completeness.Known
    requires IsChronology(run.nodes) && run.nodes != [] && Elapsed(run.nodes) > 0
    ensures PlaybackScheduleFor(run) == Some(EntriesOf(run.nodes))
  {
    var nodes := run.nodes;
    TimesOfReplay(nodes);
    hide IsChronology, Entry, EventTime;
    var times := Map(nodes, (n: TraceNode) => if EventTime(n).Some? then EventTime(n).value else 0);
    assert forall i | 0 <= i < |nodes| :: times[i] == Finish(nodes[i]);
    assert Origin(nodes, times) == Start(nodes[0]);
    var origin, total := Start(nodes[0]), Elapsed(nodes);
    assert total == times[|times| - 1] - origin;
    assert Map(times, t => Entry(t - origin, total)) == EntriesOf(nodes);
  }

  lemma EntriesAreASchedule(nodes: seq<TraceNode>)
    requires IsChronology(nodes) && nodes != [] && Elapsed(nodes) > 0
    ensures IsSchedule(EntriesOf(nodes), |nodes|)
    ensures EntriesOf(nodes)[|nodes| - 1] == if Elapsed(nodes) > LONGEST then LONGEST else Elapsed(nodes)
  {
    hide IsChronology, Entry, Start, Finish;
    var s, origin := EntriesOf(nodes), Start(nodes[0]);
    forall i, j | 0 <= i <= j < |s| ensures 1 <= s[i] <= s[j] <= LONGEST {
      FirstAndLast(nodes, i);
      FirstAndLast(nodes, j);
      if i < j { NodesAreDisjoint(nodes, i, j); }
      EntryBounds(Finish(nodes[i]) - origin, Finish(nodes[j]) - origin, Elapsed(nodes));
    }
    EntryBounds(Elapsed(nodes), Elapsed(nodes), Elapsed(nodes));
  }

  /** Whatever the server marks as an event replay can be played: one entry for each node, in order,
    * between one millisecond and ten seconds, and the last one where the run ends. */
  lemma EveryReplayHasASchedule(run: Trace)
    requires run.runMode == EventReplay && run.chronology == Completeness.Known
    requires IsChronology(run.nodes) && ChronologyDuration(run.nodes).Some?
    ensures PlaybackScheduleFor(run).Some? && IsSchedule(PlaybackScheduleFor(run).value, |run.nodes|)
    ensures var s, total := PlaybackScheduleFor(run).value, ChronologyDuration(run.nodes).value;
            s[|s| - 1] == if total > LONGEST then LONGEST else total
  {
    hide PlaybackScheduleFor, ChronologyDuration, IsChronology, EntriesOf;
    DurationOfChronology(run.nodes);
    ScheduleOfChronology(run);
    EntriesAreASchedule(run.nodes);
  }

  /** The server's mode and the client's schedule agree. */
  method ProjectAndSchedule(nodes: seq<TraceNode>, accepted: Option<nat>, persistedNodes: bool)
    returns (run: Trace, schedule: Option<seq<int>>)
    ensures schedule.Some? <==> run.runMode == EventReplay
    ensures schedule.Some? ==> IsSchedule(schedule.value, |nodes|)
  {
    run := ProjectTrace(nodes, accepted, persistedNodes);
    schedule := PlaybackScheduleFor(run);
    if run.runMode == EventReplay { EveryReplayHasASchedule(run); }
  }

  method PublishAndSchedule(trace: Trace, p: Publication) returns (run: Option<Trace>, schedule: Option<seq<int>>)
    ensures run.Some? ==> (schedule.Some? <==> run.value.runMode == EventReplay)
    ensures run.Some? && schedule.Some? ==> IsSchedule(schedule.value, |run.value.nodes|)
    ensures ValidPublication(p) && p.deliveryStatus == DeliveryPending ==> schedule.None?
  {
    run := AppendPublicationNodes(trace, p);
    if run.None? {
      return None, None;
    }
    schedule := PlaybackScheduleFor(run.value);
    if run.value.runMode == EventReplay {
      EveryReplayHasASchedule(run.value);
    }
    if ValidPublication(p) && p.deliveryStatus == DeliveryPending { PendingNeverReplays(trace.nodes, p); }
  }
}
