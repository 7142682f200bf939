/** When a trace can be replayed: the nodes have complete times in order (`hasCompleteNodeChronology`,
  * `chronologyDurationMs`, `projectTraceRows`, `appendPublicationNodes`). Times are milliseconds. */
module Chronology {
  import opened Wrappers
  import opened Totals
  import opened References

  datatype StageName = SettleClaimAuthority | ComposeNarrative | SealAuthority | PublishProjection | DeliverPublication
                     | OtherStage(name: string)

  /** A node with its times after parsing; `None` for an absent or unreadable time. */
  datatype TraceNode = TraceNode(id: string, index: nat, node: StageName, startedAt: Option<int>,
                                 finishedAt: Option<int>)

  datatype RunMode = EventReplay | StaticSnapshot

  datatype Completeness = Known | Incomplete | Unknown

  // ---- Complete chronology ----

  function Start(n: TraceNode): int { if n.startedAt.Some? then n.startedAt.value else 0 }

  function Finish(n: TraceNode): int { if n.finishedAt.Some? then n.finishedAt.value else 0 }

  predicate IsTimed(n: TraceNode) { n.startedAt.Some? && n.finishedAt.Some? && Start(n) <= Finish(n) }

  /** Every node has a start and an end, and none starts before the one before it has ended. */
  ghost predicate IsChronology(nodes: seq<TraceNode>) {
    && (forall i | 0 <= i < |nodes| :: IsTimed(nodes[i]))
    && (forall i | 0 < i < |nodes| :: Finish(nodes[i - 1]) <= Start(nodes[i]))
  }

  method HasCompleteNodeChronology(nodes: seq<TraceNode>) returns (complete: bool)
    ensures complete <==> IsChronology(nodes)
  {
    var previousFinishedAt: Option<int> := None;
    for i := 0 to |nodes|
      invariant IsChronology(nodes[..i])
      invariant previousFinishedAt == if i == 0 then None else nodes[i - 1].finishedAt
    {
      var node := nodes[i];
      if node.startedAt.None? || node.finishedAt.None? || node.finishedAt.value < node.startedAt.value
         || (previousFinishedAt.Some? && node.startedAt.value < previousFinishedAt.value) {
        return false;
      }
      previousFinishedAt := node.finishedAt;
    }
    assert nodes[..|nodes|] == nodes;
    complete := true;
  }

  /** Nodes of a complete chronology follow one another without overlapping. */
  lemma {:induction false} NodesAreDisjoint(nodes: seq<TraceNode>, i: nat, j: nat)
    requires IsChronology(nodes) && i < j < |nodes|
    ensures Start(nodes[i]) <= Finish(nodes[i]) <= Start(nodes[j]) <= Finish(nodes[j])
    decreases j - i
  {
    assert IsTimed(nodes[i]) && IsTimed(nodes[j]);
    if i + 1 < j { NodesAreDisjoint(nodes, i, j - 1); }
  }

  // ---- Duration ----

  function Known(times: seq<Option<int>>): (r: seq<int>)
    ensures |r| <= |times|
    ensures (forall t | t in times :: t.Some?) ==> |r| == |times| && forall i | 0 <= i < |r| :: times[i] == Some(r[i])
  {
    if times == [] then []
    else
      var last := times[|times| - 1];
      assert forall t | t in times[..|times| - 1] :: t in times;
      Known(times[..|times| - 1]) + if last.Some? then [last.value] else []
  }

  function Starts(nodes: seq<TraceNode>): seq<int> { Known(Map(nodes, (n: TraceNode) => n.startedAt)) }

  function Finishes(nodes: seq<TraceNode>): seq<int> { Known(Map(nodes, (n: TraceNode) => n.finishedAt)) }

  function Greatest(xs: seq<int>): (m: int)
    requires xs != []
    ensures m in xs && forall x | x in xs :: x <= m
  {
    if |xs| == 1 then xs[0]
    else
      var rest := Greatest(xs[1..]);
      assert forall x | x in xs :: x == xs[0] || x in xs[1..];
      if rest < xs[0] then xs[0] else rest
  }

  function Least(xs: seq<int>): (m: int)
    requires xs != []
    ensures m in xs && forall x | x in xs :: m <= x
  {
    if |xs| == 1 then xs[0]
    else
      var rest := Least(xs[1..]);
      assert forall x | x in xs :: x == xs[0] || x in xs[1..];
      if xs[0] < rest then xs[0] else rest
  }

  function ChronologyDuration(nodes: seq<TraceNode>): Option<int> {
    if Starts(nodes) == [] || Finishes(nodes) == [] then None
    else
      var duration := Greatest(Finishes(nodes)) - Least(Starts(nodes));
      if duration > 0 then Some(duration) else None
  }

  lemma {:induction false} KnownHolds(times: seq<Option<int>>, t: int)
    ensures t in Known(times) <==> Some(t) in times
  {
    if times != [] {
      var front, last := times[..|times| - 1], times[|times| - 1];
      assert times == front + [last];
      KnownHolds(front, t);
    }
  }

  lemma StartsHold(nodes: seq<TraceNode>, t: int)
    ensures t in Starts(nodes) <==> exists i :: 0 <= i < |nodes| && nodes[i].startedAt == Some(t)
  {
    var times := Map(nodes, (n: TraceNode) => n.startedAt);
    KnownHolds(times, t);
    if i :| 0 <= i < |nodes| && nodes[i].startedAt == Some(t) { assert times[i] == Some(t); }
  }

  lemma FinishesHold(nodes: seq<TraceNode>, t: int)
    ensures t in Finishes(nodes) <==> exists i :: 0 <= i < |nodes| && nodes[i].finishedAt == Some(t)
  {
    var times := Map(nodes, (n: TraceNode) => n.finishedAt);
    KnownHolds(times, t);
    if i :| 0 <= i < |nodes| && nodes[i].finishedAt == Some(t) { assert times[i] == Some(t); }
  }

  predicate IsFirstStart(nodes: seq<TraceNode>, start: int) {
    && (exists i :: 0 <= i < |nodes| && nodes[i].startedAt == Some(start))
    && forall i | 0 <= i < |nodes| && nodes[i].startedAt.Some? :: start <= nodes[i].startedAt.value
  }

  predicate IsLastFinish(nodes: seq<TraceNode>, finish: int) {
    && (exists i :: 0 <= i < |nodes| && nodes[i].finishedAt == Some(finish))
    && forall i | 0 <= i < |nodes| && nodes[i].finishedAt.Some? :: nodes[i].finishedAt.value <= finish
  }

  /** Whatever times are known, the duration is the time from the first start to the last finish, if some has
    * passed. */
  lemma DurationExactly(nodes: seq<TraceNode>, start: int, finish: int)
    requires IsFirstStart(nodes, start) && IsLastFinish(nodes, finish)
    ensures ChronologyDuration(nodes) == if finish > start then Some(finish - start) else None
  {
    hide Starts, Finishes;
    StartsHold(nodes, start);
    FinishesHold(nodes, finish);
    var s, f := Least(Starts(nodes)), Greatest(Finishes(nodes));
    StartsHold(nodes, s);
    FinishesHold(nodes, f);
  }

  /** And without a start or without a finish there is none. */
  lemma NoDurationWithoutTimes(nodes: seq<TraceNode>)
    requires (forall i | 0 <= i < |nodes| :: nodes[i].startedAt.None?)
             || forall i | 0 <= i < |nodes| :: nodes[i].finishedAt.None?
    ensures ChronologyDuration(nodes) == None
  {
    hide Starts, Finishes;
    if Starts(nodes) != [] && Finishes(nodes) != [] {
      StartsHold(nodes, Starts(nodes)[0]);
      FinishesHold(nodes, Finishes(nodes)[0]);
    }
  }

  lemma TimesOfChronology(nodes: seq<TraceNode>)
    requires IsChronology(nodes)
    ensures |Starts(nodes)| == |Finishes(nodes)| == |nodes|
    ensures forall i | 0 <= i < |nodes| :: Starts(nodes)[i] == Start(nodes[i]) && Finishes(nodes)[i] == Finish(nodes[i])
  {
    forall i | 0 <= i < |nodes|
      ensures nodes[i].startedAt.Some? && nodes[i].finishedAt.Some?
    {
      assert IsTimed(nodes[i]);
    }
  }

  lemma GreatestIs(xs: seq<int>, i: nat)
    requires i < |xs| && forall j | 0 <= j < |xs| :: xs[j] <= xs[i]
    ensures Greatest(xs) == xs[i]
  {
    assert xs[i] in xs;
  }

  lemma LeastIs(xs: seq<int>, i: nat)
    requires i < |xs| && forall j | 0 <= j < |xs| :: xs[i] <= xs[j]
    ensures Least(xs) == xs[i]
  {
    assert xs[i] in xs;
  }

  lemma FirstAndLast(nodes: seq<TraceNode>, i: nat)
    requires IsChronology(nodes) && i < |nodes|
    ensures Start(nodes[0]) <= Start(nodes[i]) <= Finish(nodes[i]) <= Finish(nodes[|nodes| - 1])
  {
    assert IsTimed(nodes[i]) && IsTimed(nodes[0]);
    if i > 0 { NodesAreDisjoint(nodes, 0, i); }
    if i < |nodes| - 1 { NodesAreDisjoint(nodes, i, |nodes| - 1); }
  }

  /** From the first start to the last end. */
  function Elapsed(nodes: seq<TraceNode>): int
    requires nodes != []
  {
    Finish(nodes[|nodes| - 1]) - Start(nodes[0])
  }

  /** The duration is the time from the first start to the last end, if any time passes. */
  lemma DurationOfChronology(nodes: seq<TraceNode>)
    requires IsChronology(nodes)
    ensures nodes == [] ==> ChronologyDuration(nodes) == None
    ensures nodes != [] ==> ChronologyDuration(nodes) == if Elapsed(nodes) > 0 then Some(Elapsed(nodes)) else None
  {
    hide IsChronology, Starts, Finishes, Greatest, Least, IsTimed;
    TimesOfChronology(nodes);
    if nodes != [] {
      forall i | 0 <= i < |nodes|
        ensures Start(nodes[0]) <= Start(nodes[i]) && Finish(nodes[i]) <= Finish(nodes[|nodes| - 1])
      {
        FirstAndLast(nodes, i);
      }
      GreatestIs(Finishes(nodes), |nodes| - 1);
      LeastIs(Starts(nodes), 0);
    }
  }

  function DurationOf(n: TraceNode): real { (Finish(n) - Start(n)) as real }

  ghost predicate NoPauses(nodes: seq<TraceNode>) {
    forall i | 0 < i < |nodes| :: Finish(nodes[i - 1]) == Start(nodes[i])
  }

  lemma NoPausesSnoc(nodes: seq<TraceNode>, n: TraceNode)
    requires nodes != []
    ensures NoPauses(nodes + [n]) <==> NoPauses(nodes) && Finish(nodes[|nodes| - 1]) == Start(n)
  {
    var all := nodes + [n];
    if NoPauses(all) {
      assert Finish(all[|nodes| - 1]) == Start(all[|nodes|]);
      forall i | 0 < i < |nodes|
        ensures Finish(nodes[i - 1]) == Start(nodes[i])
      {
        assert Finish(all[i - 1]) == Start(all[i]);
      }
    }
  }

  lemma ChronologySnoc(nodes: seq<TraceNode>, n: TraceNode)
    ensures IsChronology(nodes + [n])
            <==> IsChronology(nodes) && IsTimed(n) && (nodes != [] ==> Finish(nodes[|nodes| - 1]) <= Start(n))
  {
    var all := nodes + [n];
    hide IsTimed, Start, Finish;
    if IsChronology(all) {
      assert IsTimed(all[|nodes|]);
      forall i | 0 <= i < |nodes| ensures IsTimed(nodes[i]) { assert IsTimed(all[i]); }
      forall i | 0 < i < |nodes|
        ensures Finish(nodes[i - 1]) <= Start(nodes[i])
      {
        assert Finish(all[i - 1]) <= Start(all[i]);
      }
      if nodes != [] { assert Finish(all[|nodes| - 1]) <= Start(all[|nodes|]); }
    }
  }

  /** The nodes together take no longer than the whole, and the whole when there are no pauses. */
  lemma {:induction false} NodesFitInTheWhole(nodes: seq<TraceNode>)
    requires IsChronology(nodes) && nodes != []
    ensures 0.0 <= Total(nodes, DurationOf) <= Elapsed(nodes) as real
    ensures Total(nodes, DurationOf) == Elapsed(nodes) as real <==> NoPauses(nodes)
  {
    var front, last := nodes[..|nodes| - 1], nodes[|nodes| - 1];
    assert nodes == front + [last];
    TotalSnoc(front, last, DurationOf);
    ChronologySnoc(front, last);
    if front != [] {
      NodesFitInTheWhole(front);
      NoPausesSnoc(front, last);
      hide IsChronology, NoPauses, Total;
    }
  }

  // ---- The mode of a run ----

  datatype Trace = Trace(nodes: seq<TraceNode>, runMode: RunMode, chronology: Completeness)

  /** The mode of the nodes of a run without a publication; `accepted` is the number of accepted
    * transitions, if any were recorded. */
  method ProjectTrace(nodes: seq<TraceNode>, accepted: Option<nat>, persistedNodes: bool) returns (trace: Trace)
    ensures trace.nodes == nodes
    ensures trace.runMode == EventReplay
            <==> accepted.Some? && accepted.value > 0 && IsChronology(nodes) && ChronologyDuration(nodes).Some?
    ensures trace.runMode == EventReplay ==> trace.chronology == Completeness.Known
    ensures trace.chronology == Completeness.Known
       <==> accepted.Some? && if accepted.value == 0 then !persistedNodes else IsChronology(nodes)
    ensures trace.chronology == Unknown <==> accepted.None? && !persistedNodes
  {
    var complete := HasCompleteNodeChronology(nodes);
    var replays := accepted.Some? && accepted.value > 0 && complete && ChronologyDuration(nodes).Some?;
    var chronology :=
      if accepted.None? then (if persistedNodes then Incomplete else Unknown)
      else if accepted.value == 0 then (if persistedNodes then Incomplete else Completeness.Known)
      else if complete then Completeness.Known else Incomplete;
    trace := Trace(nodes, if replays then EventReplay else StaticSnapshot, chronology);
  }

  // ---- Publication ----

  datatype DeliveryStatus = DeliveryPending | Published | RetryableFailed | PermanentlyFailed

  datatype Publication = Publication(
    runId: string, authoritySealedAt: int, publishedAt: int, deliveryStatus: DeliveryStatus,
    deliveryAttemptedAt: Option<int>)

  /** What validation of the references guarantees: there is an attempt unless delivery is pending. */
  predicate ValidPublication(p: Publication) { p.deliveryStatus == DeliveryPending <==> p.deliveryAttemptedAt.None? }

  function AuthorityNode(p: Publication): TraceNode {
    TraceNode(p.runId + ":authority-sealed", 0, SealAuthority, Some(p.authoritySealedAt), Some(p.authoritySealedAt))
  }

  function PublicationNode(p: Publication): TraceNode {
    TraceNode(p.runId + ":publication-created", 0, PublishProjection, Some(p.publishedAt), Some(p.publishedAt))
  }

  function DeliveryNode(p: Publication): TraceNode {
    TraceNode(p.runId + ":delivery", 0, DeliverPublication, p.deliveryAttemptedAt, p.deliveryAttemptedAt)
  }

  /** A node with the publication nodes that come right after it. */
  function Followed(p: Publication): TraceNode -> seq<TraceNode> {
    (n: TraceNode) =>
      [n] + (if n.node == SettleClaimAuthority then [AuthorityNode(p)] else [])
          + (if n.node == ComposeNarrative then [PublicationNode(p), DeliveryNode(p)] else [])
  }

  predicate HasStage(nodes: seq<TraceNode>, stage: StageName) { exists i :: 0 <= i < |nodes| && nodes[i].node == stage }

  function Numbered(nodes: seq<TraceNode>): (r: seq<TraceNode>)
    ensures |r| == |nodes| && forall i | 0 <= i < |r| :: r[i] == nodes[i].(index := i + 1)
  {
    seq(|nodes|, i requires 0 <= i < |nodes| => nodes[i].(index := i + 1))
  }

  lemma HasStageSnoc(nodes: seq<TraceNode>, n: TraceNode, stage: StageName)
    ensures HasStage(nodes + [n], stage) <==> HasStage(nodes, stage) || n.node == stage
  {
    assert (nodes + [n])[|nodes|] == n;
    if HasStage(nodes, stage) {
      var i :| 0 <= i < |nodes| && nodes[i].node == stage;
      assert (nodes + [n])[i].node == stage;
    }
  }

  method InsertPublicationNodes(nodes: seq<TraceNode>, p: Publication)
    returns (all: seq<TraceNode>, authorityInserted: bool, publicationInserted: bool)
    ensures all == Collect(nodes, Followed(p))
    ensures authorityInserted <==> HasStage(nodes, SettleClaimAuthority)
    ensures publicationInserted <==> HasStage(nodes, ComposeNarrative)
  {
    hide HasStage, AuthorityNode, PublicationNode, DeliveryNode, Collect;
    all, authorityInserted, publicationInserted := [], false, false;
    NoStageYet();
    NothingCollected(p);
    for i := 0 to |nodes|
      invariant all == Collect(nodes[..i], Followed(p))
      invariant authorityInserted <==> HasStage(nodes[..i], SettleClaimAuthority)
      invariant publicationInserted <==> HasStage(nodes[..i], ComposeNarrative)
    {
      var node := nodes[i];
      assert nodes[..i + 1] == nodes[..i] + [node];
      CollectSnoc(nodes[..i], node, Followed(p));
      HasStageSnoc(nodes[..i], node, SettleClaimAuthority);
      HasStageSnoc(nodes[..i], node, ComposeNarrative);
      all := all + [node];
      if node.node == SettleClaimAuthority {
        all := all + [AuthorityNode(p)];
        authorityInserted := true;
      }
      if node.node == ComposeNarrative {
        all := all + [PublicationNode(p), DeliveryNode(p)];
        publicationInserted := true;
      }
    }
    assert nodes[..|nodes|] == nodes;
  }

  lemma NothingCollected(p: Publication)
    ensures Collect([], Followed(p)) == []
  {
  }

  /** Put the publication nodes after the stages they belong to; both stages must be there. */
  method AppendPublicationNodes(trace: Trace, p: Publication) returns (r: Option<Trace>)
    ensures r.Some? <==> HasStage(trace.nodes, SettleClaimAuthority) && HasStage(trace.nodes, ComposeNarrative)
    ensures r.Some? ==> r.value.nodes == Numbered(Collect(trace.nodes, Followed(p)))
    ensures r.Some? ==>
              (r.value.runMode == EventReplay
               <==> IsChronology(r.value.nodes) && ChronologyDuration(r.value.nodes).Some?)
    ensures r.Some? ==> (r.value.chronology == Completeness.Known <==> IsChronology(r.value.nodes))
  {
    hide IsChronology, ChronologyDuration, HasStage, Collect, Followed, Numbered;
    var nodes, authorityInserted, publicationInserted := InsertPublicationNodes(trace.nodes, p);
    if !authorityInserted || !publicationInserted {
      return None;
    }
    var indexed := Numbered(nodes);
    var complete := HasCompleteNodeChronology(indexed);
    var replays := complete && ChronologyDuration(indexed).Some?;
    r := Some(Trace(indexed, if replays then EventReplay else StaticSnapshot,
                    if complete then Completeness.Known else Incomplete));
  }

  predicate IsOfRun(n: TraceNode) {
    n.node != SealAuthority && n.node != PublishProjection && n.node != DeliverPublication
  }

  /** Appending a publication adds nodes of its own stages and no others: what is left without them is what
    * was there. */
  lemma {:induction false} PublicationKeepsNodes(nodes: seq<TraceNode>, p: Publication)
    requires forall n | n in nodes :: IsOfRun(n)
    ensures Filter(Collect(nodes, Followed(p)), IsOfRun) == nodes
  {
    if nodes != [] {
      var front, last := nodes[..|nodes| - 1], nodes[|nodes| - 1];
      assert nodes == front + [last];
      PublicationKeepsNodes(front, p);
      FollowedKeepsNode(last, p);
      FilterAppend(Collect(front, Followed(p)), Followed(p)(last), IsOfRun);
    }
  }

  lemma FollowedKeepsNode(n: TraceNode, p: Publication)
    requires IsOfRun(n)
    ensures Filter(Followed(p)(n), IsOfRun) == [n]
  {
    FilterSnoc([], n, IsOfRun);
    FilterSnoc([n], AuthorityNode(p), IsOfRun);
    FilterSnoc([n], PublicationNode(p), IsOfRun);
    FilterSnoc([n] + [PublicationNode(p)], DeliveryNode(p), IsOfRun);
    assert [] + [n] == [n];
    assert Followed(p)(n) == if n.node == SettleClaimAuthority then [n] + [AuthorityNode(p)]
                             else if n.node == ComposeNarrative then [n] + [PublicationNode(p)] + [DeliveryNode(p)]
                             else [n];
  }

  lemma {:induction false} FilterAppend<T>(xs: seq<T>, ys: seq<T>, keep: T -> bool)
    ensures Filter(xs + ys, keep) == Filter(xs, keep) + Filter(ys, keep)
  {
    if ys == [] {
      assert xs + ys == xs;
    } else {
      var front, last := ys[..|ys| - 1], ys[|ys| - 1];
      assert ys == front + [last];
      assert xs + ys == (xs + front) + [last];
      FilterAppend(xs, front, keep);
      FilterSnoc(xs + front, last, keep);
      FilterSnoc(front, last, keep);
    }
  }

  lemma NoStageYet()
    ensures forall stage :: !HasStage([], stage)
  {
  }

  lemma {:induction false} Contiguous<S, T>(xs: seq<S>, refs: S -> seq<T>, i: nat) returns (at: nat)
    requires i < |xs|
    ensures at + |refs(xs[i])| <= |Collect(xs, refs)|
    ensures Collect(xs, refs)[at..at + |refs(xs[i])|] == refs(xs[i])
  {
    var front := xs[..|xs| - 1];
    if i == |xs| - 1 {
      at := |Collect(front, refs)|;
    } else {
      at := Contiguous(front, refs, i);
      assert Collect(xs, refs)[at..at + |refs(xs[i])|] == Collect(front, refs)[at..at + |refs(xs[i])|];
    }
  }

  lemma NumberedKeepsTimes(nodes: seq<TraceNode>)
    ensures IsChronology(Numbered(nodes)) <==> IsChronology(nodes)
  {
    var numbered := Numbered(nodes);
    if IsChronology(numbered) {
      forall i | 0 <= i < |nodes| ensures IsTimed(nodes[i]) { assert IsTimed(numbered[i]); }
      forall i | 0 < i < |nodes| ensures Finish(nodes[i - 1]) <= Start(nodes[i]) {
        assert Finish(numbered[i - 1]) <= Start(numbered[i]);
      }
    }
  }

  lemma PartOfChronology(nodes: seq<TraceNode>, from: nat, to: nat)
    requires IsChronology(nodes) && from <= to <= |nodes|
    ensures IsChronology(nodes[from..to])
  {
    var part := nodes[from..to];
    forall i | 0 <= i < |part| ensures IsTimed(part[i]) { assert IsTimed(nodes[from + i]); }
    forall i | 0 < i < |part| ensures Finish(part[i - 1]) <= Start(part[i]) {
      assert Finish(nodes[from + i - 1]) <= Start(nodes[from + i]);
    }
  }

  /** The authority is sealed after a settlement; a narrative is followed by the publication and then
    * by an attempt at delivery. */
  predicate PublishedInOrder(n: TraceNode, p: Publication) {
    && IsTimed(n)
    && (n.node == SettleClaimAuthority ==> Finish(n) <= p.authoritySealedAt)
    && (n.node == ComposeNarrative ==>
          p.deliveryAttemptedAt.Some? && Finish(n) <= p.publishedAt <= p.deliveryAttemptedAt.value)
  }

  /** A replayed publication comes after the stages it belongs to. */
  lemma ReplayedPublicationIsOrdered(nodes: seq<TraceNode>, p: Publication)
    requires IsChronology(Numbered(Collect(nodes, Followed(p))))
    ensures forall n | n in nodes :: PublishedInOrder(n, p)
  {
    hide *;
    NumberedKeepsTimes(Collect(nodes, Followed(p)));
    forall n | n in nodes ensures PublishedInOrder(n, p) {
      var i :| 0 <= i < |nodes| && nodes[i] == n;
      ChronologyOfParts(nodes, Followed(p), i);
      FollowedInOrder(n, p);
    }
  }

  lemma ChronologyOfParts(nodes: seq<TraceNode>, refs: TraceNode -> seq<TraceNode>, i: nat)
    requires i < |nodes| && IsChronology(Collect(nodes, refs))
    ensures IsChronology(refs(nodes[i]))
  {
    hide IsChronology, Collect;
    var at := Contiguous(nodes, refs, i);
    PartOfChronology(Collect(nodes, refs), at, at + |refs(nodes[i])|);
  }

  lemma FollowedInOrder(n: TraceNode, p: Publication)
    requires IsChronology(Followed(p)(n))
    ensures PublishedInOrder(n, p)
  {
    var part := Followed(p)(n);
    assert part[0] == n && IsTimed(part[0]);
    if n.node == SettleClaimAuthority {
      assert part[1] == AuthorityNode(p);
      assert Finish(part[0]) <= Start(part[1]);
    }
    if n.node == ComposeNarrative {
      assert part[1] == PublicationNode(p) && part[2] == DeliveryNode(p) && IsTimed(part[2]);
      assert Finish(part[0]) <= Start(part[1]) && Finish(part[1]) <= Start(part[2]);
    }
  }

  /** Where a node ends together with the publication nodes that come right after it. */
  function EndWith(n: TraceNode, p: Publication): int {
    if n.node == SettleClaimAuthority then p.authoritySealedAt
    else if n.node == ComposeNarrative && p.deliveryAttemptedAt.Some? then p.deliveryAttemptedAt.value
    else Finish(n)
  }

  /** Sealing, publication and delivery fit between the stage they belong to and the next node. */
  ghost predicate PublicationFits(nodes: seq<TraceNode>, p: Publication) {
    && (forall i | 0 <= i < |nodes| :: PublishedInOrder(nodes[i], p))
    && (forall i | 0 < i < |nodes| :: EndWith(nodes[i - 1], p) <= Start(nodes[i]))
  }

  lemma {:induction false} ChronologyAppend(front: seq<TraceNode>, back: seq<TraceNode>)
    requires front != [] && back != []
    ensures IsChronology(front + back)
            <==> IsChronology(front) && IsChronology(back) && Finish(front[|front| - 1]) <= Start(back[0])
  {
    var all := front + back;
    if IsChronology(all) {
      PartOfChronology(all, 0, |front|);
      PartOfChronology(all, |front|, |all|);
      assert all[0..|front|] == front && all[|front|..|all|] == back;
      assert Finish(all[|front| - 1]) <= Start(all[|front|]);
    }
  }

  lemma FollowedIsChronology(n: TraceNode, p: Publication)
    requires ValidPublication(p)
    ensures var part := Followed(p)(n);
      && part != [] && part[0] == n
      && (IsChronology(part) <==> PublishedInOrder(n, p))
      && (IsChronology(part) ==> Finish(part[|part| - 1]) == EndWith(n, p))
  {
    var part := Followed(p)(n);
    if IsChronology(part) { FollowedInOrder(n, p); }
  }

  lemma PublicationFitsSnoc(nodes: seq<TraceNode>, n: TraceNode, p: Publication)
    ensures PublicationFits(nodes + [n], p)
            <==> && PublicationFits(nodes, p) && PublishedInOrder(n, p)
                 && (nodes != [] ==> EndWith(nodes[|nodes| - 1], p) <= Start(n))
  {
    var all := nodes + [n];
    hide PublishedInOrder, EndWith, Start;
    if PublicationFits(all, p) {
      assert PublishedInOrder(all[|nodes|], p);
      forall i | 0 <= i < |nodes| ensures PublishedInOrder(nodes[i], p) { assert PublishedInOrder(all[i], p); }
      forall i | 0 < i < |nodes| ensures EndWith(nodes[i - 1], p) <= Start(nodes[i]) {
        assert EndWith(all[i - 1], p) <= Start(all[i]);
      }
      if nodes != [] { assert EndWith(all[|nodes| - 1], p) <= Start(all[|nodes|]); }
    }
  }

  /** The nodes with their publication nodes are in order exactly when those fit, and end where the last does. */
  ghost predicate CollectedFits(nodes: seq<TraceNode>, p: Publication) {
    var all := Collect(nodes, Followed(p));
    && (nodes != [] ==> all != [])
    && (IsChronology(all) <==> PublicationFits(nodes, p))
    && (IsChronology(all) && nodes != [] ==> Finish(all[|all| - 1]) == EndWith(nodes[|nodes| - 1], p))
  }

  lemma OneMoreCollected(front: seq<TraceNode>, last: TraceNode, p: Publication)
    requires ValidPublication(p) && CollectedFits(front, p) && front != []
    ensures CollectedFits(front + [last], p)
  {
    CollectSnoc(front, last, Followed(p));
    FollowedIsChronology(last, p);
    PublicationFitsSnoc(front, last, p);
    var before, part := Collect(front, Followed(p)), Followed(p)(last);
    ChronologyAppend(before, part);
    hide IsChronology, PublicationFits, Followed, Collect, PublishedInOrder, EndWith, Start, Finish;
    assert (before + part)[|before + part| - 1] == part[|part| - 1];
  }

  lemma OneCollected(n: TraceNode, p: Publication)
    requires ValidPublication(p)
    ensures CollectedFits([n], p)
  {
    hide IsChronology, Followed, PublishedInOrder, EndWith, Start, Finish, PublicationFits, Collect;
    FollowedIsChronology(n, p);
    FitsAlone(n, p);
    CollectSnoc([], n, Followed(p));
    NothingCollected(p);
    assert [] + [n] == [n] && [] + Followed(p)(n) == Followed(p)(n);
  }

  lemma FitsAlone(n: TraceNode, p: Publication)
    ensures PublicationFits([n], p) <==> PublishedInOrder(n, p)
  {
    hide PublishedInOrder;
    if PublicationFits([n], p) { assert PublishedInOrder([n][0], p); }
  }

  lemma {:induction false} CollectedChronology(nodes: seq<TraceNode>, p: Publication)
    requires ValidPublication(p)
    ensures CollectedFits(nodes, p)
  {
    if nodes == [] {
      NothingCollected(p);
    } else {
      var front, last := nodes[..|nodes| - 1], nodes[|nodes| - 1];
      assert nodes == front + [last];
      if front == [] {
        OneCollected(last, p);
      } else {
        CollectedChronology(front, p);
        hide CollectedFits;
        OneMoreCollected(front, last, p);
      }
    }
  }

  /** A published trace is chronological exactly when its nodes are timed and sealing, publication and
    * delivery fit in between; whether the trace was replayed before does not matter. */
  lemma ChronologicalExactlyWhenItFits(nodes: seq<TraceNode>, p: Publication)
    requires ValidPublication(p)
    ensures IsChronology(Numbered(Collect(nodes, Followed(p)))) <==> PublicationFits(nodes, p)
    ensures PublicationFits(nodes, p) ==> IsChronology(nodes)
  {
    NumberedKeepsTimes(Collect(nodes, Followed(p)));
    CollectedChronology(nodes, p);
    if PublicationFits(nodes, p) {
      forall i | 0 <= i < |nodes| ensures IsTimed(nodes[i]) { assert PublishedInOrder(nodes[i], p); }
      forall i | 0 < i < |nodes| ensures Finish(nodes[i - 1]) <= Start(nodes[i]) {
        assert PublishedInOrder(nodes[i - 1], p) && EndWith(nodes[i - 1], p) <= Start(nodes[i]);
      }
    }
  }

  /** A publication whose delivery is pending is never replayed. */
  lemma PendingNeverReplays(nodes: seq<TraceNode>, p: Publication)
    requires ValidPublication(p) && p.deliveryStatus == DeliveryPending && HasStage(nodes, ComposeNarrative)
    ensures !IsChronology(Numbered(Collect(nodes, Followed(p))))
  {
    var i :| 0 <= i < |nodes| && nodes[i].node == ComposeNarrative;
    assert nodes[i] in nodes;
    if IsChronology(Numbered(Collect(nodes, Followed(p)))) {
      ReplayedPublicationIsOrdered(nodes, p);
    }
  }

  const SETTLED := TraceNode("snapshot:1", 1, SettleClaimAuthority, Some(0), Some(1))
  const COMPOSED := TraceNode("snapshot:2", 2, ComposeNarrative, Some(2), Some(3))
  const DELIVERED := Publication("run", 2, 4, Published, Some(5))

  /** Nodes taken from a snapshot, without an accepted transition, are never replayed by themselves,
    * but can be once published. */
  lemma PublishedSnapshotCanReplay()
    ensures var all := Numbered(Collect([SETTLED, COMPOSED], Followed(DELIVERED)));
            ValidPublication(DELIVERED) && IsChronology(all) && ChronologyDuration(all) == Some(5)
    ensures HasStage([SETTLED, COMPOSED], SettleClaimAuthority) && HasStage([SETTLED, COMPOSED], ComposeNarrative)
  {
    hide IsChronology, ChronologyDuration, Collect;
    var p := DELIVERED;
    var all := [SETTLED, AuthorityNode(p), COMPOSED, PublicationNode(p), DeliveryNode(p)];
    assert Collect([SETTLED, COMPOSED], Followed(p)) == all by { CollectOfTwo(SETTLED, COMPOSED, Followed(p)); }
    assert IsChronology(all) by { FiveInOrder(all); }
    NumberedKeepsTimes(all);
    DurationOfChronology(Numbered(all));
    assert [SETTLED, COMPOSED][0].node == SettleClaimAuthority && [SETTLED, COMPOSED][1].node == ComposeNarrative;
  }

  lemma CollectOfTwo<S, T>(x: S, y: S, refs: S -> seq<T>)
    ensures Collect([x, y], refs) == refs(x) + refs(y)
  {
    assert [x, y] == [x] + [y] && [x] == [] + [x];
    CollectSnoc([x], y, refs);
    CollectSnoc([], x, refs);
    assert Collect([x], refs) == [] + refs(x) == refs(x);
  }

  lemma FiveInOrder(nodes: seq<TraceNode>)
    requires |nodes| == 5 && forall i | 0 <= i < 5 ::
               nodes[i].startedAt == Some(Start(nodes[i])) && nodes[i].finishedAt == Some(Finish(nodes[i]))
    requires Start(nodes[0]) <= Finish(nodes[0]) <= Start(nodes[1]) <= Finish(nodes[1]) <= Start(nodes[2])
    requires Start(nodes[2]) <= Finish(nodes[2]) <= Start(nodes[3]) <= Finish(nodes[3]) <= Start(nodes[4])
             <= Finish(nodes[4])
    ensures IsChronology(nodes)
  {
  }
}
