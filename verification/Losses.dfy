// Runs in which an acknowledged entry is lost, for every choice of entries that
// allows it, and with fences the sequencer issues.
module Losses {
  import opened Records
  import opened Upsert
  import opened PendingSet
  import opened Sidecar
  import opened Sequencer
  import opened WritePath
  import opened Conservation

  ghost predicate Reaches(steps: seq<Step>, w: World) {
    Run(Init(map[]), steps) == w
  }

  lemma Start()
    ensures Reaches([], World([], 0, map[], map[], map[], {}, map[], 0))
  {
    assert Init(map[]).foreign == {};
  }

  lemma Then(steps: seq<Step>, w: World, step: Step, w': World)
    requires Reaches(steps, w) && Next(w, step) == w'
    ensures Reaches(steps + [step], w')
  {
    assert (steps + [step])[..|steps + [step]| - 1] == steps;
  }

  /** The three steps that bring one entry into the pending set. */
  function DeliverSteps(e: Entry, d: nat): seq<Step> {
    [Ack(e)] + [PopNext(d)] + [PutHand(d)]
  }

  function Delivered(w: World, e: Entry): World {
    w.(acked := w.acked + [e], drained := w.drained + 1, pend := w.pend[e.RefOf() := e])
  }

  lemma Deliver(steps: seq<Step>, w: World, e: Entry, d: nat)
    requires Reaches(steps, w) && w.drained == |w.acked| && w.hands == map[]
    requires InStampOrder(w.acked, e) && Accepted(e)
    ensures Reaches(steps + DeliverSteps(e, d), Delivered(w, e))
  {
    hide Reaches, InStampOrder;
    var w1 := w.(acked := w.acked + [e]);
    var w2 := w1.(drained := w.drained + 1, hands := map[d := w.drained]);
    Then(steps, w, Ack(e), w1);
    Then(steps + [Ack(e)], w1, PopNext(d), w2);
    Then(steps + [Ack(e)] + [PopNext(d)], w2, PutHand(d), Delivered(w, e));
    assert steps + [Ack(e)] + [PopNext(d)] + [PutHand(d)] == steps + DeliverSteps(e, d);
  }

  /** The process never ends in the run. */
  ghost predicate NoStop(steps: seq<Step>) {
    forall k :: 0 <= k < |steps| ==> !steps[k].Stop?
  }

  ghost predicate NoDrop(steps: seq<Step>) {
    forall k :: 0 <= k < |steps| ==> !steps[k].DropNext?
  }

  /** The run acknowledges a and then b; b is safe until the last step, which is the
      one that loses it. The process does not end. */
  ghost predicate LastLosesSecond(steps: seq<Step>, a: Entry, b: Entry) {
    && steps != [] && NoStop(steps)
    && var n := |steps| - 1;
       var w, w' := Run(Init(map[]), steps[..n]), Run(Init(map[]), steps);
       w.acked == w'.acked == [a, b] && Safe(w, 1) && !Safe(w', 1) && LosesEntry(w, steps[n], 1)
  }

  /** With one drainer, and by a drop. */
  ghost predicate DropLoses(steps: seq<Step>, a: Entry, b: Entry) {
    LastLosesSecond(steps, a, b) && OneDrainer(steps, 0) && steps[|steps| - 1].DropNext?
  }

  /** Without any drop, by a put. */
  ghost predicate PutLoses(steps: seq<Step>, a: Entry, b: Entry) {
    LastLosesSecond(steps, a, b) && NoDrop(steps) && steps[|steps| - 1].PutHand?
  }

  // ---- a drop --------------------------------------------------------------

  /** For every two entries of one key, the second newer but with a sequence not
      above the first, a run with one drainer loses the second by a drop: that of a
      flush of the first, interleaved with the drain of the second. */
  lemma DropLosesRun(a: Entry, b: Entry)
    requires Accepted(a) && Accepted(b) && a.RefOf() == b.RefOf()
    requires Newer(b.fence, a.fence) && b.fence.ownerSeq <= a.fence.ownerSeq
    ensures exists steps: seq<Step> :: DropLoses(steps, a, b)
  {
    hide Reaches, Newer;
    NewerTotal(a.fence, b.fence);
    Start();
    var w0 := World([], 0, map[], map[], map[], {}, map[], 0);
    var s1 := [] + DeliverSteps(a, 0);
    Deliver([], w0, a, 0);
    var w1 := Delivered(w0, a);
    var w2 := w1.(flights := map[0 := Flight([a], false, 0)]);
    Then(s1, w1, Begin(0, [a]), w2);
    var s2 := s1 + [Begin(0, [a])];
    Deliver(s2, w2, b, 0);
    var s3 := s2 + DeliverSteps(b, 0);
    assert OneDrainer(s3, 0) && NoStop(s3);
    FlushDrops(a, b, s3, Delivered(w2, b));
  }

  lemma FlushDrops(a: Entry, b: Entry, steps: seq<Step>, w: World)
    requires Accepted(a) && Accepted(b) && a.RefOf() == b.RefOf()
    requires Newer(b.fence, a.fence) && b.fence.ownerSeq <= a.fence.ownerSeq
    requires w == World([a, b], 2, map[], map[a.RefOf() := b], map[], {}, map[0 := Flight([a], false, 0)], 0)
    requires Reaches(steps, w) && OneDrainer(steps, 0) && NoStop(steps)
    ensures DropLoses(steps + [Write(0)] + [DropNext(0)], a, b)
  {
    hide Newer;
    var w1 := w.(table := map[a.KeyOf() := RecordFromEntry(a)], flights := map[0 := Flight([a], true, 0)]);
    UpsertOne(a);
    Then(steps, w, Write(0), w1);
    var w2 := w1.(pend := map[], flights := map[0 := Flight([a], true, 1)]);
    Then(steps + [Write(0)], w1, DropNext(0), w2);
    NewerTotal(b.fence, b.fence);
    var all := steps + [Write(0)] + [DropNext(0)];
    assert all[..|all| - 1] == steps + [Write(0)];
    assert LosesEntry(w1, DropNext(0), 1);
  }

  lemma UpsertOne(a: Entry)
    ensures UpsertAll(map[], RecordsOf([a])) == map[a.KeyOf() := RecordFromEntry(a)]
  {
    var rs := RecordsOf([a]);
    assert rs == [RecordFromEntry(a)] && rs[..0] == [];
  }

  // ---- two drainers --------------------------------------------------------

  /** For every two entries of one key, the second newer, a run with two drainers
      loses the second by a put: the first is popped first and put last. */
  lemma PutLosesRun(a: Entry, b: Entry)
    requires Accepted(a) && Accepted(b) && a.RefOf() == b.RefOf() && Newer(b.fence, a.fence)
    ensures exists steps: seq<Step> :: PutLoses(steps, a, b)
  {
    hide Reaches, Newer;
    NewerTotal(a.fence, b.fence);
    Start();
    var w0 := World([], 0, map[], map[], map[], {}, map[], 0);
    var w1, w2 := w0.(acked := [a]), w0.(acked := [a, b]);
    var s1 := [] + [Ack(a)];
    var s2 := s1 + [Ack(b)];
    Then([], w0, Ack(a), w1);
    Then(s1, w1, Ack(b), w2);
    assert NoStop(s2) && NoDrop(s2);
    PutLast(a, b, s2, w2);
  }

  lemma PutLast(a: Entry, b: Entry, s2: seq<Step>, w2: World)
    requires Accepted(a) && Accepted(b) && a.RefOf() == b.RefOf() && Newer(b.fence, a.fence)
    requires w2 == World([a, b], 0, map[], map[], map[], {}, map[], 0)
    requires Reaches(s2, w2) && NoStop(s2) && NoDrop(s2)
    ensures exists steps: seq<Step> :: PutLoses(steps, a, b)
  {
    hide Newer;
    var w3 := w2.(drained := 1, hands := map[0 := 0]);
    var w4 := w2.(drained := 2, hands := map[0 := 0, 1 := 1]);
    var w5 := w4.(hands := map[0 := 0], pend := map[a.RefOf() := b]);
    var w6 := w4.(hands := map[], pend := map[a.RefOf() := a]);
    var s3 := s2 + [PopNext(0)];
    var s4 := s3 + [PopNext(1)];
    var s5 := s4 + [PutHand(1)];
    var s6 := s5 + [PutHand(0)];
    Then(s2, w2, PopNext(0), w3);
    Then(s3, w3, PopNext(1), w4);
    Then(s4, w4, PutHand(1), w5);
    Then(s5, w5, PutHand(0), w6);
    NewerTotal(b.fence, b.fence);
    assert s6[..|s6| - 1] == s5;
    assert LosesEntry(w5, PutHand(0), 1) by { NotHeld(w5); }
    assert PutLoses(s6, a, b);
  }

  lemma NotHeld(w: World)
    requires w.hands == map[0 := 0]
    ensures !InHand(w, 1)
  {
  }

  // ---- with fences of the sequencer ---------------------------------------

  function Sample(epoch: int, ownerSeq: int): Entry {
    Entry(OpSet, "d", "k", 7, [], 0, 0, Fence(1, epoch, ownerSeq, "w"), 0)
  }

  lemma PublishedPair(e1: int, e2: int)
    requires 0 <= e1 <= e2
    ensures Published(START, [(1, e1), (1, e2)], "w") ==
            [Fence(1, e1, 1, "w"), Fence(1, e2, if e1 == e2 then 2 else 1, "w")]
  {
    var reqs: seq<(int, int)> := [(1, e1), (1, e2)];
    var rest := reqs[1..];
    assert rest == [(1, e2)] && rest[1..] == [];
    var s1 := AfterStamp(START, 1, e1);
    assert s1 == SeqState(1, e1, 1);
    assert Published(AfterStamp(s1, 1, e2), rest[1..], "w") == [];
    assert Published(s1, rest, "w") == [Fence(1, e2, if e1 == e2 then 2 else 1, "w")];
    assert Published(START, reqs, "w") == [Fence(1, e1, 1, "w")] + Published(s1, rest, "w");
  }

  /** The drop is reachable with the first two fences of a writer whose window
      changed between its first two writes, and with one drainer. */
  lemma LossIsReachable()
    ensures exists a, b, steps: seq<Step> ::
              && DropLoses(steps, a, b)
              && [a.fence, b.fence] == Published(START, [(1, 1), (1, 2)], "w")
  {
    PublishedPair(1, 2);
    DropLosesRun(Sample(1, 1), Sample(2, 1));
  }

  /** The put is reachable with the first two fences of a writer within one
      window: two drainers are enough. */
  lemma PutLossIsReachable()
    ensures exists a, b, steps: seq<Step> ::
              && PutLoses(steps, a, b)
              && [a.fence, b.fence] == Published(START, [(1, 1), (1, 1)], "w")
  {
    PublishedPair(1, 1);
    PutLosesRun(Sample(1, 1), Sample(1, 2));
  }

  // ---- the ends of the loop ------------------------------------------------

  /** A run of the loop with one drainer after which the end of the process loses its
      first entry, safe until then. */
  ghost predicate StopLosesFirst(steps: seq<Step>, acked: seq<Entry>) {
    && Sequential(steps) && OneDrainer(steps, 0)
    && var w := Run(Init(map[]), steps);
       && w.acked == acked != [] && Safe(w, 0) && LosesEntry(w, Stop, 0)
       && !Safe(Run(Init(map[]), steps + [Stop]), 0)
  }

  /** That run ends on a rejected entry. */
  ghost predicate RejectionEndLoses(steps: seq<Step>, a: Entry, b: Entry) {
    StopLosesFirst(steps, [a, b]) && EndsInRejection(Init(map[]), steps)
  }

  /** That run ends on a failed flush, of which nothing took effect. */
  ghost predicate FlushEndLoses(steps: seq<Step>, a: Entry) {
    StopLosesFirst(steps, [a]) && EndsInFailedFlush(Init(map[]), steps, [a], 0)
  }

  lemma StopLoses(steps: seq<Step>, w: World)
    requires Reaches(steps, w) && OneDrainer(steps, 0) && Sequential(steps)
    requires w.acked != [] && Accepted(w.acked[0]) && w.drained > 0 && w.table == map[] && w.purged == 0
    requires Holds(w.pend, w.acked[0])
    ensures StopLosesFirst(steps, w.acked)
  {
    StopsAfter(Init(map[]), steps);
  }

  /** The loop ends on a rejected entry: for every accepted entry followed by one
      without a map name, drained in one batch, the accepted one is lost. */
  lemma RejectionEndLosesRun(a: Entry, b: Entry)
    requires Accepted(a) && Fenced(b) && b.dmap == "" && a.fence != b.fence
    ensures exists steps: seq<Step> :: RejectionEndLoses(steps, a, b)
  {
    hide Newer, StopLosesFirst;
    NewerTotal(a.fence, a.fence);
    Start();
    var w0 := World([], 0, map[], map[], map[], {}, map[], 0);
    Deliver([], w0, a, 0);
    var s1, w1 := [] + DeliverSteps(a, 0), Delivered(w0, a);
    var w2 := w1.(acked := [a, b]);
    var w3 := w2.(drained := 2);
    var s2 := s1 + [Ack(b)];
    var s3 := s2 + [PopNext(0)];
    Then(s1, w1, Ack(b), w2);
    Then(s2, w2, PopNext(0), w3);
    assert s3[..|s3| - 1] == s2;
    assert EndsInRejection(Init(map[]), s3);
    StopLoses(s3, w3);
    assert RejectionEndLoses(s3, a, b);
  }

  /** The loop ends on a failed flush: every accepted entry it held is lost. */
  lemma FailedFlushEndLosesRun(a: Entry)
    requires Accepted(a)
    ensures exists steps: seq<Step> :: FlushEndLoses(steps, a)
  {
    hide Newer, StopLosesFirst;
    NewerTotal(a.fence, a.fence);
    Start();
    var w0 := World([], 0, map[], map[], map[], {}, map[], 0);
    Deliver([], w0, a, 0);
    var s1, w1 := [] + DeliverSteps(a, 0), Delivered(w0, a);
    assert Enumerates([a], w1.pend) by { assert a in [a]; }
    assert UpsertAll(map[], RecordsOf([a][..0])) == map[] by { assert RecordsOf([a][..0]) == []; }
    var s2 := s1 + [FlushFails([a], 0)];
    Then(s1, w1, FlushFails([a], 0), w1);
    assert s2[..|s2| - 1] == s1;
    assert EndsInFailedFlush(Init(map[]), s2, [a], 0);
    StopLoses(s2, w1);
    assert w1.acked == [a];
    assert FlushEndLoses(s2, a);
  }

  // ---- rejection -----------------------------------------------------------

  /** The run acknowledges only e, and ends with the pop that rejects it. */
  ghost predicate LosesOnly(steps: seq<Step>, e: Entry) {
    && NoStop(steps) && NoDrop(steps) && EndsInRejection(Init(map[]), steps)
    && var w := Run(Init(map[]), steps);
       w.acked == [e] && w.drained == 1 && !Kept(w, 0)
  }

  /** An acknowledged entry without a map name is gone after its pop. */
  lemma RejectionLosesRun(e: Entry)
    requires Fenced(e) && e.dmap == ""
    ensures exists steps: seq<Step> :: LosesOnly(steps, e)
  {
    Start();
    var w0 := World([], 0, map[], map[], map[], {}, map[], 0);
    var w1, w2 := w0.(acked := [e]), w0.(acked := [e], drained := 1);
    var s1 := [] + [Ack(e)];
    Then([], w0, Ack(e), w1);
    Then(s1, w1, PopNext(0), w2);
    var s2 := s1 + [PopNext(0)];
    assert s2[..|s2| - 1] == s1;
    assert LosesOnly(s2, e);
  }
}
