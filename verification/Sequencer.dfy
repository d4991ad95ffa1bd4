// Owner sequences within a fence window, and what they mean for writes.
module Sequencer {
  import opened Records
  import opened Lease

  datatype SeqState = SeqState(generation: int, epoch: int, last: int)

  datatype StampResult = Stamped(generation: int, epoch: int, ownerSeq: int) | InvalidFence | Rollback

  const START := SeqState(0, 0, 0)

  function StampResultOf(s: SeqState, g: int, e: int): StampResult {
    if g <= 0 || e < 0 then InvalidFence
    else if g > s.generation || (g == s.generation && e > s.epoch) then Stamped(g, e, 1)
    else if g == s.generation && e == s.epoch then Stamped(g, e, s.last + 1)
    else Rollback
  }

  function AfterStamp(s: SeqState, g: int, e: int): SeqState {
    match StampResultOf(s, g, e)
    case Stamped(g', e', n) => SeqState(g', e', n)
    case _ => s
  }

  class MemoryFenceSequencer {
    var generation: int
    var epoch: int
    var sequence: int

    function View(): SeqState
      reads this
    {
      SeqState(generation, epoch, sequence)
    }

    constructor ()
      ensures View() == START
    {
      generation, epoch, sequence := 0, 0, 0;
    }

    method Stamp(g: int, e: int) returns (r: StampResult)
      modifies this
      ensures r == StampResultOf(old(View()), g, e)
      ensures View() == AfterStamp(old(View()), g, e)
      ensures r.InvalidFence? <==> g <= 0 || e < 0
      ensures r.Rollback? <==> && g > 0 && e >= 0
                               && (g < old(generation) || (g == old(generation) && e < old(epoch)))
      ensures r.Stamped? ==> && (r.generation, r.epoch) == (g, e) == (generation, epoch) && sequence == r.ownerSeq
                             && r.ownerSeq == if g == old(generation) && e == old(epoch) then old(sequence) + 1 else 1
      ensures !r.Stamped? ==> View() == old(View())
    {
      if g <= 0 || e < 0 {
        return InvalidFence;
      }
      if g > generation || (g == generation && e > epoch) {
        generation, epoch, sequence := g, e, 1;
      } else if g == generation && e == epoch {
        sequence := sequence + 1;
      } else {
        return Rollback;
      }
      return Stamped(generation, epoch, sequence);
    }
  }

  /** The fences a writer publishes for a run of requested windows, in order. */
  function Published(s: SeqState, reqs: seq<(int, int)>, writer: string): seq<Fence>
    decreases |reqs|
  {
    if reqs == [] then []
    else
      var (g, e) := reqs[0];
      var r := StampResultOf(s, g, e);
      (if r.Stamped? then [Fence(r.generation, r.epoch, r.ownerSeq, writer)] else [])
      + Published(AfterStamp(s, g, e), reqs[1..], writer)
  }

  /** Successful stamps strictly increase, whatever windows are requested. */
  lemma {:induction false} PublishedIncreases(s: SeqState, reqs: seq<(int, int)>, writer: string)
    ensures forall f :: f in Published(s, reqs, writer) ==> Newer(f, Fence(s.generation, s.epoch, s.last, writer))
    ensures forall i, j :: 0 <= i < j < |Published(s, reqs, writer)| ==>
                             Newer(Published(s, reqs, writer)[j], Published(s, reqs, writer)[i])
    decreases |reqs|
  {
    if reqs != [] {
      var (g, e) := reqs[0];
      var r, s' := StampResultOf(s, g, e), AfterStamp(s, g, e);
      PublishedIncreases(s', reqs[1..], writer);
      if r.Stamped? {
        var f0, f1 := Fence(s.generation, s.epoch, s.last, writer), Fence(s'.generation, s'.epoch, s'.last, writer);
        forall f | f in Published(s', reqs[1..], writer)
          ensures Newer(f, f0)
        {
          NewerTransitive(f, f1, f0);
        }
      }
    }
  }

  lemma {:induction false} PublishedWriter(s: SeqState, reqs: seq<(int, int)>, writer: string)
    ensures forall f :: f in Published(s, reqs, writer) ==> f.writer == writer
    decreases |reqs|
  {
    if reqs != [] {
      PublishedWriter(AfterStamp(s, reqs[0].0, reqs[0].1), reqs[1..], writer);
    }
  }

  lemma {:induction false} PublishedPositive(s: SeqState, reqs: seq<(int, int)>, writer: string)
    requires s.last >= 0
    ensures forall f :: f in Published(s, reqs, writer) ==> f.generation > 0 && f.ownerSeq > 0
    decreases |reqs|
  {
    if reqs != [] {
      PublishedPositive(AfterStamp(s, reqs[0].0, reqs[0].1), reqs[1..], writer);
    }
  }

  /** How many of the fences carry the window (g, e). */
  function InWindow(fs: seq<Fence>, g: int, e: int): nat {
    if fs == [] then 0
    else InWindow(fs[1..], g, e) + if fs[0].generation == g && fs[0].epoch == e then 1 else 0
  }

  /** From every state: the n-th write published in a window gets sequence n, counted on
      from where the sequencer stood if it stood in that window. */
  lemma {:induction false} SequenceCounts(s: SeqState, reqs: seq<(int, int)>, writer: string, i: nat)
    requires i < |Published(s, reqs, writer)|
    ensures
      var fs := Published(s, reqs, writer);
      var g, e := fs[i].generation, fs[i].epoch;
      fs[i].ownerSeq == InWindow(fs[..i + 1], g, e) + if g == s.generation && e == s.epoch then s.last else 0
    decreases |reqs|
  {
    var (g0, e0) := reqs[0];
    var r, s' := StampResultOf(s, g0, e0), AfterStamp(s, g0, e0);
    var fs, tail := Published(s, reqs, writer), Published(s', reqs[1..], writer);
    if !r.Stamped? {
      assert fs == tail;
      SequenceCounts(s, reqs[1..], writer, i);
    } else if i == 0 {
      assert fs[..1][1..] == [];
    } else {
      SequenceCounts(s', reqs[1..], writer, i - 1);
      PublishedIncreases(s', reqs[1..], writer);
      assert tail[i - 1] in tail && Newer(tail[i - 1], Fence(s'.generation, s'.epoch, s'.last, writer));
      assert fs[..i + 1][1..] == tail[..i];
    }
  }

  /** No two published writes share a fence: not two of one writer, and not two
      of writers with distinct ids, although each restarts its sequence. */
  lemma PublishedFencesDistinct(a: seq<(int, int)>, wa: string, b: seq<(int, int)>, wb: string)
    requires wa != wb
    ensures forall i, j :: 0 <= i < j < |Published(START, a, wa)| ==>
        Published(START, a, wa)[i] != Published(START, a, wa)[j]
    ensures forall f :: f in Published(START, a, wa) ==> f !in Published(START, b, wb)
  {
    PublishedIncreases(START, a, wa);
    forall i, j | 0 <= i < j < |Published(START, a, wa)|
      ensures Published(START, a, wa)[i] != Published(START, a, wa)[j]
    {
      NewerTotal(Published(START, a, wa)[i], Published(START, a, wa)[j]);
    }
    PublishedWriter(START, a, wa);
    PublishedWriter(START, b, wb);
  }

  // ---- lease and sequencer together ---------------------------------------

  /** A node: its lease, its sequencer, and the fences taken by writes. */
  datatype Node = Node(lease: State, sq: SeqState, taken: seq<(int, int)>)

  datatype NodeStep = LeaseStep(ev: Event) | Take(now: int) | Publish(i: nat)

  function NextNode(n: Node, step: NodeStep): Node {
    match step
    case LeaseStep(ev) => n.(lease := AfterEvent(n.lease, ev))
    case Take(now) =>
      if Serving(n.lease, now) then n.(taken := n.taken + [(n.lease.generation, n.lease.epoch)]) else n
    case Publish(i) =>
      if i < |n.taken| then n.(sq := AfterStamp(n.sq, n.taken[i].0, n.taken[i].1)) else n
  }

  function RunNode(n: Node, steps: seq<NodeStep>): Node {
    if steps == [] then n else NextNode(RunNode(n, steps[..|steps| - 1]), steps[|steps| - 1])
  }

  predicate Behind(n: Node) {
    && WindowLeq(n.sq.generation, n.sq.epoch, n.lease.generation, n.lease.epoch)
    && forall i :: 0 <= i < |n.taken| ==> WindowLeq(n.taken[i].0, n.taken[i].1, n.lease.generation, n.lease.epoch)
  }

  /** In every run the sequencer is never ahead of the lease, and no fence taken is. */
  lemma {:induction false} SequencerNeverAhead(steps: seq<NodeStep>)
    ensures Behind(RunNode(Node(INITIAL, START, []), steps))
  {
    if steps != [] {
      SequencerNeverAhead(steps[..|steps| - 1]);
    }
  }

  /** When publishing a write whose fence has just verified, the stamp is refused
      exactly when a write of the same generation with a later epoch has stamped
      first. The lease calls such an epoch advance compatible; the sequencer
      then rolls back, after the mutation. */
  lemma VerifiedStampFailsIff(steps: seq<NodeStep>, i: nat, now: int)
    requires var n := RunNode(Node(INITIAL, START, []), steps);
             && i < |n.taken| && n.taken[i].0 > 0 && n.taken[i].1 >= 0
             && FenceHolds(n.lease, n.taken[i].0, n.taken[i].1, now)
    ensures var n := RunNode(Node(INITIAL, START, []), steps);
            !StampResultOf(n.sq, n.taken[i].0, n.taken[i].1).Stamped? <==>
            n.sq.generation == n.taken[i].0 && n.sq.epoch > n.taken[i].1
  {
    SequencerNeverAhead(steps);
  }

  predicate FirstRollsBack(n: Node, now: int) {
    && n.taken != [] && FenceHolds(n.lease, n.taken[0].0, n.taken[0].1, now)
    && StampResultOf(n.sq, n.taken[0].0, n.taken[0].1) == Rollback
  }

  /** The refusal is reachable. */
  lemma VerifiedStampCanFail()
    ensures exists steps: seq<NodeStep>, now: int ::
              FirstRollsBack(RunNode(Node(INITIAL, START, []), steps), now)
  {
    var o1 := LeaseStep(Offer(Envelope(1, 1, 100, Primary), 0));
    var o2 := LeaseStep(Offer(Envelope(1, 2, 100, Primary), 0));
    var n0 := Node(INITIAL, START, []);
    var n1 := n0.(lease := State(1, 1, 100));
    var n2 := n1.(taken := [(1, 1)]);
    var n3 := n2.(lease := State(1, 2, 100));
    var n4 := n3.(taken := [(1, 1), (1, 2)]);
    var n5 := n4.(sq := SeqState(1, 2, 1));
    var s1 := [o1];
    var s2 := s1 + [Take(0)];
    var s3 := s2 + [o2];
    var s4 := s3 + [Take(0)];
    var s5 := s4 + [Publish(1)];
    assert s1[..0] == [] && RunNode(n0, s1) == n1;
    assert s2[..1] == s1 && RunNode(n0, s2) == n2;
    assert s3[..2] == s2 && RunNode(n0, s3) == n3;
    assert s4[..3] == s3 && RunNode(n0, s4) == n4;
    assert s5[..4] == s4 && RunNode(n0, s5) == n5;
    assert FirstRollsBack(RunNode(n0, s5), 0);
  }
}
