// The node-side write path: fence a write, check room in the ring, and after
// the mutation stamp, encode and append it.
module DurableHook {
  import opened Bytes
  import opened Records
  import opened RingLayout
  import opened SharedRing
  import opened OplogSize
  import L = Lease
  import S = Sequencer

  const CONCURRENT_BUFFER: nat := 64 * 1024

  datatype Before = Ready(op: Operation) | LeaseExpired | RingAlmostFull | EntryMissing

  datatype After = Acknowledged | MutationFailed | PublishFailed

  /** A ring whose room check passed with the head at head0; no append came
      since, and the consumer has moved on to head1. */
  predicate Checked(cap: nat, head0: nat, head1: nat, tail: nat, estimate: nat) {
    && GoodCap(cap) && tail % 8 == 0 && head0 % 8 == 0
    && head0 <= head1 <= tail <= head0 + cap
    && cap - (tail - head0) >= estimate + CONCURRENT_BUFFER
  }

  /** What the fixed reserve must still cover: the entry and, in the worst case,
      padding of one word less than the entry. */
  predicate ReserveCovers(estimate: nat, p: Payload) {
    2 * EntrySize(p) - 8 <= AlignUp(estimate + CONCURRENT_BUFFER)
  }

  lemma CheckedAppendFits(cap: nat, head0: nat, head1: nat, tail: nat, estimate: nat, p: Payload)
    requires Checked(cap, head0, head1, tail, estimate)
    requires |p| <= estimate && |p| <= MAX_PAYLOAD && ReserveCovers(estimate, p)
    ensures Fits(cap, head1, tail, p)
  {
    hide Pos, AlignUp;
    PosAligned(cap, tail);
    Multiples(cap + head0, tail);
    AlignLeast(estimate + CONCURRENT_BUFFER, cap - (tail - head0));
    if Space(cap, tail) < EntrySize(p) {
      assert Space(cap, tail) <= EntrySize(p) - 8;
    }
  }

  /** The worst case: the tail stands one word short of the room the entry needs
      before the end, and the ring has exactly the room that was checked for. */
  lemma WorstCaseRefuses(estimate: nat, p: Payload)
    requires |p| <= estimate && !ReserveCovers(estimate, p)
    ensures
      var room, size := AlignUp(estimate + CONCURRENT_BUFFER), EntrySize(p);
      var cap, tail, head := room + size, room + 8, room + 8 - size;
      head >= 0 && Checked(cap, head, head, tail, estimate) && !Fits(cap, head, tail, p)
  {
    hide AlignUp;
    var room, size := AlignUp(estimate + CONCURRENT_BUFFER), EntrySize(p);
    Multiples(room, size);
    Multiples(room + 8, size);
    assert Pos(room + size, room + 8) == room + 8;
  }

  ghost predicate IsRing(cap: nat, crc: Checksum, head: nat, tail: nat) {
    exists mem, log, taken: nat :: RingInv(cap, crc, mem, head, tail, log, taken)
  }

  /** Those cursors are the cursors of a ring: an entry popped, if the head is not
      0, and then p itself, pending. */
  lemma WorstCaseIsARing(crc: Checksum, estimate: nat, p: Payload)
    requires |p| <= estimate && |p| <= MAX_PAYLOAD && !ReserveCovers(estimate, p)
    ensures
      var room, size := AlignUp(estimate + CONCURRENT_BUFFER), EntrySize(p);
      room + 8 >= size && IsRing(room + size, crc, room + 8 - size, room + 8)
  {
    hide AlignUp, IsRing, EntrySize, GoodCap;
    var room, size := AlignUp(estimate + CONCURRENT_BUFFER), EntrySize(p);
    SizeBounds(p);
    WorstCursors(room, size, |p|, estimate);
    PoppedThenPending(room + size, crc, room + 8 - size, p);
  }

  lemma SizeBounds(p: Payload)
    ensures EntrySize(p) % 8 == 0 && |p| + 8 <= EntrySize(p) < |p| + 16
  {
  }

  lemma WorstCursors(room: nat, size: nat, len: nat, estimate: nat)
    requires room % 8 == 0 && size % 8 == 0 && 2 * size - 8 > room >= estimate + CONCURRENT_BUFFER
    requires len <= estimate && len <= MAX_PAYLOAD && len + 8 <= size < len + 16
    ensures room + 8 >= size && GoodCap(room + size)
    ensures (room + 8 - size) % 8 == 0 && room + 8 - size <= MAX_PAYLOAD + 8
  {
    Multiples(room, size);
    Multiples(room + 8, size);
    var a, b := room / 8, size / 8;
    assert room == 8 * a && size == 8 * b;
    assert a <= 2 * b - 2;
  }

  lemma PoppedThenPending(cap: nat, crc: Checksum, head: nat, p: Payload)
    requires GoodCap(cap) && head % 8 == 0 && head <= MAX_PAYLOAD + 8 && |p| <= MAX_PAYLOAD && head + EntrySize(p) < cap
    ensures IsRing(cap, crc, head, head + EntrySize(p))
  {
    hide AlignUp, RingInv, Frame, Zeros, Pos, SkipLen, StoredAt;
    if head == 0 {
      var mem := TwoFrames(cap, [], 0, Frame(crc, p));
      EmptyRing(cap, crc, mem);
      OneMore(cap, crc, mem, 0, 0, [], 0, p);
    } else {
      var first := Zeros(head - 8);
      SizeOfAligned(head);
      var mem := TwoFrames(cap, Frame(crc, first), head, Frame(crc, p));
      EmptyRing(cap, crc, mem);
      OneMore(cap, crc, mem, 0, 0, [], 0, first);
      var log := [] + [SlotAt(cap, 0, first)];
      PosAdvance(cap, 0, 0);
      NoSkipAtStart(cap, first);
      TakeKeepsInv(cap, crc, mem, 0, head, log, 0);
      OneMore(cap, crc, mem, head, head, log, 1, p);
    }
  }

  function Zeros(n: nat): (r: Payload)
    ensures |r| == n
  {
    seq(n, _ => 0)
  }

  lemma SizeOfAligned(n: nat)
    requires n % 8 == 0 && n >= 8
    ensures EntrySize(Zeros(n - 8)) == n
  {
  }

  lemma TwoFrames(cap: nat, a: seq<byte>, at: nat, b: seq<byte>) returns (mem: seq<byte>)
    requires |a| <= at && at + |b| <= cap
    ensures |mem| == cap && StoredAt(mem, 0, a) && StoredAt(mem, at, b)
  {
    mem := a + Zeros(at - |a|) + b + Zeros(cap - at - |b|);
  }

  lemma EmptyRing(cap: nat, crc: Checksum, mem: seq<byte>)
    requires GoodCap(cap) && |mem| == cap
    ensures RingInv(cap, crc, mem, 0, 0, [], 0)
  {
  }

  lemma NoSkipAtStart(cap: nat, p: Payload)
    requires EntrySize(p) < cap
    ensures SlotAt(cap, 0, p).start == 0
  {
  }

  /** Before any wrap, a stored frame at the tail may be published. */
  lemma OneMore(cap: nat, crc: Checksum, mem: seq<byte>, head: nat, tail: nat, log: seq<Slot>, taken: nat, p: Payload)
    requires RingInv(cap, crc, mem, head, tail, log, taken) && tail % 8 == 0
    requires |p| <= MAX_PAYLOAD && tail + EntrySize(p) < cap && StoredAt(mem, tail, Frame(crc, p))
    ensures RingInv(cap, crc, mem, head, tail + EntrySize(p), log + [SlotAt(cap, tail, p)], taken)
  {
    hide RingInv, Frame, StoredAt;
    RingShape(cap, crc, mem, head, tail, log, taken);
    assert Pos(cap, tail) == tail;
    PlacementFacts(cap, tail, p);
    PublishKeepsInv(cap, crc, mem, head, tail, log, taken, SlotAt(cap, tail, p));
  }

  lemma RingShape(cap: nat, crc: Checksum, mem: seq<byte>, head: nat, tail: nat, log: seq<Slot>, taken: nat)
    requires RingInv(cap, crc, mem, head, tail, log, taken)
    ensures GoodCap(cap) && |mem| == cap
  {
  }

  /** Once the room check passed, the append fits at its first attempt whatever
      the capacity and the cursors, exactly when the reserve covers the padding.
      Every entry of up to 65536 aligned bytes is covered; larger ones are not,
      unless the estimate exceeds the encoding by as much. */
  lemma CheckedAppendFitsIff(estimate: nat, p: Payload)
    requires |p| <= estimate && |p| <= MAX_PAYLOAD
    ensures (forall cap: nat, head0: nat, head1: nat, tail: nat ::
               Checked(cap, head0, head1, tail, estimate) ==> Fits(cap, head1, tail, p))
            <==> ReserveCovers(estimate, p)
    ensures EntrySize(p) <= 65536 ==> ReserveCovers(estimate, p)
  {
    hide Fits;
    if ReserveCovers(estimate, p) {
      forall cap: nat, head0: nat, head1: nat, tail: nat | Checked(cap, head0, head1, tail, estimate)
        ensures Fits(cap, head1, tail, p)
      {
        CheckedAppendFits(cap, head0, head1, tail, estimate, p);
      }
    } else {
      WorstCaseRefuses(estimate, p);
    }
    if EntrySize(p) <= 65536 {
      SmallIsCovered(estimate, p);
    }
  }

  lemma SmallIsCovered(estimate: nat, p: Payload)
    requires |p| <= estimate && EntrySize(p) <= 65536
    ensures ReserveCovers(estimate, p)
  {
  }

  /** The room check therefore keeps its promise for every write whose map name,
      key and writer id need no JSON escaping: once Stamp said Ready, the later
      append fits at the first attempt, if no other append came between. */
  lemma ReadyWriteFits(cap: nat, head0: nat, head1: nat, tail: nat, op: Operation, kind: Op, f: Fence, now: int,
                       p: Payload)
    requires Checked(cap, head0, head1, tail, Estimate(op.dmap, op.key, f.writer, RawLen(op)))
    requires Typed(op) && Stampable(f, f.writer, now) && |p| == JsonLen(EntryFor(op, kind, f, now))
    requires forall c :: c in op.dmap || c in op.key || c in f.writer ==> EscapeCost(c) == 1
    requires |p| <= MAX_PAYLOAD && ReserveCovers(Estimate(op.dmap, op.key, f.writer, RawLen(op)), p)
    ensures Fits(cap, head1, tail, p)
  {
    hide JsonLen, Checked, ReserveCovers, Fits, Typed, EscapeCost;
    PlainEstimateBounds(op, kind, f.writer);
    CheckedAppendFits(cap, head0, head1, tail, Estimate(op.dmap, op.key, f.writer, RawLen(op)), p);
  }

  function Sum(ns: seq<nat>): nat {
    if ns == [] then 0 else Sum(ns[..|ns| - 1]) + ns[|ns| - 1]
  }

  function AtMost(n: nat, limit: nat): nat {
    if n <= limit then n else limit
  }

  lemma NoProgress(progress: seq<nat>, limit: nat)
    ensures AtMost(Sum(progress[..0]), limit) == 0 && progress[..|progress|] == progress
  {
  }

  lemma Progressed(progress: seq<nat>, i: nat, popped: nat, n: nat, limit: nat)
    requires i < |progress| && popped == AtMost(Sum(progress[..i]), limit) && n == AtMost(progress[i], limit - popped)
    ensures popped + n == AtMost(Sum(progress[..i + 1]), limit)
  {
    assert progress[..i + 1][..i] == progress[..i];
  }

  class Hook {
    const ring: Ring
    const lease: L.LeaseTracker
    const sequence: S.MemoryFenceSequencer
    const writerID: string
    /** Whether the sidecar's control channel is configured. */
    const control: bool
    /** Whether a fatal callback is configured. */
    const callback: bool
    /** The payload sizes the sidecar has been notified of. */
    var notices: seq<nat>
    var fatalCalled: bool
    /** How often the fatal callback has been invoked. */
    var reports: nat

    ghost predicate Valid()
      reads this
    {
      reports == (if fatalCalled then 1 else 0) && (fatalCalled ==> callback)
    }

    constructor (ring: Ring, lease: L.LeaseTracker, sequence: S.MemoryFenceSequencer, writerID: string, control: bool,
                 callback: bool)
      ensures this.ring == ring && this.lease == lease && this.sequence == sequence && this.writerID == writerID
      ensures this.control == control && this.callback == callback && notices == []
      ensures Valid() && reports == 0
    {
      this.ring, this.lease, this.sequence, this.writerID := ring, lease, sequence, writerID;
      this.control, this.callback, notices := control, callback, [];
      fatalCalled, reports := false, 0;
    }

    /** Takes the current fence and refuses early when the ring is nearly full. */
    method Stamp(op: Operation, now: int) returns (r: Before)
      requires ring.Valid()
      ensures !r.EntryMissing?
      ensures r.LeaseExpired? <==> !L.Serving(lease.View(), now)
      ensures r.Ready? <==> && L.Serving(lease.View(), now)
                            && ring.cap - (ring.tail - ring.head)
                               >= Estimate(op.dmap, op.key, writerID, RawLen(op)) + CONCURRENT_BUFFER
      ensures r.Ready? ==> r.op == op.(generation := lease.generation, epoch := lease.epoch)
    {
      var fence := lease.SnapshotForWrite(now);
      if fence.None? {
        return LeaseExpired;
      }
      var stamped := op.(generation := fence.value.0, epoch := fence.value.1);
      var pending := ring.Pending();
      if ring.cap - pending < Estimate(op.dmap, op.key, writerID, RawLen(op)) + CONCURRENT_BUFFER {
        return RingAlmostFull;
      }
      return Ready(stamped);
    }

    /** Before a set or an expire the stored value is required; a delete has none. */
    method BeforeMutation(op: Operation, kind: Op, now: int) returns (r: Before)
      requires ring.Valid()
      ensures r.EntryMissing? <==> kind != OpDelete && op.entry.None?
      ensures r.Ready? ==> && L.Serving(lease.View(), now)
                           && r.op == op.(generation := lease.generation, epoch := lease.epoch)
                           && L.FenceHolds(lease.View(), r.op.generation, r.op.epoch, now)
                           && Checked(ring.cap, ring.head, ring.head, ring.tail,
                                      Estimate(op.dmap, op.key, writerID, RawLen(op)))
      ensures r.LeaseExpired? ==> !L.Serving(lease.View(), now)
      ensures r.RingAlmostFull? ==>
                ring.cap - (ring.tail - ring.head) < Estimate(op.dmap, op.key, writerID, RawLen(op)) + CONCURRENT_BUFFER
    {
      hide RingInv, Estimate;
      if kind != OpDelete && op.entry.None? {
        return EntryMissing;
      }
      ring.RingFacts();
      CursorsAligned(ring.cap, ring.crc, ring.data[..], ring.head, ring.tail, ring.log, ring.taken);
      r := Stamp(op, now);
    }

    /** Under the fragment lock: is the stamped fence still good? */
    method VerifyAfterLock(op: Operation, now: int) returns (ok: bool)
      ensures ok <==> || op.generation == 0
                      || ( && now < lease.validUntilUnixMs && op.generation == lease.generation
                           && op.epoch <= lease.epoch)
    {
      if op.generation == 0 {
        return true;
      }
      ok := lease.VerifyFence(op.generation, op.epoch, now);
    }

    /** However often a publish fails, the callback, if there is one, hears of exactly
        one failure. */
    method Fatal()
      requires Valid()
      modifies this`fatalCalled, this`reports
      ensures Valid() && reports == if callback then 1 else 0
    {
      if !callback {
        return;
      }
      if !fatalCalled {
        fatalCalled := true;
        reports := reports + 1;
      }
    }

    /** Retries a full ring while the budget lasts. `progress` is what the
        consumer pops between the attempts; its length is the number of retries
        the budget allows. Any refusal but "full" ends at once. */
    method AppendWithBudget(payload: Payload, progress: seq<nat>) returns (ok: bool, ghost popped: nat)
      requires ring.Valid() && |payload| < TWO_32
      modifies ring, ring.data
      ensures ring.Valid() && popped <= |old(ring.Contents())|
      ensures ring.Contents() == old(ring.Contents())[popped..] + (if ok then [payload] else [])
      ensures Fits(ring.cap, old(ring.head), old(ring.tail), payload) ==> ok && popped == 0
      ensures ok ==> Sendable(ring.cap, payload)
      ensures !ok && Sendable(ring.cap, payload) ==>
                Needed(ring.cap, ring.tail, payload) > ring.cap - (ring.tail - ring.head)
      ensures !ok && Sendable(ring.cap, payload) ==> popped == AtMost(Sum(progress), |old(ring.Contents())|)
    {
      hide RingInv, Needed, Cut, Ring.Poisoned, Ring.Contents, Sum, AtMost, AlignUp;
      ring.RingFacts();
      NoProgress(progress, |ring.Contents()|);
      ghost var q := ring.Contents();
      var i := 0;
      popped := 0;
      while true
        invariant 0 <= i <= |progress| && ring.Valid() && popped <= |q| && ring.Contents() == q[popped..]
        invariant ring.tail == old(ring.tail)
        invariant i == 0 ==> popped == 0 && ring.head == old(ring.head)
        invariant i > 0 ==> !Fits(ring.cap, old(ring.head), old(ring.tail), payload)
        invariant popped == AtMost(Sum(progress[..i]), |q|)
        decreases |progress| - i
      {
        var r := ring.Append(payload);
        if r.Appended? {
          return true, popped;
        }
        if r.PayloadTooLarge? || i == |progress| {
          return false, popped;
        }
        ghost var n := Consume(progress[i]);
        Progressed(progress, i, popped, n, |q|);
        assert q[popped..][n..] == q[popped + n..];
        popped := popped + n;
        i := i + 1;
      }
    }

    /** The consumer pops up to n payloads. */
    method Consume(n: nat) returns (ghost popped: nat)
      requires ring.Valid()
      modifies ring`head, ring`taken
      ensures ring.Valid() && popped <= |old(ring.Contents())| && old(ring.head) <= ring.head
      ensures ring.Contents() == old(ring.Contents())[popped..]
      ensures popped == AtMost(n, |old(ring.Contents())|)
    {
      hide RingInv, Ring.Poisoned, Ring.Contents;
      popped := 0;
      var i := 0;
      while i < n
        invariant 0 <= i == popped <= n && ring.Valid()
        invariant popped <= |old(ring.Contents())| && old(ring.head) <= ring.head
        invariant ring.Contents() == old(ring.Contents())[popped..]
      {
        var r, _ := ring.Pop();
        if !r.Popped? {
          return;
        }
        popped := popped + 1;
        i := i + 1;
      }
    }

    /** The entry published for an operation under a stamp. */
    function Published(op: Operation, kind: Op, f: S.StampResult, now: int): Entry
      requires f.Stamped?
    {
      EntryFor(op, kind, Fence(f.generation, f.epoch, f.ownerSeq, writerID), now)
    }

    /** The owner sequence of the next stamp in the operation's window. */
    static function NextSeq(s: S.SeqState, op: Operation): int {
      if op.generation == s.generation && op.epoch == s.epoch then s.last + 1 else 1
    }

    /** After the mutation: an acknowledgement means one entry was enqueued,
        carrying the sequencer's next fence, and the sidecar notified; a failure
        after a successful mutation is fatal, once; a failed mutation publishes
        nothing. `encode` gives None for an entry that does not encode. */
    method AfterMutation(op: Operation, kind: Op, mutated: bool, now: int, encode: Entry -> Option<Payload>,
                         progress: seq<nat>) returns (r: After, ghost popped: nat)
      requires Valid() && ring.Valid() && (forall e :: encode(e).Some? ==> |encode(e).value| < TWO_32)
      modifies this, sequence, ring, ring.data
      ensures Valid() && ring.Valid() && popped <= |old(ring.Contents())|
      ensures r.MutationFailed? <==> !mutated
      ensures sequence.View() == if mutated then S.AfterStamp(old(sequence.View()), op.generation, op.epoch)
                                 else old(sequence.View())
      ensures r.Acknowledged? ==>
                var f := S.StampResultOf(old(sequence.View()), op.generation, op.epoch);
                && f.Stamped? && encode(Published(op, kind, f, now)).Some?
                && var p := encode(Published(op, kind, f, now)).value;
                   && ring.Contents() == old(ring.Contents())[popped..] + [p]
                   && notices == old(notices) + (if control then [|p|] else [])
      ensures r.Acknowledged? ==>
                exists e :: && Tells(e, op, kind, NextSeq(old(sequence.View()), op), writerID, now) && encode(e).Some?
                            && ring.Contents() == old(ring.Contents())[popped..] + [encode(e).value]
      ensures !r.Acknowledged? ==> ring.Contents() == old(ring.Contents())[popped..] && notices == old(notices)
      ensures reports == if r.PublishFailed? && callback then 1 else old(reports)
      ensures r.PublishFailed? ==>
                var f := S.StampResultOf(old(sequence.View()), op.generation, op.epoch);
                || !f.Stamped? || encode(Published(op, kind, f, now)).None?
                || !Sendable(ring.cap, encode(Published(op, kind, f, now)).value)
                || popped == AtMost(Sum(progress), |old(ring.Contents())|)
      ensures mutated && S.StampResultOf(old(sequence.View()), op.generation, op.epoch).Stamped? ==>
                var f := S.StampResultOf(old(sequence.View()), op.generation, op.epoch);
                var p := encode(Published(op, kind, f, now));
                p.Some? && Fits(ring.cap, old(ring.head), old(ring.tail), p.value) ==> r.Acknowledged? && popped == 0
    {
      hide RingInv, Needed, Fits;
      popped := 0;
      if !mutated {
        return MutationFailed, popped;
      }
      var f := sequence.Stamp(op.generation, op.epoch);
      if !f.Stamped? {
        Fatal();
        return PublishFailed, popped;
      }
      var payload := encode(Published(op, kind, f, now));
      if payload.None? {
        Fatal();
        return PublishFailed, popped;
      }
      assert Tells(Published(op, kind, f, now), op, kind, NextSeq(old(sequence.View()), op), writerID, now);
      var ok;
      ok, popped := AppendWithBudget(payload.value, progress);
      if !ok {
        Fatal();
        return PublishFailed, popped;
      }
      if control {
        notices := notices + [|payload.value|];
      }
      return Acknowledged, popped;
    }

    /** The write is one the room check covers: its strings need no escaping, its
        encoding is as long as the format says, and the reserve covers the padding. */
    ghost predicate Covered(op: Operation, kind: Op, f: S.StampResult, now: int, encode: Entry -> Option<Payload>) {
      && f.Stamped? && Typed(op) && Stampable(Fence(f.generation, f.epoch, f.ownerSeq, writerID), writerID, now)
      && (forall c :: c in op.dmap || c in op.key || c in writerID ==> EscapeCost(c) == 1)
      && var e := Published(op, kind, f, now);
         && encode(e).Some? && |encode(e).value| == JsonLen(e) && |encode(e).value| <= MAX_PAYLOAD
         && ReserveCovers(Estimate(op.dmap, op.key, writerID, RawLen(op)), encode(e).value)
    }

    /** A whole write with no other writer beside it: the hook before the mutation,
        whatever the consumer pops meanwhile, a successful mutation, and the hook
        after it. Once the first hook said Ready, a covered write whose stamp is not
        refused is acknowledged at its first attempt. */
    method WholeWrite(op: Operation, kind: Op, start: int, end: int, pops: nat, encode: Entry -> Option<Payload>,
                      progress: seq<nat>) returns (b: Before, r: Option<After>)
      requires Valid() && ring.Valid() && (forall e :: encode(e).Some? ==> |encode(e).value| < TWO_32)
      modifies this, sequence, ring, ring.data
      ensures Valid() && ring.Valid() && (b.Ready? <==> r.Some?)
      ensures b.Ready? && Covered(b.op, kind, S.StampResultOf(old(sequence.View()), b.op.generation, b.op.epoch),
          end, encode)
              ==> r.value.Acknowledged?
    {
      hide RingInv, Fits, Checked, Estimate, ReserveCovers, JsonLen, EscapeCost, Typed;
      b := BeforeMutation(op, kind, start);
      if !b.Ready? {
        return b, None;
      }
      ghost var head0, tail := ring.head, ring.tail;
      ghost var estimate := Estimate(op.dmap, op.key, writerID, RawLen(op));
      ghost var _ := Consume(pops);
      ring.RingFacts();
      StillChecked(ring.cap, head0, ring.head, tail, estimate);
      ghost var f := S.StampResultOf(sequence.View(), b.op.generation, b.op.epoch);
      if Covered(b.op, kind, f, end, encode) {
        ghost var p := encode(Published(b.op, kind, f, end)).value;
        ReadyWriteFits(ring.cap, head0, ring.head, tail, b.op, kind,
                       Fence(f.generation, f.epoch, f.ownerSeq, writerID), end, p);
      }
      var after, _ := AfterMutation(b.op, kind, true, end, encode, progress);
      r := Some(after);
    }
  }

  lemma StillChecked(cap: nat, head0: nat, head1: nat, tail: nat, estimate: nat)
    requires Checked(cap, head0, head0, tail, estimate) && head0 <= head1 <= tail
    ensures Checked(cap, head0, head1, tail, estimate)
  {
  }

  method NewHook(ring: Ring, lease: L.LeaseTracker, sequence: S.MemoryFenceSequencer, writerID: string, control: bool,
                 callback: bool)
    returns (r: Option<Hook>)
    ensures r.None? <==> writerID == ""
    ensures r.Some? ==> && fresh(r.value) && r.value.ring == ring && r.value.lease == lease
                        && r.value.sequence == sequence && r.value.writerID == writerID
                        && r.value.control == control && r.value.callback == callback
                        && r.value.Valid() && r.value.reports == 0
  {
    if writerID == "" {
      return None;
    }
    var hook := new Hook(ring, lease, sequence, writerID, control, callback);
    return Some(hook);
  }

  predicate Fits(cap: nat, head: nat, tail: nat, p: Payload)
    requires cap > 0
  {
    Sendable(cap, p) && Needed(cap, tail, p) <= cap - (tail - head)
  }
}
