// The ring as the code runs it: a byte buffer, two cursors, Append and Pop.
module SharedRing {
  import opened Bytes
  import opened RingLayout

  datatype AppendResult = Appended | PayloadTooLarge | RingFull
  datatype Found = Skip | Bogus | Whole(payload: Payload, size: nat)
  datatype PopResult = Popped(payload: Payload) | Empty | Corrupted

  function Splice(m: seq<byte>, pos: nat, bs: seq<byte>): (r: seq<byte>)
    requires pos + |bs| <= |m|
    ensures |r| == |m|
  {
    m[..pos] + bs + m[pos + |bs|..]
  }

  lemma SpliceNone(m: seq<byte>, pos: nat)
    requires pos <= |m|
    ensures Splice(m, pos, []) == m
  {
  }

  lemma SpliceStep(m: seq<byte>, pos: nat, bs: seq<byte>, i: nat)
    requires pos + |bs| <= |m| && i < |bs|
    ensures Splice(m, pos, bs[..i])[pos + i := bs[i]] == Splice(m, pos, bs[..i + 1])
  {
  }

  lemma SpliceJoin(m: seq<byte>, pos: nat, a: seq<byte>, b: seq<byte>)
    requires pos + |a| + |b| <= |m|
    ensures Splice(Splice(m, pos, a), pos + |a|, b) == Splice(m, pos, a + b)
  {
    assert (a + b)[..|a|] == a;
  }

  /** A splice inside the free region stores its bytes and disturbs no live byte. */
  lemma SpliceFree(cap: nat, m: seq<byte>, head: nat, tail: nat, a: nat, bs: seq<byte>)
    requires cap > 0 && |m| == cap
    requires head <= tail <= a && a + |bs| <= head + cap
    requires Pos(cap, a) + |bs| <= cap
    ensures StoredAt(Splice(m, Pos(cap, a), bs), Pos(cap, a), bs)
    ensures SameLive(cap, m, Splice(m, Pos(cap, a), bs), head, tail)
  {
    var m' := Splice(m, Pos(cap, a), bs);
    forall x | head <= x < tail
      ensures m[Pos(cap, x)] == m'[Pos(cap, x)]
    {
      if Pos(cap, a) <= Pos(cap, x) < Pos(cap, a) + |bs| {
        var k := Pos(cap, x) - Pos(cap, a);
        PosAdvance(cap, a, k);
        PosApart(cap, x, a + k);
      }
    }
  }

  /** The memory after Append's writes of p under a checksum. */
  function WithEntry(cap: nat, m: seq<byte>, t: nat, p: Payload, sum: u32): seq<byte>
    requires GoodCap(cap) && |m| == cap && WellPlaced(cap, SlotAt(cap, t, p))
  {
    var s := SlotAt(cap, t, p);
    var m1 := if s.at < s.start then Splice(m, Pos(cap, t), SkipBytes()) else m;
    Splice(m1, Pos(cap, s.start), FrameWith(p, sum))
  }

  /** The length is narrowed to 32 bits, and as many bytes are written; the
      checksum is that of the whole payload. */
  function Cut(p: Payload): (r: Payload)
    ensures |p| < TWO_32 ==> r == p
    ensures |r| < TWO_32
  {
    p[..|p| % TWO_32]
  }

  /** Append's writes, under any checksum, disturb nothing and are in place. */
  lemma WrittenEntry(cap: nat, crc: Checksum, m: seq<byte>, head: nat, tail: nat,
                     log: seq<Slot>, taken: nat, p: Payload, sum: u32)
    requires RingInv(cap, crc, m, head, tail, log, taken)
    requires Sendable(cap, p) && tail + Needed(cap, tail, p) <= head + cap
    ensures WellPlaced(cap, SlotAt(cap, tail, p))
    ensures
      var s, m' := SlotAt(cap, tail, p), WithEntry(cap, m, tail, p, sum);
      && RingInv(cap, crc, m', head, tail, log, taken)
      && (s.at < s.start ==> StoredAt(m', Pos(cap, s.at), SkipBytes()))
      && StoredAt(m', Pos(cap, s.start), FrameWith(p, sum))
  {
    hide Pos, AlignUp, FrameWith, SkipBytes, Chain, HeadAt, Kept;
    CursorsAligned(cap, crc, m, head, tail, log, taken);
    PlacementFacts(cap, tail, p);
    var s := SlotAt(cap, tail, p);
    var m1 := if s.at < s.start then Splice(m, Pos(cap, tail), SkipBytes()) else m;
    var m2 := WithEntry(cap, m, tail, p, sum);
    if s.at < s.start {
      SpliceFree(cap, m, head, tail, tail, SkipBytes());
      KeptTransfer(cap, crc, m, m1, head, tail, log, taken);
    }
    SpliceFree(cap, m1, head, s.start, s.start, FrameWith(p, sum));
    assert SameLive(cap, m1, m2, head, tail);
    KeptTransfer(cap, crc, m1, m2, head, tail, log, taken);
    if s.at < s.start {
      StoredTransfer(cap, m1, m2, head, s.start, s.at, SkipBytes());
    }
  }

  lemma AppendedMemory(cap: nat, crc: Checksum, m: seq<byte>, head: nat, tail: nat,
                       log: seq<Slot>, taken: nat, p: Payload)
    requires RingInv(cap, crc, m, head, tail, log, taken)
    requires Sendable(cap, p) && tail + Needed(cap, tail, p) <= head + cap
    ensures WellPlaced(cap, SlotAt(cap, tail, p))
    ensures RingInv(cap, crc, WithEntry(cap, m, tail, p, crc(p)), head, SlotAt(cap, tail, p).End(),
                    log + [SlotAt(cap, tail, p)], taken)
  {
    hide Pos, AlignUp, SkipBytes, Chain, HeadAt, FrameWith, WithEntry;
    WrittenEntry(cap, crc, m, head, tail, log, taken, p, crc(p));
    PublishKeepsInv(cap, crc, WithEntry(cap, m, tail, p, crc(p)), head, tail, log, taken, SlotAt(cap, tail, p));
  }

  /** A part of what is stored lies where the whole says. */
  lemma PartStored(m: seq<byte>, pos: nat, bs: seq<byte>, i: nat, j: nat)
    requires StoredAt(m, pos, bs) && i <= j <= |bs|
    ensures m[pos + i..pos + j] == bs[i..j]
  {
    forall k | i <= k < j
      ensures m[pos + k] == bs[k]
    {
      assert m[pos..pos + |bs|][k] == m[pos + k];
    }
  }

  /** An entry stored under a checksum that is not that of its bytes. */
  datatype Poison = Clean | Bad(slot: Slot, sum: u32)

  class Ring {
    const cap: nat
    const crc: Checksum
    const data: array<byte>
    var head: nat
    var tail: nat
    ghost var log: seq<Slot>
    ghost var taken: nat
    ghost var poison: Poison

    ghost predicate Valid()
      reads this, data
    {
      data.Length == cap && poison.Clean? && RingInv(cap, crc, data[..], head, tail, log, taken)
    }

    /** Behind the entries still to be popped stands one that fails its checksum;
        the consumer is before its skip marker, or at it. */
    ghost predicate Poisoned()
      reads this, data
    {
      && data.Length == cap && GoodCap(cap) && poison.Bad?
      && var bad := poison.slot;
         && WellPlaced(cap, bad) && poison.sum != crc(bad.payload) && bad.End() <= tail
         && StoredAt(data[..], Pos(cap, bad.start), FrameWith(bad.payload, poison.sum))
         && ( || ( && RingInv(cap, crc, data[..], head, bad.at, log, taken)
                   && (bad.at < bad.start ==> StoredAt(data[..], Pos(cap, bad.at), SkipBytes())))
              || (head == bad.start && taken == |log|))
    }

    /** The payloads appended and not yet popped, oldest first. */
    ghost function Contents(): seq<Payload>
      reads this
    {
      if taken <= |log| then Payloads(log)[taken..] else []
    }

    /** Create rounds the capacity up to a multiple of 8 and zeroes the cursors. */
    constructor (capacity: nat, crc: Checksum)
      requires capacity >= MIN_CAPACITY
      ensures Valid() && fresh(data)
      ensures cap == AlignUp(capacity) && this.crc == crc
      ensures Contents() == [] && head == tail == 0
    {
      var c := if capacity % 8 != 0 then capacity + (8 - capacity % 8) else capacity;
      cap := c;
      this.crc := crc;
      data := new byte[c](_ => 0);
      head, tail := 0, 0;
      log, taken, poison := [], 0, Clean;
    }

    method Pending() returns (n: nat)
      requires Valid()
      ensures n == tail - head <= cap
    {
      n := tail - head;
    }

    method WriteBytes(pos: nat, bs: seq<byte>)
      requires pos + |bs| <= data.Length
      modifies data
      ensures data[..] == Splice(old(data[..]), pos, bs)
    {
      hide Splice;
      SpliceNone(data[..], pos);
      var i := 0;
      while i < |bs|
        invariant 0 <= i <= |bs|
        invariant data[..] == Splice(old(data[..]), pos, bs[..i])
      {
        SpliceStep(old(data[..]), pos, bs, i);
        data[pos + i] := bs[i];
        i := i + 1;
      }
      assert bs[..i] == bs;
    }

    /** One entry: length word, checksum word, payload. */
    method WriteFrame(pos: nat, payload: Payload, sum: u32)
      requires |payload| < TWO_32
      requires pos + 8 + |payload| <= data.Length
      modifies data
      ensures data[..] == Splice(old(data[..]), pos, FrameWith(payload, sum))
    {
      WriteBytes(pos, LE(|payload|, 4));
      WriteBytes(pos + 4, LE(sum, 4));
      WriteBytes(pos + 8, payload);
      ghost var m := old(data[..]);
      SpliceJoin(m, pos, LE(|payload|, 4), LE(sum, 4));
      SpliceJoin(m, pos, LE(|payload|, 4) + LE(sum, 4), payload);
    }

    method WriteSkip(pos: nat)
      requires pos + 8 <= data.Length
      modifies data
      ensures data[..] == Splice(old(data[..]), pos, SkipBytes())
    {
      WriteBytes(pos, LE(SKIP_MARKER, 4));
      WriteBytes(pos + 4, LE(0, 4));
      SpliceJoin(old(data[..]), pos, LE(SKIP_MARKER, 4), LE(0, 4));
    }

    method Position(t: nat) returns (pos: nat)
      requires cap > 0
      ensures pos == Pos(cap, t)
    {
      PosIsMod(cap, t);
      pos := t % cap;
    }

    /** The skip marker, when the entry does not fit before the end, then the entry. */
    method WriteEntry(posInRing: nat, needSkip: bool, payload: Payload, sum: u32)
      requires GoodCap(cap) && data.Length == cap && |payload| < TWO_32
      requires WellPlaced(cap, SlotAt(cap, tail, payload))
      requires posInRing == Pos(cap, tail) && needSkip == (Space(cap, tail) < EntrySize(payload))
      modifies data
      ensures data[..] == WithEntry(cap, old(data[..]), tail, payload, sum)
    {
      hide Pos, AlignUp, FrameWith, SkipBytes, Splice;
      if needSkip {
        WriteSkip(posInRing);
        WriteFrame(0, payload, sum);
      } else {
        WriteFrame(posInRing, payload, sum);
      }
    }

    /** Refuses with RingFull exactly when the entry, with the padding its
        placement needs, exceeds the free bytes; else enqueues. A payload of 2^32
        bytes or more is cut; it is enqueued cut if the checksums happen to agree,
        and otherwise an entry is stored that poisons the ring. */
    method Append(payload: Payload) returns (r: AppendResult)
      requires Valid()
      modifies this, data
      ensures head == old(head) && taken == old(taken)
      ensures r.PayloadTooLarge? <==> !Sendable(cap, Cut(payload))
      ensures r.RingFull? <==> && Sendable(cap, Cut(payload))
                               && Needed(cap, old(tail), Cut(payload)) > cap - (old(tail) - head)
      ensures r.Appended? ==> cap > 0 && tail == old(tail) + Needed(cap, old(tail), Cut(payload))
      ensures !r.Appended? ==> Valid() && tail == old(tail) && log == old(log) && data[..] == old(data[..])
      ensures !r.Appended? ==> Contents() == old(Contents())
      ensures r.Appended? && crc(payload) == crc(Cut(payload)) ==>
                Valid() && Contents() == old(Contents()) + [Cut(payload)]
      ensures r.Appended? && crc(payload) != crc(Cut(payload)) ==> Poisoned() && Contents() == old(Contents())
    {
      hide RingInv, Pos, FrameWith, SkipBytes, WithEntry, Cut;
      var sum := crc(payload);
      var cut := Cut(payload);
      if |cut| > MAX_PAYLOAD {
        return PayloadTooLarge;
      }
      var entrySize := AlignUp(8 + |cut|);
      if entrySize > cap {
        return PayloadTooLarge;
      }
      RingFacts();
      var free := cap - (tail - head);
      var posInRing := Position(tail);
      var spaceToBoundary := cap - posInRing;
      var needSkip := spaceToBoundary < entrySize;
      var needed := if needSkip then spaceToBoundary + entrySize else entrySize;
      if needed > free {
        return RingFull;
      }
      AppendedMemory(cap, crc, data[..], head, tail, log, taken, cut);
      WrittenEntry(cap, crc, data[..], head, tail, log, taken, cut, sum);
      WriteEntry(posInRing, needSkip, cut, sum);
      ghost var slot := SlotAt(cap, tail, cut);
      assert Payloads(log + [slot])[taken..] == Payloads(log)[taken..] + [cut];
      tail := tail + needed;
      if sum == crc(cut) {
        log := log + [slot];
      } else {
        poison := Bad(slot, sum);
      }
      return Appended;
    }

    /** What the consumer finds at a head that is not the tail, and how far the
        end of the data region is. */
    method Look() returns (found: Found, toBoundary: nat)
      requires (Valid() || Poisoned()) && head != tail
      ensures taken <= |log|
      ensures taken < |log| ==>
                if head < log[taken].start then found == Skip && head + toBoundary == log[taken].start
                else head == log[taken].start && found == Whole(log[taken].payload, EntrySize(log[taken].payload))
      ensures taken == |log| ==>
                && Poisoned()
                && if head < poison.slot.start then found == Skip && head + toBoundary == poison.slot.start
                   else head == poison.slot.start && found == Bogus
    {
      hide RingInv, Pos, FromLE, StoredAt, FrameWith, SkipBytes, AlignUp;
      Bounds();
      var posInRing := Position(head);
      ghost var p, sum, isSkip;
      if taken < |log| {
        HeadFacts(cap, crc, data[..], head, if poison.Clean? then tail else poison.slot.at, log, taken);
        p, sum, isSkip := log[taken].payload, crc(log[taken].payload), head < log[taken].start;
      } else {
        p, sum, isSkip := poison.slot.payload, poison.sum, head < poison.slot.start;
      }
      found := ReadAt(posInRing, p, sum, isSkip);
      toBoundary := cap - posInRing;
    }

    lemma Bounds()
      requires (Valid() || Poisoned()) && head != tail
      ensures GoodCap(cap) && data.Length == cap && taken <= |log|
      ensures taken < |log| ==>
                RingInv(cap, crc, data[..], head, if poison.Clean? then tail else poison.slot.at, log, taken)
      ensures taken < |log| ==> head < (if poison.Clean? then tail else poison.slot.at)
      ensures taken == |log| ==> Poisoned() && (head == poison.slot.at || head == poison.slot.start)
    {
      hide Pos, Kept, SkipLen, StoredAt;
    }

    /** Dequeues the oldest payload and looks at most twice: once more only after
        stepping over a skip marker. It never reports corruption on a valid ring. On
        a poisoned one it dequeues what is before the bad entry, and from then on
        every call reports corruption, with the head at the bad entry or, before
        the first of those calls, at the skip marker in front of it. */
    method Pop() returns (r: PopResult, ghost rounds: nat)
      requires Valid() || Poisoned()
      modifies this`head, this`taken
      ensures old(Valid()) ==> Valid()
      ensures old(Poisoned()) ==> Poisoned()
      ensures old(head) <= head
      ensures old(Valid()) && old(Contents()) == [] ==> r == Empty && head == old(head) && Contents() == []
      ensures old(Contents()) != [] ==> r == Popped(old(Contents())[0]) && Contents() == old(Contents())[1..]
      ensures old(Poisoned()) && old(Contents()) == [] ==>
                r == Corrupted && Contents() == [] && head == poison.slot.start
      ensures 1 <= rounds <= 2
    {
      hide RingInv, Pos, StoredAt, AlignUp, WellPlaced, FrameWith, SkipBytes;
      Quiet();
      rounds := 0;
      while true
        invariant (old(Valid()) ==> Valid()) && (old(Poisoned()) ==> Poisoned()) && taken == old(taken) && rounds <= 1
        invariant old(head) <= head && (rounds == 0 ==> head == old(head))
        invariant rounds == 1 ==> head != tail && if taken < |log| then head == log[taken].start
                                                  else Poisoned() && head == poison.slot.start
        decreases 2 - rounds
      {
        rounds := rounds + 1;
        Quiet();
        if head == tail {
          return Empty, rounds;
        }
        var found, toBoundary := Look();
        match found
        case Skip =>
          Skipping();
          head := head + toBoundary;
          Quiet();
        case Bogus =>
          return Corrupted, rounds;
        case Whole(payload, size) =>
          Taking();
          assert Payloads(log)[taken..][1..] == Payloads(log)[taken + 1..];
          head := head + size;
          taken := taken + 1;
          return Popped(payload), rounds;
      }
    }

    /** Reads the entry or skip marker at a position, with every check Pop makes: a
        stored entry is bogus exactly when its checksum is not that of its bytes. */
    method ReadAt(posInRing: nat, ghost p: Payload, ghost sum: u32, ghost isSkip: bool) returns (f: Found)
      requires data.Length == cap && |p| <= MAX_PAYLOAD
      requires posInRing <= cap
      requires StoredAt(data[..], posInRing, if isSkip then SkipBytes() else FrameWith(p, sum))
      requires !isSkip ==> posInRing + EntrySize(p) <= cap
      ensures f == if isSkip then Skip else if sum == crc(p) then Whole(p, EntrySize(p)) else Bogus
    {
      hide FrameWith, SkipBytes, StoredAt, FromLE;
      WordAt(posInRing, isSkip, p, sum);
      var rawLen := FromLE(data[posInRing..posInRing + 4]);
      if rawLen == SKIP_MARKER {
        return Skip;
      }
      var entrySize := AlignUp(8 + rawLen);
      if rawLen > MAX_PAYLOAD || entrySize > cap - posInRing {
        return Bogus;
      }
      var stored := FromLE(data[posInRing + 4..posInRing + 8]);
      var payload := data[posInRing + 8..posInRing + 8 + rawLen];
      if crc(payload) != stored {
        return Bogus;
      }
      return Whole(payload, entrySize);
    }

    /** The words and payload read at a position where a frame or marker is stored. */
    lemma WordAt(pos: nat, isSkip: bool, p: Payload, sum: u32)
      requires |p| <= MAX_PAYLOAD
      requires StoredAt(data[..], pos, if isSkip then SkipBytes() else FrameWith(p, sum))
      ensures pos + 8 <= data.Length
      ensures FromLE(data[pos..pos + 4]) == if isSkip then SKIP_MARKER else |p|
      ensures !isSkip ==> pos + 8 + |p| <= data.Length
      ensures !isSkip ==> FromLE(data[pos + 4..pos + 8]) == sum && data[pos + 8..pos + 8 + |p|] == p
    {
      hide LE, FromLE, FrameWith, SkipBytes;
      var bs := if isSkip then SkipBytes() else FrameWith(p, sum);
      FrameWords(p, sum);
      PartStored(data[..], pos, bs, 0, 4);
      PartStored(data[..], pos, bs, 4, 8);
      if !isSkip {
        PartStored(data[..], pos, bs, 8, |bs|);
      }
    }

    /** Valid and poisoned exclude each other; a valid ring is empty with head at tail. */
    lemma Quiet()
      requires Valid() || Poisoned()
      ensures !(Valid() && Poisoned()) && taken <= |log|
      ensures Valid() ==> (taken == |log| <==> head == tail)
      ensures Poisoned() ==> head != tail
    {
      hide Pos, Kept, SkipLen, StoredAt;
    }

    lemma Skipping()
      requires (Valid() || Poisoned()) && head != tail
      ensures taken < |log| && head < log[taken].start ==>
                && (Valid() ==> log[taken].start != tail)
                && (Valid() ==> RingInv(cap, crc, data[..], log[taken].start, tail, log, taken))
                && (Poisoned() ==> RingInv(cap, crc, data[..], log[taken].start, poison.slot.at, log, taken))
    {
      hide Pos, StoredAt;
      if taken < |log| && head < log[taken].start {
        SkipKeepsInv(cap, crc, data[..], head, if poison.Clean? then tail else poison.slot.at, log, taken);
      }
    }

    lemma Taking()
      requires (Valid() || Poisoned()) && head != tail
      ensures taken < |log| && head == log[taken].start ==>
                && (Valid() ==> RingInv(cap, crc, data[..], log[taken].End(), tail, log, taken + 1))
                && (Poisoned() ==> RingInv(cap, crc, data[..], log[taken].End(), poison.slot.at, log, taken + 1))
    {
      hide Pos, StoredAt;
      if taken < |log| && head == log[taken].start {
        TakeKeepsInv(cap, crc, data[..], head, if poison.Clean? then tail else poison.slot.at, log, taken);
      }
    }

    lemma RingFacts()
      requires Valid()
      ensures GoodCap(cap) && head <= tail <= head + cap && tail % 8 == 0 && taken <= |log|
      ensures taken == |log| <==> head == tail
    {
      hide Pos, Kept, SkipLen;
      CursorsAligned(cap, crc, data[..], head, tail, log, taken);
    }
  }

  datatype CreateResult = Created(ring: Ring) | CapacityTooSmall

  method Create(capacity: nat, crc: Checksum) returns (r: CreateResult)
    ensures r.CapacityTooSmall? <==> capacity < MIN_CAPACITY
    ensures r.Created? ==> && fresh(r.ring) && r.ring.Valid() && r.ring.Contents() == []
                           && r.ring.cap == AlignUp(capacity) && r.ring.crc == crc
  {
    if capacity < MIN_CAPACITY {
      return CapacityTooSmall;
    }
    var ring := new Ring(capacity, crc);
    return Created(ring);
  }

  // ---- what an empty ring accepts -----------------------------------------

  /** On an empty ring whose cursor stands at t, Append succeeds exactly when
      the entry fits before the end of the data region or before the cursor. */
  lemma EmptyRingAcceptsIff(cap: nat, t: nat, p: Payload)
    requires GoodCap(cap)
    ensures Needed(cap, t, p) <= cap <==> EntrySize(p) <= Space(cap, t) || EntrySize(p) <= Pos(cap, t)
  {
  }

  /** Some empty ring has its cursors at t. */
  ghost predicate EmptyAt(cap: nat, crc: Checksum, t: nat) {
    exists mem, log :: RingInv(cap, crc, mem, t, t, log, |log|)
  }

  /** Every aligned cursor is that of an empty ring: append and pop empty payloads. */
  lemma {:induction false} EmptyRingAt(cap: nat, crc: Checksum, mem: seq<byte>, t: nat) returns (log: seq<Slot>)
    requires GoodCap(cap) && |mem| == cap && t % 8 == 0
    ensures RingInv(cap, crc, mem, t, t, log, |log|)
    decreases t
  {
    hide Kept, Chain, HeadAt, WellPlaced, Pos, WithEntry;
    if t == 0 {
      log := [];
      NewRing(cap, crc, mem);
    } else {
      var k := t - 8;
      var before := EmptyRingAt(cap, crc, mem, k);
      EmptyEntryFits(cap, k);
      AppendedMemory(cap, crc, mem, k, k, before, |before|, []);
      log := before + [SlotAt(cap, k, [])];
      var m := WithEntry(cap, mem, k, [], crc([]));
      TakeKeepsInv(cap, crc, m, k, t, log, |before|);
      Forget(cap, crc, m, mem, t, log);
    }
  }

  lemma NewRing(cap: nat, crc: Checksum, mem: seq<byte>)
    requires GoodCap(cap) && |mem| == cap
    ensures RingInv(cap, crc, mem, 0, 0, [], 0)
  {
  }

  lemma EmptyEntryFits(cap: nat, k: nat)
    requires GoodCap(cap) && k % 8 == 0
    ensures Sendable(cap, []) && Needed(cap, k, []) == 8 && SlotAt(cap, k, []) == Slot(k, k, []) && EntrySize([]) == 8
  {
    PosAligned(cap, k);
  }

  lemma Forget(cap: nat, crc: Checksum, m: seq<byte>, mem: seq<byte>, t: nat, log: seq<Slot>)
    requires RingInv(cap, crc, m, t, t, log, |log|) && |mem| == cap
    ensures RingInv(cap, crc, mem, t, t, log, |log|)
  {
  }

  /** An empty ring accepts an entry wherever its cursor stands exactly when the
      entry is at most half the capacity, rounded up to a multiple of 8. A larger
      entry is refused with RingFull by some empty ring, and retrying cannot help
      because the cursors do not move. */
  lemma AcceptedAnywhereIff(cap: nat, crc: Checksum, p: Payload)
    requires GoodCap(cap) && Sendable(cap, p)
    ensures (forall t: nat :: EmptyAt(cap, crc, t) ==> Needed(cap, t, p) <= cap) <==> EntrySize(p) <= AlignUp(cap / 2)
  {
    hide Pos, AlignUp, SkipLen, RingInv;
    if EntrySize(p) <= AlignUp(cap / 2) {
      forall t: nat | EmptyAt(cap, crc, t)
        ensures Needed(cap, t, p) <= cap
      {
        var mem, log :| RingInv(cap, crc, mem, t, t, log, |log|);
        CursorsAligned(cap, crc, mem, t, t, log, |log|);
        PosAligned(cap, t);
        EmptyRingAcceptsIff(cap, t, p);
        HalfSplit(cap, Pos(cap, t));
      }
    } else {
      MiddleRefuses(cap, crc, p);
    }
  }

  lemma AlignedIsEmptyAt(cap: nat, crc: Checksum, t: nat)
    requires GoodCap(cap) && t % 8 == 0
    ensures EmptyAt(cap, crc, t)
  {
    hide RingInv;
    var mem: seq<byte> := seq(cap, _ => 0);
    var log := EmptyRingAt(cap, crc, mem, t);
  }

  /** An empty ring in the middle of its data region refuses an entry above half the
      capacity. */
  lemma MiddleRefuses(cap: nat, crc: Checksum, p: Payload)
    requires GoodCap(cap) && EntrySize(p) > AlignUp(cap / 2)
    ensures exists t: nat :: EmptyAt(cap, crc, t) && Needed(cap, t, p) > cap
  {
    hide EmptyAt;
    var half := cap / 2;
    var t := half - half % 8;
    assert Pos(cap, t) == t;
    EmptyRingAcceptsIff(cap, t, p);
    SizeGap(half, EntrySize(p));
    AlignedIsEmptyAt(cap, crc, t);
    assert EmptyAt(cap, crc, t) && Needed(cap, t, p) > cap;
  }

  lemma HalfSplit(cap: nat, pos: nat)
    requires cap % 8 == 0 && pos % 8 == 0 && pos < cap
    ensures AlignUp(cap / 2) <= pos || AlignUp(cap / 2) <= cap - pos
  {
    Multiples(cap, pos);
    if cap / 2 <= pos {
      AlignLeast(cap / 2, pos);
    } else {
      AlignLeast(cap / 2, cap - pos);
    }
  }

  /** AlignUp is the least multiple of 8 not below n. */
  lemma AlignLeast(n: nat, m: nat)
    requires m % 8 == 0 && n <= m
    ensures AlignUp(n) <= m
  {
  }

  lemma SizeGap(half: nat, size: nat)
    requires size % 8 == 0 && size > AlignUp(half) && half % 4 == 0
    ensures size > 2 * half - (half - half % 8) && size > half - half % 8
  {
  }

  /** Append a payload to a new ring that has room for it, then pop n times: if the
      checksum of the payload is that of the bytes stored, the first pop returns those
      bytes and the ring is empty; otherwise every pop reports corruption. */
  method AppendThenPop(capacity: nat, crc: Checksum, p: Payload, n: nat) returns (pops: seq<PopResult>)
    requires capacity >= MIN_CAPACITY && Sendable(AlignUp(capacity), Cut(p))
    ensures |pops| == n
    ensures crc(p) == crc(Cut(p)) ==> forall i :: 0 <= i < n ==> pops[i] == if i == 0 then Popped(Cut(p)) else Empty
    ensures crc(p) != crc(Cut(p)) ==> forall i :: 0 <= i < n ==> pops[i] == Corrupted
  {
    hide Ring.Valid, Ring.Poisoned, Ring.Contents, Cut;
    var ring := new Ring(capacity, crc);
    EmptyRingAcceptsIff(ring.cap, 0, Cut(p));
    var r := ring.Append(p);
    assert r.Appended?;
    pops := [];
    while |pops| < n
      invariant |pops| <= n
      invariant crc(p) == crc(Cut(p)) ==> ring.Valid() && ring.Contents() == if pops == [] then [Cut(p)] else []
      invariant crc(p) != crc(Cut(p)) ==> ring.Poisoned() && ring.Contents() == []
      invariant crc(p) == crc(Cut(p)) ==>
                  forall i :: 0 <= i < |pops| ==> pops[i] == if i == 0 then Popped(Cut(p)) else Empty
      invariant crc(p) != crc(Cut(p)) ==> forall i :: 0 <= i < |pops| ==> pops[i] == Corrupted
    {
      var popped, _ := ring.Pop();
      pops := pops + [popped];
    }
  }
}
