// Where the ring places entries. Cursors are absolute byte counts; the byte
// position is the cursor modulo the capacity. Given the payloads appended so
// far, every cursor and every byte that matters is determined, and RingInv
// says so. The sequential class and the interleaved step system both keep it.
module RingLayout {
  import opened Bytes

  type u32 = x: int | 0 <= x < TWO_32
  /** The checksum is a parameter: every result holds for every such function. */
  type Checksum = Payload -> u32

  const MIN_CAPACITY: nat := 4096
  const SKIP_MARKER: u32 := 0xFFFF_FFFF
  const MAX_PAYLOAD: u32 := 0xFFFF_FFFE

  function AlignUp(n: nat): (r: nat)
    ensures r % 8 == 0 && n <= r < n + 8
  {
    if n % 8 == 0 then n else n + (8 - n % 8)
  }

  predicate GoodCap(cap: nat) {
    cap >= MIN_CAPACITY && cap % 8 == 0
  }

  /** The byte position of cursor t: t modulo cap (PosIsMod), by subtraction. */
  function Pos(cap: nat, t: nat): (r: nat)
    requires cap > 0
    ensures r < cap
  {
    if t < cap then t else Pos(cap, t - cap)
  }

  function Space(cap: nat, t: nat): (r: nat)
    requires cap > 0
    ensures 0 < r <= cap
  {
    cap - Pos(cap, t)
  }

  function EntrySize(p: Payload): nat {
    AlignUp(8 + |p|)
  }

  predicate Sendable(cap: nat, p: Payload) {
    |p| <= MAX_PAYLOAD && EntrySize(p) <= cap
  }

  /** Bytes skipped before p when the producer stands at cursor t. */
  function SkipLen(cap: nat, t: nat, p: Payload): nat
    requires cap > 0
  {
    if Space(cap, t) < EntrySize(p) then Space(cap, t) else 0
  }

  function Needed(cap: nat, t: nat, p: Payload): nat
    requires cap > 0
  {
    SkipLen(cap, t, p) + EntrySize(p)
  }

  /** An appended entry: the producer stood at `at`, the frame begins at `start`. */
  datatype Slot = Slot(at: nat, start: nat, payload: Payload) {
    function End(): nat {
      start + EntrySize(payload)
    }
  }

  function SlotAt(cap: nat, t: nat, p: Payload): Slot
    requires cap > 0
  {
    Slot(t, t + SkipLen(cap, t, p), p)
  }

  /** Aligned, never across the end of the data region; a skip leads to position 0. */
  ghost predicate WellPlaced(cap: nat, s: Slot)
    requires cap > 0
  {
    && s == SlotAt(cap, s.at, s.payload)
    && s.at % 8 == 0 && s.start % 8 == 0
    && Sendable(cap, s.payload)
    && Pos(cap, s.start) + EntrySize(s.payload) <= cap
    && (s.at < s.start ==> Pos(cap, s.at) + 8 <= cap && s.at + 8 <= s.start && Pos(cap, s.start) == 0)
  }

  /** Length word, checksum word, payload. */
  function FrameWith(p: Payload, sum: u32): (r: seq<byte>)
    ensures |r| == 8 + |p|
  {
    LE(|p|, 4) + LE(sum, 4) + p
  }

  function Frame(crc: Checksum, p: Payload): (r: seq<byte>)
    ensures |r| == 8 + |p|
  {
    FrameWith(p, crc(p))
  }

  function SkipBytes(): (r: seq<byte>)
    ensures |r| == 8
  {
    LE(SKIP_MARKER, 4) + LE(0, 4)
  }

  predicate StoredAt(mem: seq<byte>, pos: nat, bs: seq<byte>) {
    pos + |bs| <= |mem| && mem[pos..pos + |bs|] == bs
  }

  /** The bytes of an entry are intact; its skip marker too unless the
      consumer is already past it. */
  ghost predicate Kept(cap: nat, crc: Checksum, mem: seq<byte>, head: nat, s: Slot)
    requires cap > 0
  {
    && (s.at < s.start && head <= s.at ==> StoredAt(mem, Pos(cap, s.at), SkipBytes()))
    && StoredAt(mem, Pos(cap, s.start), Frame(crc, s.payload))
  }

  /** Entries lie end to end, from cursor 0 to the tail. */
  ghost predicate Chain(log: seq<Slot>, tail: nat) {
    && (log == [] ==> tail == 0)
    && (log != [] ==> log[0].at == 0 && log[|log| - 1].End() == tail)
    && (forall i :: 0 <= i < |log| ==> log[i].at <= log[i].start < log[i].End() <= tail)
    && (forall i, j :: 0 <= i < j < |log| ==> log[i].End() <= log[j].at)
    && (forall i, j :: 0 <= i && j == i + 1 < |log| ==> log[i].End() == log[j].at)
  }

  /** The consumer stands before entry `taken`, or between its skip marker and it. */
  ghost predicate HeadAt(log: seq<Slot>, taken: nat, head: nat, tail: nat)
    requires taken <= |log|
  {
    if taken == |log| then head == tail else head == log[taken].at || head == log[taken].start
  }

  ghost predicate RingInv(cap: nat, crc: Checksum, mem: seq<byte>, head: nat, tail: nat,
                          log: seq<Slot>, taken: nat)
  {
    && GoodCap(cap)
    && |mem| == cap
    && taken <= |log|
    && Chain(log, tail)
    && HeadAt(log, taken, head, tail)
    && head <= tail <= head + cap
    && (forall i :: 0 <= i < |log| ==> WellPlaced(cap, log[i]))
    && (forall i :: taken <= i < |log| ==> Kept(cap, crc, mem, head, log[i]))
  }

  function Payloads(log: seq<Slot>): (r: seq<Payload>)
    ensures |r| == |log|
    ensures forall i :: 0 <= i < |log| ==> r[i] == log[i].payload
  {
    seq(|log|, i requires 0 <= i < |log| => log[i].payload)
  }

  // ---- positions -----------------------------------------------------------

  lemma {:induction false} PosIsMod(cap: nat, t: nat)
    requires cap > 0
    ensures Pos(cap, t) == t % cap
    decreases t
  {
    if t < cap {
      ModUnique(t, cap, 0, t);
    } else {
      PosIsMod(cap, t - cap);
      var q := (t - cap) / cap;
      assert cap * (q + 1) == cap * q + cap;
      ModUnique(t, cap, q + 1, Pos(cap, t - cap));
    }
  }

  lemma {:induction false} PosAdvance(cap: nat, t: nat, d: nat)
    requires cap > 0 && Pos(cap, t) + d <= cap
    ensures Pos(cap, t + d) == if Pos(cap, t) + d == cap then 0 else Pos(cap, t) + d
    decreases t
  {
    if t < cap {
      if t + d == cap {
        assert Pos(cap, t + d) == Pos(cap, 0);
      }
    } else {
      PosAdvance(cap, t - cap, d);
      assert t + d - cap == t - cap + d;
    }
  }

  lemma {:induction false} PosAligned(cap: nat, t: nat)
    requires cap > 0 && cap % 8 == 0 && t % 8 == 0
    ensures Pos(cap, t) % 8 == 0
    decreases t
  {
    if t >= cap {
      PosAligned(cap, t - cap);
    }
  }

  /** Cursors less than one capacity apart never share a byte. */
  lemma {:induction false} PosApart(cap: nat, x: nat, y: nat)
    requires cap > 0 && x < y < x + cap
    ensures Pos(cap, x) != Pos(cap, y)
    decreases x
  {
    if x >= cap {
      PosApart(cap, x - cap, y - cap);
    } else if y >= cap {
      assert Pos(cap, y) == y - cap;
    }
  }

  // ---- placement -----------------------------------------------------------

  /** From an aligned cursor, every sendable payload is well placed. */
  lemma PlacementFacts(cap: nat, t: nat, p: Payload)
    requires GoodCap(cap) && t % 8 == 0 && Sendable(cap, p)
    ensures WellPlaced(cap, SlotAt(cap, t, p))
    ensures SlotAt(cap, t, p).End() % 8 == 0
  {
    PosAligned(cap, t);
    var space := Space(cap, t);
    Multiples(cap, Pos(cap, t));
    Multiples(t, space);
    Multiples(t + SkipLen(cap, t, p), EntrySize(p));
    if space < EntrySize(p) {
      PosAdvance(cap, t, space);
    }
  }

  lemma Multiples(a: nat, b: nat)
    requires a % 8 == 0 && b % 8 == 0
    ensures (a + b) % 8 == 0
    ensures b <= a ==> (a - b) % 8 == 0
  {
  }

  lemma SlotEndAligned(cap: nat, s: Slot)
    requires cap > 0 && WellPlaced(cap, s)
    ensures s.End() % 8 == 0
  {
    hide Pos, SkipLen;
    Multiples(s.start, EntrySize(s.payload));
  }

  /** In every ring state both cursors are multiples of 8. */
  lemma CursorsAligned(cap: nat, crc: Checksum, mem: seq<byte>, head: nat, tail: nat, log: seq<Slot>, taken: nat)
    requires RingInv(cap, crc, mem, head, tail, log, taken)
    ensures tail % 8 == 0 && head % 8 == 0
  {
    hide Pos, Kept, SkipLen;
    if log != [] {
      var s := log[|log| - 1];
      assert WellPlaced(cap, s);
      SlotEndAligned(cap, s);
    }
    if taken < |log| {
      assert WellPlaced(cap, log[taken]);
    }
  }

  // ---- memory --------------------------------------------------------------

  /** Two memories that agree on the live region [head, tail). */
  ghost predicate SameLive(cap: nat, mem: seq<byte>, mem': seq<byte>, head: nat, tail: nat)
    requires cap > 0
  {
    && |mem| == |mem'| == cap
    && forall x :: head <= x < tail ==> mem[Pos(cap, x)] == mem'[Pos(cap, x)]
  }

  lemma StoredTransfer(cap: nat, mem: seq<byte>, mem': seq<byte>, head: nat, tail: nat, s: nat, bs: seq<byte>)
    requires cap > 0 && SameLive(cap, mem, mem', head, tail)
    requires head <= s && s + |bs| <= tail && Pos(cap, s) + |bs| <= cap
    requires StoredAt(mem, Pos(cap, s), bs)
    ensures StoredAt(mem', Pos(cap, s), bs)
  {
    var pos := Pos(cap, s);
    forall k | 0 <= k < |bs|
      ensures mem'[pos + k] == bs[k]
    {
      PosAdvance(cap, s, k);
      assert head <= s + k < tail;
      assert mem[Pos(cap, s + k)] == mem'[Pos(cap, s + k)];
      assert mem[pos..pos + |bs|][k] == mem[pos + k];
    }
  }

  lemma KeptOneTransfer(cap: nat, crc: Checksum, mem: seq<byte>, mem': seq<byte>, head: nat, tail: nat, s: Slot)
    requires cap > 0 && WellPlaced(cap, s)
    requires SameLive(cap, mem, mem', head, tail)
    requires head <= s.start && s.End() <= tail
    requires Kept(cap, crc, mem, head, s)
    ensures Kept(cap, crc, mem', head, s)
  {
    StoredTransfer(cap, mem, mem', head, tail, s.start, Frame(crc, s.payload));
    if s.at < s.start && head <= s.at {
      StoredTransfer(cap, mem, mem', head, tail, s.at, SkipBytes());
    }
  }

  lemma KeptTransfer(cap: nat, crc: Checksum, mem: seq<byte>, mem': seq<byte>, head: nat, tail: nat,
                     log: seq<Slot>, taken: nat)
    requires RingInv(cap, crc, mem, head, tail, log, taken)
    requires SameLive(cap, mem, mem', head, tail)
    ensures RingInv(cap, crc, mem', head, tail, log, taken)
  {
    forall i | taken <= i < |log|
      ensures Kept(cap, crc, mem', head, log[i])
    {
      assert WellPlaced(cap, log[i]);
      assert Kept(cap, crc, mem, head, log[i]);
      KeptOneTransfer(cap, crc, mem, mem', head, tail, log[i]);
    }
  }

  /** A byte written in the free region [tail, head + cap) disturbs no live byte. */
  lemma FreeWriteIsInvisible(cap: nat, mem: seq<byte>, head: nat, tail: nat, a: nat, b: byte)
    requires cap > 0 && |mem| == cap
    requires head <= tail <= a < head + cap
    ensures SameLive(cap, mem, mem[Pos(cap, a) := b], head, tail)
  {
    forall x | head <= x < tail
      ensures Pos(cap, x) != Pos(cap, a)
    {
      PosApart(cap, x, a);
    }
  }

  /** Storing the tail publishes the entry whose bytes are in place. */
  lemma PublishKeepsInv(cap: nat, crc: Checksum, mem: seq<byte>, head: nat, tail: nat,
                        log: seq<Slot>, taken: nat, s: Slot)
    requires RingInv(cap, crc, mem, head, tail, log, taken)
    requires WellPlaced(cap, s) && s.at == tail && s.End() <= head + cap
    requires Kept(cap, crc, mem, head, s)
    ensures RingInv(cap, crc, mem, head, s.End(), log + [s], taken)
  {
    ChainExtend(log, tail, s);
    var log' := log + [s];
    forall i | 0 <= i < |log'|
      ensures WellPlaced(cap, log'[i])
      ensures taken <= i ==> Kept(cap, crc, mem, head, log'[i])
    {
      if i < |log| { assert log'[i] == log[i]; }
    }
  }

  lemma ChainExtend(log: seq<Slot>, tail: nat, s: Slot)
    requires Chain(log, tail)
    requires s.at == tail && s.at <= s.start
    ensures Chain(log + [s], s.End())
  {
    hide AlignUp;
    var log' := log + [s];
    forall i, j | 0 <= i < j < |log'|
      ensures log'[i].End() <= log'[j].at
    {
      assert log'[i] == log[i];
      if j < |log| { assert log'[j] == log[j]; }
    }
  }

  /** What the consumer finds at a head that is not the tail. */
  lemma HeadFacts(cap: nat, crc: Checksum, mem: seq<byte>, head: nat, tail: nat, log: seq<Slot>, taken: nat)
    requires RingInv(cap, crc, mem, head, tail, log, taken)
    requires head < tail
    ensures taken < |log| && WellPlaced(cap, log[taken])
    ensures
      var s := log[taken];
      if head < s.start then head == s.at && s.start < tail && StoredAt(mem, Pos(cap, head), SkipBytes())
      else head == s.start && s.End() <= tail && StoredAt(mem, Pos(cap, head), Frame(crc, s.payload))
  {
    assert taken < |log|;
    assert WellPlaced(cap, log[taken]);
    assert Kept(cap, crc, mem, head, log[taken]);
  }

  /** Moving the head past a skip marker. */
  lemma SkipKeepsInv(cap: nat, crc: Checksum, mem: seq<byte>, head: nat, tail: nat, log: seq<Slot>, taken: nat)
    requires RingInv(cap, crc, mem, head, tail, log, taken)
    requires taken < |log| && head < log[taken].start
    ensures RingInv(cap, crc, mem, log[taken].start, tail, log, taken)
  {
    forall i | taken <= i < |log|
      ensures Kept(cap, crc, mem, log[taken].start, log[i])
    {
      assert Kept(cap, crc, mem, head, log[i]);
    }
  }

  /** Moving the head past a whole entry. */
  lemma TakeKeepsInv(cap: nat, crc: Checksum, mem: seq<byte>, head: nat, tail: nat, log: seq<Slot>, taken: nat)
    requires RingInv(cap, crc, mem, head, tail, log, taken)
    requires taken < |log| && head == log[taken].start
    ensures RingInv(cap, crc, mem, log[taken].End(), tail, log, taken + 1)
  {
    forall i | taken < i < |log|
      ensures Kept(cap, crc, mem, log[taken].End(), log[i])
    {
      assert Kept(cap, crc, mem, head, log[i]);
    }
  }

  /** The first word of what is stored tells a skip marker from an entry. */
  lemma HeadWord(crc: Checksum, p: Payload)
    requires |p| <= MAX_PAYLOAD
    ensures FromLE(SkipBytes()[..4]) == SKIP_MARKER
    ensures FromLE(Frame(crc, p)[..4]) == |p|
    ensures FromLE(Frame(crc, p)[4..8]) == crc(p)
    ensures Frame(crc, p)[8..] == p
  {
    FrameWords(p, crc(p));
  }

  lemma FrameWords(p: Payload, sum: u32)
    requires |p| <= MAX_PAYLOAD
    ensures FromLE(SkipBytes()[..4]) == SKIP_MARKER
    ensures FromLE(FrameWith(p, sum)[..4]) == |p|
    ensures FromLE(FrameWith(p, sum)[4..8]) == sum
    ensures FrameWith(p, sum)[8..] == p
  {
    PowFacts();
    LERoundTrip(SKIP_MARKER, 4);
    LERoundTrip(|p|, 4);
    LERoundTrip(sum, 4);
    assert SkipBytes()[..4] == LE(SKIP_MARKER, 4);
    assert FrameWith(p, sum)[..4] == LE(|p|, 4);
    assert FrameWith(p, sum)[4..8] == LE(sum, 4);
  }
}
