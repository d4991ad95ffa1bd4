// How long an encoded oplog entry is, and whether the hook's estimate bounds it.
// Strings are byte strings; the JSON encoder writes a byte as itself, as a
// two-byte escape, or as a six-byte escape (RFC 8259, section 7, with the HTML
// characters also escaped); encoded values are base64 (RFC 4648, section 4).
module OplogSize {
  import opened Bytes
  import opened Records

  const JSON_OVERHEAD: nat := 256

  /** The stored value a write carries; a delete may carry none. */
  datatype StoredValue = StoredValue(encoded: seq<byte>, ttl: int, timestamp: int)

  datatype Operation = Operation(dmap: string, key: string, hkey: nat, entry: Option<StoredValue>,
                                 generation: int, epoch: int)

  /** What the entry carries when the operation has no stored value. */
  const NOTHING := StoredValue([], 0, 0)

  function ValueOf(op: Operation): StoredValue {
    if op.entry.Some? then op.entry.value else NOTHING
  }

  function RawLen(op: Operation): nat {
    |ValueOf(op).encoded|
  }

  /** The oplog entry of an operation stamped with f. */
  function EntryFor(op: Operation, kind: Op, f: Fence, now: int): Entry {
    var v := ValueOf(op);
    Entry(kind, op.dmap, op.key, op.hkey, v.encoded, v.ttl, v.timestamp, f, now)
  }

  /** e says what the operation did: every field of it, without a value those of none. */
  ghost predicate Tells(e: Entry, op: Operation, kind: Op, ownerSeq: int, writer: string, now: int) {
    && e.op == kind && e.dmap == op.dmap && e.key == op.key && e.hkey == op.hkey
    && e.encoded == (if op.entry.Some? then op.entry.value.encoded else [])
    && e.ttl == (if op.entry.Some? then op.entry.value.ttl else 0)
    && e.timestamp == (if op.entry.Some? then op.entry.value.timestamp else 0)
    && e.fence == Fence(op.generation, op.epoch, ownerSeq, writer)
    && e.updatedAt == now
  }

  // ---- lengths -------------------------------------------------------------

  function Digits(n: nat): nat {
    if n < 10 then 1 else 1 + Digits(n / 10)
  }

  function IntLen(x: int): nat {
    if x < 0 then 1 + Digits(-x) else Digits(x)
  }

  function EscapeCost(c: char): nat {
    if c in {'"', '\\', '\n', '\r', '\t', 8 as char, 12 as char} then 2
    else if c < ' ' || c in {'<', '>', '&'} then 6
    else 1
  }

  function EscapedLen(s: string): nat {
    if s == [] then 0 else EscapeCost(s[0]) + EscapedLen(s[1..])
  }

  /** Bytes the escapes add. */
  function Escapes(s: string): int {
    EscapedLen(s) - |s|
  }

  function Base64Len(n: nat): nat {
    4 * ((n + 2) / 3)
  }

  function OpLen(op: Op): nat {
    if op == OpSet then 3 else 6
  }

  /** The bytes that neither the strings, nor the value, nor the stamp decide. */
  function FixedLen(kind: Op, hkey: nat, raw: nat, ttl: int, timestamp: int): nat {
    var open := 6;                                           // {"v":1
    var op := 7 + OpLen(kind) + 1;                           // ,"op":"…"
    var names := (9 + 1) + (8 + 1) + (6 + 1);                // ,"dmap":"" ,"key":"" ,"w":""
    var hash := 8 + Digits(hkey);                            // ,"hkey":
    var value := if raw == 0 then 0 else 10 + 1;             // ,"entry":""
    var deadline := if ttl == 0 then 0 else 7 + IntLen(ttl); // ,"ttl":
    var ts := if timestamp == 0 then 0 else 6 + IntLen(timestamp); // ,"ts":
    var fence := 5 + 5 + 5;                                  // ,"g": ,"e": ,"s":
    var updated := 5;                                        // ,"u":
    open + op + names + hash + value + deadline + ts + fence + updated + 1
  }

  /** The digits of the fence and of the clock. */
  function StampLen(f: Fence, now: int): nat {
    IntLen(f.generation) + IntLen(f.epoch) + IntLen(f.ownerSeq) + IntLen(now)
  }

  function JsonLen(e: Entry): nat {
    FixedLen(e.op, e.hkey, |e.encoded|, e.ttl, e.timestamp) + StampLen(e.fence, e.updatedAt)
    + EscapedLen(e.dmap) + EscapedLen(e.key) + EscapedLen(e.fence.writer) + Base64Len(|e.encoded|)
  }

  /** The hook's estimate, made before the stamp is known. */
  function Estimate(dmap: string, key: string, writer: string, raw: nat): nat {
    |dmap| + |key| + |writer| + JSON_OVERHEAD + raw * 2
  }

  /** A stamp the sequencer and the clock may yet produce for this writer. */
  predicate Stampable(f: Fence, writer: string, now: int) {
    && f.writer == writer && Int64(now)
    && 0 < f.generation <= MAX_INT64 && 0 <= f.epoch <= MAX_INT64 && 0 < f.ownerSeq <= MAX_INT64
  }

  /** Three 19-digit numbers, and a 19-digit one with a sign. */
  const LONGEST_STAMP: nat := 77

  /** What the operation leaves of the estimate for escapes, whatever the stamp. */
  function EscapeRoom(op: Operation, kind: Op): int {
    var v := ValueOf(op);
    JSON_OVERHEAD + 2 * RawLen(op) - Base64Len(RawLen(op)) - LONGEST_STAMP
    - FixedLen(kind, op.hkey, RawLen(op), v.ttl, v.timestamp)
  }

  /** The estimate bounds the encoding under every stamp. */
  ghost predicate EstimateHolds(op: Operation, kind: Op, writer: string) {
    forall f: Fence, now: int :: Stampable(f, writer, now) ==>
      JsonLen(EntryFor(op, kind, f, now)) <= Estimate(op.dmap, op.key, writer, RawLen(op))
  }

  // ---- digits --------------------------------------------------------------

  function Pow10(k: nat): nat {
    if k == 0 then 1 else 10 * Pow10(k - 1)
  }

  lemma {:induction false} DigitsAre(n: nat, k: nat)
    requires k >= 1 && n < Pow10(k)
    ensures Digits(n) <= k
    ensures Pow10(k - 1) <= n ==> Digits(n) == k
    decreases k
  {
    if n >= 10 {
      DigitsAre(n / 10, k - 1);
    }
  }

  lemma Pow10Facts()
    ensures Pow10(18) < MAX_INT64 < MAX_INT64 + 1 < Pow10(19)
    ensures Pow10(20) > 0x1_0000_0000_0000_0000 > Pow10(19)
  {
    assert Pow10(4) == 10000;
    assert Pow10(8) == 100000000;
    assert Pow10(12) == 1000000000000;
    assert Pow10(16) == 10000000000000000;
    assert Pow10(18) == 1000000000000000000;
    assert Pow10(19) == 10000000000000000000;
  }

  lemma Int64Len(x: int)
    requires Int64(x)
    ensures IntLen(x) <= 20
    ensures x >= 0 ==> IntLen(x) <= 19
    ensures x == MAX_INT64 ==> IntLen(x) == 19
    ensures x == -MAX_INT64 - 1 ==> IntLen(x) == 20
  {
    Pow10Facts();
    DigitsAre(if x < 0 then -x else x, 19);
  }

  lemma StampAtMost(f: Fence, writer: string, now: int)
    requires Stampable(f, writer, now)
    ensures StampLen(f, now) <= LONGEST_STAMP
  {
    hide Digits;
    Int64Len(f.generation);
    Int64Len(f.epoch);
    Int64Len(f.ownerSeq);
    Int64Len(now);
  }

  lemma LongestStamp(writer: string)
    ensures
      var f, now := Fence(MAX_INT64, MAX_INT64, MAX_INT64, writer), -MAX_INT64 - 1;
      Stampable(f, writer, now) && StampLen(f, now) == LONGEST_STAMP
  {
    hide Digits;
    Int64Len(MAX_INT64);
    Int64Len(-MAX_INT64 - 1);
  }

  // ---- when the estimate is an upper bound --------------------------------

  /** The estimate bounds the encoding under every stamp exactly when the escapes
      of map name, key and writer id fit in the room the operation leaves. Both
      sides of that comparison are known when the estimate is made. */
  lemma EstimateBoundsIff(op: Operation, kind: Op, writer: string)
    ensures EstimateHolds(op, kind, writer) <==>
            Escapes(op.dmap) + Escapes(op.key) + Escapes(writer) <= EscapeRoom(op, kind)
  {
    hide FixedLen, Base64Len, EscapedLen, StampLen;
    LongestStamp(writer);
    var f, now := Fence(MAX_INT64, MAX_INT64, MAX_INT64, writer), -MAX_INT64 - 1;
    if EstimateHolds(op, kind, writer) {
      assert JsonLen(EntryFor(op, kind, f, now)) <= Estimate(op.dmap, op.key, writer, RawLen(op));
    }
    if Escapes(op.dmap) + Escapes(op.key) + Escapes(writer) <= EscapeRoom(op, kind) {
      forall f: Fence, now: int | Stampable(f, writer, now)
        ensures JsonLen(EntryFor(op, kind, f, now)) <= Estimate(op.dmap, op.key, writer, RawLen(op))
      {
        StampAtMost(f, writer, now);
      }
    }
  }

  /** The widths the source's types give an operation. */
  predicate Typed(op: Operation) {
    op.hkey < TWO_64 && Int64(ValueOf(op).ttl) && Int64(ValueOf(op).timestamp)
  }

  /** Every operation leaves at least 18 bytes for escapes. */
  lemma RoomAtLeast(op: Operation, kind: Op)
    requires Typed(op)
    ensures EscapeRoom(op, kind) >= 18
  {
    hide Digits, Base64Len;
    Pow10Facts();
    DigitsAre(op.hkey, 20);
    Int64Len(ValueOf(op).ttl);
    Int64Len(ValueOf(op).timestamp);
    Base64Twice(RawLen(op));
  }

  /** And some operation leaves no more than that. */
  lemma RoomCanBeLeast()
    ensures exists op: Operation, kind: Op :: Typed(op) && EscapeRoom(op, kind) == 18
  {
    hide Digits;
    var op := Operation("d", "k", TWO_64 - 1, Some(StoredValue([0], -MAX_INT64 - 1, -MAX_INT64 - 1)), 0, 0);
    Pow10Facts();
    DigitsAre(op.hkey, 20);
    Int64Len(-MAX_INT64 - 1);
    assert Typed(op) && EscapeRoom(op, OpDelete) == 18;
  }

  lemma Base64Twice(n: nat)
    ensures Base64Len(n) <= 2 * n + 2
    ensures n == 0 ==> Base64Len(n) == 0
  {
  }

  lemma {:induction false} NoEscapes(s: string)
    requires forall c :: c in s ==> EscapeCost(c) == 1
    ensures Escapes(s) == 0
  {
    if s != [] {
      NoEscapes(s[1..]);
    }
  }

  /** So it bounds every operation whose strings need no escaping. */
  lemma PlainEstimateBounds(op: Operation, kind: Op, writer: string)
    requires Typed(op)
    requires forall c :: c in op.dmap || c in op.key || c in writer ==> EscapeCost(c) == 1
    ensures EstimateHolds(op, kind, writer)
  {
    hide EscapeRoom, EscapedLen, EstimateHolds;
    NoEscapes(op.dmap);
    NoEscapes(op.key);
    NoEscapes(writer);
    RoomAtLeast(op, kind);
    EstimateBoundsIff(op, kind, writer);
  }

  lemma {:induction false} RepeatedEscapes(s: string)
    requires forall i :: 0 <= i < |s| ==> s[i] == '<'
    ensures EscapedLen(s) == 6 * |s|
  {
    if s != [] {
      RepeatedEscapes(s[1..]);
    }
  }

  /** And falls short, under every stamp, for a delete of any key made of 52 or
      more '<'. */
  lemma EstimateFallsShort(e: Entry, n: nat)
    requires n >= 52 && e.encoded == [] && |e.key| == n && (forall i :: 0 <= i < n ==> e.key[i] == '<')
    ensures JsonLen(e) > Estimate(e.dmap, e.key, e.fence.writer, 0)
  {
    RepeatedEscapes(e.key);
    AtLeastLength(e.dmap);
    AtLeastLength(e.fence.writer);
  }

  lemma {:induction false} AtLeastLength(s: string)
    ensures EscapedLen(s) >= |s|
  {
    if s != [] {
      AtLeastLength(s[1..]);
    }
  }
}
