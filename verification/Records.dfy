// The records that cross from node to sidecar to table, and the fence order.
module Records {
  import opened Bytes

  datatype Option<+T> = None | Some(value: T)

  function Max(a: int, b: int): int {
    if a < b then b else a
  }

  /** (generation, epoch, owner_seq, writer_id): the order in which writes win. */
  datatype Fence = Fence(generation: int, epoch: int, ownerSeq: int, writer: string)

  datatype Op = OpSet | OpDelete | OpExpire

  datatype Ref = Ref(dmap: string, key: string, hkey: nat)

  type RowKey = (string, nat)

  /** One mutation on the oplog. */
  datatype Entry = Entry(op: Op, dmap: string, key: string, hkey: nat, encoded: seq<byte>,
                         ttl: int, timestamp: int, fence: Fence, updatedAt: int)
  {
    function RefOf(): Ref { Ref(dmap, key, hkey) }
    function KeyOf(): RowKey { (dmap, hkey) }
  }

  /** Carries a fence the sequencer issues, and a writer id. */
  predicate Fenced(e: Entry) {
    e.fence.generation > 0 && e.fence.ownerSeq > 0 && e.fence.writer != ""
  }

  /** What the sidecar demands of a decoded entry, besides version and operation. */
  predicate Accepted(e: Entry) {
    Fenced(e) && e.dmap != ""
  }

  /** One table row. */
  datatype Record = Record(dmap: string, key: string, hkey: nat, encoded: seq<byte>, ttl: int, timestamp: int,
                           tombstone: bool, generation: int, epoch: int, ownerSeq: int, writer: string, updatedAt: int)
  {
    function KeyOf(): RowKey { (dmap, hkey) }
    function FenceOf(): Fence { Fence(generation, epoch, ownerSeq, writer) }
  }

  function RecordFromEntry(e: Entry): (r: Record)
    ensures r.FenceOf() == e.fence && r.KeyOf() == e.KeyOf() && r.key == e.key
    ensures r.encoded == e.encoded && r.ttl == e.ttl && r.timestamp == e.timestamp && r.updatedAt == e.updatedAt
    ensures r.tombstone <==> e.op == OpDelete
  {
    Record(e.dmap, e.key, e.hkey, e.encoded, e.ttl, e.timestamp, e.op == OpDelete,
           e.fence.generation, e.fence.epoch, e.fence.ownerSeq, e.fence.writer, e.updatedAt)
  }

  /** ttl is an absolute deadline in milliseconds; zero or less means none. */
  predicate Expired(r: Record, now: int) {
    r.ttl > 0 && now >= r.ttl
  }

  /** The row forgets only whether a live entry was set or had its deadline moved. */
  lemma RecordForgetsOnlyOp(a: Entry, b: Entry)
    ensures RecordFromEntry(a) == RecordFromEntry(b) <==>
            a.(op := b.op) == b && (a.op == OpDelete <==> b.op == OpDelete)
  {
    assert a.fence == RecordFromEntry(a).FenceOf() && b.fence == RecordFromEntry(b).FenceOf();
  }

  // ---- order on writer ids -------------------------------------------------

  predicate StringLess(a: string, b: string) {
    if b == [] then false
    else if a == [] then true
    else a[0] < b[0] || (a[0] == b[0] && StringLess(a[1..], b[1..]))
  }

  lemma {:induction false} StringLessTransitive(a: string, b: string, c: string)
    requires StringLess(a, b) && StringLess(b, c)
    ensures StringLess(a, c)
  {
    if a != [] && a[0] == b[0] == c[0] {
      StringLessTransitive(a[1..], b[1..], c[1..]);
    }
  }

  lemma {:induction false} StringLessTotal(a: string, b: string)
    ensures a == b || StringLess(a, b) || StringLess(b, a)
    ensures !(StringLess(a, b) && StringLess(b, a))
    ensures a == b ==> !StringLess(a, b)
  {
    if a != [] && b != [] && a[0] == b[0] {
      StringLessTotal(a[1..], b[1..]);
      assert a == [a[0]] + a[1..] && b == [b[0]] + b[1..];
    }
  }

  /** The first difference decides, and a proper prefix is less. */
  lemma {:induction false} FirstDifferenceDecides(a: string, b: string, i: nat)
    requires i <= |a| && i < |b| && a[..i] == b[..i] && (i == |a| || a[i] < b[i])
    ensures StringLess(a, b) && !StringLess(b, a)
    decreases i
  {
    if i > 0 {
      assert a[0] == a[..i][0] == b[..i][0] == b[0];
      assert a[1..][..i - 1] == a[..i][1..] && b[1..][..i - 1] == b[..i][1..];
      FirstDifferenceDecides(a[1..], b[1..], i - 1);
    }
  }

  // ---- order on fences -----------------------------------------------------

  /** Strictly newer, in the disjunctive form of the SQL condition. */
  predicate Newer(a: Fence, b: Fence) {
    || a.generation > b.generation
    || (a.generation == b.generation && a.epoch > b.epoch)
    || (a.generation == b.generation && a.epoch == b.epoch && a.ownerSeq > b.ownerSeq)
    || ( && a.generation == b.generation && a.epoch == b.epoch && a.ownerSeq == b.ownerSeq
         && StringLess(b.writer, a.writer))
  }

  /** Generation decides first, then epoch, then owner sequence, then the writer id. */
  lemma NewerByRank(a: Fence, b: Fence)
    ensures a.generation != b.generation ==> (Newer(a, b) <==> a.generation > b.generation)
    ensures a.generation == b.generation && a.epoch != b.epoch ==> (Newer(a, b) <==> a.epoch > b.epoch)
    ensures a.generation == b.generation && a.epoch == b.epoch && a.ownerSeq != b.ownerSeq ==>
              (Newer(a, b) <==> a.ownerSeq > b.ownerSeq)
    ensures a.(writer := b.writer) == b ==> (Newer(a, b) <==> StringLess(b.writer, a.writer))
  {
  }

  lemma NewerTransitive(a: Fence, b: Fence, c: Fence)
    requires Newer(a, b) && Newer(b, c)
    ensures Newer(a, c)
  {
    if a.ownerSeq == b.ownerSeq == c.ownerSeq && StringLess(c.writer, b.writer) && StringLess(b.writer, a.writer) {
      StringLessTransitive(c.writer, b.writer, a.writer);
    }
  }

  /** Fences are totally ordered. */
  lemma NewerTotal(a: Fence, b: Fence)
    ensures a == b || Newer(a, b) || Newer(b, a)
    ensures !(Newer(a, b) && Newer(b, a))
    ensures a == b ==> !Newer(a, b)
  {
    StringLessTotal(a.writer, b.writer);
  }

  /** A fence that is not older has no smaller generation. */
  lemma NotOlderGeneration(a: Fence, b: Fence)
    requires !Newer(b, a)
    ensures b.generation <= a.generation
  {
  }

  /** "Not older" chains. */
  lemma NotOlderTransitive(a: Fence, b: Fence, c: Fence)
    requires !Newer(b, a) && !Newer(c, b)
    ensures !Newer(c, a)
  {
    NewerTotal(a, b);
    NewerTotal(b, c);
    NewerTotal(a, c);
    if Newer(c, a) {
      if a == b || b == c {
      } else {
        NewerTransitive(a, b, c);
      }
    }
  }
}
