// The table under fence-aware upserts: each CASE expression read against the
// old row, and the fold of any number of records.
module Upsert {
  import opened Records

  type Table = map<RowKey, Record>

  ghost predicate WellKeyed(t: Table) {
    forall k :: k in t ==> t[k].KeyOf() == k
  }

  /** The ten assignments of the conflict clause, all read against the old row. */
  function Merge(row: Record, incoming: Record): Record {
    var newer := Newer(incoming.FenceOf(), row.FenceOf());
    Record(row.dmap,
           if newer then incoming.key else row.key,
           row.hkey,
           if newer then incoming.encoded else row.encoded,
           if newer then incoming.ttl else row.ttl,
           if newer then incoming.timestamp else row.timestamp,
           if newer then incoming.tombstone else row.tombstone,
           if newer then incoming.generation else row.generation,
           if newer then incoming.epoch else row.epoch,
           if newer then incoming.ownerSeq else row.ownerSeq,
           if newer then incoming.writer else row.writer,
           if newer then incoming.updatedAt else row.updatedAt)
  }

  /** A row is replaced as a whole or kept as a whole, never mixed. */
  lemma MergeIsWholeRow(row: Record, incoming: Record)
    requires row.KeyOf() == incoming.KeyOf()
    ensures Merge(row, incoming) == if Newer(incoming.FenceOf(), row.FenceOf()) then incoming else row
  {
  }

  function UpsertRow(t: Table, r: Record): Table {
    var k := r.KeyOf();
    if k in t then t[k := Merge(t[k], r)] else t[k := r]
  }

  function UpsertAll(t: Table, rs: seq<Record>): Table {
    if rs == [] then t else UpsertRow(UpsertAll(t, rs[..|rs| - 1]), rs[|rs| - 1])
  }

  /** The records that compete for row k. */
  ghost function Candidates(t: Table, rs: seq<Record>, k: RowKey): set<Record> {
    (if k in t then {t[k]} else {}) + (set r | r in rs && r.KeyOf() == k)
  }

  /** `row` is a competing record and none of its competitors is newer. */
  ghost predicate IsLexMax(row: Record, competitors: set<Record>) {
    row in competitors && forall c :: c in competitors ==> !Newer(c.FenceOf(), row.FenceOf())
  }

  ghost predicate RowIsMax(t': Table, t: Table, rs: seq<Record>, k: RowKey) {
    var c := Candidates(t, rs, k);
    if c == {} then k !in t' else k in t' && IsLexMax(t'[k], c)
  }

  /** Folding records over a table leaves, per row, a lexicographic maximum. */
  lemma {:induction false} FoldIsLexMax(t: Table, rs: seq<Record>, k: RowKey)
    requires WellKeyed(t)
    ensures WellKeyed(UpsertAll(t, rs))
    ensures RowIsMax(UpsertAll(t, rs), t, rs, k)
  {
    if rs == [] {
      if k in t { NewerTotal(t[k].FenceOf(), t[k].FenceOf()); }
    } else {
      var init, r := rs[..|rs| - 1], rs[|rs| - 1];
      FoldIsLexMax(t, init, k);
      var t1 := UpsertAll(t, init);
      CandidatesExtend(t, init, r, k);
      assert rs == init + [r];
      MaxStep(t1, r, Candidates(t, init, k), k);
    }
  }

  lemma CandidatesExtend(t: Table, init: seq<Record>, r: Record, k: RowKey)
    ensures Candidates(t, init + [r], k) == Candidates(t, init, k) + (if r.KeyOf() == k then {r} else {})
  {
  }

  lemma MaxStep(t1: Table, r: Record, c: set<Record>, k: RowKey)
    requires WellKeyed(t1)
    requires if c == {} then k !in t1 else k in t1 && IsLexMax(t1[k], c)
    ensures WellKeyed(UpsertRow(t1, r))
    ensures
      var c' := c + (if r.KeyOf() == k then {r} else {});
      var t2 := UpsertRow(t1, r);
      if c' == {} then k !in t2 else k in t2 && IsLexMax(t2[k], c')
  {
    hide Newer;
    if r.KeyOf() in t1 { MergeIsWholeRow(t1[r.KeyOf()], r); }
    if r.KeyOf() == k {
      NewerTotal(r.FenceOf(), r.FenceOf());
      if k in t1 {
        NewerTotal(r.FenceOf(), t1[k].FenceOf());
        if Newer(r.FenceOf(), t1[k].FenceOf()) {
          forall x | x in c
            ensures !Newer(x.FenceOf(), r.FenceOf())
          {
            NotOlderTransitive(r.FenceOf(), t1[k].FenceOf(), x.FenceOf());
          }
        }
      }
    }
  }

  /** Competing records with one fence are one record. */
  ghost predicate UniqueFences(t: Table, rs: seq<Record>) {
    forall k, a, b :: a in Candidates(t, rs, k) && b in Candidates(t, rs, k) && a.FenceOf() == b.FenceOf() ==> a == b
  }

  /** Any order, any duplication: the same set of records yields the same table. */
  lemma FoldOrderIndependent(t: Table, a: seq<Record>, b: seq<Record>)
    requires WellKeyed(t) && UniqueFences(t, a)
    requires forall r :: r in a <==> r in b
    ensures UpsertAll(t, a) == UpsertAll(t, b)
  {
    var ta, tb := UpsertAll(t, a), UpsertAll(t, b);
    forall k: RowKey
      ensures k in ta <==> k in tb
      ensures k in ta ==> ta[k] == tb[k]
    {
      FoldIsLexMax(t, a, k);
      FoldIsLexMax(t, b, k);
      assert Candidates(t, a, k) == Candidates(t, b, k);
      if k in ta {
        NewerTotal(ta[k].FenceOf(), tb[k].FenceOf());
      }
    }
  }

  /** Any batching: folding in pieces is folding at once. */
  lemma {:induction false} FoldBatches(t: Table, a: seq<Record>, b: seq<Record>)
    ensures UpsertAll(UpsertAll(t, a), b) == UpsertAll(t, a + b)
  {
    if b == [] {
      assert a + b == a;
    } else {
      FoldBatches(t, a, b[..|b| - 1]);
      assert (a + b)[..|a + b| - 1] == a + b[..|b| - 1];
    }
  }

  /** The rows at or above a generation. */
  function RowsSince(t: Table, generation: int): Table {
    map k | k in t && t[k].generation >= generation :: t[k]
  }

  /** The table holds row k at a fence not older than f. */
  ghost predicate Covers(t: Table, k: RowKey, f: Fence) {
    k in t && !Newer(f, t[k].FenceOf())
  }

  /** Row fences never regress, and every folded record is covered. */
  lemma FoldCovers(t: Table, rs: seq<Record>, k: RowKey, f: Fence)
    requires WellKeyed(t)
    ensures WellKeyed(UpsertAll(t, rs))
    ensures Covers(t, k, f) ==> Covers(UpsertAll(t, rs), k, f)
    ensures (exists r :: r in rs && r.KeyOf() == k && r.FenceOf() == f) ==> Covers(UpsertAll(t, rs), k, f)
  {
    hide Newer;
    FoldIsLexMax(t, rs, k);
    if Covers(t, k, f) {
      assert t[k] in Candidates(t, rs, k);
      NotOlderTransitive(UpsertAll(t, rs)[k].FenceOf(), t[k].FenceOf(), f);
    }
    if r :| r in rs && r.KeyOf() == k && r.FenceOf() == f {
      assert r in Candidates(t, rs, k);
    }
  }

  /** Replaying a flush changes nothing, whatever the fences. */
  lemma {:induction false} ReplayHarmless(t: Table, a: seq<Record>, b: seq<Record>)
    requires WellKeyed(t)
    requires forall r :: r in b ==> r in a
    ensures UpsertAll(UpsertAll(t, a), b) == UpsertAll(t, a)
  {
    if b != [] {
      var r := b[|b| - 1];
      ReplayHarmless(t, a, b[..|b| - 1]);
      FoldCovers(t, a, r.KeyOf(), r.FenceOf());
      MergeIsWholeRow(UpsertAll(t, a)[r.KeyOf()], r);
    }
  }

  /** Unique fences are needed: two records compete the same way in both orders
      exactly when they are equal or their fences differ. */
  lemma OrderMattersIff(a: Record, b: Record)
    requires a.KeyOf() == b.KeyOf()
    ensures UpsertAll(map[], [a, b]) == UpsertAll(map[], [b, a]) <==> a == b || a.FenceOf() != b.FenceOf()
  {
    TwoRecords(a, b);
    TwoRecords(b, a);
    NewerTotal(a.FenceOf(), b.FenceOf());
    assert UpsertAll(map[], [a, b]) == UpsertAll(map[], [b, a]) ==>
        UpsertAll(map[], [a, b])[a.KeyOf()] == UpsertAll(map[], [b, a])[a.KeyOf()];
  }

  lemma TwoRecords(a: Record, b: Record)
    requires a.KeyOf() == b.KeyOf()
    ensures UpsertAll(map[], [a, b]) == map[a.KeyOf() := if Newer(b.FenceOf(), a.FenceOf()) then b else a]
  {
    assert [a, b][..1] == [a] && [a][..0] == [];
    assert UpsertAll(map[], [a]) == map[a.KeyOf() := a];
    MergeIsWholeRow(a, b);
  }

  // ---- the backend ---------------------------------------------------------

  class Backend {
    var table: Table
    const batchSize: nat

    ghost predicate Valid()
      reads this
    {
      batchSize > 0 && WellKeyed(table)
    }

    constructor (batchSize: int)
      ensures Valid() && table == map[]
      ensures this.batchSize == if batchSize > 0 then batchSize else 256
    {
      this.batchSize := if batchSize <= 0 then 256 else batchSize;
      table := map[];
    }

    /** Upserts batch by batch. `fails` is None when the call succeeds; on an
        error it says how many records had taken effect by then. */
    method UpsertEntries(records: seq<Record>, fails: Option<nat>) returns (ok: bool)
      requires Valid()
      modifies this
      ensures Valid() && ok == fails.None?
      ensures ok ==> table == UpsertAll(old(table), records)
      ensures !ok ==> exists n :: 0 <= n <= |records| && table == UpsertAll(old(table), records[..n])
    {
      var limit := if fails.Some? && fails.value < |records| then fails.value else |records|;
      var i := 0;
      while i < limit
        invariant 0 <= i <= limit <= |records| && Valid()
        invariant table == UpsertAll(old(table), records[..i])
      {
        var n := if i + batchSize < limit then i + batchSize else limit;
        FoldBatches(old(table), records[..i], records[i..n]);
        assert records[..i] + records[i..n] == records[..n];
        FoldCovers(table, records[i..n], ("", 0), Fence(0, 0, 0, ""));
        InsertBatch(records[i..n]);
        i := n;
      }
      assert records[..|records|] == records;
      ok := fails.None?;
    }

    method InsertBatch(batch: seq<Record>)
      modifies this
      ensures table == UpsertAll(old(table), batch)
    {
      var i := 0;
      while i < |batch|
        invariant 0 <= i <= |batch|
        invariant table == UpsertAll(old(table), batch[..i])
      {
        assert batch[..i + 1][..i] == batch[..i];
        table := UpsertRow(table, batch[i]);
        i := i + 1;
      }
      assert batch[..i] == batch;
    }

    /** A live row, or nothing when it is absent, a tombstone, or expired. */
    method Load(ref: Ref, now: int) returns (r: Option<Record>)
      ensures r == LoadRow(table, (ref.dmap, ref.hkey), now)
      ensures r.Some? <==> && (ref.dmap, ref.hkey) in table
                           && var row := table[(ref.dmap, ref.hkey)];
                              !row.tombstone && (row.ttl <= 0 || now < row.ttl)
      ensures r.Some? ==> r.value == table[(ref.dmap, ref.hkey)]
    {
      var k := (ref.dmap, ref.hkey);
      if k !in table {
        return None;
      }
      var rec := table[k];
      if rec.tombstone || Expired(rec, now) {
        return None;
      }
      return Some(rec);
    }

    method PurgeBelowGeneration(minGeneration: int) returns (purged: nat)
      requires Valid()
      modifies this
      ensures Valid()
      ensures table == if minGeneration <= 0 then old(table) else RowsSince(old(table), minGeneration)
      ensures forall k :: k in table <==>
                          k in old(table) && (minGeneration <= 0 || old(table)[k].generation >= minGeneration)
      ensures forall k :: k in table ==> table[k] == old(table)[k]
      ensures purged + |table| == |old(table)|
    {
      if minGeneration <= 0 {
        return 0;
      }
      var gone := set k | k in table && table[k].generation < minGeneration;
      assert |table.Keys| == |gone| + |table.Keys - gone|;
      purged := |gone|;
      table := table - gone;
      assert table.Keys == old(table).Keys - gone;
      assert table == RowsSince(old(table), minGeneration);
    }
  }

  function LoadRow(t: Table, k: RowKey, now: int): Option<Record> {
    if k in t && !t[k].tombstone && !Expired(t[k], now) then Some(t[k]) else None
  }
}
