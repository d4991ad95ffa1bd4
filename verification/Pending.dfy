// The sidecar's set of drained, not yet flushed entries.
module PendingSet {
  import opened Records
  import opened Upsert
  import Bytes

  type Pend = map<Ref, Entry>

  ghost predicate Keyed(m: Pend) {
    forall r :: r in m ==> m[r].RefOf() == r
  }

  function EntryBytes(e: Entry): nat {
    |e.dmap| + |e.key| + |e.fence.writer| + |e.encoded| + 64
  }

  /** Sum of the entry sizes. */
  ghost function TotalBytes(m: Pend): nat {
    if m == map[] then 0
    else
      var r :| r in m;
      EntryBytes(m[r]) + TotalBytes(m - {r})
  }

  lemma {:induction false} TotalWithout(m: Pend, r: Ref)
    requires r in m
    ensures TotalBytes(m) == EntryBytes(m[r]) + TotalBytes(m - {r})
    decreases |m|
  {
    var x :| x in m && TotalBytes(m) == EntryBytes(m[x]) + TotalBytes(m - {x});
    if x != r {
      TotalWithout(m - {x}, r);
      TotalWithout(m - {r}, x);
      assert m - {x} - {r} == m - {r} - {x};
    }
  }

  /** A put replaces the size of what was stored under the key. */
  lemma TotalWith(m: Pend, e: Entry)
    ensures TotalBytes(m[e.RefOf() := e]) == TotalBytes(m - {e.RefOf()}) + EntryBytes(e)
  {
    var m' := m[e.RefOf() := e];
    TotalWithout(m', e.RefOf());
    assert m' - {e.RefOf()} == m - {e.RefOf()};
  }

  // ---- puts and drops on values -------------------------------------------

  function PutAll(m: Pend, es: seq<Entry>): Pend {
    if es == [] then m
    else
      var e := es[|es| - 1];
      PutAll(m, es[..|es| - 1])[e.RefOf() := e]
  }

  /** A drop looks only at the owner sequence. */
  function Drop(m: Pend, ref: Ref, ownerSeq: int): Pend {
    if ref in m && m[ref].fence.ownerSeq <= ownerSeq then m - {ref} else m
  }

  function DropAll(m: Pend, es: seq<Entry>): Pend {
    if es == [] then m
    else
      var e := es[|es| - 1];
      Drop(DropAll(m, es[..|es| - 1]), e.RefOf(), e.fence.ownerSeq)
  }

  /** The entries at or above a generation. */
  function EntriesSince(m: Pend, generation: int): Pend {
    map r | r in m && m[r].fence.generation >= generation :: m[r]
  }

  /** es lists entries of m, each at its own key. */
  ghost predicate DrawnFrom(es: seq<Entry>, m: Pend) {
    forall i :: 0 <= i < |es| ==> es[i].RefOf() in m && m[es[i].RefOf()] == es[i]
  }

  /** es lists exactly the entries of m, in some order. */
  ghost predicate Enumerates(es: seq<Entry>, m: Pend) {
    DrawnFrom(es, m) && forall r :: r in m ==> m[r] in es
  }

  /** Dropping entries just read from the set removes exactly their keys. */
  lemma {:induction false} DropAllDrawn(m: Pend, es: seq<Entry>)
    requires DrawnFrom(es, m)
    ensures forall r :: r in DropAll(m, es) <==> r in m && forall i :: 0 <= i < |es| ==> es[i].RefOf() != r
    ensures forall r :: r in DropAll(m, es) ==> DropAll(m, es)[r] == m[r]
  {
    if es != [] {
      var init := es[..|es| - 1];
      assert forall i :: 0 <= i < |init| ==> init[i] == es[i];
      DropAllDrawn(m, init);
    }
  }

  lemma DropAllEmpties(m: Pend, es: seq<Entry>)
    requires Keyed(m) && Enumerates(es, m)
    ensures DropAll(m, es) == map[]
  {
    DropAllDrawn(m, es);
    forall r | r in m
      ensures exists i :: 0 <= i < |es| && es[i].RefOf() == r
    {
      var i :| 0 <= i < |es| && es[i] == m[r];
    }
  }

  lemma {:induction false} PutAllAppend(m: Pend, a: seq<Entry>, b: seq<Entry>)
    ensures PutAll(PutAll(m, a), b) == PutAll(m, a + b)
  {
    if b == [] {
      assert a + b == a;
    } else {
      PutAllAppend(m, a, b[..|b| - 1]);
      assert (a + b)[..|a + b| - 1] == a + b[..|b| - 1];
    }
  }

  /** Read-your-write: whatever fences it carries, the last entry put for a key is
      the one found under it, until the next put or drop. */
  lemma {:induction false} LastPutIsRead(m: Pend, es: seq<Entry>, i: nat)
    requires i < |es| && forall j :: i < j < |es| ==> es[j].RefOf() != es[i].RefOf()
    ensures es[i].RefOf() in PutAll(m, es) && PutAll(m, es)[es[i].RefOf()] == es[i]
  {
    var n := |es| - 1;
    if i < n {
      LastPutIsRead(m, es[..n], i);
      assert es[n].RefOf() != es[i].RefOf();
    }
  }

  // ---- per-key order -------------------------------------------------------

  /** Entries for one key come in fence order, after what is stored for it. */
  ghost predicate Ordered(m: Pend, es: seq<Entry>) {
    && (forall i, j :: 0 <= i < j < |es| && es[i].RefOf() == es[j].RefOf() ==> Newer(es[j].fence, es[i].fence))
    && (forall i :: 0 <= i < |es| && es[i].RefOf() in m ==> Newer(es[i].fence, m[es[i].RefOf()].fence))
  }

  ghost predicate Holds(m: Pend, e: Entry) {
    e.RefOf() in m && !Newer(e.fence, m[e.RefOf()].fence)
  }

  /** Every entry stored after puts was stored before or is one of those put. */
  lemma {:induction false} PutAllFrom(m: Pend, es: seq<Entry>)
    requires Keyed(m)
    ensures Keyed(PutAll(m, es))
    ensures forall r :: r in PutAll(m, es) ==> (r in m && PutAll(m, es)[r] == m[r]) || PutAll(m, es)[r] in es
    ensures forall r :: r in m ==> r in PutAll(m, es)
  {
    if es != [] {
      PutAllFrom(m, es[..|es| - 1]);
    }
  }

  /** Under per-key order, puts never lose an entry to an older one. */
  lemma {:induction false} PutAllHolds(m: Pend, es: seq<Entry>)
    requires Keyed(m) && Ordered(m, es)
    ensures forall r :: r in m ==> Holds(PutAll(m, es), m[r])
    ensures forall i :: 0 <= i < |es| ==> Holds(PutAll(m, es), es[i])
  {
    hide Newer;
    if es == [] {
      forall r | r in m
        ensures Holds(m, m[r])
      {
        NewerTotal(m[r].fence, m[r].fence);
      }
    } else {
      var init, e := es[..|es| - 1], es[|es| - 1];
      OrderedInit(m, es);
      PutAllHolds(m, init);
      PutAllFrom(m, init);
      assert es == init + [e];
      PutStepHolds(m, init, e, es);
    }
  }

  lemma OrderedInit(m: Pend, es: seq<Entry>)
    requires Ordered(m, es) && es != []
    ensures Ordered(m, es[..|es| - 1])
  {
    hide Newer;
    assert forall i :: 0 <= i < |es| - 1 ==> es[..|es| - 1][i] == es[i];
  }

  lemma PutStepHolds(m: Pend, init: seq<Entry>, e: Entry, es: seq<Entry>)
    requires Keyed(m) && Ordered(m, es) && es == init + [e]
    requires var m1 := PutAll(m, init);
             && Keyed(m1)
             && (forall r :: r in m ==> Holds(m1, m[r]))
             && (forall i :: 0 <= i < |init| ==> Holds(m1, init[i]))
    ensures var m2 := PutAll(m, init)[e.RefOf() := e];
            && (forall r :: r in m ==> Holds(m2, m[r]))
            && (forall i :: 0 <= i < |es| ==> Holds(m2, es[i]))
  {
    hide Newer, PutAll;
    var m1 := PutAll(m, init);
    var n := |init|;
    assert es[n] == e;
    NewerTotal(e.fence, e.fence);
    forall i | 0 <= i < n
      ensures Holds(m1[e.RefOf() := e], es[i])
    {
      assert es[i] == init[i] && Holds(m1, init[i]);
      if es[i].RefOf() == es[n].RefOf() {
        assert Newer(es[n].fence, es[i].fence);
        NewerTotal(e.fence, es[i].fence);
      }
    }
    forall r | r in m
      ensures Holds(m1[e.RefOf() := e], m[r])
    {
      assert Holds(m1, m[r]);
      if r == es[n].RefOf() {
        assert Newer(es[n].fence, m[es[n].RefOf()].fence);
        NewerTotal(e.fence, m[r].fence);
      }
    }
  }

  lemma OrderedSplit(m: Pend, es: seq<Entry>, k: nat)
    requires Keyed(m) && Ordered(m, es) && k <= |es|
    ensures Ordered(m, es[..k])
    ensures Ordered(PutAll(m, es[..k]), es[k..])
  {
    hide Newer;
    var m' := PutAll(m, es[..k]);
    PutAllFrom(m, es[..k]);
    forall i | 0 <= i < |es[k..]| && es[k..][i].RefOf() in m'
      ensures Newer(es[k..][i].fence, m'[es[k..][i].RefOf()].fence)
    {
      var r := es[k..][i].RefOf();
      if m'[r] in es[..k] {
        var j :| 0 <= j < k && es[j] == m'[r];
      }
    }
  }

  // ---- the set as the sidecar keeps it ------------------------------------

  class Pending {
    var entries: Pend
    var bytes: nat

    ghost predicate Valid()
      reads this
    {
      Keyed(entries) && bytes == TotalBytes(entries)
    }

    constructor ()
      ensures Valid() && entries == map[]
    {
      entries, bytes := map[], 0;
    }

    /** The byte counter is exact and never underflows. */
    method Put(e: Entry)
      requires Valid()
      modifies this
      ensures Valid() && entries == old(entries)[Ref(e.dmap, e.key, e.hkey) := e]
      ensures Ref(e.dmap, e.key, e.hkey) !in old(entries) ==>
                bytes == old(bytes) + |e.dmap| + |e.key| + |e.fence.writer| + |e.encoded| + 64
    {
      var ref := e.RefOf();
      TotalWith(entries, e);
      if ref in entries {
        TotalWithout(entries, ref);
        bytes := bytes - EntryBytes(entries[ref]);
      } else {
        assert entries - {ref} == entries;
      }
      entries := entries[ref := e];
      bytes := bytes + EntryBytes(e);
    }

    method DropEntry(ref: Ref, ownerSeq: int)
      requires Valid()
      modifies this
      ensures Valid() && entries == Drop(old(entries), ref, ownerSeq)
      ensures entries == if ref in old(entries) && old(entries)[ref].fence.ownerSeq <= ownerSeq
                         then old(entries) - {ref} else old(entries)
    {
      if ref in entries && entries[ref].fence.ownerSeq <= ownerSeq {
        TotalWithout(entries, ref);
        bytes := bytes - EntryBytes(entries[ref]);
        entries := entries - {ref};
      }
    }

    method DropEntries(es: seq<Entry>)
      requires Valid()
      modifies this
      ensures Valid() && entries == DropAll(old(entries), es)
    {
      var i := 0;
      while i < |es|
        invariant 0 <= i <= |es| && Valid()
        invariant entries == DropAll(old(entries), es[..i])
      {
        assert es[..i + 1][..i] == es[..i];
        DropEntry(es[i].RefOf(), es[i].fence.ownerSeq);
        i := i + 1;
      }
      assert es[..i] == es;
    }

    method Snapshot() returns (es: seq<Entry>)
      requires Valid()
      ensures Enumerates(es, entries) && |es| == |entries|
    {
      es := [];
      var left := entries.Keys;
      while left != {}
        invariant left <= entries.Keys && |es| + |left| == |entries|
        invariant DrawnFrom(es, entries)
        invariant forall r :: r in entries && r !in left ==> entries[r] in es
      {
        var r :| r in left;
        left := left - {r};
        es := es + [entries[r]];
      }
    }

    method Get(ref: Ref) returns (e: Option<Entry>)
      ensures e == if ref in entries then Some(entries[ref]) else None
    {
      e := if ref in entries then Some(entries[ref]) else None;
    }

    /** Drops exactly the entries below the generation and counts them. */
    method PurgeBelow(generation: int) returns (dropped: nat)
      requires Valid()
      modifies this
      ensures Valid() && dropped + |entries| == |old(entries)|
      ensures entries == EntriesSince(old(entries), generation)
      ensures forall r :: r in entries <==> r in old(entries) && old(entries)[r].fence.generation >= generation
      ensures forall r :: r in entries ==> entries[r] == old(entries)[r]
    {
      dropped := 0;
      var left := entries.Keys;
      while left != {}
        invariant left <= entries.Keys <= old(entries).Keys && Valid()
        invariant dropped + |entries| == |old(entries)|
        invariant forall r :: r in entries ==> entries[r] == old(entries)[r]
        invariant forall r :: r in old(entries) && r !in entries ==> old(entries)[r].fence.generation < generation
        invariant forall r :: r in entries && r !in left ==> entries[r].fence.generation >= generation
      {
        var r :| r in left;
        left := left - {r};
        if entries[r].fence.generation < generation {
          TotalWithout(entries, r);
          bytes := bytes - EntryBytes(entries[r]);
          RemoveSize(entries, r);
          entries := entries - {r};
          dropped := dropped + 1;
        }
      }
    }

    /** The entries of one map and one residue class. */
    method Partition(dmap: string, id: nat, count: nat) returns (es: seq<Entry>)
      requires Valid() && count > 0
      ensures DrawnFrom(es, entries)
      ensures forall i :: 0 <= i < |es| ==> InPartition(es[i], dmap, id, count)
      ensures forall r :: r in entries && InPartition(entries[r], dmap, id, count) ==> entries[r] in es
      ensures forall r :: r in entries ==>
                (entries[r] in es <==> entries[r].dmap == dmap && entries[r].hkey % count == id)
    {
      es := [];
      var left := entries.Keys;
      while left != {}
        invariant left <= entries.Keys
        invariant DrawnFrom(es, entries)
        invariant forall i :: 0 <= i < |es| ==> InPartition(es[i], dmap, id, count)
        invariant forall r :: r in entries && r !in left && InPartition(entries[r], dmap, id, count) ==>
            entries[r] in es
      {
        var r :| r in left;
        left := left - {r};
        if entries[r].dmap == dmap && entries[r].hkey % count == id {
          es := es + [entries[r]];
        }
      }
    }
  }

  predicate InPartition(e: Entry, dmap: string, id: nat, count: nat)
    requires count > 0
  {
    e.dmap == dmap && e.hkey % count == id
  }

  /** Every entry is in exactly one of the partitions of its map, and in none of another
      map's; entries whose hashes differ by a multiple of the count share theirs. */
  lemma OnePartition(e: Entry, dmap: string, count: nat)
    requires count > 0
    ensures exists id: nat :: id < count && InPartition(e, e.dmap, id, count)
    ensures forall i: nat, j: nat :: InPartition(e, dmap, i, count) && InPartition(e, dmap, j, count) ==> i == j
    ensures dmap != e.dmap ==> forall i: nat :: !InPartition(e, dmap, i, count)
    ensures InPartition(e.(hkey := e.hkey + count), e.dmap, e.hkey % count, count)
  {
    var id := e.hkey % count;
    assert InPartition(e, e.dmap, id, count);
    Bytes.ModUnique(e.hkey + count, count, e.hkey / count + 1, id);
  }

  lemma RemoveSize(m: Pend, r: Ref)
    requires r in m
    ensures |m - {r}| == |m| - 1
  {
    assert (m - {r}).Keys == m.Keys - {r};
  }
}
