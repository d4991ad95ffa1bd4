// The sidecar: draining the ring into the pending set, flushing the pending set
// into the table, partition handoff, the final drain, and miss-path reads.
module Sidecar {
  import opened Bytes
  import opened Records
  import opened Upsert
  import opened PendingSet
  import opened SharedRing
  import RingLayout

  /** The oplog codec is a parameter; None stands for a decode error. */
  type Decoder = Payload -> Option<Entry>

  ghost predicate Decodable(decode: Decoder, ps: seq<Payload>) {
    forall i :: 0 <= i < |ps| ==> decode(ps[i]).Some?
  }

  function DecodeAll(decode: Decoder, ps: seq<Payload>): (es: seq<Entry>)
    requires Decodable(decode, ps)
    ensures |es| == |ps| && forall i :: 0 <= i < |ps| ==> es[i] == decode(ps[i]).value
  {
    seq(|ps|, i requires 0 <= i < |ps| => decode(ps[i]).value)
  }

  lemma PutFirstIs(decode: Decoder, m: Pend, q: seq<Payload>, j: nat)
    requires j <= |q| && Decodable(decode, q[..j])
    ensures PutFirst(decode, m, q, j) == PutAll(m, DecodeAll(decode, q[..j]))
  {
  }

  /** The pending set after the first j payloads, while they decode. */
  ghost function PutFirst(decode: Decoder, m: Pend, q: seq<Payload>, j: nat): Pend {
    if j <= |q| && Decodable(decode, q[..j]) then PutAll(m, DecodeAll(decode, q[..j])) else m
  }

  function RecordsOf(es: seq<Entry>): (rs: seq<Record>)
    ensures |rs| == |es| && forall i :: 0 <= i < |es| ==> rs[i] == RecordFromEntry(es[i])
  {
    seq(|es|, i requires 0 <= i < |es| => RecordFromEntry(es[i]))
  }

  /** The table answers for e: its row is at e's fence or a newer one. */
  ghost predicate Settled(t: Table, e: Entry) {
    Covers(t, e.KeyOf(), e.fence)
  }

  /** A miss-path read: the pending set first, then the table. */
  function LoadSpec(m: Pend, t: Table, ref: Ref, now: int): Option<Record> {
    if ref in m then
      var rec := RecordFromEntry(m[ref]);
      if rec.tombstone || Expired(rec, now) then None else Some(rec)
    else LoadRow(t, (ref.dmap, ref.hkey), now)
  }

  /** Time only takes away: what a load does not find now, it does not find later in
      the same state, and what it finds later is what it finds now. */
  lemma LoadOnlyExpires(m: Pend, t: Table, ref: Ref, now: int, later: int)
    requires now <= later
    ensures LoadSpec(m, t, ref, now).None? ==> LoadSpec(m, t, ref, later).None?
    ensures LoadSpec(m, t, ref, later).Some? ==> LoadSpec(m, t, ref, now) == LoadSpec(m, t, ref, later)
  {
  }

  /** Upserting entries settles each of them, and anything the pending set
      already held on their behalf. */
  lemma UpsertSettles(t: Table, es: seq<Entry>, x: Entry)
    requires WellKeyed(t)
    ensures WellKeyed(UpsertAll(t, RecordsOf(es)))
    ensures x in es || Settled(t, x) ==> Settled(UpsertAll(t, RecordsOf(es)), x)
    ensures (exists e :: e in es && e.RefOf() == x.RefOf() && !Newer(x.fence, e.fence))
            ==> Settled(UpsertAll(t, RecordsOf(es)), x)
  {
    hide Newer;
    FoldCovers(t, RecordsOf(es), x.KeyOf(), x.fence);
    if x in es {
      var i :| 0 <= i < |es| && es[i] == x;
      assert RecordsOf(es)[i] == RecordFromEntry(x);
    }
    if e :| e in es && e.RefOf() == x.RefOf() && !Newer(x.fence, e.fence) {
      var i :| 0 <= i < |es| && es[i] == e;
      assert RecordsOf(es)[i] == RecordFromEntry(e);
      FoldCovers(t, RecordsOf(es), x.KeyOf(), e.fence);
      NotOlderTransitive(UpsertAll(t, RecordsOf(es))[x.KeyOf()].FenceOf(), e.fence, x.fence);
    }
  }

  /** The table answers for x after an upsert exactly when it did before, or one of
      the entries upserted to x's row is not older. */
  lemma UpsertSettlesIff(t: Table, es: seq<Entry>, x: Entry)
    requires WellKeyed(t)
    ensures Settled(UpsertAll(t, RecordsOf(es)), x) <==>
            || Settled(t, x)
            || exists i :: 0 <= i < |es| && es[i].KeyOf() == x.KeyOf() && !Newer(x.fence, es[i].fence)
  {
    hide Newer;
    var k, t' := x.KeyOf(), UpsertAll(t, RecordsOf(es));
    UpsertSettles(t, es, x);
    FoldIsLexMax(t, RecordsOf(es), k);
    if i :| 0 <= i < |es| && es[i].KeyOf() == k && !Newer(x.fence, es[i].fence) {
      assert RecordsOf(es)[i] in Candidates(t, RecordsOf(es), k);
      NotOlderTransitive(t'[k].FenceOf(), es[i].fence, x.fence);
    }
    if Settled(t', x) && t'[k] in RecordsOf(es) {
      var i :| 0 <= i < |es| && RecordsOf(es)[i] == t'[k];
      assert es[i].KeyOf() == k && es[i].fence == t'[k].FenceOf();
    }
  }

  /** Drain then flush: everything drained, and everything pending, is settled. */
  lemma DrainFlushSettles(m: Pend, es: seq<Entry>, snap: seq<Entry>, t: Table, x: Entry)
    requires Keyed(m) && Ordered(m, es) && WellKeyed(t)
    requires Enumerates(snap, PutAll(m, es))
    requires x in es || (x.RefOf() in m && m[x.RefOf()] == x)
    ensures Settled(UpsertAll(t, RecordsOf(snap)), x)
  {
    hide Newer;
    PutAllHolds(m, es);
    var m' := PutAll(m, es);
    assert Holds(m', x);
    var e := m'[x.RefOf()];
    assert e in snap;
    PutAllFrom(m, es);
    UpsertSettles(t, snap, x);
  }

  datatype DrainResult = Drained | BadPartition | DrainError | FlushError

  class Server {
    const ring: Ring
    const backend: Backend
    const pending: Pending
    const decode: Decoder
    const batchSize: nat
    const maxRecords: int
    const maxBytes: nat

    ghost predicate Valid()
      reads this, ring, ring.data, backend, pending
    {
      ring.Valid() && backend.Valid() && pending.Valid() && batchSize > 0
    }

    constructor (ring: Ring, backend: Backend, decode: Decoder, batchSize: int, maxRecords: int, maxBytes: nat)
      requires ring.Valid() && backend.Valid()
      ensures Valid() && fresh(pending) && pending.entries == map[]
      ensures this.ring == ring && this.backend == backend && this.decode == decode
      ensures this.batchSize == if batchSize > 0 then batchSize else 256
      ensures this.maxRecords == maxRecords && this.maxBytes == maxBytes
    {
      this.ring, this.backend, this.decode := ring, backend, decode;
      this.batchSize := if batchSize <= 0 then 256 else batchSize;
      this.maxRecords, this.maxBytes := maxRecords, maxBytes;
      pending := new Pending();
    }

    ghost predicate Full(m: Pend) {
      (maxRecords > 0 && |m| >= maxRecords) || (maxBytes > 0 && TotalBytes(m) >= maxBytes)
    }

    method PendingFull() returns (full: bool)
      requires pending.Valid()
      ensures full == Full(pending.entries)
      ensures full <==> || (maxRecords > 0 && |pending.entries| >= maxRecords)
                        || (maxBytes > 0 && pending.bytes >= maxBytes)
    {
      if maxRecords > 0 && |pending.entries| >= maxRecords {
        return true;
      }
      return maxBytes > 0 && pending.bytes >= maxBytes;
    }

    /** Moves a prefix of the ring into the pending set. It stops at the batch
        size, at a pending limit, at the end of the ring, or on a payload that
        does not decode, which is consumed. */
    method DrainRing() returns (count: nat, ok: bool)
      requires Valid()
      modifies ring`head, ring`taken, pending
      ensures Valid()
      ensures count <= |old(ring.Contents())| && count <= batchSize
      ensures Decodable(decode, old(ring.Contents())[..count])
      ensures pending.entries == PutAll(old(pending.entries), DecodeAll(decode, old(ring.Contents())[..count]))
      ensures ok ==> ring.Contents() == old(ring.Contents())[count..]
      ensures !ok ==> && count < |old(ring.Contents())| && decode(old(ring.Contents())[count]).None?
                      && ring.Contents() == old(ring.Contents())[count + 1..]
      ensures ok ==> count == batchSize || Full(pending.entries) || ring.Contents() == []
      ensures Full(old(pending.entries)) ==> ok && count == 0
      ensures forall j :: 0 <= j < count ==> !Full(PutFirst(decode, old(pending.entries), old(ring.Contents()), j))
      ensures ok && !Full(old(pending.entries)) && old(ring.Contents()) != [] ==> count > 0
    {
      hide RingLayout.RingInv, PutAll, TotalBytes, Keyed, WellKeyed, PutFirst, Ring.Poisoned, Ring.Contents, Full;
      ghost var q, m := ring.Contents(), pending.entries;
      PutAllNone(m);
      count := 0;
      while true
        invariant Valid() && count <= |q| && count < batchSize
        invariant ring.Contents() == q[count..]
        invariant Decodable(decode, q[..count])
        invariant pending.entries == PutAll(m, DecodeAll(decode, q[..count]))
        invariant count > 0 ==> !Full(m)
        invariant forall j :: 0 <= j < count ==> !Full(PutFirst(decode, m, q, j))
        decreases batchSize - count
      {
        var full := PendingFull();
        if full {
          return count, true;
        }
        PutFirstIs(decode, m, q, count);
        var popped, _ := ring.Pop();
        match popped
        case Empty =>
          return count, true;
        case Corrupted =>
          return count, false;
        case Popped(payload) =>
          assert payload == q[count];
          var entry := decode(payload);
          if entry.None? {
            return count, false;
          }
          pending.Put(entry.value);
          DecodeNext(decode, q, count);
          assert q[count..][1..] == q[count + 1..];
          count := count + 1;
          if count >= batchSize {
            return count, true;
          }
      }
    }

    /** Writes a snapshot of the pending set to the table, then drops it. On a
        failed write the pending set is untouched. */
    method FlushOnce(fails: Option<nat>) returns (ok: bool, ghost snap: seq<Entry>)
      requires Valid()
      modifies pending, backend
      ensures Valid() && Enumerates(snap, old(pending.entries))
      ensures ok ==> pending.entries == map[] && backend.table == UpsertAll(old(backend.table), RecordsOf(snap))
      ensures !ok ==> pending.entries == old(pending.entries)
      ensures !ok ==> exists n :: 0 <= n <= |snap| &&
                                  backend.table == UpsertAll(old(backend.table), RecordsOf(snap)[..n])
      ensures fails.None? ==> ok
    {
      hide RingLayout.RingInv, TotalBytes, DropAll;
      var entries := pending.Snapshot();
      snap := entries;
      if |entries| == 0 {
        return true, snap;
      }
      ok := backend.UpsertEntries(RecordsOf(entries), fails);
      if ok {
        DropAllEmpties(pending.entries, entries);
        pending.DropEntries(entries);
      }
    }

    /** Miss-path read; a tombstone or an expired entry reads as absent. A
        failing table, `fails`, is noticed only when the key is not pending. */
    method LoadFromMySQL(ref: Ref, now: int, fails: bool) returns (r: Option<Record>, ok: bool)
      ensures ok <==> ref in pending.entries || !fails
      ensures ok ==> r == LoadSpec(pending.entries, backend.table, ref, now)
      ensures ref in pending.entries ==>
                var e := pending.entries[ref];
                && (r.Some? <==> e.op != OpDelete && (e.ttl <= 0 || now < e.ttl))
                && (r.Some? ==> && (r.value.dmap, r.value.key, r.value.hkey) == (e.dmap, e.key, e.hkey)
                                && (r.value.encoded, r.value.ttl, r.value.timestamp) == (e.encoded, e.ttl, e.timestamp))
      ensures ok && ref !in pending.entries ==>
                && (r.Some? <==> && (ref.dmap, ref.hkey) in backend.table
                                 && var row := backend.table[(ref.dmap, ref.hkey)];
                                    !row.tombstone && (row.ttl <= 0 || now < row.ttl))
                && (r.Some? ==> r.value == backend.table[(ref.dmap, ref.hkey)])
    {
      var e := pending.Get(ref);
      if e.Some? {
        var rec := RecordFromEntry(e.value);
        if rec.tombstone || Expired(rec, now) {
          return None, true;
        }
        return Some(rec), true;
      }
      if fails {
        return None, false;
      }
      r := backend.Load(ref, now);
      ok := true;
      if r.Some? && (r.value.tombstone || Expired(r.value, now)) {
        return None, true;
      }
    }

    /** Purges the pending set first, then the table; `fails` is a table error. */
    method PurgeBelowGeneration(minGeneration: int, fails: bool) returns (purged: nat, ok: bool)
      requires Valid()
      modifies pending, backend
      ensures Valid()
      ensures minGeneration <= 0 ==>
                ok && purged == 0 && pending.entries == old(pending.entries) && backend.table == old(backend.table)
      ensures minGeneration > 0 ==> ok == !fails && pending.entries == EntriesSince(old(pending.entries), minGeneration)
      ensures forall r :: r in pending.entries <==>
                          && r in old(pending.entries)
                          && (minGeneration <= 0 || old(pending.entries)[r].fence.generation >= minGeneration)
      ensures ok ==> forall k :: k in backend.table <==>
                                 && k in old(backend.table)
                                 && (minGeneration <= 0 || old(backend.table)[k].generation >= minGeneration)
      ensures minGeneration > 0 && ok ==>
                && backend.table == RowsSince(old(backend.table), minGeneration)
                && purged + |pending.entries| + |backend.table| == |old(pending.entries)| + |old(backend.table)|
      ensures !ok ==> backend.table == old(backend.table)
    {
      hide RingLayout.RingInv, TotalBytes;
      if minGeneration <= 0 {
        return 0, true;
      }
      var dropped := pending.PurgeBelow(minGeneration);
      if fails {
        return 0, false;
      }
      var rows := backend.PurgeBelowGeneration(minGeneration);
      return dropped + rows, true;
    }

    /** One drain and one flush. */
    method Round(fails: Option<nat>) returns (n: nat, ok: bool, ghost snap: seq<Entry>)
      requires Valid()
      modifies ring`head, ring`taken, pending, backend
      ensures Valid()
      ensures ok ==> && n <= |old(ring.Contents())| && ring.Contents() == old(ring.Contents())[n..]
                     && pending.entries == map[]
                     && Decodable(decode, old(ring.Contents())[..n])
                     && Enumerates(snap, PutAll(old(pending.entries), DecodeAll(decode, old(ring.Contents())[..n])))
                     && backend.table == UpsertAll(old(backend.table), RecordsOf(snap))
      ensures ok ==> (n == 0 <==> Full(old(pending.entries)) || old(ring.Contents()) == [])
      ensures Decodable(decode, old(ring.Contents())) && fails.None? ==> ok
    {
      hide RingLayout.RingInv, PutAll, TotalBytes, UpsertAll, Enumerates;
      n, ok := DrainRing();
      snap := [];
      if ok {
        ok, snap := FlushOnce(fails);
      }
    }

    /** Ends without an error exactly with the pending set empty; and with the
        ring empty too, unless the pending set was already full when it began
        and the ring was not empty, in which case nothing is drained at all. */
    method FinalDrain(fails: nat -> Option<nat>) returns (ok: bool, ghost drained: nat)
      requires Valid()
      modifies ring`head, ring`taken, pending, backend
      ensures Valid()
      ensures ok ==> pending.entries == map[]
      ensures ok ==> drained <= |old(ring.Contents())| && ring.Contents() == old(ring.Contents())[drained..]
      ensures ok ==> (ring.Contents() == [] <==> !Full(old(pending.entries)) || old(ring.Contents()) == [])
      ensures ok && ring.Contents() != [] ==> drained == 0
      ensures ok && Decodable(decode, old(ring.Contents())) &&
              Ordered(old(pending.entries), DecodeAll(decode, old(ring.Contents())))
              ==> SettledUpTo(backend.table, old(pending.entries), DecodeAll(decode, old(ring.Contents())), drained)
      ensures (forall i :: fails(i).None?) && Decodable(decode, old(ring.Contents())) ==> ok
    {
      hide RingLayout.RingInv, PutAll, TotalBytes, UpsertAll, Ordered, Enumerates, SettledUpTo;
      ghost var q, m0 := ring.Contents(), pending.entries;
      ghost var inOrder := Decodable(decode, q) && Ordered(m0, DecodeAll(decode, q));
      var round := 0;
      drained := 0;
      while true
        invariant Valid() && drained <= |q| && ring.Contents() == q[drained..]
        invariant round == 0 ==> drained == 0 && pending.entries == m0
        invariant round > 0 ==> pending.entries == map[] && drained > 0 && !Full(m0)
        invariant inOrder ==> Ordered(pending.entries, DecodeAll(decode, q)[drained..])
        invariant inOrder && round > 0 ==> SettledUpTo(backend.table, m0, DecodeAll(decode, q), drained)
        decreases |ring.Contents()|
      {
        ghost var m, t := pending.entries, backend.table;
        var n, done, snap := Round(fails(round));
        if !done {
          return false, drained;
        }
        assert q[drained..][n..] == q[drained + n..];
        if inOrder {
          BatchOf(decode, q, drained, n);
          RoundSettles(DecodeAll(decode, q), DecodeAll(decode, q[drained..][..n]), m0, m, drained, n, snap, t);
        }
        EmptyNotFull();
        round, drained := round + 1, drained + n;
        if n == 0 {
          return true, drained;
        }
      }
    }

    /** Handoff: after a success no drained entry of the partition is pending,
        every one of them is settled in the table, other partitions' entries
        stay pending as they were, and what is missed is the undrained suffix. */
    method DrainPartition(dmap: string, id: nat, count: nat, fails: Option<nat>)
      returns (r: DrainResult, ghost n: nat, ghost subset: seq<Entry>)
      requires Valid()
      modifies ring`head, ring`taken, pending, backend
      ensures Valid()
      ensures r.BadPartition? <==> count == 0 || id >= count
      ensures r.BadPartition? ==> && pending.entries == old(pending.entries) && backend.table == old(backend.table)
                                  && ring.Contents() == old(ring.Contents())
      ensures r.DrainError? ==> && n < |old(ring.Contents())| && ring.Contents() == old(ring.Contents())[n + 1..]
                                && decode(old(ring.Contents())[n]).None? && backend.table == old(backend.table)
      ensures r.Drained? || r.FlushError? ==>
                n <= |old(ring.Contents())| && ring.Contents() == old(ring.Contents())[n..]
      ensures !r.BadPartition? ==> n <= |old(ring.Contents())| && Decodable(decode, old(ring.Contents())[..n])
      ensures forall j :: 0 <= j < n ==> !Full(PutFirst(decode, old(pending.entries), old(ring.Contents()), j))
      ensures (r.Drained? || r.FlushError?) && !Full(old(pending.entries)) && old(ring.Contents()) != [] ==> n > 0
      ensures fails.None? ==> !r.FlushError?
      ensures r.DrainError? || r.FlushError? ==>
                pending.entries == PutAll(old(pending.entries), DecodeAll(decode, old(ring.Contents())[..n]))
      ensures r.Drained? || r.FlushError? ==>
                var m := PutAll(old(pending.entries), DecodeAll(decode, old(ring.Contents())[..n]));
                IsPartition(subset, m, dmap, id, count)
      ensures r.Drained? ==>
                var m := PutAll(old(pending.entries), DecodeAll(decode, old(ring.Contents())[..n]));
                && backend.table == UpsertAll(old(backend.table), RecordsOf(subset))
                && pending.entries == DropAll(m, subset)
      ensures r.FlushError? ==>
                exists k :: 0 <= k <= |subset| && backend.table == UpsertAll(old(backend.table), RecordsOf(subset)[..k])
      ensures r.Drained? ==>
                var es := DecodeAll(decode, old(ring.Contents())[..n]);
                var m := PutAll(old(pending.entries), es);
                && (forall k :: k in pending.entries <==> k in m && !(m[k].dmap == dmap && m[k].hkey % count == id))
                && (forall k :: k in pending.entries ==> pending.entries[k] == m[k])
                && (|old(ring.Contents())| <= batchSize && !Full(m) ==> ring.Contents() == [])
                && (Ordered(old(pending.entries), es) ==>
                      forall x :: InPartition(x, dmap, id, count) && (x in es || StoredIn(old(pending.entries), x))
                                  ==> Settled(backend.table, x))
    {
      hide RingLayout.RingInv, PutAll, TotalBytes, UpsertAll, Ordered, Settled, DropAll;
      n, subset := 0, [];
      if count == 0 || id >= count {
        return BadPartition, n, subset;
      }
      ghost var q, m0, t := ring.Contents(), pending.entries, backend.table;
      var drained, ok := DrainRing();
      n := drained;
      if !ok {
        return DrainError, n, subset;
      }
      ghost var es := DecodeAll(decode, q[..n]);
      var part := pending.Partition(dmap, id, count);
      subset := part;
      PartitionSettles(m0, es, part, t, dmap, id, count);
      PartitionDropped(pending.entries, part, dmap, id, count);
      if |part| == 0 {
        UpsertNone(t, part);
        return Drained, n, subset;
      }
      var written := backend.UpsertEntries(RecordsOf(part), fails);
      if !written {
        return FlushError, n, subset;
      }
      pending.DropEntries(part);
      return Drained, n, subset;
    }

    lemma EmptyNotFull()
      ensures !Full(map[])
    {
    }

    /** One round of drain and flush extends what is settled. */
    lemma RoundSettles(es: seq<Entry>, batch: seq<Entry>, m0: Pend, m: Pend, from: nat, n: nat,
                       snap: seq<Entry>, t: Table)
      requires Keyed(m) && WellKeyed(t) && from + n <= |es|
      requires Ordered(m, es[from..]) && batch == es[from..][..n]
      requires Enumerates(snap, PutAll(m, batch))
      requires (m == m0 && from == 0) || SettledUpTo(t, m0, es, from)
      ensures Ordered(map[], es[from + n..])
      ensures SettledUpTo(UpsertAll(t, RecordsOf(snap)), m0, es, from + n)
    {
      hide Newer, Settled, Enumerates;
      var t' := UpsertAll(t, RecordsOf(snap));
      OrderedSplit(m, es[from..], n);
      OrderedNone(PutAll(m, batch), es[from..][n..]);
      assert es[from..][n..] == es[from + n..];
      forall i | 0 <= i < from + n
        ensures Settled(t', es[i])
      {
        if i < from {
          UpsertSettles(t, snap, es[i]);
        } else {
          assert es[i] == batch[i - from];
          DrainFlushSettles(m, batch, snap, t, es[i]);
        }
      }
      forall r | r in m0
        ensures Settled(t', m0[r])
      {
        if SettledUpTo(t, m0, es, from) {
          UpsertSettles(t, snap, m0[r]);
        } else {
          DrainFlushSettles(m, batch, snap, t, m0[r]);
        }
      }
    }
  }

  /** The entries first pending and the first n of the ring are settled. */
  ghost predicate SettledUpTo(t: Table, m0: Pend, es: seq<Entry>, n: nat)
    requires n <= |es|
  {
    (forall r :: r in m0 ==> Settled(t, m0[r])) && (forall i :: 0 <= i < n ==> Settled(t, es[i]))
  }

  lemma UpsertNone(t: Table, es: seq<Entry>)
    requires es == []
    ensures UpsertAll(t, RecordsOf(es)) == t
    ensures forall m :: DropAll(m, es) == m
  {
  }

  ghost predicate StoredIn(m: Pend, x: Entry) {
    x.RefOf() in m && m[x.RefOf()] == x
  }

  ghost predicate IsPartition(subset: seq<Entry>, m: Pend, dmap: string, id: nat, count: nat)
    requires count > 0
  {
    && DrawnFrom(subset, m)
    && (forall i :: 0 <= i < |subset| ==> InPartition(subset[i], dmap, id, count))
    && (forall r :: r in m && InPartition(m[r], dmap, id, count) ==> m[r] in subset)
  }

  lemma PartitionSettles(m0: Pend, es: seq<Entry>, subset: seq<Entry>, t: Table, dmap: string, id: nat, count: nat)
    requires count > 0 && Keyed(m0) && WellKeyed(t)
    requires IsPartition(subset, PutAll(m0, es), dmap, id, count)
    ensures Ordered(m0, es) ==>
              forall x :: InPartition(x, dmap, id, count) &&
                          (x in es || StoredIn(m0, x))
                          ==> Settled(UpsertAll(t, RecordsOf(subset)), x)
  {
    hide Newer, PutAll, UpsertAll, Settled;
    if Ordered(m0, es) {
      PutAllHolds(m0, es);
      PutAllFrom(m0, es);
      forall x | InPartition(x, dmap, id, count) && (x in es || StoredIn(m0, x))
        ensures Settled(UpsertAll(t, RecordsOf(subset)), x)
      {
        var m := PutAll(m0, es);
        assert Holds(m, x);
        assert m[x.RefOf()] in subset;
        UpsertSettles(t, subset, x);
      }
    }
  }

  lemma PartitionDropped(m: Pend, subset: seq<Entry>, dmap: string, id: nat, count: nat)
    requires count > 0 && Keyed(m) && IsPartition(subset, m, dmap, id, count)
    ensures forall k :: k in DropAll(m, subset) <==> k in m && !InPartition(m[k], dmap, id, count)
    ensures forall k :: k in DropAll(m, subset) ==> DropAll(m, subset)[k] == m[k]
  {
    hide DropAll, InPartition;
    DropAllDrawn(m, subset);
    forall k | k in m
      ensures InPartition(m[k], dmap, id, count) <==> exists i :: 0 <= i < |subset| && subset[i].RefOf() == k
    {
      if InPartition(m[k], dmap, id, count) {
        var i :| 0 <= i < |subset| && subset[i] == m[k];
      }
    }
  }

  lemma BatchOf(decode: Decoder, q: seq<Payload>, from: nat, n: nat)
    requires Decodable(decode, q) && from + n <= |q|
    ensures Decodable(decode, q[from..][..n])
    ensures DecodeAll(decode, q[from..][..n]) == DecodeAll(decode, q)[from..][..n]
  {
  }

  lemma PutAllNone(m: Pend)
    ensures PutAll(m, []) == m
  {
  }

  lemma OrderedNone(m: Pend, es: seq<Entry>)
    requires Ordered(m, es)
    ensures Ordered(map[], es)
  {
  }

  lemma DecodeNext(decode: Decoder, q: seq<Payload>, n: nat)
    requires n < |q| && Decodable(decode, q[..n]) && decode(q[n]).Some?
    ensures Decodable(decode, q[..n + 1])
    ensures DecodeAll(decode, q[..n + 1]) == DecodeAll(decode, q[..n]) + [decode(q[n]).value]
    ensures forall m :: PutAll(m, DecodeAll(decode, q[..n + 1]))
                     == PutAll(m, DecodeAll(decode, q[..n]))[decode(q[n]).value.RefOf() := decode(q[n]).value]
  {
    var a, b := DecodeAll(decode, q[..n]), decode(q[n]).value;
    assert DecodeAll(decode, q[..n + 1]) == a + [b];
    assert (a + [b])[..|a + [b]| - 1] == a;
  }
}
