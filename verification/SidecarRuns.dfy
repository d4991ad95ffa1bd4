// The sidecar's operations are runs of the write path: whatever a server that
// mirrors a world does, the world can do in steps.
module SidecarRuns {
  import opened Bytes
  import opened Records
  import opened Upsert
  import opened PendingSet
  import opened Sidecar
  import opened WritePath
  import opened Conservation
  import RingLayout
  import SharedRing

  /** A payload on the ring decodes to the acknowledged entry, unless that is one
      the sidecar does not accept. */
  ghost predicate Wire(decode: Decoder, p: Payload, e: Entry) {
    decode(p) == if Accepted(e) then Some(e) else None
  }

  ghost predicate WireAll(decode: Decoder, ps: seq<Payload>, es: seq<Entry>) {
    |ps| == |es| && forall i :: 0 <= i < |ps| ==> Wire(decode, ps[i], es[i])
  }

  /** The server between operations: no hand holds anything. */
  ghost predicate Mirrors(s: Server, w: World)
    reads s, s.ring, s.pending, s.backend
  {
    && s.pending.entries == w.pend && s.backend.table == w.table && w.hands == map[]
    && w.drained <= |w.acked| && WireAll(s.decode, s.ring.Contents(), w.acked[w.drained..])
  }

  // ---- runs on values ------------------------------------------------------

  lemma {:induction false} RunSplit(w: World, a: seq<Step>, b: seq<Step>)
    ensures Run(w, a + b) == Run(Run(w, a), b)
  {
    if b == [] {
      assert a + b == a;
    } else {
      RunSplit(w, a, b[..|b| - 1]);
      assert (a + b)[..|a + b| - 1] == a + b[..|b| - 1];
    }
  }

  lemma RunOne(w: World, step: Step)
    ensures Run(w, [step]) == Next(w, step)
  {
    assert [step][..0] == [];
  }

  function DrainSteps(n: nat, d: nat): seq<Step> {
    if n == 0 then [] else DrainSteps(n - 1, d) + ([PopNext(d)] + [PutHand(d)])
  }

  lemma {:induction false} DrainStepsAre(n: nat, d: nat)
    ensures OneDrainer(DrainSteps(n, d), d)
  {
    if n > 0 {
      DrainStepsAre(n - 1, d);
    }
  }

  function AfterDrain(w: World, n: nat): World
    requires w.drained + n <= |w.acked|
  {
    w.(drained := w.drained + n, pend := PutAll(w.pend, w.acked[w.drained..w.drained + n]))
  }

  lemma {:induction false} DrainIsRun(w: World, n: nat, d: nat)
    requires w.hands == map[] && w.drained + n <= |w.acked|
    requires forall i :: w.drained <= i < w.drained + n ==> Accepted(w.acked[i])
    ensures Run(w, DrainSteps(n, d)) == AfterDrain(w, n)
  {
    hide Next, Run, Accepted;
    if n == 0 {
      NoSteps(w);
      assert w.acked[w.drained..w.drained] == [];
    } else {
      DrainIsRun(w, n - 1, d);
      var w1 := AfterDrain(w, n - 1);
      OnePut(w1, d);
      RunSplit(w, DrainSteps(n - 1, d), [PopNext(d)] + [PutHand(d)]);
      var es := w.acked[w.drained..w.drained + n];
      assert es[..n - 1] == w.acked[w.drained..w.drained + n - 1];
    }
  }

  lemma OnePut(w: World, d: nat)
    requires w.hands == map[] && w.drained < |w.acked| && Accepted(w.acked[w.drained])
    ensures
      var e := w.acked[w.drained];
      Run(w, [PopNext(d)] + [PutHand(d)]) == w.(drained := w.drained + 1, pend := w.pend[e.RefOf() := e])
  {
    RunSplit(w, [PopNext(d)], [PutHand(d)]);
    RunOne(w, PopNext(d));
    RunOne(Next(w, PopNext(d)), PutHand(d));
  }

  /** What was decoded is what was acknowledged. */
  lemma DecodedIsAcked(decode: Decoder, q: seq<Payload>, w: World, n: nat)
    requires w.drained <= |w.acked| && WireAll(decode, q, w.acked[w.drained..])
    requires n <= |q| && Decodable(decode, q[..n])
    ensures w.drained + n <= |w.acked|
    ensures forall i :: w.drained <= i < w.drained + n ==> Accepted(w.acked[i])
    ensures DecodeAll(decode, q[..n]) == w.acked[w.drained..w.drained + n]
    ensures n < |q| && decode(q[n]).None? ==> w.drained + n < |w.acked| && !Accepted(w.acked[w.drained + n])
    ensures WireAll(decode, q[n..], w.acked[w.drained + n..])
  {
    var es := w.acked[w.drained..];
    forall i | 0 <= i < n
      ensures Accepted(es[i]) && decode(q[i]) == Some(es[i])
    {
      assert q[..n][i] == q[i] && Wire(decode, q[i], es[i]);
    }
    forall i | w.drained <= i < w.drained + n
      ensures Accepted(w.acked[i])
    {
      assert es[i - w.drained] == w.acked[i];
    }
    if n < |q| {
      assert Wire(decode, q[n], es[n]);
    }
    assert w.acked[w.drained + n..] == es[n..];
  }

  lemma RejectIsRun(w: World, d: nat)
    requires w.hands == map[] && w.drained < |w.acked| && !Accepted(w.acked[w.drained])
    ensures Run(w, [PopNext(d)]) == w.(drained := w.drained + 1)
  {
    RunOne(w, PopNext(d));
  }

  function DropSteps(n: nat, id: nat): seq<Step> {
    if n == 0 then [] else DropSteps(n - 1, id) + [DropNext(id)]
  }

  lemma {:induction false} DropsAreRun(w: World, id: nat, n: nat)
    requires id in w.flights && w.flights[id].written && w.flights[id].dropped == 0 && n <= |w.flights[id].snap|
    ensures Run(w, DropSteps(n, id)) == w.(pend := DropAll(w.pend, w.flights[id].snap[..n]),
                                           flights := w.flights[id := w.flights[id].(dropped := n)])
    ensures OneDrainer(DropSteps(n, id), 0)
  {
    hide Next, Run;
    var snap := w.flights[id].snap;
    if n == 0 {
      NoSteps(w);
      assert w.flights[id := w.flights[id].(dropped := 0)] == w.flights;
    } else {
      DropsAreRun(w, id, n - 1);
      RunSplit(w, DropSteps(n - 1, id), [DropNext(id)]);
      OneDrop(Run(w, DropSteps(n - 1, id)), id);
      assert snap[..n][..n - 1] == snap[..n - 1];
    }
  }

  lemma OneDrop(w: World, id: nat)
    requires Dropping(w, id)
    ensures
      var e := Dropped(w, id);
      Run(w, [DropNext(id)]) == w.(pend := Drop(w.pend, e.RefOf(), e.fence.ownerSeq),
                                   flights := w.flights[id := w.flights[id].(dropped := w.flights[id].dropped + 1)])
  {
    RunOne(w, DropNext(id));
  }

  /** A partition flush: begin, write, and drop every entry read. */
  function PartitionSteps(id: nat, es: seq<Entry>): seq<Step> {
    [Begin(id, es)] + [Write(id)] + DropSteps(|es|, id)
  }

  lemma PartitionIsRun(w: World, id: nat, es: seq<Entry>)
    requires id !in w.flights && DrawnFrom(es, w.pend)
    ensures
      var w' := Run(w, PartitionSteps(id, es));
      w' == w.(table := UpsertAll(w.table, RecordsOf(es)), pend := DropAll(w.pend, es), flights := w'.flights)
    ensures OneDrainer(PartitionSteps(id, es), 0)
  {
    hide UpsertAll, DropAll;
    var w1 := w.(flights := w.flights[id := Flight(es, false, 0)]);
    RunOne(w, Begin(id, es));
    RunOne(w1, Write(id));
    RunSplit(w, [Begin(id, es)], [Write(id)]);
    var w2 := Next(w1, Write(id));
    DropsAreRun(w2, id, |es|);
    assert es[..|es|] == es;
    RunSplit(w, [Begin(id, es)] + [Write(id)], DropSteps(|es|, id));
  }

  lemma FailedPartitionIsRun(w: World, id: nat, es: seq<Entry>, k: nat)
    requires id !in w.flights && DrawnFrom(es, w.pend) && k <= |es|
    ensures
      var w' := Run(w, [Begin(id, es)] + [WriteFails(id, k)]);
      w' == w.(table := UpsertAll(w.table, RecordsOf(es)[..k]), flights := w'.flights)
  {
    hide UpsertAll;
    var w1 := w.(flights := w.flights[id := Flight(es, false, 0)]);
    RunOne(w, Begin(id, es));
    RunOne(w1, WriteFails(id, k));
    RunSplit(w, [Begin(id, es)], [WriteFails(id, k)]);
    assert RecordsOf(es[..k]) == RecordsOf(es)[..k];
  }

  lemma {:induction false} DrainIsSequential(n: nat, d: nat)
    ensures Sequential(DrainSteps(n, d))
    ensures forall k :: 0 <= k < |DrainSteps(n, d)| ==> !DrainSteps(n, d)[k].FlushFails?
  {
    if n > 0 {
      DrainIsSequential(n - 1, d);
    }
  }

  // ---- the server ----------------------------------------------------------

  /** The world after a drain of n entries, and of one it rejects unless ok. */
  function AfterDrainRing(w: World, n: nat, ok: bool): World
    requires w.drained + n <= |w.acked|
  {
    if ok then AfterDrain(w, n) else AfterDrain(w, n).(drained := w.drained + n + 1)
  }

  function DrainRingSteps(n: nat, ok: bool): seq<Step> {
    if ok then DrainSteps(n, 0) else DrainSteps(n, 0) + [PopNext(0)]
  }

  /** A drain is a run of pops and puts of accepted entries by one drainer, and of one
      rejecting pop exactly if it ends in an error. */
  method DrainRun(s: Server, ghost w: World) returns (drained: nat, ok: bool)
    requires s.Valid() && Mirrors(s, w)
    modifies s.ring`head, s.ring`taken, s.pending
    ensures s.Valid() && w.drained + drained <= |w.acked|
    ensures Run(w, DrainRingSteps(drained, ok)) == AfterDrainRing(w, drained, ok)
    ensures Mirrors(s, AfterDrainRing(w, drained, ok))
    ensures forall i :: w.drained <= i < w.drained + drained ==> Accepted(w.acked[i])
    ensures !ok ==> EndsInRejection(w, DrainRingSteps(drained, ok))
    ensures !ok ==> w.drained + drained < |w.acked| && !Accepted(w.acked[w.drained + drained])
    ensures ok ==> drained == s.batchSize || s.Full(s.pending.entries) || s.ring.Contents() == []
    ensures ok && !s.Full(old(s.pending.entries)) && old(s.ring.Contents()) != [] ==> drained > 0
    ensures ok ==> drained <= |old(s.ring.Contents())| && s.ring.Contents() == old(s.ring.Contents())[drained..]
  {
    hide WireAll, PutAll, Run, RingLayout.RingInv, TotalBytes, Keyed, WellKeyed, Accepted, Next, OneDrainer, Decodable,
      SharedRing.Ring.Contents, Server.Full;
    ghost var q := s.ring.Contents();
    drained, ok := s.DrainRing();
    DecodedIsAcked(s.decode, q, w, drained);
    DrainIsRun(w, drained, 0);
    if !ok {
      RejectedDrainIsRun(s.decode, q, w, drained);
    }
  }

  /** A drain of n entries that then pops one it rejects. */
  lemma RejectedDrainIsRun(decode: Decoder, q: seq<Payload>, w: World, n: nat)
    requires w.hands == map[] && w.drained <= |w.acked| && WireAll(decode, q, w.acked[w.drained..])
    requires n < |q| && Decodable(decode, q[..n]) && decode(q[n]).None?
    ensures w.drained + n < |w.acked|
    ensures Run(w, DrainSteps(n, 0) + [PopNext(0)]) == AfterDrain(w, n).(drained := w.drained + n + 1)
    ensures WireAll(decode, q[n + 1..], w.acked[w.drained + n + 1..])
    ensures OneDrainer(DrainSteps(n, 0) + [PopNext(0)], 0)
    ensures EndsInRejection(w, DrainSteps(n, 0) + [PopNext(0)])
  {
    hide WireAll, PutAll, Run, Accepted, Next, Decodable;
    DecodedIsAcked(decode, q, w, n);
    DrainIsRun(w, n, 0);
    DrainStepsAre(n, 0);
    WireTail(decode, q[n..], w.acked[w.drained + n..]);
    assert q[n..][1..] == q[n + 1..];
    assert w.acked[w.drained + n..][1..] == w.acked[w.drained + n + 1..];
    RejectIsRun(AfterDrain(w, n), 0);
    RunSplit(w, DrainSteps(n, 0), [PopNext(0)]);
    var all := DrainSteps(n, 0) + [PopNext(0)];
    assert all[..|all| - 1] == DrainSteps(n, 0);
  }

  lemma WireTail(decode: Decoder, ps: seq<Payload>, es: seq<Entry>)
    requires WireAll(decode, ps, es) && ps != []
    ensures WireAll(decode, ps[1..], es[1..])
  {
  }

  /** A flush is one flush step of everything pending, or one failing flush step. */
  method FlushRun(s: Server, fails: Option<nat>, ghost w: World)
    returns (ok: bool, ghost order: seq<Entry>, ghost n: nat)
    requires s.Valid() && Mirrors(s, w)
    modifies s.pending, s.backend
    ensures s.Valid() && Enumerates(order, w.pend) && n <= |order|
    ensures ok ==> Mirrors(s, Run(w, [Flush(order)])) && s.pending.entries == map[]
    ensures !ok ==> Mirrors(s, Run(w, [FlushFails(order, n)]))
  {
    hide WireAll, DropAll, UpsertAll, RingLayout.RingInv, TotalBytes, WellKeyed, Next, Run;
    ghost var t := s.backend.table;
    assert Keyed(w.pend);
    n := 0;
    ok, order := s.FlushOnce(fails);
    if ok {
      FlushIsRun(w, order);
    } else {
      n :| 0 <= n <= |order| && s.backend.table == UpsertAll(t, RecordsOf(order)[..n]);
      FailedFlushIsRun(w, order, n);
    }
  }

  lemma EndsByFlush(w: World, order: seq<Entry>, n: nat)
    requires Enumerates(order, w.pend) && n <= |order|
    ensures EndsInFailedFlush(w, [FlushFails(order, n)], order, n)
  {
    assert [FlushFails(order, n)][..0] == [];
  }

  lemma FlushIsRun(w: World, snap: seq<Entry>)
    requires Keyed(w.pend) && Enumerates(snap, w.pend)
    ensures Run(w, [Flush(snap)]) == w.(table := UpsertAll(w.table, RecordsOf(snap)), pend := map[])
  {
    DropAllEmpties(w.pend, snap);
    RunOne(w, Flush(snap));
  }

  lemma FailedFlushIsRun(w: World, snap: seq<Entry>, n: nat)
    requires Enumerates(snap, w.pend) && n <= |snap|
    ensures Run(w, [FlushFails(snap, n)]) == w.(table := UpsertAll(w.table, RecordsOf(snap)[..n]))
  {
    assert RecordsOf(snap[..n]) == RecordsOf(snap)[..n];
    RunOne(w, FlushFails(snap, n));
  }

  lemma PurgeIsRun(w: World, g: int)
    requires g > 0
    ensures Run(w, [PurgePending(g)]) == w.(pend := EntriesSince(w.pend, g), purged := Max(w.purged, g))
    ensures Run(w, [PurgePending(g)] + [PurgeTable(g)]) ==
            w.(pend := EntriesSince(w.pend, g), table := RowsSince(w.table, g), purged := Max(w.purged, g))
  {
    hide Run, EntriesSince, RowsSince;
    var w1 := w.(pend := EntriesSince(w.pend, g), purged := Max(w.purged, g));
    RunOne(w, PurgePending(g));
    RunOne(w1, PurgeTable(g));
    RunSplit(w, [PurgePending(g)], [PurgeTable(g)]);
  }

  function PurgeSteps(generation: int, ok: bool): seq<Step> {
    if generation <= 0 then []
    else if ok then [PurgePending(generation)] + [PurgeTable(generation)]
    else [PurgePending(generation)]
  }

  /** A purge is a purge of the pending set and then, unless it fails, of the table;
      below 1 it is no step at all. */
  method PurgeRun(s: Server, minGeneration: int, fails: bool, ghost w: World) returns (ok: bool)
    requires s.Valid() && Mirrors(s, w)
    modifies s.pending, s.backend
    ensures s.Valid() && Mirrors(s, Run(w, PurgeSteps(minGeneration, ok)))
    ensures ok <==> minGeneration <= 0 || !fails
  {
    hide WireAll, RingLayout.RingInv, TotalBytes, Keyed, WellKeyed, Next, Run;
    var purged;
    purged, ok := s.PurgeBelowGeneration(minGeneration, fails);
    if minGeneration <= 0 {
      NoSteps(w);
    } else {
      PurgeIsRun(w, minGeneration);
    }
  }

  /** The steps of a partition drain, by its outcome: n entries drained, then the
      partition es flushed as flight, of which k records took effect if it failed. */
  function OutcomeSteps(r: DrainResult, n: nat, flight: nat, es: seq<Entry>, k: nat): seq<Step> {
    match r
    case BadPartition => []
    case DrainError => DrainRingSteps(n, false)
    case FlushError => DrainSteps(n, 0) + ([Begin(flight, es)] + [WriteFails(flight, k)])
    case Drained => DrainSteps(n, 0) + PartitionSteps(flight, es)
  }

  /** A partition drain is a drain and then a flush of the partition under a number
      no other flush uses. */
  method PartitionRun(s: Server, dmap: string, id: nat, count: nat, fails: Option<nat>,
                      ghost w: World, ghost flight: nat)
    returns (r: DrainResult, ghost n: nat, ghost es: seq<Entry>, ghost k: nat)
    requires s.Valid() && Mirrors(s, w) && flight !in w.flights
    modifies s.ring`head, s.ring`taken, s.pending, s.backend
    ensures s.Valid() && Mirrors(s, Run(w, OutcomeSteps(r, n, flight, es, k)))
    ensures OneDrainer(OutcomeSteps(r, n, flight, es, k), 0)
    ensures r.BadPartition? <==> count == 0 || id >= count
    ensures r.DrainError? ==> EndsInRejection(w, DrainRingSteps(n, false))
    ensures r.FlushError? ==> k <= |es|
    ensures r.Drained? || r.FlushError? ==>
              w.drained + n <= |w.acked| && IsPartition(es, AfterDrain(w, n).pend, dmap, id, count)
  {
    hide WireAll, PutAll, Run, DropAll, UpsertAll, Settled, Ordered, RingLayout.RingInv, TotalBytes, Keyed, WellKeyed,
      Accepted, Next, InPartition, OneDrainer, Decodable, SharedRing.Ring.Contents, Server.Full, IsPartition;
    ghost var q, t := s.ring.Contents(), s.backend.table;
    k := 0;
    r, n, es := s.DrainPartition(dmap, id, count, fails);
    if r.BadPartition? {
      NoSteps(w);
      return;
    }
    DecodedIsAcked(s.decode, q, w, n);
    match r
    case DrainError =>
      RejectedDrainIsRun(s.decode, q, w, n);
    case FlushError =>
      k :| 0 <= k <= |es| && s.backend.table == UpsertAll(t, RecordsOf(es)[..k]);
      PartitionIsDrawn(es, AfterDrain(w, n).pend, dmap, id, count);
      DrainThenFail(w, n, flight, es, k);
    case Drained =>
      PartitionIsDrawn(es, AfterDrain(w, n).pend, dmap, id, count);
      DrainThenPartition(w, n, flight, es);
  }

  lemma PartitionIsDrawn(es: seq<Entry>, m: Pend, dmap: string, id: nat, count: nat)
    requires count > 0 && IsPartition(es, m, dmap, id, count)
    ensures DrawnFrom(es, m)
  {
  }

  /** Fields a server mirrors. */
  ghost predicate Shows(w: World, acked: seq<Entry>, drained: nat, pend: Pend, table: Table) {
    w.acked == acked && w.drained == drained && w.hands == map[] && w.pend == pend && w.table == table
  }

  lemma DrainThenFail(w: World, n: nat, flight: nat, es: seq<Entry>, k: nat)
    requires w.hands == map[] && w.drained + n <= |w.acked| && flight !in w.flights && k <= |es|
    requires forall i :: w.drained <= i < w.drained + n ==> Accepted(w.acked[i])
    requires DrawnFrom(es, AfterDrain(w, n).pend)
    ensures
      var steps := DrainSteps(n, 0) + ([Begin(flight, es)] + [WriteFails(flight, k)]);
      && OneDrainer(steps, 0)
      && Shows(Run(w, steps), w.acked, w.drained + n, AfterDrain(w, n).pend, UpsertAll(w.table, RecordsOf(es)[..k]))
  {
    hide PutAll, Run, Accepted, Next, UpsertAll, DrawnFrom;
    DrainIsRun(w, n, 0);
    DrainStepsAre(n, 0);
    FailedPartitionIsRun(AfterDrain(w, n), flight, es, k);
    RunSplit(w, DrainSteps(n, 0), [Begin(flight, es)] + [WriteFails(flight, k)]);
  }

  lemma DrainThenPartition(w: World, n: nat, flight: nat, es: seq<Entry>)
    requires w.hands == map[] && w.drained + n <= |w.acked| && flight !in w.flights
    requires forall i :: w.drained <= i < w.drained + n ==> Accepted(w.acked[i])
    requires DrawnFrom(es, AfterDrain(w, n).pend)
    ensures
      var steps := DrainSteps(n, 0) + PartitionSteps(flight, es);
      && OneDrainer(steps, 0)
      && Shows(Run(w, steps), w.acked, w.drained + n, DropAll(AfterDrain(w, n).pend, es),
               UpsertAll(w.table, RecordsOf(es)))
  {
    hide PutAll, Run, Accepted, Next, UpsertAll, DropAll, DrawnFrom, PartitionSteps;
    DrainIsRun(w, n, 0);
    DrainStepsAre(n, 0);
    PartitionIsRun(AfterDrain(w, n), flight, es);
    RunSplit(w, DrainSteps(n, 0), PartitionSteps(flight, es));
  }

  lemma NoSteps(w: World)
    ensures Run(w, []) == w && OneDrainer([], 0)
  {
  }

  // ---- the loop ------------------------------------------------------------

  datatype Exit = Continues | Rejected | FlushFailed

  /** Entries already acknowledged, or among those offered so far. */
  ghost predicate AckedFrom(acked: seq<Entry>, base: seq<Entry>, offered: seq<Entry>) {
    forall x :: x in acked ==> x in base || x in offered
  }

  /** If the whole offer is in stamp order, so is the next entry of it after whatever
      was acknowledged of the ones before. */
  lemma NextInOrder(acked: seq<Entry>, base: seq<Entry>, es: seq<Entry>, j: nat)
    requires j < |es| && AckOrdered(base + es) && AckedFrom(acked, base, es[..j])
    ensures InStampOrder(acked, es[j])
  {
    hide Newer;
    var all, n := base + es, |base| + j;
    assert all[n] == es[j];
    forall i | 0 <= i < |acked|
      ensures acked[i].fence != es[j].fence
      ensures acked[i].RefOf() == es[j].RefOf() ==> Newer(es[j].fence, acked[i].fence)
    {
      var x := acked[i];
      if x in base {
        var m :| 0 <= m < |base| && base[m] == x;
        assert all[m] == x;
      } else {
        var m :| 0 <= m < j && es[..j][m] == x;
        assert all[|base| + m] == x;
      }
    }
  }

  /** The node offers a payload: it is acknowledged exactly if the ring takes it. */
  method OfferRun(s: Server, p: Payload, ghost e: Entry, ghost w: World) returns (acked: bool)
    requires s.Valid() && Mirrors(s, w) && Wire(s.decode, p, e) && InStampOrder(w.acked, e) && |p| < TWO_32
    modifies s.ring, s.ring.data
    ensures s.Valid() && Mirrors(s, if acked then w.(acked := w.acked + [e]) else w)
    ensures acked ==> Run(w, [Ack(e)]) == w.(acked := w.acked + [e])
  {
    hide RingLayout.RingInv, TotalBytes, Keyed, WellKeyed, SharedRing.Ring.Contents, SharedRing.Ring.Poisoned,
      InStampOrder, Run, Wire;
    var r := s.ring.Append(p);
    acked := r.Appended?;
    if acked {
      AckIsRun(w, e);
      assert (w.acked + [e])[w.drained..] == w.acked[w.drained..] + [e];
    }
  }

  lemma AckIsRun(w: World, e: Entry)
    requires InStampOrder(w.acked, e)
    ensures Run(w, [Ack(e)]) == w.(acked := w.acked + [e])
  {
    RunOne(w, Ack(e));
  }

  /** What the loop has done: only its own kinds of steps, every popped entry accepted,
      every flush a success, and acknowledged what was offered. */
  ghost predicate LoopSoFar(w: World, steps: seq<Step>, offered: seq<Entry>) {
    && Sequential(steps) && OneDrainer(steps, 0) && (forall k :: 0 <= k < |steps| ==> !steps[k].FlushFails?)
    && var w' := Run(w, steps);
       w.acked <= w'.acked && PoppedAccepted(w, w') && AckedFrom(w'.acked, w.acked, offered)
  }

  ghost predicate PoppedAccepted(w: World, w': World) {
    w.drained <= w'.drained <= |w'.acked| && forall i :: w.drained <= i < w'.drained ==> Accepted(w'.acked[i])
  }

  lemma SoFarStarts(w: World)
    requires w.drained <= |w.acked|
    ensures LoopSoFar(w, [], [])
  {
  }

  lemma SoFarOffers(w: World, steps: seq<Step>, es: seq<Entry>, j: nat, acked: bool)
    requires j < |es| && LoopSoFar(w, steps, es[..j])
    requires acked ==> Run(Run(w, steps), [Ack(es[j])]) == Run(w, steps).(acked := Run(w, steps).acked + [es[j]])
    ensures LoopSoFar(w, steps + (if acked then [Ack(es[j])] else []), es[..j + 1])
  {
    hide Run, Accepted;
    RunSplit(w, steps, [Ack(es[j])]);
    assert es[..j + 1] == es[..j] + [es[j]];
    assert steps + [] == steps;
  }

  lemma SoFarDrains(w: World, steps: seq<Step>, offered: seq<Entry>, n: nat)
    requires LoopSoFar(w, steps, offered)
    requires var w1 := Run(w, steps);
             && w1.drained + n <= |w1.acked| && Run(w1, DrainSteps(n, 0)) == AfterDrain(w1, n)
             && forall i :: w1.drained <= i < w1.drained + n ==> Accepted(w1.acked[i])
    ensures LoopSoFar(w, steps + DrainSteps(n, 0), offered)
  {
    hide Run, Accepted, PutAll;
    RunSplit(w, steps, DrainSteps(n, 0));
    DrainStepsAre(n, 0);
    DrainIsSequential(n, 0);
  }

  lemma SoFarFlushes(w: World, steps: seq<Step>, offered: seq<Entry>, order: seq<Entry>)
    requires LoopSoFar(w, steps, offered)
    ensures LoopSoFar(w, steps + [Flush(order)], offered)
  {
    hide Run, Accepted;
    RunSplit(w, steps, [Flush(order)]);
    FlushFrame(Run(w, steps), Flush(order));
  }

  lemma FlushFrame(w: World, step: Step)
    requires step.Flush? || step.FlushFails?
    ensures var w' := Run(w, [step]); w'.acked == w.acked && w'.drained == w.drained && w'.hands == w.hands
  {
    RunOne(w, step);
  }

  /** The node offers count payloads, or as many as are left. */
  method OffersRun(s: Server, offers: seq<Payload>, from: nat, count: nat,
                   ghost entries: seq<Entry>, ghost w: World, ghost before: seq<Step>)
    returns (at: nat, ghost steps: seq<Step>)
    requires s.Valid() && Mirrors(s, Run(w, before)) && from <= |offers|
    requires WireAll(s.decode, offers, entries) && AckOrdered(w.acked + entries)
    requires forall j :: 0 <= j < |offers| ==> |offers[j]| < TWO_32
    requires LoopSoFar(w, before, entries[..from])
    modifies s.ring, s.ring.data
    ensures s.Valid() && Mirrors(s, Run(w, steps)) && from <= at <= |offers|
    ensures at == if from + count <= |offers| then from + count else |offers|
    ensures LoopSoFar(w, steps, entries[..at])
  {
    hide LoopSoFar, Mirrors, Server.Valid, Wire, Run, AckOrdered, InStampOrder;
    at, steps := from, before;
    while at < |offers| && at < from + count
      invariant from <= at <= |offers| && at <= from + count && s.Valid() && Mirrors(s, Run(w, steps))
      invariant LoopSoFar(w, steps, entries[..at])
    {
      SoFarInOrder(w, steps, entries, at);
      var acked := OfferRun(s, offers[at], entries[at], Run(w, steps));
      SoFarOffers(w, steps, entries, at, acked);
      RunSplit(w, steps, if acked then [Ack(entries[at])] else []);
      NoSteps(Run(w, steps));
      steps := steps + (if acked then [Ack(entries[at])] else []);
      at := at + 1;
    }
  }

  lemma SoFarInOrder(w: World, steps: seq<Step>, es: seq<Entry>, j: nat)
    requires j < |es| && AckOrdered(w.acked + es) && LoopSoFar(w, steps, es[..j])
    ensures InStampOrder(Run(w, steps).acked, es[j])
  {
    hide Run, AckOrdered, InStampOrder;
    NextInOrder(Run(w, steps).acked, w.acked, es, j);
  }

  /** The loop ends at a pop of an entry it rejects. */
  lemma RejectsNow(w: World, steps: seq<Step>, es: seq<Entry>, j: nat, n: nat)
    requires j <= |es| && LoopSoFar(w, steps, es[..j])
    requires var w1 := Run(w, steps);
             && w1.drained + n < |w1.acked| && !Accepted(w1.acked[w1.drained + n])
             && Run(w1, DrainRingSteps(n, false)) == AfterDrainRing(w1, n, false)
             && EndsInRejection(w1, DrainRingSteps(n, false))
    ensures var all := steps + DrainRingSteps(n, false);
            && Sequential(all) && OneDrainer(all, 0) && EndsInRejection(w, all)
            && (forall k :: 0 <= k < |all| ==> !all[k].FlushFails?)
            && Run(w, all) == AfterDrainRing(Run(w, steps), n, false)
            && AckedFrom(Run(w, all).acked, w.acked, es) && !PoppedAccepted(w, Run(w, all))
  {
    hide Run, Accepted, PutAll, EndsInRejection;
    RunSplit(w, steps, DrainRingSteps(n, false));
    DrainStepsAre(n, 0);
    DrainIsSequential(n, 0);
    RejectionExtends(w, steps, DrainRingSteps(n, false));
  }

  /** The loop ends at a flush that fails. */
  lemma FailsNow(w: World, steps: seq<Step>, es: seq<Entry>, j: nat, order: seq<Entry>, n: nat)
    requires j <= |es| && LoopSoFar(w, steps, es[..j])
    requires Enumerates(order, Run(w, steps).pend) && n <= |order|
    ensures var all := steps + [FlushFails(order, n)];
            && Sequential(all) && OneDrainer(all, 0) && EndsInFailedFlush(w, all, order, n)
            && all[|all| - 1].FlushFails?
            && AckedFrom(Run(w, all).acked, w.acked, es) && PoppedAccepted(w, Run(w, all))
  {
    hide Run, Accepted, EndsInFailedFlush, Enumerates;
    var last := FlushFails(order, n);
    RunSplit(w, steps, [last]);
    FlushFrame(Run(w, steps), last);
    EndsByFlush(Run(w, steps), order, n);
    FlushExtends(w, steps, [last], order, n);
  }

  lemma LoopGoesOn(w: World, steps: seq<Step>, es: seq<Entry>, j: nat)
    requires j <= |es| && LoopSoFar(w, steps, es[..j])
    ensures Sequential(steps) && OneDrainer(steps, 0) && (forall k :: 0 <= k < |steps| ==> !steps[k].FlushFails?)
    ensures AckedFrom(Run(w, steps).acked, w.acked, es) && PoppedAccepted(w, Run(w, steps))
    ensures w.drained <= Run(w, steps).drained
  {
    hide Run, Accepted;
  }

  /** The consumer loop, for as many rounds as it is given: a sequential run of one
      drainer, interleaved with appends. Before round k the node offers batch(k)
      more payloads. It returns early exactly when it popped an entry it rejects, at
      that pop and before any flush, or when a flush failed, at that flush; and it
      purges nothing. */
  method LoopRun(s: Server, rounds: nat, offers: seq<Payload>, batch: nat -> nat, fails: nat -> Option<nat>,
                 ghost entries: seq<Entry>, ghost w: World)
    returns (exit: Exit, ghost steps: seq<Step>)
    requires s.Valid() && Mirrors(s, w) && WireAll(s.decode, offers, entries) && AckOrdered(w.acked + entries)
    requires |offers| == |entries| && forall j :: 0 <= j < |offers| ==> |offers[j]| < TWO_32
    modifies s.ring, s.ring.data, s.pending, s.backend
    ensures s.Valid() && Mirrors(s, Run(w, steps)) && OneDrainer(steps, 0) && Sequential(steps)
    ensures Run(w, steps).purged == w.purged
    ensures AckedFrom(Run(w, steps).acked, w.acked, entries)
    ensures exit.Rejected? <==> !PoppedAccepted(w, Run(w, steps))
    ensures exit.Rejected? ==> EndsInRejection(w, steps)
    ensures exit.FlushFailed? <==> exists k :: 0 <= k < |steps| && steps[k].FlushFails?
    ensures exit.FlushFailed? ==> exists order, n :: EndsInFailedFlush(w, steps, order, n)
    ensures exit.Continues? ==> rounds == 0 || s.pending.entries == map[]
    ensures exit.Continues? && rounds > 1 ==> s.ring.Contents() == [] || Run(w, steps).drained > w.drained
  {
    hide LoopSoFar, Run, EndsInRejection, EndsInFailedFlush, RingLayout.RingInv, TotalBytes, Keyed, WellKeyed, WireAll,
      AckOrdered, AckedFrom, PoppedAccepted, OneDrainer, Sequential, PutAll, Enumerates, SharedRing.Ring.Contents,
      DrainSteps;
    steps := [];
    NoSteps(w);
    SoFarStarts(w);
    var k, at := 0, 0;
    assert entries[..0] == [];
    while k < rounds
      invariant 0 <= k <= rounds && at <= |offers| && s.Valid() && Mirrors(s, Run(w, steps))
      invariant LoopSoFar(w, steps, entries[..at])
      invariant k > 0 ==> s.pending.entries == map[]
      invariant k > 1 ==> s.ring.Contents() == [] || Run(w, steps).drained > w.drained
    {
      at, steps := OffersRun(s, offers, at, batch(k), entries, w, steps);
      ghost var w1 := Run(w, steps);
      LoopGoesOn(w, steps, entries, at);
      s.EmptyNotFull();
      var drained, ok := DrainRun(s, w1);
      if !ok {
        RejectsNow(w, steps, entries, at, drained);
        SequentialFrame(w, steps + DrainRingSteps(drained, false));
        return Rejected, steps + DrainRingSteps(drained, false);
      }
      SoFarDrains(w, steps, entries[..at], drained);
      RunSplit(w, steps, DrainSteps(drained, 0));
      steps := steps + DrainSteps(drained, 0);
      if drained > 0 || |s.pending.entries| > 0 {
        var flushed, order, n := FlushRun(s, fails(k), Run(w, steps));
        if !flushed {
          RunSplit(w, steps, [FlushFails(order, n)]);
          FailsNow(w, steps, entries, at, order, n);
          SequentialFrame(w, steps + [FlushFails(order, n)]);
          return FlushFailed, steps + [FlushFails(order, n)];
        }
        RunSplit(w, steps, [Flush(order)]);
        FlushFrame(Run(w, steps), Flush(order));
        SoFarFlushes(w, steps, entries[..at], order);
        steps := steps + [Flush(order)];
      } else {
        assert s.pending.entries == map[];
      }
      k := k + 1;
    }
    LoopGoesOn(w, steps, entries, at);
    SequentialFrame(w, steps);
    exit := Continues;
  }

  lemma RejectionExtends(w: World, a: seq<Step>, b: seq<Step>)
    requires EndsInRejection(Run(w, a), b)
    ensures EndsInRejection(w, a + b)
  {
    hide Run;
    assert (a + b)[..|a + b| - 1] == a + b[..|b| - 1];
    RunSplit(w, a, b[..|b| - 1]);
  }

  lemma FlushExtends(w: World, a: seq<Step>, b: seq<Step>, order: seq<Entry>, n: nat)
    requires EndsInFailedFlush(Run(w, a), b, order, n)
    ensures EndsInFailedFlush(w, a + b, order, n)
  {
    hide Run;
    assert (a + b)[..|a + b| - 1] == a + b[..|b| - 1];
    RunSplit(w, a, b[..|b| - 1]);
  }

  /** How the final drain comes to start with the pending set full and the ring not
      empty: a partition drain between the loop's last flush and its end fills the
      set with entries of other partitions. The final drain then leaves the ring as
      it is, although it reports no error. */
  method PartitionDrainStrands(s: Server, dmap: string, id: nat, count: nat, fails: nat -> Option<nat>)
    returns (ok: bool)
    requires s.Valid() && s.pending.entries == map[] && s.maxRecords == 1 && s.maxBytes == 0
    requires id < count && |s.ring.Contents()| >= 2 && Decodable(s.decode, s.ring.Contents())
    requires !InPartition(s.decode(s.ring.Contents()[0]).value, dmap, id, count)
    modifies s.ring`head, s.ring`taken, s.pending, s.backend
    ensures s.Valid() && (ok ==> s.ring.Contents() == old(s.ring.Contents())[1..] && s.pending.entries == map[])
  {
    hide UpsertAll, Settled, Ordered, RingLayout.RingInv, TotalBytes, Keyed, WellKeyed, SharedRing.Ring.Contents,
      SharedRing.Ring.Poisoned, IsPartition, PutFirst;
    ghost var q := s.ring.Contents();
    assert Decodable(s.decode, q[..1]);
    PutFirstIs(s.decode, map[], q, 1);
    OneEntry(s.decode, q);
    NotFullEmpty(s);
    var r, n, subset := s.DrainPartition(dmap, id, count, None);
    assert r.Drained?;
    assert n == 1;
    ghost var drained;
    ok, drained := s.FinalDrain(fails);
    assert q[1..][0..] == q[1..];
  }

  lemma OneEntry(decode: Decoder, q: seq<Payload>)
    requires q != [] && Decodable(decode, q[..1])
    ensures
      var e := decode(q[0]).value;
      PutAll(map[], DecodeAll(decode, q[..1])) == map[e.RefOf() := e] && |map[e.RefOf() := e]| == 1
  {
    var es := DecodeAll(decode, q[..1]);
    assert es == [decode(q[0]).value] && es[..0] == [];
  }

  lemma NotFullEmpty(s: Server)
    requires s.maxRecords == 1 && s.maxBytes == 0
    ensures !s.Full(map[])
  {
  }
}
