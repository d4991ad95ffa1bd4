// What a miss-path load reads. The pending set is keyed by map, key and key hash,
// the table by map and key hash alone, and no load compares the key.
module MissReads {
  import opened Records
  import opened Upsert
  import opened PendingSet
  import opened Sidecar
  import opened WritePath
  import opened Conservation
  import opened Losses

  /** A tombstone or an expired row reads as absent. */
  ghost predicate Reads(result: Option<Record>, row: Record, now: int) {
    && (result.Some? <==> !row.tombstone && (row.ttl <= 0 || now < row.ttl))
    && (result.Some? ==> result.value == row)
  }

  /** The row of a newer acknowledged entry whose key differs but hashes alike. */
  ghost predicate OtherKeysRow(w: World, e: Entry, row: Record) {
    exists j :: 0 <= j < w.drained <= |w.acked| && Collides(w.acked[j], e) && row == RecordFromEntry(w.acked[j])
  }

  ghost predicate Collides(x: Entry, e: Entry) {
    x.KeyOf() == e.KeyOf() && x.RefOf() != e.RefOf() && Newer(x.fence, e.fence)
  }

  /** A load of entry i's key reads that entry, or a row that is not older: one
      another writer put there, or that of a newer entry of a colliding key. */
  ghost predicate ReadsNewest(w: World, i: nat, now: int)
    requires i < |w.acked|
  {
    var e, result := w.acked[i], LoadSpec(w.pend, w.table, w.acked[i].RefOf(), now);
    if e.RefOf() in w.pend then Reads(result, RecordFromEntry(e), now)
    else
      && e.KeyOf() in w.table && Reads(result, w.table[e.KeyOf()], now)
      && !Newer(e.fence, w.table[e.KeyOf()].FenceOf())
      && var row := w.table[e.KeyOf()];
         row in w.foreign || row == RecordFromEntry(e) || OtherKeysRow(w, e, row)
  }

  /** With one drainer, a load of a key reads its newest drained entry, if that is not
      lost. */
  lemma LoadReads(w: World, d: nat, i: nat, now: int)
    requires Sane(w) && Current(w, d) && NewestHandled(w, i) && w.acked[i].fence.generation >= w.purged
    requires Safe(w, i)
    ensures ReadsNewest(w, i, now)
  {
    hide Newer, Settled, FlightsOk, AckOrdered;
    var e := w.acked[i];
    if e.RefOf() in w.pend {
      var j := NewestIndex(w, d, e.RefOf());
      assert w.pend[e.RefOf()].RefOf() == e.RefOf();
      assert i == j;
    } else {
      SettledRow(w, i);
    }
  }

  /** After every run of one drainer in which no drop and no end of the process took the
      newest drained entry of a key away, a load of the key reads it. */
  lemma RunReads(t: Table, steps: seq<Step>, d: nat, i: nat, now: int)
    requires WellKeyed(t) && OneDrainer(steps, d) && NewestHandled(Run(Init(t), steps), i)
    requires Run(Init(t), steps).acked[i].fence.generation >= Run(Init(t), steps).purged
    requires forall k :: 0 <= k < |steps| && (steps[k].DropNext? || steps[k].Stop?) ==> !LostAt(t, steps, k, i)
    ensures ReadsNewest(Run(Init(t), steps), i, now)
  {
    hide Run, Sane, Current, Safe, LostAt, ReadsNewest;
    RunSane(t, steps);
    OneDrainerIsCurrent(t, steps, d);
    OneDrainerConserves(t, steps, d, i);
    LoadReads(Run(Init(t), steps), d, i, now);
  }

  ghost predicate NoForeign(steps: seq<Step>) {
    forall k :: 0 <= k < |steps| ==> !steps[k].Foreign?
  }

  lemma OwnStep(w: World, step: Step)
    requires !step.Foreign?
    ensures Next(w, step).foreign == w.foreign
  {
    hide UpsertAll, DropAll, RecordsOf, EntriesSince, RowsSince, Enumerates, DrawnFrom, InStampOrder, Accepted, Drop;
  }

  lemma {:induction false} StaysOwn(steps: seq<Step>)
    requires NoForeign(steps)
    ensures Run(Init(map[]), steps).foreign == {}
  {
    hide Next;
    if steps != [] {
      StaysOwn(steps[..|steps| - 1]);
      OwnStep(Run(Init(map[]), steps[..|steps| - 1]), steps[|steps| - 1]);
    }
  }

  /** If moreover no one else writes and no key collides, the load gives exactly that
      entry's record, or nothing if it is a tombstone or expired. */
  lemma RunReadsOwn(steps: seq<Step>, d: nat, i: nat, now: int)
    requires OneDrainer(steps, d) && NoForeign(steps) && NewestHandled(Run(Init(map[]), steps), i)
    requires Run(Init(map[]), steps).acked[i].fence.generation >= Run(Init(map[]), steps).purged
    requires forall k :: 0 <= k < |steps| && (steps[k].DropNext? || steps[k].Stop?) ==> !LostAt(map[], steps, k, i)
    requires forall j :: 0 <= j < |Run(Init(map[]), steps).acked| ==>
                           !Collides(Run(Init(map[]), steps).acked[j], Run(Init(map[]), steps).acked[i])
    ensures
      var w := Run(Init(map[]), steps);
      var e, result := w.acked[i], LoadSpec(w.pend, w.table, w.acked[i].RefOf(), now);
      && (result.Some? <==> e.op != OpDelete && (e.ttl <= 0 || now < e.ttl))
      && (result.Some? ==> && (result.value.dmap, result.value.key, result.value.hkey) == (e.dmap, e.key, e.hkey)
                           && (result.value.encoded, result.value.ttl, result.value.timestamp)
                              == (e.encoded, e.ttl, e.timestamp))
  {
    hide Run, LostAt, LoadSpec, NewestHandled, Newer;
    RunReads(map[], steps, d, i, now);
    StaysOwn(steps);
  }

  lemma SettledRow(w: World, i: nat)
    requires Sane(w) && NewestHandled(w, i) && Settled(w.table, w.acked[i])
    ensures
      var e := w.acked[i];
      e.KeyOf() in w.table &&
      var row := w.table[e.KeyOf()];
      && !Newer(e.fence, row.FenceOf())
      && (row in w.foreign || row == RecordFromEntry(e) || OtherKeysRow(w, e, row))
  {
    hide Newer, Safe, FlightsOk;
    var e := w.acked[i];
    var row := w.table[e.KeyOf()];
    if row !in w.foreign {
      var x :| HandledEntry(w, x) && row == RecordFromEntry(x);
      var j: nat :| HandledAs(w, j, x);
      NewerTotal(x.fence, e.fence);
      if x.RefOf() == e.RefOf() {
        assert j <= i;
      } else {
        assert Collides(w.acked[j], e);
      }
    }
  }

  /** Nothing of this row is pending or in a hand. */
  ghost predicate Flushed(w: World, k: RowKey) {
    && (forall r :: r in w.pend ==> w.pend[r].KeyOf() != k)
    && (forall c :: c in w.hands ==> w.hands[c] < |w.acked| && w.acked[w.hands[c]].KeyOf() != k)
  }

  /** No entry of this row is lost. */
  ghost predicate RowSafe(w: World, k: RowKey) {
    forall j :: 0 <= j < |w.acked| && w.acked[j].KeyOf() == k ==> Safe(w, j)
  }

  /** Once a row's entries are flushed, none lost, and no other writer owns it, a load
      of a key finds the row of another key exactly when some drained entry of a
      colliding key is newer than the newest of this key. */
  lemma LoadReadsOtherKeyIff(w: World, d: nat, i: nat)
    requires Sane(w) && Current(w, d) && NewestHandled(w, i) && w.acked[i].fence.generation >= w.purged
    requires Flushed(w, w.acked[i].KeyOf()) && RowSafe(w, w.acked[i].KeyOf())
    requires w.acked[i].KeyOf() in w.table ==> w.table[w.acked[i].KeyOf()] !in w.foreign
    ensures
      var e := w.acked[i];
      && e.RefOf() !in w.pend && e.KeyOf() in w.table
      && (w.table[e.KeyOf()].key != e.key <==> exists j :: 0 <= j < w.drained && Collides(w.acked[j], e))
  {
    hide Newer, Settled, FlightsOk, AckOrdered, Safe, Collides;
    var e := w.acked[i];
    assert e.RefOf() !in w.pend by { assert e.RefOf() in w.pend ==> w.pend[e.RefOf()].KeyOf() == e.KeyOf(); }
    FlushedIsSettled(w, i);
    SettledRow(w, i);
    var row := w.table[e.KeyOf()];
    if j :| 0 <= j < w.drained && Collides(w.acked[j], e) {
      CollisionWins(w, i, j);
    }
    if row.key != e.key {
      assert OtherKeysRow(w, e, row);
    }
  }

  lemma FlushedIsSettled(w: World, i: nat)
    requires Sane(w) && i < w.drained && Accepted(w.acked[i]) && w.acked[i].fence.generation >= w.purged
    requires Flushed(w, w.acked[i].KeyOf()) && Safe(w, i)
    ensures Settled(w.table, w.acked[i])
  {
    hide Newer, Settled, FlightsOk, AckOrdered, RowsFrom;
  }

  /** The newer entry of the colliding key has taken the row. */
  lemma CollisionWins(w: World, i: nat, j: nat)
    requires Sane(w) && NewestHandled(w, i) && w.acked[i].fence.generation >= w.purged
    requires j < w.drained && Collides(w.acked[j], w.acked[i])
    requires Flushed(w, w.acked[i].KeyOf()) && RowSafe(w, w.acked[i].KeyOf())
    requires w.acked[i].KeyOf() in w.table && w.table[w.acked[i].KeyOf()] !in w.foreign
    ensures w.table[w.acked[i].KeyOf()].key != w.acked[i].key
  {
    hide Newer, FlightsOk, Safe;
    var e, y := w.acked[i], w.acked[j];
    NewerTotal(y.fence, e.fence);
    NotOlderGeneration(y.fence, e.fence);
    assert Fenced(y) && Accepted(y);
    FlushedIsSettled(w, j);
    var x :| HandledEntry(w, x) && w.table[e.KeyOf()] == RecordFromEntry(x);
    var m: nat :| HandledAs(w, m, x);
    if x.RefOf() == e.RefOf() {
      assert m <= i;
      NewerTotal(e.fence, x.fence);
      NotOlderTransitive(e.fence, x.fence, y.fence);
    }
  }

  // ---- reachable -----------------------------------------------------------

  ghost predicate ReadsOther(steps: seq<Step>, a: Entry, b: Entry) {
    var w := Run(Init(map[]), steps);
    w.acked == [a, b] && LoadSpec(w.pend, w.table, a.RefOf(), 0) == Some(RecordFromEntry(b))
  }

  /** For every two keys of one map that hash alike, a run after which a load of
      the first returns the record of the second. */
  lemma LoadReadsOtherKeyRun(a: Entry, b: Entry)
    requires Accepted(a) && Accepted(b) && Collides(b, a) && b.op != OpDelete && !Expired(RecordFromEntry(b), 0)
    ensures exists steps: seq<Step> :: ReadsOther(steps, a, b) && OneDrainer(steps, 0)
  {
    hide Reaches, Newer;
    NewerTotal(a.fence, b.fence);
    Start();
    var w0 := World([], 0, map[], map[], map[], {}, map[], 0);
    Deliver([], w0, a, 0);
    var s1, w1 := [] + DeliverSteps(a, 0), Delivered(w0, a);
    Deliver(s1, w1, b, 0);
    var s2, w2 := s1 + DeliverSteps(b, 0), Delivered(w1, b);
    FlushBoth(a, b, s2, w2);
    assert OneDrainer(s2 + [Flush([a, b])], 0);
  }

  lemma FlushBoth(a: Entry, b: Entry, steps: seq<Step>, w: World)
    requires Collides(b, a) && b.op != OpDelete && !Expired(RecordFromEntry(b), 0)
    requires w == World([a, b], 2, map[], map[a.RefOf() := a, b.RefOf() := b], map[], {}, map[], 0)
    requires Reaches(steps, w)
    ensures ReadsOther(steps + [Flush([a, b])], a, b)
  {
    hide Newer, UpsertAll;
    var order := [a, b];
    assert Enumerates(order, w.pend) by { assert a in order && b in order; }
    assert Keyed(w.pend);
    DropAllEmpties(w.pend, order);
    assert RecordsOf(order) == [RecordFromEntry(a), RecordFromEntry(b)];
    TwoRecords(RecordFromEntry(a), RecordFromEntry(b));
    var w' := w.(pend := map[], table := map[a.KeyOf() := RecordFromEntry(b)]);
    Then(steps, w, Flush(order), w');
  }
}
