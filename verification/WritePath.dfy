// The write path as a step system: appends, drains by any number of drainers,
// flushes (succeeding, failing, or interleaved with drains), partition drains,
// other writers' upserts, purges, and the end of the sidecar's process, after
// which the next one goes on with the same ring and table.
module WritePath {
  import opened Records
  import opened Upsert
  import opened PendingSet
  import opened Sidecar

  /** A flush in progress: the entries read, whether they are written, and how
      many drops have been done. */
  datatype Flight = Flight(snap: seq<Entry>, written: bool, dropped: nat)

  /** acked lists the acknowledged entries in append order; the ring holds
      acked[drained..]. hands tells which popped entry each drainer has not yet
      put into the pending set. foreign collects the rows no step of this writer
      wrote. purged is the highest generation asked of a purge. */
  datatype World = World(acked: seq<Entry>, drained: nat, hands: map<nat, nat>, pend: Pend, table: Table,
                         foreign: set<Record>, flights: map<nat, Flight>, purged: int)

  datatype Step =
    | Ack(e: Entry)
    | PopNext(drainer: nat)
    | PutHand(drainer: nat)
    | Flush(order: seq<Entry>)
    | FlushFails(order: seq<Entry>, applied: nat)
    | Foreign(r: Record)
    | Begin(id: nat, es: seq<Entry>)
    | Write(id: nat)
    | WriteFails(id: nat, applied: nat)
    | DropNext(id: nat)
    | PurgePending(generation: int)
    | PurgeTable(generation: int)
    | Stop

  /** What the node guarantees of an append: a fence of the sequencer, not used
      before, and newer than those appended for the same key. */
  ghost predicate InStampOrder(acked: seq<Entry>, e: Entry) {
    && Fenced(e)
    && forall i :: 0 <= i < |acked| ==> acked[i].fence != e.fence
                                        && (acked[i].RefOf() == e.RefOf() ==> Newer(e.fence, acked[i].fence))
  }

  /** A pop of an entry the sidecar does not accept consumes it all the same. */
  ghost function Next(w: World, step: Step): World {
    match step
    case Ack(e) =>
      if InStampOrder(w.acked, e) then w.(acked := w.acked + [e]) else w
    case PopNext(d) =>
      if d in w.hands || w.drained >= |w.acked| then w
      else if Accepted(w.acked[w.drained]) then w.(hands := w.hands[d := w.drained], drained := w.drained + 1)
      else w.(drained := w.drained + 1)
    case PutHand(d) =>
      if d in w.hands && w.hands[d] < |w.acked|
      then w.(pend := w.pend[w.acked[w.hands[d]].RefOf() := w.acked[w.hands[d]]], hands := w.hands - {d}) else w
    case Flush(order) =>
      if Enumerates(order, w.pend)
      then w.(table := UpsertAll(w.table, RecordsOf(order)), pend := DropAll(w.pend, order)) else w
    case FlushFails(order, n) =>
      if Enumerates(order, w.pend) && n <= |order|
      then w.(table := UpsertAll(w.table, RecordsOf(order[..n]))) else w
    case Foreign(r) =>
      if r.dmap != "" then w.(table := UpsertRow(w.table, r), foreign := w.foreign + {r}) else w
    case Begin(id, es) =>
      if id !in w.flights && DrawnFrom(es, w.pend) then w.(flights := w.flights[id := Flight(es, false, 0)]) else w
    case Write(id) =>
      if id in w.flights && !w.flights[id].written
      then w.(table := UpsertAll(w.table, RecordsOf(w.flights[id].snap)),
              flights := w.flights[id := w.flights[id].(written := true)]) else w
    case WriteFails(id, n) =>
      if id in w.flights && !w.flights[id].written && n <= |w.flights[id].snap|
      then w.(table := UpsertAll(w.table, RecordsOf(w.flights[id].snap[..n])), flights := w.flights - {id}) else w
    case DropNext(id) =>
      if Dropping(w, id)
      then
        var e := Dropped(w, id);
        w.(pend := Drop(w.pend, e.RefOf(), e.fence.ownerSeq),
           flights := w.flights[id := w.flights[id].(dropped := w.flights[id].dropped + 1)])
      else w
    case PurgePending(g) =>
      if g > 0 then w.(pend := EntriesSince(w.pend, g), purged := Max(w.purged, g)) else w
    case PurgeTable(g) =>
      if g > 0 then w.(table := RowsSince(w.table, g), purged := Max(w.purged, g)) else w
    case Stop => Stopped(w)
  }

  /** The process ends: what was popped and not written is in no one's memory. */
  function Stopped(w: World): World {
    w.(hands := map[], pend := map[], flights := map[])
  }

  predicate Dropping(w: World, id: nat) {
    id in w.flights && w.flights[id].written && w.flights[id].dropped < |w.flights[id].snap|
  }

  /** The entry whose drop is next in a flight. */
  function Dropped(w: World, id: nat): Entry
    requires Dropping(w, id)
  {
    w.flights[id].snap[w.flights[id].dropped]
  }

  ghost function Run(w: World, steps: seq<Step>): World {
    if steps == [] then w else Next(Run(w, steps[..|steps| - 1]), steps[|steps| - 1])
  }

  ghost function Init(t: Table): World {
    World([], 0, map[], map[], t, set k | k in t :: t[k], map[], 0)
  }

  // ---- what every state keeps ----------------------------------------------

  ghost predicate InHand(w: World, i: nat) {
    exists d :: d in w.hands && w.hands[d] == i
  }

  /** Entry i was popped, is accepted, and is in no hand: it was put, or the process
      that held it ended. */
  ghost predicate Handled(w: World, i: nat) {
    i < w.drained <= |w.acked| && !InHand(w, i) && Accepted(w.acked[i])
  }

  ghost predicate HandledAs(w: World, i: nat, e: Entry) {
    Handled(w, i) && w.acked[i] == e
  }

  /** e is such an entry. */
  ghost predicate HandledEntry(w: World, e: Entry) {
    exists i: nat :: HandledAs(w, i, e)
  }

  ghost predicate AckOrdered(acked: seq<Entry>) {
    && (forall i :: 0 <= i < |acked| ==> Fenced(acked[i]))
    && (forall i, j :: 0 <= i < j < |acked| ==> acked[i].fence != acked[j].fence)
    && forall i, j :: 0 <= i < j < |acked| && acked[i].RefOf() == acked[j].RefOf() ==>
        Newer(acked[j].fence, acked[i].fence)
  }

  ghost predicate HandsOk(w: World) {
    && (forall d :: d in w.hands ==> w.hands[d] < w.drained <= |w.acked| && Accepted(w.acked[w.hands[d]]))
    && (forall c, d :: c in w.hands && d in w.hands && w.hands[c] == w.hands[d] ==> c == d)
  }

  ghost predicate PendHandled(w: World) {
    forall r :: r in w.pend ==> HandledEntry(w, w.pend[r])
  }

  ghost predicate RowsFrom(w: World) {
    forall k :: k in w.table ==>
                  w.table[k] in w.foreign || exists e :: HandledEntry(w, e) && w.table[k] == RecordFromEntry(e)
  }

  ghost predicate FlightsOk(w: World) {
    forall id, k :: id in w.flights && 0 <= k < |w.flights[id].snap| ==>
                      && HandledEntry(w, w.flights[id].snap[k])
                      && (w.flights[id].written && w.flights[id].snap[k].fence.generation >= w.purged
                          ==> Settled(w.table, w.flights[id].snap[k]))
  }

  ghost predicate Sane(w: World) {
    && w.drained <= |w.acked|
    && AckOrdered(w.acked)
    && HandsOk(w)
    && Keyed(w.pend) && WellKeyed(w.table)
    && PendHandled(w)
    && RowsFrom(w)
    && FlightsOk(w)
  }

  // ---- table steps ---------------------------------------------------------

  /** What the table answered for it still answers for. */
  ghost predicate TableGrew(t: Table, t': Table) {
    forall x: Entry :: Settled(t, x) ==> Settled(t', x)
  }

  /** Upserting handled entries keeps everything settled and every row's origin. */
  lemma TableStep(w: World, es: seq<Entry>)
    requires Sane(w) && forall k :: 0 <= k < |es| ==> HandledEntry(w, es[k])
    ensures Sane(w.(table := UpsertAll(w.table, RecordsOf(es))))
    ensures TableGrew(w.table, UpsertAll(w.table, RecordsOf(es)))
    ensures forall k :: 0 <= k < |es| ==> Settled(UpsertAll(w.table, RecordsOf(es)), es[k])
  {
    hide Newer, Settled, HandledEntry, Handled;
    var t' := UpsertAll(w.table, RecordsOf(es));
    var w' := w.(table := t');
    forall x: Entry
      ensures x in es || Settled(w.table, x) ==> Settled(t', x)
    {
      UpsertSettles(w.table, es, x);
    }
    FoldCovers(w.table, RecordsOf(es), ("", 0), Fence(0, 0, 0, ""));
    SameDrained(w, w');
    RowsAfter(w, w', es);
    StaysSane(w, w');
  }

  /** A step that changes neither ring nor hands nor pending set. */
  lemma StaysSane(w: World, w': World)
    requires Sane(w)
    requires w'.acked == w.acked && w'.drained == w.drained && w'.hands == w.hands && w'.pend == w.pend
    requires WellKeyed(w'.table) && RowsFrom(w') && FlightsOk(w')
    ensures Sane(w')
  {
    hide Newer, Settled, HandledEntry, Handled, AckOrdered;
    SameDrained(w, w');
  }

  lemma SameDrained(w: World, w': World)
    requires w'.acked == w.acked && w'.drained == w.drained && w'.hands == w.hands
    ensures forall e :: HandledEntry(w, e) <==> HandledEntry(w', e)
    ensures forall i: nat :: Handled(w, i) <==> Handled(w', i)
    ensures forall i: nat, e :: HandledAs(w, i, e) <==> HandledAs(w', i, e)
    ensures forall i: nat :: InHand(w, i) <==> InHand(w', i)
    ensures HandsOk(w) <==> HandsOk(w')
  {
    forall e: Entry, i: nat
      ensures HandledAs(w, i, e) <==> HandledAs(w', i, e)
    {
    }
  }

  lemma RowsAfter(w: World, w': World, es: seq<Entry>)
    requires RowsFrom(w) && WellKeyed(w.table) && forall k :: 0 <= k < |es| ==> HandledEntry(w, es[k])
    requires w' == w.(table := UpsertAll(w.table, RecordsOf(es)))
    ensures RowsFrom(w')
  {
    hide Newer, HandledEntry, UpsertAll;
    SameDrained(w, w');
    forall k | k in w'.table
      ensures w'.table[k] in w'.foreign || exists e :: HandledEntry(w', e) && w'.table[k] == RecordFromEntry(e)
    {
      FoldIsLexMax(w.table, RecordsOf(es), k);
      var row := w'.table[k];
      assert row in Candidates(w.table, RecordsOf(es), k);
      if row in RecordsOf(es) {
        var i :| 0 <= i < |es| && RecordsOf(es)[i] == row;
        assert HandledEntry(w', es[i]) && row == RecordFromEntry(es[i]);
      }
    }
  }

  lemma ForeignStep(w: World, r: Record)
    requires Sane(w)
    ensures Sane(Next(w, Foreign(r))) && TableGrew(w.table, Next(w, Foreign(r)).table)
    ensures r.dmap != "" ==> Covers(Next(w, Foreign(r)).table, r.KeyOf(), r.FenceOf())
  {
    hide Newer, HandledEntry, Handled;
    var w' := Next(w, Foreign(r));
    if r.dmap != "" {
      assert [r][..0] == [];
      assert UpsertAll(w.table, [r]) == UpsertRow(w.table, r);
      forall x: Entry
        ensures Settled(w.table, x) ==> Settled(w'.table, x)
      {
        FoldCovers(w.table, [r], x.KeyOf(), x.fence);
      }
      FoldCovers(w.table, [r], r.KeyOf(), r.FenceOf());
      assert r in [r];
      SameDrained(w, w');
      if r.KeyOf() in w.table { MergeIsWholeRow(w.table[r.KeyOf()], r); }
      StaysSane(w, w');
    }
  }

  // ---- ring steps ----------------------------------------------------------

  lemma AckStep(w: World, e: Entry)
    requires Sane(w)
    ensures Sane(Next(w, Ack(e)))
  {
    hide Newer, Settled, AckOrdered;
    var w' := Next(w, Ack(e));
    if w' != w {
      Extended(w, w');
      AckOrderedExtend(w.acked, e);
    }
  }

  /** More acknowledged entries change nothing about the drained ones. */
  lemma Extended(w: World, w': World)
    requires w.drained <= |w.acked| && w.acked <= w'.acked && w' == w.(acked := w'.acked)
    ensures forall x :: HandledEntry(w, x) ==> HandledEntry(w', x)
    ensures forall i: nat :: Handled(w, i) ==> Handled(w', i) && w'.acked[i] == w.acked[i]
    ensures forall i: nat, e :: HandledAs(w, i, e) ==> HandledAs(w', i, e)
    ensures forall i: nat :: InHand(w, i) ==> InHand(w', i)
  {
    forall x | HandledEntry(w, x)
      ensures HandledEntry(w', x)
    {
      var i: nat :| HandledAs(w, i, x);
      assert HandledAs(w', i, x);
    }
  }

  lemma AckOrderedExtend(acked: seq<Entry>, e: Entry)
    requires AckOrdered(acked) && InStampOrder(acked, e)
    ensures AckOrdered(acked + [e])
  {
    hide Newer;
  }

  lemma PopStep(w: World, d: nat)
    requires Sane(w) && d !in w.hands && w.drained < |w.acked|
    ensures Sane(Next(w, PopNext(d)))
  {
    hide Newer, Settled, AckOrdered, HandsOk, Handled, HandledEntry, InHand;
    Popped(w, Next(w, PopNext(d)), d);
  }

  /** What a pop keeps: earlier entries stay handled or in hand. */
  lemma Popped(w: World, w': World, d: nat)
    requires HandsOk(w) && d !in w.hands && w.drained < |w.acked| && w' == Next(w, PopNext(d))
    ensures forall x :: HandledEntry(w, x) ==> HandledEntry(w', x)
    ensures forall i: nat :: Handled(w, i) ==> i < |w.acked| && Handled(w', i)
    ensures forall i: nat :: InHand(w, i) ==> InHand(w', i)
    ensures Accepted(w.acked[w.drained]) ==> InHand(w', w.drained)
    ensures HandsOk(w')
  {
    forall x | HandledEntry(w, x)
      ensures HandledEntry(w', x)
    {
      var i: nat :| HandledAs(w, i, x);
      assert HandledAs(w', i, x);
    }
    forall i: nat | InHand(w, i)
      ensures InHand(w', i)
    {
      var c :| c in w.hands && w.hands[c] == i;
      assert c in w'.hands && w'.hands[c] == i;
    }
    if Accepted(w.acked[w.drained]) {
      assert d in w'.hands && w'.hands[d] == w.drained;
    }
  }

  lemma PutStep(w: World, d: nat)
    requires Sane(w) && d in w.hands
    ensures Sane(Next(w, PutHand(d)))
  {
    hide Newer, Settled, AckOrdered, HandledEntry, InHand, Keyed, HandsOk;
    HandsInRange(w, d);
    var w', e := Next(w, PutHand(d)), w.acked[w.hands[d]];
    Released(w, w', d);
    PutKeyed(w, d);
    assert PendHandled(w') by {
      IsHandled(w', w.hands[d], e);
    }
  }

  lemma IsHandled(w: World, i: nat, e: Entry)
    requires HandledAs(w, i, e)
    ensures HandledEntry(w, e)
  {
  }

  lemma HandsInRange(w: World, d: nat)
    requires HandsOk(w) && d in w.hands
    ensures w.hands[d] < w.drained <= |w.acked|
  {
  }

  lemma PutKeyed(w: World, d: nat)
    requires Keyed(w.pend) && d in w.hands
    ensures Keyed(Next(w, PutHand(d)).pend)
  {
  }

  /** Emptying the hand of drainer d. */
  lemma Released(w: World, w': World, d: nat)
    requires HandsOk(w) && d in w.hands && w' == Next(w, PutHand(d))
    ensures forall x :: HandledEntry(w, x) ==> HandledEntry(w', x)
    ensures forall i: nat :: Handled(w, i) ==> Handled(w', i)
    ensures forall i: nat :: InHand(w, i) <==> i == w.hands[d] || InHand(w', i)
    ensures Handled(w', w.hands[d])
    ensures HandsOk(w')
  {
    forall x | HandledEntry(w, x)
      ensures HandledEntry(w', x)
    {
      var i: nat :| HandledAs(w, i, x);
      assert HandledAs(w', i, x);
    }
    forall i: nat | InHand(w, i)
      ensures i == w.hands[d] || InHand(w', i)
    {
      var c :| c in w.hands && w.hands[c] == i;
      assert c == d || (c in w'.hands && w'.hands[c] == i);
    }
  }

  // ---- removing from the pending set --------------------------------------

  /** Removing keys keeps the structure, whatever it loses. */
  lemma RemoveStep(w: World, pend': Pend)
    requires Sane(w) && forall r :: r in pend' ==> r in w.pend && pend'[r] == w.pend[r]
    ensures Sane(w.(pend := pend'))
  {
    hide Newer, Settled, HandledEntry, Handled, AckOrdered;
    SameDrained(w, w.(pend := pend'));
  }

  lemma FlushStep(w: World, order: seq<Entry>)
    requires Sane(w) && Enumerates(order, w.pend)
    ensures Sane(Next(w, Flush(order)))
  {
    hide Newer, Settled, Handled;
    PendIsHandled(w, order);
    TableStep(w, order);
    var w1 := w.(table := UpsertAll(w.table, RecordsOf(order)));
    DropAllEmpties(w.pend, order);
    RemoveStep(w1, map[]);
  }

  lemma PutIndex(w: World, r: Ref) returns (i: nat)
    requires PendHandled(w) && r in w.pend
    ensures Handled(w, i) && w.acked[i] == w.pend[r]
  {
    i :| HandledAs(w, i, w.pend[r]);
  }

  lemma PendIsHandled(w: World, es: seq<Entry>)
    requires Sane(w) && DrawnFrom(es, w.pend)
    ensures forall k :: 0 <= k < |es| ==> HandledEntry(w, es[k])
  {
    hide Newer, Settled;
  }

  lemma BeginStep(w: World, id: nat, es: seq<Entry>)
    requires Sane(w)
    ensures Sane(Next(w, Begin(id, es)))
  {
    hide Newer, Settled, HandledEntry, Handled;
    var w' := Next(w, Begin(id, es));
    if w' != w {
      PendIsHandled(w, es);
      SameDrained(w, w');
      StaysSane(w, w');
    }
  }

  lemma WriteStep(w: World, id: nat)
    requires Sane(w)
    ensures Sane(Next(w, Write(id))) && TableGrew(w.table, Next(w, Write(id)).table)
  {
    hide Newer, Settled, HandledEntry, Handled;
    var w' := Next(w, Write(id));
    if w' != w {
      TableStep(w, w.flights[id].snap);
      var w1 := w.(table := w'.table);
      SameDrained(w, w');
      SameDrained(w1, w');
      StaysSane(w1, w');
    }
  }

  lemma FailSteps(w: World, step: Step)
    requires Sane(w) && (step.FlushFails? || step.WriteFails?)
    ensures Sane(Next(w, step)) && TableGrew(w.table, Next(w, step).table)
  {
    hide Newer, Settled, HandledEntry, Handled;
    var w' := Next(w, step);
    if w' != w {
      if step.FlushFails? {
        PendIsHandled(w, step.order);
        TableStep(w, step.order[..step.applied]);
      } else {
        TableStep(w, w.flights[step.id].snap[..step.applied]);
        var w1 := w.(table := w'.table);
        SameDrained(w1, w');
        StaysSane(w1, w');
      }
    }
  }

  lemma DropStep(w: World, id: nat)
    requires Sane(w)
    ensures Sane(Next(w, DropNext(id)))
  {
    hide Newer, Settled, HandledEntry, Handled;
    var w' := Next(w, DropNext(id));
    if w' != w {
      var w1 := w.(pend := w'.pend);
      RemoveStep(w, w'.pend);
      SameDrained(w1, w');
      StaysSane(w1, w');
    }
  }

  // ---- purges and the end of the process -----------------------------------

  /** A row that answers for an entry at or above the generation survives. */
  lemma PurgeKeepsSettled(t: Table, g: int, e: Entry)
    requires Settled(t, e) && e.fence.generation >= g
    ensures Settled(RowsSince(t, g), e)
  {
    NotOlderGeneration(t[e.KeyOf()].FenceOf(), e.fence);
  }

  lemma RaisePurged(w: World, g: int)
    requires Sane(w)
    ensures Sane(w.(purged := Max(w.purged, g)))
  {
    hide Newer, Settled, HandledEntry, Handled, AckOrdered;
    SameDrained(w, w.(purged := Max(w.purged, g)));
  }

  lemma PurgePendingStep(w: World, g: int)
    requires Sane(w) && g > 0
    ensures Sane(Next(w, PurgePending(g)))
  {
    hide Sane;
    RaisePurged(w, g);
    RemoveStep(w.(purged := Max(w.purged, g)), EntriesSince(w.pend, g));
  }

  lemma PurgeTableStep(w: World, g: int)
    requires Sane(w) && g > 0
    ensures Sane(Next(w, PurgeTable(g)))
  {
    hide Newer, Settled, HandledEntry, Handled, AckOrdered;
    var w' := Next(w, PurgeTable(g));
    SameDrained(w, w');
    forall e: Entry | Settled(w.table, e) && e.fence.generation >= g
      ensures Settled(w'.table, e)
    {
      PurgeKeepsSettled(w.table, g, e);
    }
    StaysSane(w, w');
  }

  lemma StopStep(w: World)
    requires Sane(w)
    ensures Sane(Stopped(w))
  {
    hide Newer, Settled, AckOrdered;
    var w' := Stopped(w);
    forall x | HandledEntry(w, x)
      ensures HandledEntry(w', x)
    {
      var i: nat :| HandledAs(w, i, x);
      assert HandledAs(w', i, x);
    }
  }

  /** Every step keeps the structure, whatever it loses. */
  lemma StepSane(w: World, step: Step)
    requires Sane(w)
    ensures Sane(Next(w, step))
  {
    hide Sane;
    match step
    case Ack(e) => AckStep(w, e);
    case PopNext(d) => if d !in w.hands && w.drained < |w.acked| { PopStep(w, d); }
    case PutHand(d) => if d in w.hands { PutStep(w, d); }
    case Flush(order) => if Enumerates(order, w.pend) { FlushStep(w, order); }
    case FlushFails(_, _) => FailSteps(w, step);
    case Foreign(r) => ForeignStep(w, r);
    case Begin(id, es) => BeginStep(w, id, es);
    case Write(id) => WriteStep(w, id);
    case WriteFails(_, _) => FailSteps(w, step);
    case DropNext(id) => DropStep(w, id);
    case PurgePending(g) => if g > 0 { PurgePendingStep(w, g); }
    case PurgeTable(g) => if g > 0 { PurgeTableStep(w, g); }
    case Stop => StopStep(w);
  }

  lemma {:induction false} RunSane(t: Table, steps: seq<Step>)
    requires WellKeyed(t)
    ensures Sane(Run(Init(t), steps))
  {
    hide Next;
    if steps != [] {
      RunSane(t, steps[..|steps| - 1]);
      StepSane(Run(Init(t), steps[..|steps| - 1]), steps[|steps| - 1]);
    }
  }

  lemma StepOnlyAppends(w: World, step: Step)
    ensures w.acked <= Next(w, step).acked
  {
  }
}
