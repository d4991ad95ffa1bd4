// What a run of the write path keeps of the acknowledged entries, and exactly
// which steps lose one. A purge below a generation deletes pending entries and
// committed rows, so what is conserved is every acknowledged entry at or above the
// highest generation purged. Losing one entry takes nothing from the others.
module Conservation {
  import opened Records
  import opened Upsert
  import opened PendingSet
  import opened Sidecar
  import opened WritePath

  /** An acknowledged entry is kept: still in the ring, in a drainer's hand, or
      answered for by the pending set or the table at its fence or a newer one. */
  ghost predicate Kept(w: World, i: nat)
    requires i < |w.acked|
  {
    w.drained <= i || InHand(w, i) || Holds(w.pend, w.acked[i]) || Settled(w.table, w.acked[i])
  }

  /** Kept, or given up on purpose: below a purge, or not accepted. */
  ghost predicate Safe(w: World, i: nat)
    requires i < |w.acked|
  {
    Kept(w, i) || w.acked[i].fence.generation < w.purged || !Accepted(w.acked[i])
  }

  /** The step drops a pending entry newer than the one its flush wrote. */
  ghost predicate UnsafeDrop(w: World, step: Step) {
    && step.DropNext? && Dropping(w, step.id)
    && var e := Dropped(w, step.id);
       && e.RefOf() in w.pend
       && w.pend[e.RefOf()].fence.ownerSeq <= e.fence.ownerSeq
       && Newer(w.pend[e.RefOf()].fence, e.fence)
  }

  /** The step puts an entry over a newer one. */
  ghost predicate UnsafePut(w: World, step: Step) {
    && step.PutHand? && step.drainer in w.hands && w.hands[step.drainer] < |w.acked|
    && var e := w.acked[w.hands[step.drainer]];
       e.RefOf() in w.pend && Newer(w.pend[e.RefOf()].fence, e.fence)
  }

  /** The pending entry that an unsafe put or drop removes. */
  ghost function Victim(w: World, step: Step): Entry
    requires UnsafeDrop(w, step) || UnsafePut(w, step)
  {
    if step.DropNext? then w.pend[Dropped(w, step.id).RefOf()]
    else w.pend[w.acked[w.hands[step.drainer]].RefOf()]
  }

  /** Nothing but the pending set or a hand answers for entry i, and it matters. */
  ghost predicate AtRisk(w: World, i: nat)
    requires i < |w.acked|
  {
    && i < w.drained && Accepted(w.acked[i]) && w.acked[i].fence.generation >= w.purged
    && !Settled(w.table, w.acked[i])
  }

  /** The step takes the last answer for entry i away: it puts an older entry over
      the pending one that answers for it, it drops that one, or the process ends. */
  ghost predicate LosesEntry(w: World, step: Step, i: nat) {
    && i < |w.acked| && AtRisk(w, i)
    && match step
       case PutHand(d) =>
         && UnsafePut(w, step) && Holds(w.pend, w.acked[i]) && !InHand(w, i)
         && w.acked[i].RefOf() == w.acked[w.hands[d]].RefOf() && Newer(w.acked[i].fence, w.acked[w.hands[d]].fence)
       case DropNext(id) =>
         && UnsafeDrop(w, step) && Holds(w.pend, w.acked[i]) && !InHand(w, i)
         && w.acked[i].RefOf() == Dropped(w, id).RefOf()
       case Stop => InHand(w, i) || Holds(w.pend, w.acked[i])
       case _ => false
  }

  // ---- every step, every entry ---------------------------------------------

  /** A step that leaves ring, hands and pending set alone, and unsettles nothing. */
  lemma TableKeeps(w: World, w': World, i: nat)
    requires i < |w.acked| && Safe(w, i)
    requires w'.acked == w.acked && w'.drained == w.drained && w'.hands == w.hands
    requires w'.pend == w.pend && w'.purged == w.purged && TableGrew(w.table, w'.table)
    ensures Safe(w', i)
  {
    hide Settled, Holds;
    SameDrained(w, w');
  }

  lemma PopKeeps(w: World, w': World, d: nat, i: nat)
    requires i < |w.acked| && w'.acked == w.acked && w' == Next(w, PopNext(d))
    requires HandsOk(w) && Safe(w, i)
    ensures Safe(w', i)
  {
    hide Newer, Settled, Holds, InHand;
    if d !in w.hands && w.drained < |w.acked| {
      Popped(w, w', d);
    }
  }

  lemma SaneHands(w: World)
    requires Sane(w)
    ensures HandsOk(w)
  {
  }

  lemma PutKeeps(w: World, d: nat, i: nat)
    requires Sane(w) && i < |w.acked| && Safe(w, i) && !LosesEntry(w, PutHand(d), i)
    ensures Safe(Next(w, PutHand(d)), i)
  {
    hide Newer, AckOrdered, Handled, HandledEntry, FlightsOk, RowsFrom, InHand, WellKeyed;
    var w' := Next(w, PutHand(d));
    if d in w.hands {
      HandsInRange(w, d);
      var e, x := w.acked[w.hands[d]], w.acked[i];
      Released(w, w', d);
      NewerTotal(e.fence, e.fence);
      if Holds(w.pend, x) && x.RefOf() == e.RefOf() && !Newer(w.pend[e.RefOf()].fence, e.fence) {
        NotOlderTransitive(e.fence, w.pend[e.RefOf()].fence, x.fence);
      }
    }
  }

  lemma FlushKeeps(w: World, order: seq<Entry>, i: nat)
    requires Sane(w) && i < |w.acked| && Safe(w, i)
    ensures Safe(Next(w, Flush(order)), i)
  {
    hide Newer, Settled, AckOrdered, Handled, HandledEntry, FlightsOk, RowsFrom;
    var w', x := Next(w, Flush(order)), w.acked[i];
    if w' != w {
      SameDrained(w, w');
      UpsertSettles(w.table, order, x);
      if Holds(w.pend, x) {
        assert w.pend[x.RefOf()] in order && w.pend[x.RefOf()].RefOf() == x.RefOf();
      }
    }
  }

  lemma DropKeeps(w: World, id: nat, i: nat)
    requires Sane(w) && i < |w.acked| && Safe(w, i) && !LosesEntry(w, DropNext(id), i)
    ensures Safe(Next(w, DropNext(id)), i)
  {
    hide Newer, AckOrdered, Handled, HandledEntry, RowsFrom;
    var w', x := Next(w, DropNext(id)), w.acked[i];
    SameDrained(w, w');
    if w' != w && Holds(w.pend, x) && x.RefOf() == Dropped(w, id).RefOf() && x.fence.generation >= w.purged {
      var e, y := Dropped(w, id), w.pend[x.RefOf()];
      if !Newer(y.fence, e.fence) {
        NotOlderTransitive(e.fence, y.fence, x.fence);
        NotOlderGeneration(e.fence, x.fence);
        NotOlderTransitive(w.table[x.KeyOf()].FenceOf(), e.fence, x.fence);
      }
    }
  }

  lemma PurgePendingKeeps(w: World, g: int, i: nat)
    requires i < |w.acked| && Safe(w, i) && g > 0
    ensures Safe(w.(pend := EntriesSince(w.pend, g), purged := Max(w.purged, g)), i)
  {
    hide Newer, Settled;
    var w', x := w.(pend := EntriesSince(w.pend, g), purged := Max(w.purged, g)), w.acked[i];
    SameDrained(w, w');
    if Holds(w.pend, x) {
      NotOlderGeneration(w.pend[x.RefOf()].fence, x.fence);
    }
  }

  lemma PurgeTableKeeps(w: World, g: int, i: nat)
    requires i < |w.acked| && Safe(w, i) && g > 0
    ensures Safe(w.(table := RowsSince(w.table, g), purged := Max(w.purged, g)), i)
  {
    hide Newer, Settled, Holds, RowsSince;
    var w', x := w.(table := RowsSince(w.table, g), purged := Max(w.purged, g)), w.acked[i];
    SameDrained(w, w');
    if Settled(w.table, x) && x.fence.generation >= g {
      PurgeKeepsSettled(w.table, g, x);
    }
  }

  /** Purging, in any interleaving, loses no entry at or above the generation. */
  lemma PurgeKeeps(w: World, step: Step, i: nat)
    requires i < |w.acked| && Safe(w, i) && (step.PurgePending? || step.PurgeTable?)
    ensures i < |Next(w, step).acked| && Safe(Next(w, step), i)
  {
    hide Safe, EntriesSince, RowsSince;
    if step.generation > 0 {
      if step.PurgePending? {
        PurgePendingKeeps(w, step.generation, i);
      } else {
        PurgeTableKeeps(w, step.generation, i);
      }
    }
  }

  lemma AckKeeps(w: World, e: Entry, i: nat)
    requires Sane(w) && i < |w.acked| && Safe(w, i)
    ensures Safe(Next(w, Ack(e)), i)
  {
    hide Newer, Settled, Holds, AckOrdered, FlightsOk, RowsFrom;
    if InStampOrder(w.acked, e) {
      Extended(w, Next(w, Ack(e)));
    }
  }

  /** A step that does not take its last answer away keeps an entry safe. */
  lemma StepKeeps(w: World, step: Step, i: nat)
    requires Sane(w) && i < |w.acked| && Safe(w, i) && !LosesEntry(w, step, i)
    ensures i < |Next(w, step).acked| && Safe(Next(w, step), i)
  {
    hide Sane, Safe, TableGrew, InStampOrder;
    StepOnlyAppends(w, step);
    match step
    case Ack(e) => AckKeeps(w, e, i);
    case PopNext(d) =>
      SaneHands(w);
      PopKeeps(w, Next(w, step), d, i);
    case PutHand(d) => PutKeeps(w, d, i);
    case Flush(order) => FlushKeeps(w, order, i);
    case FlushFails(_, _) =>
      FailSteps(w, step);
      TableKeeps(w, Next(w, step), i);
    case Foreign(r) =>
      ForeignStep(w, r);
      TableKeeps(w, Next(w, step), i);
    case Begin(_, _) =>
      SameTable(w.table);
      TableKeeps(w, Next(w, step), i);
    case Write(id) =>
      WriteStep(w, id);
      TableKeeps(w, Next(w, step), i);
    case WriteFails(_, _) =>
      FailSteps(w, step);
      TableKeeps(w, Next(w, step), i);
    case DropNext(id) => DropKeeps(w, id, i);
    case PurgePending(_) => PurgeKeeps(w, step, i);
    case PurgeTable(_) => PurgeKeeps(w, step, i);
    case Stop => StopKeeps(w, i);
  }

  lemma SameTable(t: Table)
    ensures TableGrew(t, t)
  {
  }

  lemma StopKeeps(w: World, i: nat)
    requires i < |w.acked| && Safe(w, i) && !LosesEntry(w, Stop, i)
    ensures Safe(Stopped(w), i)
  {
    hide Settled, Holds;
  }

  /** A step takes a safe entry from safe to lost exactly when it takes away the
      last answer for it. */
  lemma EntryLostIff(w: World, step: Step, i: nat)
    requires Sane(w) && i < |w.acked|
    ensures i < |Next(w, step).acked|
    ensures Safe(w, i) && !Safe(Next(w, step), i) <==> LosesEntry(w, step, i)
  {
    hide Sane, Safe, LosesEntry, Next;
    StepOnlyAppends(w, step);
    if LosesEntry(w, step, i) {
      LostByStep(w, step, i);
    } else if Safe(w, i) {
      StepKeeps(w, step, i);
    }
  }

  lemma LostByStep(w: World, step: Step, i: nat)
    requires Sane(w) && LosesEntry(w, step, i)
    ensures Safe(w, i) && !Safe(Next(w, step), i)
  {
    hide Newer, Settled, AckOrdered, Handled, HandledEntry, FlightsOk, RowsFrom, Keyed;
    var w' := Next(w, step);
    if step.PutHand? {
      Released(w, w', step.drainer);
    } else if step.DropNext? {
      SameDrained(w, w');
    }
  }

  // ---- every step, any entry -----------------------------------------------

  /** The step is a put over a newer pending entry or a drop of one newer than the
      entry flushed, not below a purge, that the table does not answer for; or it
      ends the process while the table does not answer for some popped entry. */
  ghost predicate Loses(w: World, step: Step) {
    || ( && (UnsafeDrop(w, step) || UnsafePut(w, step))
         && !Settled(w.table, Victim(w, step)) && Victim(w, step).fence.generation >= w.purged)
    || ( && step.Stop?
         && exists i :: 0 <= i < |w.acked| && AtRisk(w, i) && (InHand(w, i) || Holds(w.pend, w.acked[i])))
  }

  /** Some step in every state loses an acknowledged entry exactly then. */
  lemma StepLosesIff(w: World, step: Step)
    requires Sane(w)
    ensures w.acked <= Next(w, step).acked
    ensures (exists i :: 0 <= i < |w.acked| && Safe(w, i) && !Safe(Next(w, step), i)) <==> Loses(w, step)
  {
    hide Sane, Safe, LosesEntry, Loses, Next;
    StepOnlyAppends(w, step);
    forall i | 0 <= i < |w.acked|
      ensures Safe(w, i) && !Safe(Next(w, step), i) <==> LosesEntry(w, step, i)
    {
      EntryLostIff(w, step, i);
    }
    LosesSomeIff(w, step);
  }

  lemma LosesSomeIff(w: World, step: Step)
    requires Sane(w)
    ensures (exists i :: 0 <= i < |w.acked| && LosesEntry(w, step, i)) <==> Loses(w, step)
  {
    hide Newer, Settled, AckOrdered, FlightsOk, RowsFrom;
    if step.PutHand? || step.DropNext? {
      if Loses(w, step) {
        var x := Victim(w, step);
        var i := PutIndex(w, x.RefOf());
        NewerTotal(x.fence, x.fence);
        assert LosesEntry(w, step, i);
      }
      forall i | 0 <= i < |w.acked| && LosesEntry(w, step, i)
        ensures Loses(w, step)
      {
        VictimAnswers(w, step, i);
      }
    } else if step.Stop? {
      forall i | 0 <= i < |w.acked|
        ensures LosesEntry(w, step, i) <==> AtRisk(w, i) && (InHand(w, i) || Holds(w.pend, w.acked[i]))
      {
      }
    }
  }

  lemma VictimAnswers(w: World, step: Step, i: nat)
    requires Sane(w) && LosesEntry(w, step, i) && (step.PutHand? || step.DropNext?)
    ensures Loses(w, step)
  {
    hide Newer, AckOrdered, FlightsOk, RowsFrom, Handled, HandledEntry;
    var x, y := w.acked[i], Victim(w, step);
    assert y == w.pend[x.RefOf()] && y.RefOf() == x.RefOf();
    NotOlderGeneration(y.fence, x.fence);
    if Settled(w.table, y) {
      NotOlderTransitive(w.table[x.KeyOf()].FenceOf(), y.fence, x.fence);
    }
  }

  // ---- whole runs ----------------------------------------------------------

  /** Step k of the run takes the last answer for entry i away. */
  ghost predicate LostAt(t: Table, steps: seq<Step>, k: nat, i: nat)
    requires k < |steps|
  {
    LosesEntry(Run(Init(t), steps[..k]), steps[k], i)
  }

  /** In every run, whatever it loses of other entries and however often the
      process ends and starts again, an entry that no step takes away is safe. */
  lemma {:induction false} RunKeeps(t: Table, steps: seq<Step>, i: nat)
    requires WellKeyed(t) && i < |Run(Init(t), steps).acked|
    requires forall k :: 0 <= k < |steps| ==> !LostAt(t, steps, k, i)
    ensures Safe(Run(Init(t), steps), i)
  {
    hide Next, Safe, LosesEntry;
    var n := |steps| - 1;
    var init, last := steps[..n], steps[n];
    var w := Run(Init(t), init);
    RunSane(t, init);
    if i < |w.acked| {
      forall k | 0 <= k < n
        ensures !LostAt(t, init, k, i)
      {
        assert init[..k] == steps[..k] && !LostAt(t, steps, k, i);
      }
      RunKeeps(t, init, i);
      assert !LostAt(t, steps, n, i);
      StepKeeps(w, last, i);
    } else {
      JustAcked(w, last, i);
    }
  }

  lemma JustAcked(w: World, step: Step, i: nat)
    requires Sane(w) && |w.acked| <= i < |Next(w, step).acked|
    ensures Safe(Next(w, step), i)
  {
    hide Newer, Settled, Holds, AckOrdered, FlightsOk, RowsFrom;
  }

  /** In every run of steps that lose nothing, every acknowledged entry is safe. */
  lemma RunConserves(t: Table, steps: seq<Step>, i: nat)
    requires WellKeyed(t) && i < |Run(Init(t), steps).acked|
    requires forall k :: 0 <= k < |steps| ==> !Loses(Run(Init(t), steps[..k]), steps[k])
    ensures Safe(Run(Init(t), steps), i)
  {
    hide Next, Safe, LosesEntry, Loses;
    forall k | 0 <= k < |steps|
      ensures !LostAt(t, steps, k, i)
    {
      RunSane(t, steps[..k]);
      LosesOne(Run(Init(t), steps[..k]), steps[k], i);
    }
    RunKeeps(t, steps, i);
  }

  lemma LosesOne(w: World, step: Step, i: nat)
    requires Sane(w)
    ensures LosesEntry(w, step, i) ==> Loses(w, step)
  {
    hide Sane, Loses;
    LosesSomeIff(w, step);
  }

  // ---- rejected entries ----------------------------------------------------

  ghost predicate NamedRows(rs: set<Record>) {
    forall r :: r in rs ==> r.dmap != ""
  }

  lemma {:induction false} ForeignNamed(t: Table, steps: seq<Step>)
    requires forall k :: k in t ==> t[k].dmap != ""
    ensures NamedRows(Run(Init(t), steps).foreign)
  {
    if steps != [] {
      ForeignNamed(t, steps[..|steps| - 1]);
    }
  }

  /** Neither hands, pending set nor rows ever answer for an entry without a map name. */
  lemma UnnamedIsGone(w: World, i: nat)
    requires Sane(w) && NamedRows(w.foreign) && i < w.drained && w.acked[i].dmap == ""
    ensures !Kept(w, i)
  {
    hide Newer, AckOrdered, FlightsOk;
    var x := w.acked[i];
    if Holds(w.pend, x) {
      var j := PutIndex(w, x.RefOf());
    }
    RowsNamed(w);
  }

  lemma RowsNamed(w: World)
    requires Sane(w) && NamedRows(w.foreign)
    ensures forall k :: k in w.table ==> w.table[k].dmap == k.0 != ""
  {
    hide Newer, AckOrdered, FlightsOk;
    forall k | k in w.table
      ensures w.table[k].dmap != ""
    {
      if w.table[k] !in w.foreign {
        var e :| HandledEntry(w, e) && w.table[k] == RecordFromEntry(e);
      }
    }
  }

  /** In every run, however often the process ends, an entry at or above the purges
      that no put, no drop and no end of the process took away is lost exactly
      when it was popped and has no map name: the sidecar consumes and rejects it. */
  lemma LostIff(t: Table, steps: seq<Step>, i: nat)
    requires WellKeyed(t) && forall k :: k in t ==> t[k].dmap != ""
    requires i < |Run(Init(t), steps).acked|
    requires forall k :: 0 <= k < |steps| ==> !LostAt(t, steps, k, i)
    requires Run(Init(t), steps).acked[i].fence.generation >= Run(Init(t), steps).purged
    ensures var w := Run(Init(t), steps); !Kept(w, i) <==> i < w.drained && w.acked[i].dmap == ""
  {
    hide LosesEntry, Kept, Settled, Next;
    RunKeeps(t, steps, i);
    RunSane(t, steps);
    ForeignNamed(t, steps);
    var w := Run(Init(t), steps);
    assert Safe(w, i) && Fenced(w.acked[i]);
    if i < w.drained && w.acked[i].dmap == "" {
      UnnamedIsGone(w, i);
    } else if i >= w.drained {
      assert Kept(w, i) by { NotPopped(w, i); }
    }
  }

  lemma NotPopped(w: World, i: nat)
    requires w.drained <= i < |w.acked|
    ensures Kept(w, i)
  {
  }

  // ---- the end of the process ----------------------------------------------

  /** Appends, pops, puts and whole flushes: what the consumer loop is made of. */
  ghost predicate Sequential(steps: seq<Step>) {
    forall k :: 0 <= k < |steps| ==>
      steps[k].Ack? || steps[k].PopNext? || steps[k].PutHand? || steps[k].Flush? || steps[k].FlushFails?
  }

  /** The last step pops an entry that is not accepted. */
  ghost predicate EndsInRejection(w: World, steps: seq<Step>) {
    && steps != [] && steps[|steps| - 1] == PopNext(0)
    && var w' := Run(w, steps[..|steps| - 1]);
       w'.hands == map[] && w'.drained < |w'.acked| && !Accepted(w'.acked[w'.drained])
  }

  /** The last step is a flush of everything pending that fails after n records. */
  ghost predicate EndsInFailedFlush(w: World, steps: seq<Step>, order: seq<Entry>, n: nat) {
    && steps != [] && steps[|steps| - 1] == FlushFails(order, n) && n <= |order|
    && Enumerates(order, Run(w, steps[..|steps| - 1]).pend)
  }

  /** Such a run purges nothing and takes no foreign row. */
  lemma {:induction false} SequentialFrame(w: World, steps: seq<Step>)
    requires Sequential(steps)
    ensures Run(w, steps).purged == w.purged && Run(w, steps).foreign == w.foreign
  {
    hide Next;
    if steps != [] {
      SequentialFrame(w, steps[..|steps| - 1]);
      SequentialStep(Run(w, steps[..|steps| - 1]), steps[|steps| - 1]);
    }
  }

  lemma SequentialStep(w: World, step: Step)
    requires Sequential([step])
    ensures Next(w, step).purged == w.purged && Next(w, step).foreign == w.foreign
  {
    hide UpsertAll, DropAll, RecordsOf, Enumerates, InStampOrder, Accepted;
    assert [step][0] == step;
  }

  lemma StopsAfter(w: World, steps: seq<Step>)
    ensures Run(w, steps + [Stop]) == Stopped(Run(w, steps))
  {
    assert (steps + [Stop])[..|steps + [Stop]| - 1] == steps;
  }

  lemma PopThenStop(w: World, i: nat)
    requires i < |w.acked| && 0 !in w.hands && w.drained < |w.acked| && !Accepted(w.acked[w.drained])
    ensures
      var w1 := Next(w, PopNext(0));
      && w1 == w.(drained := w.drained + 1)
      && (Kept(Stopped(w1), i) <==> w.drained < i || Settled(w.table, w.acked[i]))
      && (LosesEntry(w1, Stop, i) <==> Safe(w, i) && AtRisk(w, i))
  {
    hide Settled;
    var w1 := w.(drained := w.drained + 1);
    assert InHand(w1, i) <==> InHand(w, i);
  }

  /** A run that ends on an entry the loop rejects, before any flush, and then in the
      end of the process: of what was popped exactly what the table answered for
      before that pop survives, and every entry that was safe and at risk is lost. */
  lemma RejectionExitKeepsIff(w0: World, steps: seq<Step>, i: nat)
    requires EndsInRejection(w0, steps) && i < |Run(w0, steps[..|steps| - 1]).acked|
    ensures
      var w, w' := Run(w0, steps[..|steps| - 1]), Run(w0, steps + [Stop]);
      && w'.acked == w.acked && w'.drained == w.drained + 1
      && (Kept(w', i) <==> w.drained < i || Settled(w.table, w.acked[i]))
      && (LosesEntry(Run(w0, steps), Stop, i) <==> Safe(w, i) && AtRisk(w, i))
  {
    hide Kept, Safe, AtRisk, LosesEntry, Next;
    StopsAfter(w0, steps);
    PopThenStop(Run(w0, steps[..|steps| - 1]), i);
  }

  lemma FailThenStop(w: World, order: seq<Entry>, n: nat, i: nat)
    requires WellKeyed(w.table) && Enumerates(order, w.pend) && n <= |order| && i < |w.acked|
    ensures
      var w' := Stopped(Next(w, FlushFails(order, n)));
      && w'.acked == w.acked && w'.drained == w.drained
      && (Kept(w', i) <==>
            || w.drained <= i
            || Settled(w.table, w.acked[i])
            || Answered(order[..n], w.acked[i]))
  {
    hide Newer;
    UpsertSettlesIff(w.table, order[..n], w.acked[i]);
  }

  /** One of the entries is of x's row and not older. */
  ghost predicate Answered(es: seq<Entry>, x: Entry) {
    exists k :: 0 <= k < |es| && es[k].KeyOf() == x.KeyOf() && !Newer(x.fence, es[k].fence)
  }

  /** A run that ends on a failed flush, of which the first n records took effect, and
      then in the end of the process: of what was popped exactly what the table
      answered for before, or one of those n answers for, survives. */
  lemma FailedFlushExitKeepsIff(t: Table, steps: seq<Step>, order: seq<Entry>, n: nat, i: nat)
    requires WellKeyed(t) && EndsInFailedFlush(Init(t), steps, order, n)
    requires i < |Run(Init(t), steps[..|steps| - 1]).acked|
    ensures
      var w, w' := Run(Init(t), steps[..|steps| - 1]), Run(Init(t), steps + [Stop]);
      && w'.acked == w.acked && w'.drained == w.drained
      && (Kept(w', i) <==> w.drained <= i || Settled(w.table, w.acked[i]) || Answered(order[..n], w.acked[i]))
  {
    hide Kept, Settled, Answered, Next, Sane, Enumerates;
    StopsAfter(Init(t), steps);
    RunSane(t, steps[..|steps| - 1]);
    SaneTable(Run(Init(t), steps[..|steps| - 1]));
    FailThenStop(Run(Init(t), steps[..|steps| - 1]), order, n, i);
  }

  lemma SaneTable(w: World)
    requires Sane(w)
    ensures WellKeyed(w.table)
  {
  }

  /** Ending the process after a round that flushed everything loses nothing. */
  lemma FlushThenStopKeeps(w: World, order: seq<Entry>, i: nat)
    requires Sane(w) && Enumerates(order, w.pend) && w.hands == map[] && i < |w.acked| && Safe(w, i)
    ensures Safe(Stopped(Next(w, Flush(order))), i)
  {
    hide Newer, Settled, AckOrdered, FlightsOk, RowsFrom, HandsOk, PendHandled;
    FlushKeeps(w, order, i);
    DropAllEmpties(w.pend, order);
  }

  // ---- one drainer ---------------------------------------------------------

  /** Only drainer d pops and puts, as the ring demands of its consumer. */
  ghost predicate OneDrainer(steps: seq<Step>, d: nat) {
    forall k :: 0 <= k < |steps| && (steps[k].PopNext? || steps[k].PutHand?) ==> steps[k].drainer == d
  }

  /** i is the newest entry of its key that has left the ring and every hand. */
  ghost predicate NewestHandled(w: World, i: nat) {
    && Handled(w, i)
    && forall j :: i < j < w.drained && w.acked[j].RefOf() == w.acked[i].RefOf() ==> InHand(w, j)
  }

  /** The pending entry of a key is the newest; a hand holds the last pop. */
  ghost predicate Current(w: World, d: nat) {
    && (forall c :: c in w.hands ==> c == d && w.hands[c] == w.drained - 1)
    && (forall r :: r in w.pend ==> exists i: nat :: NewestAs(w, i, w.pend[r]))
  }

  ghost predicate NewestAs(w: World, i: nat, e: Entry) {
    NewestHandled(w, i) && w.acked[i] == e
  }

  lemma NewestIndex(w: World, d: nat, r: Ref) returns (i: nat)
    requires Current(w, d) && r in w.pend
    ensures NewestHandled(w, i) && w.acked[i] == w.pend[r]
  {
    i :| NewestAs(w, i, w.pend[r]);
  }

  /** One drainer never puts an entry over a newer one. */
  lemma OneDrainerPutsInOrder(w: World, d: nat, step: Step)
    requires Sane(w) && Current(w, d)
    ensures !UnsafePut(w, step)
  {
    hide Newer, Settled, FlightsOk, RowsFrom;
    if UnsafePut(w, step) {
      var e := w.acked[w.hands[step.drainer]];
      var i := NewestIndex(w, d, e.RefOf());
      assert i < w.hands[step.drainer];
      NewerTotal(e.fence, w.acked[i].fence);
    }
  }

  lemma CurrentStep(w: World, step: Step, d: nat)
    requires Sane(w) && Current(w, d) && (step.PopNext? || step.PutHand? ==> step.drainer == d)
    ensures Current(Next(w, step), d)
  {
    hide Sane, Next, Current;
    match step
    case Ack(e) => CurrentAck(w, e, d);
    case PopNext(_) => CurrentPop(w, d);
    case PutHand(_) => CurrentPut(w, d);
    case Stop => CurrentStop(w, d);
    case _ => CurrentShrinks(w, step, d);
  }

  lemma CurrentStop(w: World, d: nat)
    ensures Current(Next(w, Stop), d)
  {
  }

  lemma CurrentAck(w: World, e: Entry, d: nat)
    requires Sane(w) && Current(w, d)
    ensures Current(Next(w, Ack(e)), d)
  {
    hide Newer, Settled, FlightsOk, RowsFrom, AckOrdered;
    var w' := Next(w, Ack(e));
    if w' != w {
      Extended(w, w');
      forall r | r in w.pend
        ensures exists i: nat :: NewestAs(w', i, w.pend[r])
      {
        var i := NewestIndex(w, d, r);
        assert NewestAs(w', i, w.pend[r]);
      }
    }
  }

  lemma CurrentPop(w: World, d: nat)
    requires Sane(w) && Current(w, d)
    ensures Current(Next(w, PopNext(d)), d)
  {
    hide Newer, Settled, FlightsOk, RowsFrom, HandsOk, InHand, PendHandled, AckOrdered, Accepted, NewestHandled;
    var w' := Next(w, PopNext(d));
    if w' != w {
      forall r | r in w.pend
        ensures exists i: nat :: NewestAs(w', i, w.pend[r])
      {
        var i := NewestIndex(w, d, r);
        StaysNewest(w, w', d, i);
        assert NewestAs(w', i, w.pend[r]);
      }
    }
  }

  lemma StaysNewest(w: World, w': World, d: nat, i: nat)
    requires AckOrdered(w.acked) && HandsOk(w) && NewestHandled(w, i)
    requires d !in w.hands && w.drained < |w.acked| && w' == Next(w, PopNext(d))
    ensures NewestHandled(w', i)
  {
    hide Newer, HandsOk, InHand;
    Popped(w, w', d);
    forall j | i < j < w'.drained && w'.acked[j].RefOf() == w'.acked[i].RefOf()
      ensures InHand(w', j)
    {
      if j == w.drained { assert Fenced(w.acked[j]); }
    }
  }

  lemma CurrentPut(w: World, d: nat)
    requires Sane(w) && Current(w, d)
    ensures Current(Next(w, PutHand(d)), d)
  {
    hide Newer, Settled, FlightsOk, RowsFrom, AckOrdered, InHand, HandsOk;
    var w' := Next(w, PutHand(d));
    if w' != w {
      Released(w, w', d);
      HandsInRange(w, d);
      var h := w.hands[d];
      assert NewestAs(w', h, w.acked[h]);
      forall r | r in w'.pend
        ensures exists i: nat :: NewestAs(w', i, w'.pend[r])
      {
        if r != w.acked[h].RefOf() {
          var i := NewestIndex(w, d, r);
          assert w.pend[r].RefOf() == r;
          assert NewestAs(w', i, w'.pend[r]);
        }
      }
    }
  }

  /** Steps that leave ring and hands alone only shrink the pending set. */
  lemma ShrinkFacts(w: World, step: Step)
    requires !step.Ack? && !step.PopNext? && !step.PutHand? && !step.Stop?
    ensures var w' := Next(w, step);
            && w'.acked == w.acked && w'.drained == w.drained && w'.hands == w.hands
            && forall r :: r in w'.pend ==> r in w.pend && w'.pend[r] == w.pend[r]
  {
    hide UpsertAll, UpsertRow, InStampOrder;
    if step.Flush? && Enumerates(step.order, w.pend) {
      DropAllDrawn(w.pend, step.order);
    }
  }

  lemma CurrentShrinks(w: World, step: Step, d: nat)
    requires Current(w, d) && !step.Ack? && !step.PopNext? && !step.PutHand? && !step.Stop?
    ensures Current(Next(w, step), d)
  {
    hide Next, Handled, InHand;
    var w' := Next(w, step);
    ShrinkFacts(w, step);
    SameDrained(w, w');
    forall r | r in w'.pend
      ensures exists i: nat :: NewestAs(w', i, w'.pend[r])
    {
      var i := NewestIndex(w, d, r);
      assert NewestHandled(w', i) by { SameNewest(w, w', i); }
      assert NewestAs(w', i, w'.pend[r]);
    }
  }

  lemma SameNewest(w: World, w': World, i: nat)
    requires w'.acked == w.acked && w'.drained == w.drained && w'.hands == w.hands && NewestHandled(w, i)
    ensures NewestHandled(w', i)
  {
    SameDrained(w, w');
  }

  /** With one drainer the pending entry of a key is always the newest of those
      that left the ring, in every run, whatever is lost and however often the
      process ends. */
  lemma {:induction false} OneDrainerIsCurrent(t: Table, steps: seq<Step>, d: nat)
    requires WellKeyed(t) && OneDrainer(steps, d)
    ensures Current(Run(Init(t), steps), d)
  {
    hide Next, Sane;
    if steps != [] {
      var init := steps[..|steps| - 1];
      OneDrainerIsCurrent(t, init, d);
      RunSane(t, init);
      CurrentStep(Run(Init(t), init), steps[|steps| - 1], d);
    }
  }

  /** With one drainer an entry is lost only by a drop or by the end of the process. */
  lemma OneDrainerConserves(t: Table, steps: seq<Step>, d: nat, i: nat)
    requires WellKeyed(t) && OneDrainer(steps, d) && i < |Run(Init(t), steps).acked|
    requires forall k :: 0 <= k < |steps| && (steps[k].DropNext? || steps[k].Stop?) ==> !LostAt(t, steps, k, i)
    ensures Safe(Run(Init(t), steps), i)
  {
    hide Next, Safe, Sane, Current;
    forall k | 0 <= k < |steps|
      ensures !LostAt(t, steps, k, i)
    {
      var w := Run(Init(t), steps[..k]);
      RunSane(t, steps[..k]);
      OneDrainerIsCurrent(t, steps[..k], d);
      OneDrainerPutsInOrder(w, d, steps[k]);
    }
    RunKeeps(t, steps, i);
  }

  /** The sequential loop of one drainer, whose flushes are not interleaved with
      drains, loses an entry only where the process ends, whatever the windows. */
  lemma SequentialRunConserves(t: Table, steps: seq<Step>, d: nat, i: nat)
    requires WellKeyed(t) && OneDrainer(steps, d) && i < |Run(Init(t), steps).acked|
    requires forall k :: 0 <= k < |steps| ==> !steps[k].DropNext?
    requires forall k :: 0 <= k < |steps| && steps[k].Stop? ==> !LostAt(t, steps, k, i)
    ensures Safe(Run(Init(t), steps), i)
  {
    hide Next, Safe, LostAt;
    OneDrainerConserves(t, steps, d, i);
  }

  ghost predicate SameWindow(a: Fence, b: Fence) {
    a.generation == b.generation && a.epoch == b.epoch && a.writer == b.writer
  }

  /** Within one window and one writer, sequences alone decide which is newer. */
  lemma WindowOrder(x: Fence, e: Fence)
    requires SameWindow(x, e)
    ensures Newer(x, e) <==> x.ownerSeq > e.ownerSeq
  {
    StringLessTotal(x.writer, e.writer);
  }

  /** All acknowledged entries of the key carry one window of one writer. */
  ghost predicate OneWindow(acked: seq<Entry>, ref: Ref) {
    forall i, j :: 0 <= i < |acked| && 0 <= j < |acked| && acked[i].RefOf() == ref && acked[j].RefOf() == ref
                   ==> SameWindow(acked[i].fence, acked[j].fence)
  }

  /** Under any interleaving with one drainer, if the entries of its key carry one
      window of one writer, an entry is lost only where the process ends. */
  lemma OneWindowConserves(t: Table, steps: seq<Step>, d: nat, i: nat)
    requires WellKeyed(t) && OneDrainer(steps, d) && i < |Run(Init(t), steps).acked|
    requires OneWindow(Run(Init(t), steps).acked, Run(Init(t), steps).acked[i].RefOf())
    requires forall k :: 0 <= k < |steps| && steps[k].Stop? ==> !LostAt(t, steps, k, i)
    ensures Safe(Run(Init(t), steps), i)
  {
    hide Next, Safe, Sane, LosesEntry;
    var acked := Run(Init(t), steps).acked;
    forall k | 0 <= k < |steps| && steps[k].DropNext?
      ensures !LostAt(t, steps, k, i)
    {
      var w := Run(Init(t), steps[..k]);
      RunSane(t, steps[..k]);
      AckedGrows(t, steps, k);
      assert forall j :: 0 <= j < |w.acked| ==> w.acked[j] == acked[j];
      if i < |w.acked| {
        OneWindowDropsNothing(w, steps[k], i);
      } else {
        NotYetAcked(w, steps[k], i);
      }
    }
    OneDrainerConserves(t, steps, d, i);
  }

  lemma NotYetAcked(w: World, step: Step, i: nat)
    requires i >= |w.acked|
    ensures !LosesEntry(w, step, i)
  {
  }

  lemma {:induction false} AckedGrows(t: Table, steps: seq<Step>, k: nat)
    requires k <= |steps|
    ensures Run(Init(t), steps[..k]).acked <= Run(Init(t), steps).acked
    decreases |steps|
  {
    hide Next;
    if k == |steps| {
      assert steps[..k] == steps;
    } else {
      var init := steps[..|steps| - 1];
      AckedGrows(t, init, k);
      assert init[..k] == steps[..k];
      StepOnlyAppends(Run(Init(t), init), steps[|steps| - 1]);
    }
  }

  lemma OneWindowDropsNothing(w: World, step: Step, i: nat)
    requires Sane(w) && i < |w.acked| && step.DropNext? && OneWindow(w.acked, w.acked[i].RefOf())
    ensures !LosesEntry(w, step, i)
  {
    hide Newer, Settled, RowsFrom, AckOrdered;
    if LosesEntry(w, step, i) {
      var e := Dropped(w, step.id);
      assert HandledEntry(w, e);
      var j: nat :| HandledAs(w, j, e);
      var m := PutIndex(w, e.RefOf());
      assert w.pend[e.RefOf()].RefOf() == e.RefOf();
      assert SameWindow(w.acked[m].fence, w.acked[j].fence);
      WindowOrder(w.pend[e.RefOf()].fence, e.fence);
    }
  }

  /** For one writer, whose later stamps are newer, an unsafe drop is one of a
      newer window with a smaller or equal sequence. */
  lemma UnsafeIsNewerWindow(x: Fence, e: Fence)
    requires x.writer == e.writer
    ensures Newer(x, e) && x.ownerSeq <= e.ownerSeq <==>
            x.ownerSeq <= e.ownerSeq &&
            (x.generation > e.generation || (x.generation == e.generation && x.epoch > e.epoch))
  {
    StringLessTotal(x.writer, e.writer);
  }
}
