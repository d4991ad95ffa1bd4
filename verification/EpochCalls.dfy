// The calls the topology service makes are what the store's loops do: every
// SaveEpoch, LoadEpoch and NextGeneration, with other clients interleaved, acts
// like one call of the service's abstract store.
module EpochCalls {
  import opened Records
  import E = EpochStore
  import T = Topology
  import S = TopologySteps

  /** The abstract state that shows what the object stores. */
  function Showing(l: T.Local, w: E.World): T.Local {
    l.(store := E.StoredEpoch(w.store))
  }

  /** The save returned nil. */
  predicate Succeeds(seen: Option<E.ConfigMap>, outcome: E.Outcome) {
    outcome.Answered? && (seen.None? || E.Parse(seen.value.epoch).Some?)
  }

  /** The write took effect although the call reported an error. */
  predicate Lands(w: E.World, w': E.World, outcome: E.Outcome) {
    !outcome.Answered? && w'.commits > w.commits
  }

  /** The last attempt of a save, at the moment it is made, is one abstract save. */
  lemma LastAttemptIsSave(w: E.World, c: nat, outcome: E.Outcome, l: T.Local)
    requires E.Inv(w) && c in w.clients && w.clients[c].SawForSave?
    requires !E.ClientOf(E.Next(w, E.Act(c, outcome)), c).WantSave?
    ensures
      var w', client := E.Next(w, E.Act(c, outcome)), w.clients[c];
      var call := T.Call(0, Succeeds(client.seen, outcome), Lands(w, w', outcome));
      && E.StoredEpoch(w'.store) == T.Save(Showing(l, w), client.save, call).store
      && (call.ok <==> w'.saved == w.saved + {client.save} && outcome.Answered? && E.LoadEpoch(client.seen).Some?)
  {
    var client := w.clients[c];
    assert E.ClientOk(w, client);
  }

  /** A whole SaveEpoch, from its call after k steps to its return, acts like one
      abstract save: other clients' saves in between are the rise before it. */
  lemma SaveImplementsCall(store: Option<E.ConfigMap>, steps: seq<E.Step>, k: nat, c: nat, outcome: E.Outcome,
                           l: T.Local)
    requires k <= |steps| && forall i :: 0 <= i < |steps| ==> E.RoomLeft(E.Run(E.Init(store), steps[..i]))
    requires E.ClientOf(E.Run(E.Init(store), steps), c).SawForSave?
    requires !E.ClientOf(E.Next(E.Run(E.Init(store), steps), E.Act(c, outcome)), c).WantSave?
    ensures
      var w0, w1 := E.Run(E.Init(store), steps[..k]), E.Run(E.Init(store), steps);
      var w2, client := E.Next(w1, E.Act(c, outcome)), w1.clients[c];
      var rise := E.StoredEpoch(w1.store) - E.StoredEpoch(w0.store);
      && rise >= 0
      && var call := T.Call(rise, Succeeds(client.seen, outcome), Lands(w1, w2, outcome));
         && E.StoredEpoch(w2.store) == T.Save(Showing(l, w0), client.save, call).store
         && (call.ok ==> client.save <= E.StoredEpoch(w2.store))
  {
    hide E.Next, E.RoomLeft;
    E.RunKeeps(store, steps);
    E.CountersNeverDecrease(store, steps, k);
    LastAttemptIsSave(E.Run(E.Init(store), steps), c, outcome, l);
  }

  /** A LoadEpoch that returns a number acts like one abstract load. */
  lemma LoadImplementsCall(store: Option<E.ConfigMap>, steps: seq<E.Step>, k: nat, l: T.Local)
    requires k <= |steps| && forall i :: 0 <= i < |steps| ==> E.RoomLeft(E.Run(E.Init(store), steps[..i]))
    requires E.LoadEpoch(E.Run(E.Init(store), steps).store).Some? && !l.dog.loaded
    ensures
      var w0, w1 := E.Run(E.Init(store), steps[..k]), E.Run(E.Init(store), steps);
      var rise := E.StoredEpoch(w1.store) - E.StoredEpoch(w0.store);
      && rise >= 0
      && var l' := T.Load(Showing(l, w0), T.Call(rise, true, false));
         && l'.store == E.StoredEpoch(w1.store)
         && l'.dog.cluster.epoch == Max(l.dog.cluster.epoch, E.LoadEpoch(w1.store).value)
  {
    hide E.Next, E.RoomLeft, E.Run;
    E.CountersNeverDecrease(store, steps, k);
  }

  function LastIssued(w: E.World): int {
    if w.issued == [] then 0 else w.issued[|w.issued| - 1]
  }

  /** A NextGeneration that returns acts like one start of a watchdog: its number is
      past every number answered before, by as many as were lost to other calls. */
  lemma GenerationImplementsStart(store: Option<E.ConfigMap>, steps: seq<E.Step>, c: nat,
                                  cfg: T.Config, world: S.World, pid: nat)
    returns (skipped: nat)
    requires forall i :: 0 <= i <= |steps| ==> E.RoomLeft(E.Run(E.Init(store), steps[..i]))
    requires E.ClientOf(E.Run(E.Init(store), steps), c).SawForGeneration?
    requires var w := E.Run(E.Init(store), steps);
             |E.Next(w, E.Act(c, E.Answered)).issued| > |w.issued| && world.issued == LastIssued(w)
    requires pid !in world.dogs
    ensures
      var world' := S.Next(cfg, world, S.Start(pid, skipped));
      && world'.issued == LastIssued(E.Next(E.Run(E.Init(store), steps), E.Act(c, E.Answered)))
      && world'.dogs[pid].generation == world'.issued > world.issued
  {
    hide E.Next, E.RoomLeft, E.Run;
    assert steps[..|steps|] == steps;
    E.RunKeeps(store, steps);
    skipped := NextIsPastAll(E.Run(E.Init(store), steps), c);
  }

  lemma NextIsPastAll(w: E.World, c: nat) returns (skipped: nat)
    requires E.Inv(w) && E.RoomLeft(w) && E.ClientOf(w, c).SawForGeneration?
    requires |E.Next(w, E.Act(c, E.Answered)).issued| > |w.issued|
    ensures LastIssued(E.Next(w, E.Act(c, E.Answered))) == LastIssued(w) + 1 + skipped
  {
    var w' := E.Next(w, E.Act(c, E.Answered));
    E.GenerationActKeeps(w, c, E.Answered);
    assert |w'.issued| == |w.issued| + 1;
    assert w.issued != [] ==> w'.issued[|w.issued| - 1] == LastIssued(w);
    skipped := LastIssued(w') - LastIssued(w) - 1;
  }
}
