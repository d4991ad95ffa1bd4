// One service with several stacks. Each stack has its own members, subscribers
// and loaded flag, but the service has one flag for a failed epoch save, and the
// store keeps one epoch whatever the stack.
module Stacks {
  import opened Records
  import opened Topology
  import L = Lease
  import C = Cluster

  /** stacks holds what is a stack's own; its error flags are not used, err is. */
  datatype World = World(stacks: map<string, Watchdog>, qs: Queues, store: int, err: bool)

  datatype Step = Serve(stack: string, op: Topology.Op, env: Env)

  /** A stack as the service sees it, created empty when first named. */
  function LocalOf(w: World, generation: int, stack: string): Local {
    var d := if stack in w.stacks then w.stacks[stack]
             else Watchdog(generation, L.Primary, C.EMPTY, false, false, map[]);
    Local(d.(epochErr := w.err), w.qs, w.store)
  }

  function Next(cfg: Config, generation: int, w: World, step: Step): World {
    var l := Run(cfg, LocalOf(w, generation, step.stack), step.op, step.env);
    World(w.stacks[step.stack := l.dog], l.qs, l.store, l.dog.epochErr)
  }

  function Exec(cfg: Config, generation: int, w: World, steps: seq<Step>): World {
    if steps == [] then w
    else Next(cfg, generation, Exec(cfg, generation, w, steps[..|steps| - 1]), steps[|steps| - 1])
  }

  function Init(stored: nat, channels: set<nat>): World {
    World(map[], map c | c in channels :: [], stored, false)
  }

  /** Every envelope in a channel has a persisted epoch. */
  ghost predicate Durable(qs: Queues, store: int) {
    store >= 0 && forall c, i :: c in qs && 0 <= i < |qs[c]| ==> qs[c][i].epoch <= store
  }

  // ---- the exact step ------------------------------------------------------

  /** A heartbeat that changes nothing, from a node behind the epoch, while the
      flag is clear although the stack's epoch is not persisted. */
  predicate Leaks(cfg: Config, l: Local, op: Topology.Op, env: Env) {
    && op.RegisterHeartbeat? && LoadOk(l, env.load)
    && var l1 := Load(l, env.load);
       var expiry := C.Prune(cfg.suspectAfter, cfg.expireAfter, env.now);
       && !C.Changes(l1.dog.cluster, expiry)
       && !C.Stale(C.NodesAfter(l1.dog.cluster, expiry), op.b)
       && !C.BeatChanges(C.NodesAfter(l1.dog.cluster, expiry), op.b)
       && op.observed < l1.dog.cluster.epoch
       && !l1.dog.epochErr && l1.store < l1.dog.cluster.epoch
       && op.chan in l1.qs && op.chan !in env.full
  }

  lemma PushIsDurable(qs: Queues, to: set<nat>, e: L.Envelope, store: int)
    requires Durable(qs, store) && e.epoch <= store
    ensures Durable(Push(qs, to, e), store)
  {
  }

  lemma RaisedIsDurable(qs: Queues, store: int, store': int)
    requires Durable(qs, store) && store <= store'
    ensures Durable(qs, store')
  {
  }

  lemma BroadcastIsDurable(cfg: Config, l: Local, call: Call, now: int, full: set<nat>)
    requires Durable(l.qs, l.store)
    ensures var l' := Broadcast(cfg, l, call, now, full); Durable(l'.qs, l'.store)
    ensures var l' := Broadcast(cfg, l, call, now, full); !l'.dog.epochErr ==> l'.dog.cluster.epoch <= l'.store
  {
    hide Durable;
    var e := EnvelopeFor(cfg, l.dog, now);
    var l1 := Save(l, e.epoch, call);
    RaisedIsDurable(l.qs, l.store, l1.store);
    if call.ok {
      PushIsDurable(l1.qs, Subscribed(l1.dog) - full, e, l1.store);
    }
  }

  /** A push keeps the channels durable exactly when it is withheld or persisted. */
  lemma SendLatestIff(cfg: Config, l: Local, chan: nat, now: int, full: set<nat>)
    requires Durable(l.qs, l.store)
    ensures var l' := SendLatest(cfg, l, chan, now, full);
            Durable(l'.qs, l'.store) <==>
                l.dog.epochErr || chan !in l.qs || chan in full || l.dog.cluster.epoch <= l.store
  {
    if !l.dog.epochErr && chan in l.qs && chan !in full {
      var l' := SendLatest(cfg, l, chan, now, full);
      var n := |l.qs[chan]|;
      assert l'.qs[chan][n] == EnvelopeFor(cfg, l.dog, now);
    }
  }

  lemma MutateIsDurable(cfg: Config, l: Local, op: C.Op, call: Call, now: int, full: set<nat>)
    requires Durable(l.qs, l.store)
    ensures var l' := Mutate(cfg, l, op, call, now, full); Durable(l'.qs, l'.store)
    ensures C.Changes(l.dog.cluster, op) ==>
              var l' := Mutate(cfg, l, op, call, now, full);
              !l'.dog.epochErr ==> l'.dog.cluster.epoch <= l'.store
    ensures !C.Changes(l.dog.cluster, op) ==>
              Mutate(cfg, l, op, call, now, full) == l.(dog := l.dog.(cluster := C.Apply(l.dog.cluster, op)))
  {
    hide Durable, C.Apply, C.Changes;
    BroadcastIsDurable(cfg, l.(dog := l.dog.(cluster := C.Apply(l.dog.cluster, op))), call, now, full);
  }

  lemma PruneIsDurable(cfg: Config, l: Local, call: Call, now: int, full: set<nat>)
    requires Durable(l.qs, l.store)
    ensures var l' := Prune(cfg, l, call, now, full); Durable(l'.qs, l'.store)
    ensures
      var expiry := C.Prune(cfg.suspectAfter, cfg.expireAfter, now);
      var l' := Prune(cfg, l, call, now, full);
      if C.Changes(l.dog.cluster, expiry) then !l'.dog.epochErr ==> l'.dog.cluster.epoch <= l'.store
      else l' == l.(dog := l.dog.(cluster := C.Apply(l.dog.cluster, expiry)))
  {
    hide Durable, C.Apply, C.Changes, Mutate, C.NodesAfter, C.Members;
    var op := C.Prune(cfg.suspectAfter, cfg.expireAfter, now);
    var members := C.Members(C.NodesAfter(l.dog.cluster, op), cfg.expireAfter, now);
    var subs := map id | id in l.dog.subs && id in members :: l.dog.subs[id];
    MutateIsDurable(cfg, l.(dog := l.dog.(subs := subs)), op, call, now, full);
    MutateIsDurable(cfg, l, op, call, now, full);
  }

  /** The heartbeat itself leaks exactly on an unchanged beat of a lagging node. */
  lemma BeatIff(cfg: Config, l: Local, b: C.Beat, observed: int, chan: nat, call: Call, now: int, full: set<nat>)
    requires Durable(l.qs, l.store)
    ensures
      var l' := Beat(cfg, l, b, observed, chan, call, now, full);
      !Durable(l'.qs, l'.store) <==>
        && !C.Stale(l.dog.cluster.nodes, b) && !C.BeatChanges(l.dog.cluster.nodes, b)
        && observed < l.dog.cluster.epoch && !l.dog.epochErr && l.store < l.dog.cluster.epoch
        && chan in l.qs && chan !in full
  {
    hide Durable, C.BeatChanges, C.Stale, Mutate, SendLatest, C.NodesAfter;
    var l1 := l.(dog := l.dog.(subs := l.dog.subs[b.nodeID := chan]));
    MutateIsDurable(cfg, l1, C.ApplyBeat(b), call, now, full);
    var l2 := Mutate(cfg, l1, C.ApplyBeat(b), call, now, full);
    SendLatestIff(cfg, l2, chan, now, full);
  }

  lemma LoadIsDurable(l: Local, call: Call)
    requires Durable(l.qs, l.store)
    ensures Durable(Load(l, call).qs, Load(l, call).store)
  {
  }

  lemma RetireIsDurable(qs: Queues, to: set<nat>, full: set<nat>, e: L.Envelope, store: int)
    requires Durable(qs, store) && e.epoch == 0
    ensures Durable(Retire(qs, to, full, e), store)
  {
  }

  /** Whatever state a stack is in, one operation puts an envelope into a channel
      whose epoch is not persisted exactly when it is such a heartbeat. */
  lemma OperationLeaksIff(cfg: Config, l: Local, op: Topology.Op, env: Env)
    requires Durable(l.qs, l.store)
    ensures var l' := Run(cfg, l, op, env); !Durable(l'.qs, l'.store) <==> Leaks(cfg, l, op, env)
  {
    hide Durable, Load, Prune, Beat, Mutate, Broadcast, Retire, C.Changes, C.Stale, C.BeatChanges, C.NodesAfter;
    LoadIsDurable(l, env.load);
    var l1 := Load(l, env.load);
    PruneIsDurable(cfg, l1, env.prune, env.now, env.full);
    var l2 := Prune(cfg, l1, env.prune, env.now, env.full);
    match op
    case RegisterHeartbeat(b, observed, chan) =>
      PruneKeepsQueues(cfg, l1, env.prune, env.now, env.full);
      BeatIff(cfg, l2, b, observed, chan, env.last, env.now, env.full);
    case ObservePods(pods) =>
      MutateIsDurable(cfg, l1, C.ObservePods(pods, cfg.expireAfter, env.now), env.last, env.now, env.full);
    case GetTopology =>
      RaisedIsDurable(l2.qs, l2.store, Save(l2, l2.dog.cluster.epoch, env.last).store);
    case Reap => PruneIsDurable(cfg, l, env.prune, env.now, env.full);
    case Bookworm => BroadcastIsDurable(cfg, l, env.last, env.now, env.full);
    case Unregister(_, _) =>
    case Demote =>
      var d := l.dog.(role := L.Standby, subs := map[]);
      RetireIsDurable(l.qs, Subscribed(l.dog), env.full, StandbyEnvelope(d), l.store);
  }

  lemma PruneKeepsQueues(cfg: Config, l: Local, call: Call, now: int, full: set<nat>)
    ensures Prune(cfg, l, call, now, full).qs.Keys == l.qs.Keys
  {
    hide C.Changes, C.NodesAfter, C.Members, C.Apply;
  }

  // ---- over runs -----------------------------------------------------------

  predicate StepLeaks(cfg: Config, generation: int, w: World, step: Step) {
    Leaks(cfg, LocalOf(w, generation, step.stack), step.op, step.env)
  }

  /** In every run of a service with any number of stacks, the channels hold only
      persisted epochs throughout exactly when no step of it leaks. */
  lemma {:induction false} RunDurableIff(cfg: Config, generation: int, w: World, steps: seq<Step>)
    requires Durable(w.qs, w.store)
    ensures (forall k :: 0 <= k <= |steps| ==> DurableAt(cfg, generation, w, steps, k)) <==>
            (forall k :: 0 <= k < |steps| ==>
                !StepLeaks(cfg, generation, Exec(cfg, generation, w, steps[..k]), steps[k]))
  {
    hide DurableAt, StepLeaks, Exec;
    if steps == [] {
      DurableStart(cfg, generation, w, steps);
    } else {
      var n := |steps| - 1;
      var init := steps[..n];
      RunDurableIff(cfg, generation, w, init);
      assert forall k :: 0 <= k <= n ==> init[..k] == steps[..k];
      forall k | 0 <= k <= n
        ensures DurableAt(cfg, generation, w, init, k) <==> DurableAt(cfg, generation, w, steps, k)
      {
        DurablePrefix(cfg, generation, w, steps, n, k);
      }
      DurableStep(cfg, generation, w, steps);
    }
  }

  ghost predicate DurableAt(cfg: Config, generation: int, w: World, steps: seq<Step>, k: nat)
    requires k <= |steps|
  {
    var now := Exec(cfg, generation, w, steps[..k]);
    Durable(now.qs, now.store)
  }

  lemma DurableStart(cfg: Config, generation: int, w: World, steps: seq<Step>)
    requires Durable(w.qs, w.store)
    ensures DurableAt(cfg, generation, w, steps, 0)
  {
  }

  lemma DurablePrefix(cfg: Config, generation: int, w: World, steps: seq<Step>, n: nat, k: nat)
    requires k <= n <= |steps|
    ensures DurableAt(cfg, generation, w, steps[..n], k) <==> DurableAt(cfg, generation, w, steps, k)
  {
    assert steps[..n][..k] == steps[..k];
  }

  lemma DurableStep(cfg: Config, generation: int, w: World, steps: seq<Step>)
    requires steps != []
    ensures
      var n := |steps| - 1;
      DurableAt(cfg, generation, w, steps, n) ==>
        (DurableAt(cfg, generation, w, steps, n + 1) <==>
         !StepLeaks(cfg, generation, Exec(cfg, generation, w, steps[..n]), steps[n]))
  {
    hide Durable, StepLeaks, Next;
    var n := |steps| - 1;
    assert steps[..n + 1] == steps;
    if DurableAt(cfg, generation, w, steps, n) {
      NextLeaksIff(cfg, generation, Exec(cfg, generation, w, steps[..n]), steps[n]);
    }
  }

  lemma NextLeaksIff(cfg: Config, generation: int, w: World, step: Step)
    requires Durable(w.qs, w.store)
    ensures var w' := Next(cfg, generation, w, step);
            !Durable(w'.qs, w'.store) <==> StepLeaks(cfg, generation, w, step)
  {
    hide Durable, Leaks, Run;
    OperationLeaksIff(cfg, LocalOf(w, generation, step.stack), step.op, step.env);
  }

  // ---- where the mask comes from ------------------------------------------

  /** The flag is clear although this stack's epoch is not persisted. */
  predicate Masked(w: World, stack: string) {
    stack in w.stacks && w.stacks[stack].loaded && !w.err && w.store < w.stacks[stack].cluster.epoch
  }

  /** A stack's own operation never masks it: one that ends with the flag clear
      leaves the stack's epoch persisted or masked as it was. */
  lemma OwnOperationsDoNotMask(cfg: Config, l: Local, op: Topology.Op, env: Env)
    requires !l.dog.loaded ==> l.dog.cluster == C.EMPTY
    requires l.store >= 0
    requires l.dog.loaded && !l.dog.epochErr ==> l.dog.cluster.epoch <= l.store
    ensures
      var l' := Run(cfg, l, op, env);
      && l'.store >= l.store
      && (!l'.dog.loaded ==> l'.dog.cluster == C.EMPTY)
      && (l'.dog.loaded && !l'.dog.epochErr ==> l'.dog.cluster.epoch <= l'.store)
  {
    hide C.NodesAfter, C.Changes, C.Stale, C.BeatChanges, C.Members, Push, Retire;
    var l1 := Load(l, env.load);
    OwnPrune(cfg, l1, env.prune, env.now, env.full);
    OwnPrune(cfg, l, env.prune, env.now, env.full);
    var l2 := Prune(cfg, l1, env.prune, env.now, env.full);
    hide Prune;
    if op.RegisterHeartbeat? && LoadOk(l, env.load) {
      OwnBeat(cfg, l2, op.b, op.observed, op.chan, env.last, env.now, env.full);
    }
  }

  /** Loaded, and persisted unless the flag is up. */
  predicate Clean(l: Local) {
    l.store >= 0 && l.dog.loaded && (!l.dog.epochErr ==> l.dog.cluster.epoch <= l.store)
  }

  lemma OwnPrune(cfg: Config, l: Local, call: Call, now: int, full: set<nat>)
    ensures Clean(l) ==> Clean(Prune(cfg, l, call, now, full))
    ensures Prune(cfg, l, call, now, full).store >= l.store
    ensures l.dog.cluster == C.EMPTY ==> Prune(cfg, l, call, now, full) == l
  {
    hide C.NodesAfter, C.Members, Push;
    if l.dog.cluster == C.EMPTY {
      EmptyDoesNotChange(cfg, now);
    }
  }

  lemma EmptyDoesNotChange(cfg: Config, now: int)
    ensures
      var op := C.Prune(cfg.suspectAfter, cfg.expireAfter, now);
      !C.Changes(C.EMPTY, op) && C.Apply(C.EMPTY, op) == C.EMPTY
  {
  }

  lemma OwnBeat(cfg: Config, l: Local, b: C.Beat, observed: int, chan: nat, call: Call, now: int, full: set<nat>)
    requires Clean(l)
    ensures var l' := Beat(cfg, l, b, observed, chan, call, now, full); Clean(l') && l'.store >= l.store
  {
    hide C.NodesAfter, C.Changes, C.Stale, Push;
  }

  lemma StoreGrows(cfg: Config, l: Local, op: Topology.Op, env: Env)
    ensures Run(cfg, l, op, env).store >= l.store
  {
    hide C.NodesAfter, C.Changes, C.Stale, C.Members, Push, Retire, Prune, Beat, Mutate;
    var l1 := Load(l, env.load);
    OwnPrune(cfg, l1, env.prune, env.now, env.full);
    OwnPrune(cfg, l, env.prune, env.now, env.full);
    if op.RegisterHeartbeat? {
      BeatGrows(cfg, Prune(cfg, l1, env.prune, env.now, env.full), op.b, op.observed, op.chan, env.last, env.now,
          env.full);
    }
    if op.ObservePods? {
      MutateGrows(cfg, l1, C.ObservePods(op.pods, cfg.expireAfter, env.now), env.last, env.now, env.full);
    }
  }

  lemma MutateGrows(cfg: Config, l: Local, op: C.Op, call: Call, now: int, full: set<nat>)
    ensures Mutate(cfg, l, op, call, now, full).store >= l.store
  {
    hide C.Apply, C.Changes, Push;
  }

  lemma BeatGrows(cfg: Config, l: Local, b: C.Beat, observed: int, chan: nat, call: Call, now: int, full: set<nat>)
    ensures Beat(cfg, l, b, observed, chan, call, now, full).store >= l.store
  {
    hide C.Changes, C.Stale, Push, Mutate;
    MutateGrows(cfg, l.(dog := l.dog.(subs := l.dog.subs[b.nodeID := chan])), C.ApplyBeat(b), call, now, full);
  }

  /** A stack becomes masked only by an operation of another stack, and by one
      that clears the flag this stack's own failed save had raised. */
  lemma MaskComesFromOthers(cfg: Config, generation: int, w: World, step: Step, stack: string)
    requires w.store >= 0 && !Masked(w, stack)
    requires stack in w.stacks && !w.stacks[stack].loaded ==> w.stacks[stack].cluster == C.EMPTY
    requires Masked(Next(cfg, generation, w, step), stack)
    ensures step.stack != stack && w.err && w.store < w.stacks[stack].cluster.epoch
  {
    hide Run;
    var l := LocalOf(w, generation, step.stack);
    StoreGrows(cfg, l, step.op, step.env);
    if step.stack == stack {
      OwnOperationsDoNotMask(cfg, l, step.op, step.env);
    }
  }

  /** So while one stack alone is served, nothing leaks. */
  lemma {:induction false} OneStackNeverLeaks(cfg: Config, generation: int, stored: nat, channels: set<nat>,
                                              stack: string, steps: seq<Step>)
    requires forall k :: 0 <= k < |steps| ==> steps[k].stack == stack
    ensures
      var w := Exec(cfg, generation, Init(stored, channels), steps);
      && Durable(w.qs, w.store) && !Masked(w, stack)
      && (stack in w.stacks && !w.stacks[stack].loaded ==> w.stacks[stack].cluster == C.EMPTY)
  {
    hide Run, Leaks;
    if steps != [] {
      var n := |steps| - 1;
      OneStackNeverLeaks(cfg, generation, stored, channels, stack, steps[..n]);
      var w := Exec(cfg, generation, Init(stored, channels), steps[..n]);
      var l := LocalOf(w, generation, stack);
      OwnOperationsDoNotMask(cfg, l, steps[n].op, steps[n].env);
      UnmaskedDoesNotLeak(cfg, l, steps[n].op, steps[n].env);
      OperationLeaksIff(cfg, l, steps[n].op, steps[n].env);
    }
  }

  lemma UnmaskedDoesNotLeak(cfg: Config, l: Local, op: Topology.Op, env: Env)
    requires !l.dog.loaded ==> l.dog.cluster == C.EMPTY
    requires l.store >= 0 && (l.dog.loaded && !l.dog.epochErr ==> l.dog.cluster.epoch <= l.store)
    ensures !Leaks(cfg, l, op, env)
  {
    hide C.Changes, C.Stale, C.BeatChanges;
  }

  // ---- two stacks ----------------------------------------------------------

  const OK := Call(0, true, false)
  const FAILS := Call(0, false, false)

  /** The heartbeat of a new node whose save fails, an answered query for another
      stack, and the same heartbeat again. */
  function LeakingSteps(a: string, b: string, beat: C.Beat): seq<Step> {
    [Serve(a, RegisterHeartbeat(beat, 0, 0), Env(beat.seenAt, OK, OK, FAILS, {})),
     Serve(b, GetTopology, Env(beat.seenAt, OK, OK, OK, {})),
     Serve(a, RegisterHeartbeat(beat, 0, 0), Env(beat.seenAt, OK, OK, OK, {}))]
  }

  /** With any two stacks, any stored epoch and any ready node, that run puts an
      envelope into a channel whose epoch is not persisted. */
  lemma TwoStacksLeak(cfg: Config, a: string, b: string, beat: C.Beat, stored: nat)
    requires a != b && cfg.suspectAfter >= 0 && cfg.expireAfter >= 0 && C.Reported(beat) == C.Ready
    ensures var w := Exec(cfg, 1, Init(stored, {0}), LeakingSteps(a, b, beat));
            0 in w.qs && |w.qs[0]| == 1 && w.qs[0][0].epoch == stored + 1 > w.store
  {
    hide Next;
    var w0, steps := Init(stored, {0}), LeakingSteps(a, b, beat);
    var dogA := WithMember(beat, stored);
    var w1 := World(map[a := dogA], map[0 := []], stored, true);
    FirstBeat(cfg, w0, w1, a, b, beat, stored);
    var dogB := Watchdog(1, L.Primary, C.State(map[], stored), true, false, map[]);
    var w2 := World(map[a := dogA, b := dogB], map[0 := []], stored, false);
    OtherQuery(cfg, w1, w2, a, b, beat, stored);
    SecondBeat(cfg, w2, a, b, beat, stored);
    var s1, s2 := steps[..1], steps[..2];
    assert s1[..0] == [] && s2[..1] == s1 && steps[..|steps| - 1] == s2;
    assert Exec(cfg, 1, w0, s1) == w1;
    assert Exec(cfg, 1, w0, s2) == w2;
  }

  /** The stack that has admitted the node and failed to save. */
  function WithMember(beat: C.Beat, stored: int): Watchdog {
    Watchdog(1, L.Primary, C.State(map[beat.nodeID := C.NewNode(beat)], stored + 1), true, true, map[beat.nodeID := 0])
  }

  lemma FirstBeat(cfg: Config, w0: World, w1: World, a: string, b: string, beat: C.Beat, stored: nat)
    requires w0 == Init(stored, {0})
    requires w1 == World(map[a := WithMember(beat, stored)], map[0 := []], stored, true)
    ensures Next(cfg, 1, w0, LeakingSteps(a, b, beat)[0]) == w1
  {
    hide Prune, Beat, C.Apply, Run;
    var l, env := LocalOf(w0, 1, a), LeakingSteps(a, b, beat)[0].env;
    assert w0.qs == map[0 := []];
    LoadsEmpty(stored);
    var l1 := Local(Watchdog(1, L.Primary, C.State(map[], stored), true, false, map[]), map[0 := []], stored);
    assert Load(l, OK) == l1;
    PruneEmpty(cfg, l1, beat.seenAt);
    NewMemberUnsaved(cfg, l1, beat, stored);
    BeatRun(cfg, l, beat, env);
  }

  lemma BeatRun(cfg: Config, l: Local, beat: C.Beat, env: Env)
    requires LoadOk(l, env.load)
    ensures Run(cfg, l, RegisterHeartbeat(beat, 0, 0), env) ==
            Beat(cfg, Prune(cfg, Load(l, env.load), env.prune, env.now, env.full), beat, 0, 0, env.last, env.now,
                env.full)
  {
    hide Prune, Beat, Load;
  }

  lemma LoadsEmpty(stored: nat)
    ensures C.Apply(C.EMPTY, C.BumpTo(stored)) == C.State(map[], stored)
  {
  }

  lemma PruneEmpty(cfg: Config, l: Local, now: int)
    requires l.dog.cluster.nodes == map[]
    ensures Prune(cfg, l, OK, now, {}) == l
  {
    var op := C.Prune(cfg.suspectAfter, cfg.expireAfter, now);
    assert !C.Changes(l.dog.cluster, op) && C.NodesAfter(l.dog.cluster, op) == map[];
  }

  lemma NewMemberUnsaved(cfg: Config, l1: Local, beat: C.Beat, stored: nat)
    requires l1 == Local(Watchdog(1, L.Primary, C.State(map[], stored), true, false, map[]), map[0 := []], stored)
    ensures Beat(cfg, l1, beat, 0, 0, FAILS, beat.seenAt, {}) == Local(WithMember(beat, stored), map[0 := []], stored)
  {
    NewMember(beat, stored);
    hide C.Apply, C.Changes, C.Stale, C.NodesAfter;
  }

  lemma NewMember(beat: C.Beat, stored: nat)
    ensures
      var c := C.State(map[], stored);
      && C.Changes(c, C.ApplyBeat(beat)) && !C.Stale(c.nodes, beat)
      && C.Apply(c, C.ApplyBeat(beat)) == C.State(map[beat.nodeID := C.NewNode(beat)], stored + 1)
  {
  }

  lemma OtherQuery(cfg: Config, w1: World, w2: World, a: string, b: string, beat: C.Beat, stored: nat)
    requires a != b && w1.store == stored && w1.stacks.Keys == {a}
    requires w2 == World(w1.stacks[b := Watchdog(1, L.Primary, C.State(map[], stored), true, false, map[])], w1.qs,
        stored, false)
    ensures Next(cfg, 1, w1, LeakingSteps(a, b, beat)[1]) == w2
  {
    hide Prune, C.Apply;
    var l := LocalOf(w1, 1, b);
    LoadsEmpty(stored);
    var l1 := Local(Watchdog(1, L.Primary, C.State(map[], stored), true, false, map[]), w1.qs, stored);
    assert Load(l, OK) == l1;
    PruneEmpty(cfg, l1, beat.seenAt);
  }

  lemma SecondBeat(cfg: Config, w2: World, a: string, b: string, beat: C.Beat, stored: nat)
    requires cfg.suspectAfter >= 0 && cfg.expireAfter >= 0 && C.Reported(beat) == C.Ready
    requires a in w2.stacks && w2.stacks[a] == WithMember(beat, stored)
    requires !w2.err && w2.store == stored && w2.qs == map[0 := []]
    ensures var w := Next(cfg, 1, w2, LeakingSteps(a, b, beat)[2]);
            0 in w.qs && |w.qs[0]| == 1 && w.qs[0][0].epoch == stored + 1 > w.store
  {
    hide Prune, Beat, Run;
    var l := LocalOf(w2, 1, a);
    PruneMember(cfg, l, beat, stored);
    RepeatedBeat(cfg, l, beat, stored);
    BeatRun(cfg, l, beat, LeakingSteps(a, b, beat)[2].env);
  }

  lemma PruneMember(cfg: Config, l: Local, beat: C.Beat, stored: nat)
    requires cfg.suspectAfter >= 0 && cfg.expireAfter >= 0 && l.dog.cluster == WithMember(beat, stored).cluster
    ensures Prune(cfg, l, OK, beat.seenAt, {}) == l
  {
    var c, rule := l.dog.cluster, C.PruneRule(cfg.suspectAfter, cfg.expireAfter, beat.seenAt);
    assert rule(C.NewNode(beat)) == C.Fate(Some(C.NewNode(beat)), false);
    assert C.Survivors(c.nodes, rule) == c.nodes && !C.AnyChange(c.nodes, rule);
  }

  lemma RepeatedBeat(cfg: Config, l: Local, beat: C.Beat, stored: nat)
    requires l == Local(WithMember(beat, stored).(epochErr := false), map[0 := []], stored)
        && C.Reported(beat) == C.Ready
    ensures var l' := Beat(cfg, l, beat, 0, 0, OK, beat.seenAt, {});
            && l'.store == stored && 0 in l'.qs
            && l'.qs[0] == [L.Envelope(1, stored + 1, beat.seenAt + cfg.leaseTTL, L.Primary)]
  {
    UnchangedBeat(beat, stored);
    hide C.Apply, C.Changes, C.Stale, C.NodesAfter;
    var l1 := l.(dog := l.dog.(subs := l.dog.subs[beat.nodeID := 0]));
    assert Mutate(cfg, l1, C.ApplyBeat(beat), OK, beat.seenAt, {}) == l1;
    var e := L.Envelope(1, stored + 1, beat.seenAt + cfg.leaseTTL, L.Primary);
    assert EnvelopeFor(cfg, l1.dog, beat.seenAt) == e;
    var to: set<nat> := {0};
    assert to - {} == to;
    var qs' := Push(l1.qs, to, e);
    assert l1.qs == map[0 := []] && 0 in to;
    assert qs'[0] == [] + [e];
  }

  lemma UnchangedBeat(beat: C.Beat, stored: nat)
    requires C.Reported(beat) == C.Ready
    ensures
      var c := WithMember(beat, stored).cluster;
      && !C.Changes(c, C.ApplyBeat(beat)) && !C.Stale(c.nodes, beat)
      && C.Apply(c, C.ApplyBeat(beat)) == c
  {
  }
}
