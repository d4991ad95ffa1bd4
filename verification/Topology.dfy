// The topology service of one watchdog, serving one stack: it loads the epoch
// once, persists it before an envelope leaves, and pushes envelopes to the
// channels of subscribed nodes.
module Topology {
  import opened Records
  import L = Lease
  import C = Cluster

  datatype Config = Config(suspectAfter: int, expireAfter: int, leaseTTL: int)

  /** One watchdog's state for its stack. Channels are named by numbers. */
  datatype Watchdog = Watchdog(generation: int, role: L.Role, cluster: C.State, loaded: bool, epochErr: bool,
                               subs: map<string, nat>)

  /** What each channel holds. */
  type Queues = map<nat, seq<L.Envelope>>

  /** A watchdog, the channels' contents, and the persisted epoch. */
  datatype Local = Local(dog: Watchdog, qs: Queues, store: int)

  /** A call to the epoch store: by how much other watchdogs raise the stored
      epoch before it, whether it succeeds, and whether a failing save has
      nevertheless taken effect. */
  datatype Call = Call(rise: nat, ok: bool, landed: bool)

  /** Loads the epoch the first time; an error leaves the stack unloaded. */
  function Load(l: Local, call: Call): Local {
    if l.dog.loaded then l
    else
      var stored := l.store + call.rise;
      if call.ok
      then l.(dog := l.dog.(loaded := true, epochErr := false, cluster := C.Apply(l.dog.cluster, C.BumpTo(stored))),
              store := stored)
      else l.(dog := l.dog.(epochErr := true), store := stored)
  }

  predicate LoadOk(l: Local, call: Call) {
    l.dog.loaded || call.ok
  }

  function Save(l: Local, epoch: int, call: Call): Local {
    var stored := l.store + call.rise;
    l.(store := if call.ok || call.landed then Max(stored, epoch) else stored,
       dog := l.dog.(epochErr := !call.ok))
  }

  function EnvelopeFor(cfg: Config, d: Watchdog, now: int): L.Envelope {
    L.Envelope(d.generation, d.cluster.epoch, now + cfg.leaseTTL, d.role)
  }

  function StandbyEnvelope(d: Watchdog): L.Envelope {
    L.Envelope(d.generation, 0, 0, d.role)
  }

  /** A non-blocking send to each of the channels. */
  function Push(qs: Queues, to: set<nat>, env: L.Envelope): Queues {
    map c | c in qs :: if c in to then qs[c] + [env] else qs[c]
  }

  function Subscribed(d: Watchdog): set<nat> {
    set id | id in d.subs :: d.subs[id]
  }

  /** Persist, then push to every subscriber whose channel has room. */
  function Broadcast(cfg: Config, l: Local, call: Call, now: int, full: set<nat>): Local {
    var env := EnvelopeFor(cfg, l.dog, now);
    var l1 := Save(l, env.epoch, call);
    if call.ok then l1.(qs := Push(l1.qs, Subscribed(l1.dog) - full, env)) else l1
  }

  /** A push to one subscriber, withheld while the epoch may not be durable. */
  function SendLatest(cfg: Config, l: Local, chan: nat, now: int, full: set<nat>): Local {
    if l.dog.epochErr then l
    else l.(qs := Push(l.qs, {chan} - full, EnvelopeFor(cfg, l.dog, now)))
  }

  /** A change of the cluster, broadcast when it is one. */
  function Mutate(cfg: Config, l: Local, op: C.Op, call: Call, now: int, full: set<nat>): Local {
    var l1 := l.(dog := l.dog.(cluster := C.Apply(l.dog.cluster, op)));
    if C.Changes(l.dog.cluster, op) then Broadcast(cfg, l1, call, now, full) else l1
  }

  /** Expiry; subscribers that are no longer members lose their channel. */
  function Prune(cfg: Config, l: Local, call: Call, now: int, full: set<nat>): Local {
    var op := C.Prune(cfg.suspectAfter, cfg.expireAfter, now);
    var members := C.Members(C.NodesAfter(l.dog.cluster, op), cfg.expireAfter, now);
    var subs := map id | id in l.dog.subs && id in members :: l.dog.subs[id];
    if C.Changes(l.dog.cluster, op) then Mutate(cfg, l.(dog := l.dog.(subs := subs)), op, call, now, full)
    else Mutate(cfg, l, op, call, now, full)
  }

  /** The heartbeat itself, after load and prune. */
  function Beat(cfg: Config, l: Local, b: C.Beat, observed: int, chan: nat, call: Call, now: int,
                full: set<nat>): Local {
    if C.Stale(l.dog.cluster.nodes, b) then l
    else
      var l1 := l.(dog := l.dog.(subs := l.dog.subs[b.nodeID := chan]));
      if C.Changes(l.dog.cluster, C.ApplyBeat(b)) then Mutate(cfg, l1, C.ApplyBeat(b), call, now, full)
      else
        var l2 := Mutate(cfg, l1, C.ApplyBeat(b), call, now, full);
        if observed < l2.dog.cluster.epoch then SendLatest(cfg, l2, chan, now, full) else l2
  }

  datatype Op =
    | RegisterHeartbeat(b: C.Beat, observed: int, chan: nat)
    | ObservePods(pods: seq<C.Pod>)
    | GetTopology
    | Reap
    | Bookworm
    | Unregister(nodeID: string, chan: nat)
    | Demote

  /** What one operation sees of time and of the store: a call each for the load,
      the prune and the final save. */
  datatype Env = Env(now: int, load: Call, prune: Call, last: Call, full: set<nat>)

  function Run(cfg: Config, l: Local, op: Op, env: Env): Local {
    match op
    case RegisterHeartbeat(b, observed, chan) =>
      var l1 := Load(l, env.load);
      if !LoadOk(l, env.load) then l1
      else Beat(cfg, Prune(cfg, l1, env.prune, env.now, env.full), b, observed, chan, env.last, env.now, env.full)
    case ObservePods(pods) =>
      if l.dog.role != L.Primary then l
      else
        var l1 := Load(l, env.load);
        if !LoadOk(l, env.load) then l1
        else Mutate(cfg, l1, C.ObservePods(pods, cfg.expireAfter, env.now), env.last, env.now, env.full)
    case GetTopology =>
      if l.dog.role != L.Primary then l
      else
        var l1 := Load(l, env.load);
        if !LoadOk(l, env.load) then l1
        else
          var l2 := Prune(cfg, l1, env.prune, env.now, env.full);
          Save(l2, l2.dog.cluster.epoch, env.last)
    case Reap => if l.dog.role != L.Primary then l else Prune(cfg, l, env.prune, env.now, env.full)
    case Bookworm => if l.dog.role != L.Primary then l else Broadcast(cfg, l, env.last, env.now, env.full)
    case Unregister(id, chan) =>
      if id in l.dog.subs && l.dog.subs[id] == chan then l.(dog := l.dog.(subs := l.dog.subs - {id})) else l
    case Demote =>
      if l.dog.role != L.Primary then l
      else
        var d := l.dog.(role := L.Standby, subs := map[]);
        l.(dog := d, qs := Retire(l.qs, Subscribed(l.dog), env.full, StandbyEnvelope(d)))
  }

  /** Demotion: make room for one envelope in each channel and post the change. */
  function Retire(qs: Queues, to: set<nat>, full: set<nat>, env: L.Envelope): Queues {
    map c | c in qs ::
      if c !in to then qs[c]
      else
        var rest := if qs[c] == [] then [] else qs[c][1..];
        if c in full then rest else rest + [env]
  }

  // ---- who hears of a change -----------------------------------------------

  /** Exactly the channels of subscribers with room gained env, each at its end. */
  ghost predicate Delivered(qs: Queues, qs': Queues, subs: map<string, nat>, full: set<nat>, env: L.Envelope) {
    && qs'.Keys == qs.Keys
    && forall c :: c in qs ==>
         qs'[c] == if (exists id :: id in subs && subs[id] == c) && c !in full then qs[c] + [env] else qs[c]
  }

  /** The last envelope in the channel is env. */
  ghost predicate EndsWith(qs: Queues, c: nat, env: L.Envelope) {
    c in qs && qs[c] != [] && qs[c][|qs[c]| - 1] == env
  }

  lemma BroadcastIs(cfg: Config, l: Local, call: Call, now: int, full: set<nat>)
    ensures
      var l' := Broadcast(cfg, l, call, now, full);
      && l'.dog == l.dog.(epochErr := !call.ok)
      && if call.ok
         then Delivered(l.qs, l'.qs, l.dog.subs, full,
                        L.Envelope(l.dog.generation, l.dog.cluster.epoch, now + cfg.leaseTTL, l.dog.role))
         else l'.qs == l.qs
  {
  }

  /** A change of the membership is heard of by every subscriber with room, if its epoch
      could be saved, and nothing else is heard. */
  ghost predicate Heard(cfg: Config, l: Local, l': Local, saved: bool, now: int, full: set<nat>) {
    && l'.qs.Keys == l.qs.Keys
    && if l'.dog.cluster.epoch > l.dog.cluster.epoch && saved
       then Delivered(l.qs, l'.qs, l'.dog.subs, full,
                      L.Envelope(l.dog.generation, l'.dog.cluster.epoch, now + cfg.leaseTTL, l.dog.role))
       else l'.qs == l.qs
  }

  lemma MutateIsHeard(cfg: Config, l: Local, op: C.Op, call: Call, now: int, full: set<nat>)
    requires !op.BumpTo?
    ensures Heard(cfg, l, Mutate(cfg, l, op, call, now, full), call.ok, now, full)
    ensures
      var d := Mutate(cfg, l, op, call, now, full).dog;
      && d == l.dog.(cluster := C.Apply(l.dog.cluster, op), epochErr := d.epochErr)
      && (C.Changes(l.dog.cluster, op) <==> d.cluster.epoch > l.dog.cluster.epoch)
      && d.epochErr == (if d.cluster.epoch > l.dog.cluster.epoch then !call.ok else l.dog.epochErr)
  {
    hide Broadcast, Delivered, C.Apply, C.Changes;
    C.ChangeRaises(l.dog.cluster, op);
    var l1 := l.(dog := l.dog.(cluster := C.Apply(l.dog.cluster, op)));
    BroadcastIs(cfg, l1, call, now, full);
  }

  /** A prune that changes nothing leaves the subscribers; else exactly those listed stay. */
  ghost predicate Subscribers(cfg: Config, l: Local, l': Local, now: int) {
    && (l'.dog.cluster.epoch == l.dog.cluster.epoch ==> l'.dog.subs == l.dog.subs)
    && (l'.dog.cluster.epoch > l.dog.cluster.epoch ==>
          forall id :: id in l'.dog.subs <==>
            && id in l.dog.subs && id in l'.dog.cluster.nodes
            && var n := l'.dog.cluster.nodes[id];
               n.state != C.Removed && n.state != C.Unreachable && now - n.lastHeartbeat <= cfg.expireAfter)
    && (forall id :: id in l'.dog.subs ==> id in l.dog.subs && l'.dog.subs[id] == l.dog.subs[id])
  }

  lemma PruneIsHeard(cfg: Config, l: Local, call: Call, now: int, full: set<nat>)
    ensures Heard(cfg, l, Prune(cfg, l, call, now, full), call.ok, now, full)
    ensures Subscribers(cfg, l, Prune(cfg, l, call, now, full), now)
  {
    hide Mutate, Delivered, C.Apply, C.Changes, C.NodesAfter, C.Members;
    var op := C.Prune(cfg.suspectAfter, cfg.expireAfter, now);
    var members := C.Members(C.NodesAfter(l.dog.cluster, op), cfg.expireAfter, now);
    var l1 := l.(dog := l.dog.(subs := map id | id in l.dog.subs && id in members :: l.dog.subs[id]));
    MutateIsHeard(cfg, l1, op, call, now, full);
    MutateIsHeard(cfg, l, op, call, now, full);
    C.MembersAre(C.NodesAfter(l.dog.cluster, op), cfg.expireAfter, now);
    C.ChangeRaises(l.dog.cluster, op);
  }

  /** What a heartbeat does after load and prune. A stale one does nothing. Any other
      subscribes its channel; a change is heard of like any change; without one nothing
      is heard but by a sender that lags behind, unless the epoch may not be durable. */
  ghost predicate BeatHeard(cfg: Config, l: Local, l': Local, b: C.Beat, observed: int, chan: nat, saved: bool,
                            now: int, full: set<nat>) {
    if b.nodeID in l.dog.cluster.nodes && b.incarnation < l.dog.cluster.nodes[b.nodeID].incarnation then l' == l
    else
      && l'.dog.subs == l.dog.subs[b.nodeID := chan]
      && var env := L.Envelope(l.dog.generation, l'.dog.cluster.epoch, now + cfg.leaseTTL, l.dog.role);
         if l'.dog.cluster.epoch > l.dog.cluster.epoch then
           if saved then Delivered(l.qs, l'.qs, l'.dog.subs, full, env) else l'.qs == l.qs
         else
           && l'.qs.Keys == l.qs.Keys
           && forall c :: c in l.qs ==>
                l'.qs[c] == if c == chan && observed < l'.dog.cluster.epoch && !l.dog.epochErr && c !in full
                            then l.qs[c] + [env] else l.qs[c]
  }

  lemma BeatIsHeard(cfg: Config, l: Local, b: C.Beat, observed: int, chan: nat, call: Call, now: int, full: set<nat>)
    ensures BeatHeard(cfg, l, Beat(cfg, l, b, observed, chan, call, now, full), b, observed, chan, call.ok, now, full)
    ensures
      var d := Beat(cfg, l, b, observed, chan, call, now, full).dog;
      d.cluster.epoch >= l.dog.cluster.epoch && (d.generation, d.role) == (l.dog.generation, l.dog.role)
  {
    hide Mutate, Delivered, C.Apply, C.Changes;
    var l1 := l.(dog := l.dog.(subs := l.dog.subs[b.nodeID := chan]));
    MutateIsHeard(cfg, l1, C.ApplyBeat(b), call, now, full);
    C.ChangeRaises(l.dog.cluster, C.ApplyBeat(b));
  }

  /** After an operation that raised the epoch, every subscriber with room has the
      envelope of the new epoch last in its channel; the sender only if it lags. */
  ghost predicate Reached(cfg: Config, l': Local, observed: int, chan: nat, now: int, full: set<nat>) {
    forall id :: id in l'.dog.subs && l'.dog.subs[id] in l'.qs && l'.dog.subs[id] !in full
                 && (l'.dog.subs[id] != chan || observed < l'.dog.cluster.epoch) ==>
      EndsWith(l'.qs, l'.dog.subs[id],
               L.Envelope(l'.dog.generation, l'.dog.cluster.epoch, now + cfg.leaseTTL, l'.dog.role))
  }

  lemma DeliveredReaches(cfg: Config, qs: Queues, l': Local, observed: int, chan: nat, now: int, full: set<nat>)
    requires Delivered(qs, l'.qs, l'.dog.subs, full,
                       L.Envelope(l'.dog.generation, l'.dog.cluster.epoch, now + cfg.leaseTTL, l'.dog.role))
    ensures Reached(cfg, l', observed, chan, now, full)
  {
  }

  /** A heartbeat that changes nothing leaves everyone reached who was. */
  lemma QuietBeatReaches(cfg: Config, l: Local, l': Local, b: C.Beat, observed: int, chan: nat, now: int,
                         full: set<nat>)
    requires BeatHeard(cfg, l, l', b, observed, chan, true, now, full)
    requires l'.dog.cluster.epoch == l.dog.cluster.epoch && !l.dog.epochErr
    requires (l'.dog.generation, l'.dog.role) == (l.dog.generation, l.dog.role)
    requires Reached(cfg, l, l.dog.cluster.epoch - 1, chan, now, full)
    ensures Reached(cfg, l', observed, chan, now, full)
  {
  }

  /** The epoch a heartbeat starts from: the stored one counts if it is loaded now. */
  function LoadedEpoch(l: Local, call: Call): int {
    if l.dog.loaded then l.dog.cluster.epoch else Max(l.dog.cluster.epoch, l.store + call.rise)
  }

  /** A whole heartbeat, load and prune included, that raised the epoch and whose saves
      succeeded, whichever of its parts made the change. */
  lemma HeartbeatReaches(cfg: Config, l: Local, b: C.Beat, observed: int, chan: nat, env: Env)
    requires LoadOk(l, env.load) && env.prune.ok && env.last.ok
    requires Run(cfg, l, RegisterHeartbeat(b, observed, chan), env).dog.cluster.epoch > LoadedEpoch(l, env.load)
    ensures Reached(cfg, Run(cfg, l, RegisterHeartbeat(b, observed, chan), env), observed, chan, env.now, env.full)
  {
    hide Run, Prune, Beat, Load, Reached, Delivered, BeatHeard;
    RegisterIs(cfg, l, b, observed, chan, env);
    var l1 := Load(l, env.load);
    LoadIs(l, env.load);
    PruneIsHeard(cfg, l1, env.prune, env.now, env.full);
    var l2 := Prune(cfg, l1, env.prune, env.now, env.full);
    PruneKeepsIdentity(cfg, l1, env.prune, env.now, env.full);
    BeatIsHeard(cfg, l2, b, observed, chan, env.last, env.now, env.full);
    var l3 := Beat(cfg, l2, b, observed, chan, env.last, env.now, env.full);
    if l3.dog.cluster.epoch > l2.dog.cluster.epoch {
      LoudBeat(cfg, l2, l3, b, observed, chan, env.now, env.full);
      DeliveredReaches(cfg, l2.qs, l3, observed, chan, env.now, env.full);
    } else {
      DeliveredReaches(cfg, l1.qs, l2, l2.dog.cluster.epoch - 1, chan, env.now, env.full);
      QuietBeatReaches(cfg, l2, l3, b, observed, chan, env.now, env.full);
    }
  }

  lemma RegisterIs(cfg: Config, l: Local, b: C.Beat, observed: int, chan: nat, env: Env)
    requires LoadOk(l, env.load)
    ensures Run(cfg, l, RegisterHeartbeat(b, observed, chan), env) ==
            Beat(cfg, Prune(cfg, Load(l, env.load), env.prune, env.now, env.full), b, observed, chan, env.last,
                 env.now, env.full)
  {
  }

  lemma LoudBeat(cfg: Config, l: Local, l': Local, b: C.Beat, observed: int, chan: nat, now: int, full: set<nat>)
    requires BeatHeard(cfg, l, l', b, observed, chan, true, now, full)
    requires l'.dog.cluster.epoch > l.dog.cluster.epoch
    ensures Delivered(l.qs, l'.qs, l'.dog.subs, full,
                      L.Envelope(l.dog.generation, l'.dog.cluster.epoch, now + cfg.leaseTTL, l.dog.role))
  {
  }

  lemma LoadIs(l: Local, call: Call)
    ensures
      var l' := Load(l, call);
      && l'.qs == l.qs && l'.dog.subs == l.dog.subs && l'.dog.cluster.nodes == l.dog.cluster.nodes
      && (l'.dog.generation, l'.dog.role) == (l.dog.generation, l.dog.role)
      && (LoadOk(l, call) ==> l'.dog.loaded && l'.dog.cluster.epoch == LoadedEpoch(l, call))
  {
  }

  lemma PruneKeepsIdentity(cfg: Config, l: Local, call: Call, now: int, full: set<nat>)
    ensures
      var l' := Prune(cfg, l, call, now, full);
      && l'.dog.cluster.epoch >= l.dog.cluster.epoch
      && (l'.dog.generation, l'.dog.role) == (l.dog.generation, l.dog.role)
      && (l'.dog.cluster.epoch > l.dog.cluster.epoch ==> l'.dog.epochErr == !call.ok)
  {
    hide Mutate, C.Apply, C.Changes;
    var op := C.Prune(cfg.suspectAfter, cfg.expireAfter, now);
    var members := C.Members(C.NodesAfter(l.dog.cluster, op), cfg.expireAfter, now);
    var l1 := l.(dog := l.dog.(subs := map id | id in l.dog.subs && id in members :: l.dog.subs[id]));
    MutateIsHeard(cfg, l1, op, call, now, full);
    MutateIsHeard(cfg, l, op, call, now, full);
  }

  /** What each operation does to the membership: a heartbeat is a prune and a beat, an
      observation is one, a reaper's pass and a request are a prune, after a load where
      one is due; everything else leaves it. */
  lemma ClusterAfter(cfg: Config, l: Local, op: Op, env: Env)
    ensures
      var c, pruned := Run(cfg, l, op, env).dog.cluster, C.Prune(cfg.suspectAfter, cfg.expireAfter, env.now);
      var loaded := C.State(l.dog.cluster.nodes, LoadedEpoch(l, env.load));
      match op
      case RegisterHeartbeat(b, _, _) =>
        c == if LoadOk(l, env.load) then C.Apply(C.Apply(loaded, pruned), C.ApplyBeat(b)) else l.dog.cluster
      case ObservePods(pods) =>
        c == if l.dog.role == L.Primary && LoadOk(l, env.load)
             then C.Apply(loaded, C.ObservePods(pods, cfg.expireAfter, env.now)) else l.dog.cluster
      case GetTopology =>
        c == if l.dog.role == L.Primary && LoadOk(l, env.load) then C.Apply(loaded, pruned) else l.dog.cluster
      case Reap => c == if l.dog.role == L.Primary then C.Apply(l.dog.cluster, pruned) else l.dog.cluster
      case _ => c == l.dog.cluster
  {
    hide C.Changes, C.NodesAfter, C.Members, Push, Retire;
    LoadIs(l, env.load);
    C.ChangeRaises(l.dog.cluster, C.BumpTo(l.store + env.load.rise));
    if op.RegisterHeartbeat? && LoadOk(l, env.load) {
      var c := Prune(cfg, Load(l, env.load), env.prune, env.now, env.full).dog.cluster;
      if C.Stale(c.nodes, op.b) { C.StaleDoesNothing(c, op.b); }
    }
  }

  /** Demotion seen from a channel: a subscriber's loses its oldest envelope and gains
      one that says standby, if there is room for it then; any other keeps what it has. */
  ghost predicate Retired(q: seq<L.Envelope>, q': seq<L.Envelope>, full: bool, generation: int, subscribed: bool) {
    if !subscribed then q' == q
    else q' == (if q == [] then [] else q[1..]) + if full then [] else [L.Envelope(generation, 0, 0, L.Standby)]
  }

  // ---- the service as an object -------------------------------------------

  /** What the watchdogs share: the channels and the epoch store. */
  class Hub {
    var qs: Queues
    var store: int

    constructor (stored: int)
      ensures qs == map[] && store == stored
    {
      qs, store := map[], stored;
    }
  }

  class Service {
    const cfg: Config
    const hub: Hub
    const cluster: C.ClusterState
    var generation: int
    var role: L.Role
    var loadedEpoch: bool
    var epochErr: bool
    var subscribers: map<string, nat>

    ghost function View(): Local
      reads this, hub, cluster
    {
      Local(Watchdog(generation, role, cluster.View(), loadedEpoch, epochErr, subscribers), hub.qs, hub.store)
    }

    constructor (cfg: Config, hub: Hub, generation: int)
      ensures this.cfg == cfg && this.hub == hub && fresh(cluster)
      ensures View() == Local(Watchdog(generation, L.Primary, C.EMPTY, false, false, map[]), hub.qs, hub.store)
    {
      this.cfg, this.hub, this.generation := cfg, hub, generation;
      cluster := new C.ClusterState();
      role, loadedEpoch, epochErr, subscribers := L.Primary, false, false, map[];
    }

    method LoadEpochLocked(call: Call) returns (ok: bool)
      modifies this, hub, cluster
      ensures ok == LoadOk(old(View()), call) && View() == Load(old(View()), call)
      ensures ok <==> old(loadedEpoch) || call.ok
      ensures ok ==> loadedEpoch
      ensures old(loadedEpoch) ==> View() == old(View())
      ensures !old(loadedEpoch) ==> hub.store == old(hub.store) + call.rise && epochErr == !call.ok
      ensures !old(loadedEpoch) && ok ==> cluster.epoch == Max(old(cluster.epoch), hub.store)
      ensures !ok ==> !loadedEpoch && cluster.epoch == old(cluster.epoch)
      ensures cluster.nodes == old(cluster.nodes) && subscribers == old(subscribers) && hub.qs == old(hub.qs)
      ensures (generation, role) == old((generation, role))
    {
      if loadedEpoch {
        return true;
      }
      hub.store := hub.store + call.rise;
      if !call.ok {
        epochErr := true;
        return false;
      }
      loadedEpoch := true;
      cluster.BumpEpochAtLeast(hub.store);
      epochErr := false;
      return true;
    }

    method SaveEpochLocked(epoch: int, call: Call) returns (ok: bool)
      modifies this, hub
      ensures ok == call.ok && View() == Save(old(View()), epoch, call)
      ensures epochErr == !ok && hub.qs == old(hub.qs)
      ensures hub.store >= old(hub.store) && (ok ==> hub.store >= epoch)
      ensures hub.store == old(hub.store) + call.rise || (hub.store == epoch && (ok || call.landed))
    {
      hub.store := hub.store + call.rise;
      if call.ok || call.landed {
        hub.store := Max(hub.store, epoch);
      }
      epochErr := !call.ok;
      return call.ok;
    }

    method PushTo(to: set<nat>, env: L.Envelope)
      modifies hub
      ensures hub.qs == Push(old(hub.qs), to, env) && hub.store == old(hub.store)
    {
      var left := to;
      while left != {}
        invariant left <= to && hub.store == old(hub.store) && hub.qs.Keys == old(hub.qs).Keys
        invariant forall c :: c in hub.qs ==>
                                hub.qs[c] == if c in to && c !in left then old(hub.qs)[c] + [env] else old(hub.qs)[c]
      {
        var c :| c in left;
        left := left - {c};
        if c in hub.qs {
          hub.qs := hub.qs[c := hub.qs[c] + [env]];
        }
      }
    }

    method BroadcastLocked(call: Call, now: int, full: set<nat>)
      modifies this, hub
      ensures View() == Broadcast(cfg, old(View()), call, now, full)
      ensures call.ok ==> Delivered(old(hub.qs), hub.qs, subscribers, full,
                                    L.Envelope(generation, cluster.epoch, now + cfg.leaseTTL, role))
      ensures call.ok ==> hub.store >= cluster.epoch
      ensures !call.ok ==> hub.qs == old(hub.qs)
      ensures (generation, role, loadedEpoch, subscribers) == old((generation, role, loadedEpoch, subscribers))
      ensures epochErr == !call.ok
    {
      var env := L.Envelope(generation, cluster.epoch, now + cfg.leaseTTL, role);
      var ok := SaveEpochLocked(env.epoch, call);
      if !ok {
        return;
      }
      PushTo((set id | id in subscribers :: subscribers[id]) - full, env);
    }

    method SendLatestLocked(chan: nat, now: int, full: set<nat>)
      modifies hub
      ensures View() == SendLatest(cfg, old(View()), chan, now, full)
      ensures hub.qs.Keys == old(hub.qs).Keys
      ensures forall c :: c in hub.qs ==>
                hub.qs[c] == old(hub.qs)[c] + if c == chan && !epochErr && c !in full
                                              then [L.Envelope(generation, cluster.epoch, now + cfg.leaseTTL, role)]
                                              else []
    {
      if epochErr {
        return;
      }
      PushTo({chan} - full, L.Envelope(generation, cluster.epoch, now + cfg.leaseTTL, role));
    }

    method PruneExpiredLocked(call: Call, now: int, full: set<nat>)
      modifies this, hub, cluster
      ensures View() == Prune(cfg, old(View()), call, now, full)
      ensures Heard(cfg, old(View()), View(), call.ok, now, full) && Subscribers(cfg, old(View()), View(), now)
      ensures (generation, role, loadedEpoch) == old((generation, role, loadedEpoch))
      ensures forall id :: id in old(cluster.nodes) ==>
                C.PruneLeaves(old(cluster.nodes)[id], cfg.suspectAfter, cfg.expireAfter, now,
                              C.Found(cluster.nodes, id))
    {
      hide Heard, Subscribers, C.PruneLeaves;
      PruneIsHeard(cfg, View(), call, now, full);
      var changed := cluster.PruneExpired(cfg.suspectAfter, cfg.expireAfter, now);
      if !changed {
        return;
      }
      var active := C.Members(cluster.nodes, cfg.expireAfter, now);
      subscribers := map id | id in subscribers && id in active :: subscribers[id];
      BroadcastLocked(call, now, full);
    }

    method RegisterHeartbeatLocked(b: C.Beat, observed: int, chan: nat, env: Env) returns (ok: bool)
      modifies this, hub, cluster
      ensures ok == LoadOk(old(View()), env.load)
      ensures View() == Run(cfg, old(View()), RegisterHeartbeat(b, observed, chan), env)
      ensures ok && env.prune.ok && env.last.ok && cluster.epoch > LoadedEpoch(old(View()), env.load) ==>
                Reached(cfg, View(), observed, chan, env.now, env.full)
      ensures !ok ==> hub.qs == old(hub.qs) && subscribers == old(subscribers)
    {
      hide Prune, Broadcast, SendLatest, Load, Reached, Delivered, Heard, Subscribers, C.PruneLeaves;
      ghost var l := View();
      if LoadOk(l, env.load) && env.prune.ok && env.last.ok
         && Run(cfg, l, RegisterHeartbeat(b, observed, chan), env).dog.cluster.epoch > LoadedEpoch(l, env.load) {
        HeartbeatReaches(cfg, l, b, observed, chan, env);
      }
      ok := LoadEpochLocked(env.load);
      if !ok {
        return;
      }
      PruneExpiredLocked(env.prune, env.now, env.full);
      var changed, stale := cluster.ApplyHeartbeat(b, true, env.now);
      if stale {
        return;
      }
      subscribers := subscribers[b.nodeID := chan];
      if changed {
        BroadcastLocked(env.last, env.now, env.full);
        return;
      }
      if observed < cluster.epoch {
        SendLatestLocked(chan, env.now, env.full);
      }
    }

    method ObservePodsLocked(pods: seq<C.Pod>, env: Env)
      modifies this, hub, cluster
      ensures View() == Run(cfg, old(View()), ObservePods(pods), env)
      ensures role != L.Primary ==> View() == old(View())
      ensures role == L.Primary && LoadOk(old(View()), env.load) ==>
                && subscribers == old(subscribers)
                && if cluster.epoch > LoadedEpoch(old(View()), env.load) && env.last.ok
                   then Delivered(old(hub.qs), hub.qs, subscribers, env.full,
                                  L.Envelope(generation, cluster.epoch, env.now + cfg.leaseTTL, role))
                   else hub.qs == old(hub.qs)
    {
      hide Broadcast, Load, Delivered, C.PodLeaves;
      if role != L.Primary {
        return;
      }
      var ok := LoadEpochLocked(env.load);
      if !ok {
        return;
      }
      var changed := cluster.ApplyPodObservations(pods, cfg.expireAfter, env.now);
      if changed {
        BroadcastLocked(env.last, env.now, env.full);
      }
    }

    /** Returns an envelope only once its epoch is persisted. */
    method GetTopologyLocked(env: Env) returns (r: Option<L.Envelope>)
      modifies this, hub, cluster
      ensures View() == Run(cfg, old(View()), GetTopology, env)
      ensures old(role) != L.Primary ==> r == Some(StandbyEnvelope(View().dog))
      ensures old(role) == L.Primary && r.Some? ==> r.value.epoch == View().dog.cluster.epoch <= hub.store
      ensures old(role) == L.Primary && r.Some? ==>
                r.value == L.Envelope(generation, cluster.epoch, env.now + cfg.leaseTTL, L.Primary)
      ensures old(role) != L.Primary ==> r == Some(L.Envelope(generation, 0, 0, role)) && View() == old(View())
      ensures role == L.Primary ==> (r.Some? <==> (old(loadedEpoch) || env.load.ok) && env.last.ok)
    {
      hide Prune, Load, Heard, Subscribers, C.PruneLeaves;
      if role != L.Primary {
        return Some(L.Envelope(generation, 0, 0, role));
      }
      var ok := LoadEpochLocked(env.load);
      if !ok {
        return None;
      }
      PruneExpiredLocked(env.prune, env.now, env.full);
      var envelope := L.Envelope(generation, cluster.epoch, env.now + cfg.leaseTTL, role);
      ok := SaveEpochLocked(envelope.epoch, env.last);
      if !ok {
        return None;
      }
      return Some(envelope);
    }

    method ReapLocked(env: Env)
      modifies this, hub, cluster
      ensures View() == Run(cfg, old(View()), Reap, env)
      ensures role == L.Primary ==> Heard(cfg, old(View()), View(), env.prune.ok, env.now, env.full)
    {
      hide Heard, Prune, Subscribers, C.PruneLeaves;
      if role == L.Primary {
        PruneExpiredLocked(env.prune, env.now, env.full);
      }
    }

    method BookwormLocked(env: Env)
      modifies this, hub
      ensures View() == Run(cfg, old(View()), Bookworm, env)
      ensures role == L.Primary && env.last.ok ==>
                Delivered(old(hub.qs), hub.qs, subscribers, env.full,
                          L.Envelope(generation, cluster.epoch, env.now + cfg.leaseTTL, L.Primary))
    {
      if role == L.Primary {
        BroadcastLocked(env.last, env.now, env.full);
      }
    }

    method UnregisterLocked(nodeID: string, chan: nat, env: Env)
      modifies this
      ensures View() == Run(cfg, old(View()), Unregister(nodeID, chan), env)
      ensures forall id :: id in subscribers <==>
                id in old(subscribers) && !(id == nodeID && old(subscribers)[id] == chan)
      ensures forall id :: id in subscribers ==> subscribers[id] == old(subscribers)[id]
    {
      if nodeID in subscribers && subscribers[nodeID] == chan {
        subscribers := subscribers - {nodeID};
      }
    }

    /** Loss of leadership: every subscriber is told and forgotten. */
    method SetStandby(env: Env)
      modifies this, hub
      ensures View() == Run(cfg, old(View()), Demote, env)
      ensures old(role) != L.Primary ==> View() == old(View())
      ensures old(role) == L.Primary ==>
                && role == L.Standby && subscribers == map[] && hub.qs.Keys == old(hub.qs).Keys
                && forall c :: c in hub.qs ==> Retired(old(hub.qs)[c], hub.qs[c], c in env.full, generation,
                                                       exists id :: id in old(subscribers) && old(subscribers)[id] == c)
    {
      if role != L.Primary {
        return;
      }
      role := L.Standby;
      var envelope := L.Envelope(generation, 0, 0, role);
      var to := set id | id in subscribers :: subscribers[id];
      var left := to;
      while left != {}
        modifies hub
        invariant left <= to && hub.store == old(hub.store) && hub.qs.Keys == old(hub.qs).Keys
        invariant forall c :: c in hub.qs ==>
                                hub.qs[c] == if c in left then old(hub.qs)[c]
                                             else Retire(old(hub.qs), to, env.full, envelope)[c]
      {
        var c :| c in left;
        left := left - {c};
        if c in hub.qs {
          var rest := if hub.qs[c] == [] then [] else hub.qs[c][1..];
          hub.qs := hub.qs[c := if c in env.full then rest else rest + [envelope]];
        }
      }
      assert hub.qs == Retire(old(hub.qs), to, env.full, envelope);
      subscribers := map[];
    }
  }
}
