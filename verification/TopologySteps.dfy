// Several watchdogs, one epoch store and many nodes: every run of service
// operations, leadership changes, connections, deliveries and losses.
module TopologySteps {
  import opened Records
  import opened Topology
  import L = Lease
  import C = Cluster

  /** A node: its lease and the channel of its current subscription. */
  datatype Node = Node(lease: L.State, conn: Option<nat>)

  /** owner tells which watchdog serves a channel; issued is the generation
      counter. */
  datatype World = World(dogs: map<nat, Watchdog>, qs: Queues, owner: map<nat, nat>,
                         store: int, issued: int, nodes: map<string, Node>)

  /** A start takes the next generation; `skipped` counts the numbers lost to calls
      that took effect without an answer. */
  datatype Step =
    | Start(pid: nat, skipped: nat)
    | Serve(pid: nat, op: Topology.Op, env: Env)
    | Boot(node: string)
    | Open(node: string, pid: nat, chan: nat)
    | Close(node: string)
    | Deliver(node: string, now: int)

  function LocalOf(w: World, pid: nat): Local
    requires pid in w.dogs
  {
    Local(w.dogs[pid], w.qs, w.store)
  }

  /** Heartbeats arrive on a channel of the watchdog that serves it. */
  predicate Served(w: World, pid: nat, op: Topology.Op) {
    pid in w.dogs && (op.RegisterHeartbeat? ==> op.chan in w.qs && op.chan in w.owner && w.owner[op.chan] == pid)
  }

  function Next(cfg: Config, w: World, step: Step): World {
    match step
    case Start(pid, skipped) =>
      if pid in w.dogs then w
      else
        var generation := w.issued + 1 + skipped;
        w.(issued := generation,
           dogs := w.dogs[pid := Watchdog(generation, L.Primary, C.EMPTY, false, false, map[])])
    case Serve(pid, op, env) =>
      if !Served(w, pid, op) then w
      else
        var l := Run(cfg, LocalOf(w, pid), op, env);
        w.(dogs := w.dogs[pid := l.dog], qs := l.qs, store := l.store)
    case Boot(n) =>
      if n in w.nodes then w else w.(nodes := w.nodes[n := Node(L.INITIAL, None)])
    case Open(n, pid, chan) =>
      if n !in w.nodes || pid !in w.dogs || chan in w.qs then w
      else w.(qs := w.qs[chan := []], owner := w.owner[chan := pid],
              nodes := w.nodes[n := w.nodes[n].(conn := Some(chan))])
    case Close(n) =>
      if n in w.nodes then w.(nodes := w.nodes[n := w.nodes[n].(conn := None)]) else w
    case Deliver(n, now) =>
      if !CanDeliver(w, n) then w
      else
        var c := w.nodes[n].conn.value;
        var env, lease := w.qs[c][0], w.nodes[n].lease;
        var node := if L.Refusal(lease, env, now).Some? then Node(lease.(validUntil := 0), None)
                    else Node(L.AfterApply(lease, env, now), Some(c));
        w.(qs := w.qs[c := w.qs[c][1..]], nodes := w.nodes[n := node])
  }

  predicate CanDeliver(w: World, n: string) {
    n in w.nodes && w.nodes[n].conn.Some? && w.nodes[n].conn.value in w.qs && w.qs[w.nodes[n].conn.value] != []
  }

  function Exec(cfg: Config, w: World, steps: seq<Step>): World {
    if steps == [] then w else Next(cfg, Exec(cfg, w, steps[..|steps| - 1]), steps[|steps| - 1])
  }

  function Init(stored: nat, issued: nat): World {
    World(map[], map[], map[], stored, issued, map[])
  }

  // ---- one watchdog --------------------------------------------------------

  /** Every queued envelope is durable; the primary ones carry this watchdog's
      generation, in epoch order, none beyond its present epoch. */
  ghost predicate QueueOk(q: seq<L.Envelope>, d: Watchdog, store: int) {
    && (forall i :: 0 <= i < |q| ==> q[i].epoch <= store)
    && (forall i :: 0 <= i < |q| && q[i].role == L.Primary ==>
                      q[i].generation == d.generation && q[i].epoch <= d.cluster.epoch)
    && (forall i, j :: 0 <= i < j < |q| && q[i].role == L.Primary && q[j].role == L.Primary ==>
        q[i].epoch <= q[j].epoch)
  }

  ghost predicate WeakInv(l: Local, owned: set<nat>) {
    && l.store >= 0 && l.dog.cluster.epoch >= 0
    && (!l.dog.loaded ==> l.dog.cluster == C.EMPTY && l.dog.subs == map[])
    && (forall id :: id in l.dog.subs ==> l.dog.subs[id] in owned)
    && owned <= l.qs.Keys
    && (forall c :: c in owned ==> QueueOk(l.qs[c], l.dog, l.store))
  }

  /** The core: loaded and without an epoch error, the cluster epoch is persisted. */
  ghost predicate LocalInv(l: Local, owned: set<nat>) {
    WeakInv(l, owned) && (l.dog.loaded && !l.dog.epochErr ==> l.dog.cluster.epoch <= l.store)
  }

  /** What an operation may do: raise epochs, and add envelopes of this watchdog
      at its epoch or later to its own channels. */
  ghost predicate Keeps(l: Local, l': Local, owned: set<nat>)
    requires owned <= l.qs.Keys
  {
    && l'.dog.generation == l.dog.generation
    && l.dog.cluster.epoch <= l'.dog.cluster.epoch && l.store <= l'.store
    && l'.qs.Keys == l.qs.Keys
    && (forall c :: c in l.qs && c !in owned ==> l'.qs[c] == l.qs[c])
    && (forall c :: c in owned ==> Grew(l.qs[c], l'.qs[c], l.dog.generation, l.dog.cluster.epoch))
  }

  ghost predicate Grew(q: seq<L.Envelope>, q': seq<L.Envelope>, gen: int, lo: int) {
    forall e :: e in q' ==> e in q || e.role != L.Primary || (e.generation == gen && e.epoch >= lo)
  }

  lemma KeepsTransitive(a: Local, b: Local, c: Local, owned: set<nat>)
    requires owned <= a.qs.Keys && Keeps(a, b, owned) && Keeps(b, c, owned)
    ensures Keeps(a, c, owned)
  {
    forall x | x in owned
      ensures Grew(a.qs[x], c.qs[x], a.dog.generation, a.dog.cluster.epoch)
    {
      assert Grew(a.qs[x], b.qs[x], a.dog.generation, a.dog.cluster.epoch);
      assert Grew(b.qs[x], c.qs[x], b.dog.generation, b.dog.cluster.epoch);
    }
  }

  lemma PushKeeps(l: Local, owned: set<nat>, to: set<nat>, e: L.Envelope)
    requires WeakInv(l, owned) && to <= owned
    requires e.epoch == l.dog.cluster.epoch <= l.store && e.generation == l.dog.generation
    ensures WeakInv(l.(qs := Push(l.qs, to, e)), owned)
    ensures Keeps(l, l.(qs := Push(l.qs, to, e)), owned)
  {
    var qs' := Push(l.qs, to, e);
    forall c | c in owned
      ensures QueueOk(qs'[c], l.dog, l.store) && Grew(l.qs[c], qs'[c], l.dog.generation, l.dog.cluster.epoch)
    {
      assert QueueOk(l.qs[c], l.dog, l.store);
    }
  }

  lemma RaisedKeeps(l: Local, l': Local, owned: set<nat>)
    requires WeakInv(l, owned)
    requires l'.qs == l.qs && l.store <= l'.store && l'.dog.generation == l.dog.generation
    requires l.dog.cluster.epoch <= l'.dog.cluster.epoch
    requires !l'.dog.loaded ==> l'.dog.cluster == C.EMPTY && l'.dog.subs == map[]
    requires forall id :: id in l'.dog.subs ==> l'.dog.subs[id] in owned
    ensures WeakInv(l', owned) && Keeps(l, l', owned)
  {
    forall c | c in owned
      ensures QueueOk(l'.qs[c], l'.dog, l'.store)
    {
      assert QueueOk(l.qs[c], l.dog, l.store);
    }
  }

  /** A broadcast establishes the core even when the epoch has just been raised:
      nothing is sent unless the save succeeded, and a failed save is an error. */
  lemma BroadcastKeeps(cfg: Config, l: Local, owned: set<nat>, call: Call, now: int, full: set<nat>)
    requires WeakInv(l, owned)
    ensures LocalInv(Broadcast(cfg, l, call, now, full), owned)
    ensures Keeps(l, Broadcast(cfg, l, call, now, full), owned)
  {
    hide QueueOk, Grew;
    var e := EnvelopeFor(cfg, l.dog, now);
    var l1 := Save(l, e.epoch, call);
    RaisedKeeps(l, l1, owned);
    if call.ok {
      PushKeeps(l1, owned, Subscribed(l1.dog) - full, e);
      KeepsTransitive(l, l1, Broadcast(cfg, l, call, now, full), owned);
    }
  }

  lemma SendLatestKeeps(cfg: Config, l: Local, owned: set<nat>, chan: nat, now: int, full: set<nat>)
    requires LocalInv(l, owned) && l.dog.loaded && chan in owned
    ensures LocalInv(SendLatest(cfg, l, chan, now, full), owned)
    ensures Keeps(l, SendLatest(cfg, l, chan, now, full), owned)
  {
    hide QueueOk;
    if l.dog.epochErr {
      RaisedKeeps(l, l, owned);
    } else {
      PushKeeps(l, owned, {chan} - full, EnvelopeFor(cfg, l.dog, now));
    }
  }

  lemma LoadKeeps(l: Local, owned: set<nat>, call: Call)
    requires LocalInv(l, owned)
    ensures LocalInv(Load(l, call), owned) && Keeps(l, Load(l, call), owned)
    ensures LoadOk(l, call) ==> Load(l, call).dog.loaded
  {
    hide QueueOk, Grew, C.NodesAfter;
    RaisedKeeps(l, Load(l, call), owned);
  }

  lemma MutateKeeps(cfg: Config, l: Local, owned: set<nat>, op: C.Op, call: Call, now: int, full: set<nat>)
    requires LocalInv(l, owned) && l.dog.loaded && !op.BumpTo?
    ensures LocalInv(Mutate(cfg, l, op, call, now, full), owned)
    ensures Keeps(l, Mutate(cfg, l, op, call, now, full), owned)
    ensures Mutate(cfg, l, op, call, now, full).dog.loaded
  {
    hide QueueOk, Grew, C.NodesAfter, C.Changes;
    var l1 := l.(dog := l.dog.(cluster := C.Apply(l.dog.cluster, op)));
    RaisedKeeps(l, l1, owned);
    if C.Changes(l.dog.cluster, op) {
      BroadcastKeeps(cfg, l1, owned, call, now, full);
      KeepsTransitive(l, l1, Broadcast(cfg, l1, call, now, full), owned);
    }
  }

  lemma PruneKeeps(cfg: Config, l: Local, owned: set<nat>, call: Call, now: int, full: set<nat>)
    requires LocalInv(l, owned)
    ensures LocalInv(Prune(cfg, l, call, now, full), owned)
    ensures Keeps(l, Prune(cfg, l, call, now, full), owned)
    ensures l.dog.loaded ==> Prune(cfg, l, call, now, full).dog.loaded
  {
    var op := C.Prune(cfg.suspectAfter, cfg.expireAfter, now);
    if !l.dog.loaded {
      EmptyPrune(cfg, l, call, now, full);
      RaisedKeeps(l, l, owned);
    } else {
      PruneLoaded(cfg, l, owned, op, call, now, full);
    }
  }

  lemma EmptyPrune(cfg: Config, l: Local, call: Call, now: int, full: set<nat>)
    requires l.dog.cluster == C.EMPTY
    ensures Prune(cfg, l, call, now, full) == l
  {
  }

  lemma PruneLoaded(cfg: Config, l: Local, owned: set<nat>, op: C.Op, call: Call, now: int, full: set<nat>)
    requires LocalInv(l, owned) && l.dog.loaded && op == C.Prune(cfg.suspectAfter, cfg.expireAfter, now)
    ensures LocalInv(Prune(cfg, l, call, now, full), owned)
    ensures Keeps(l, Prune(cfg, l, call, now, full), owned)
    ensures Prune(cfg, l, call, now, full).dog.loaded
  {
    hide QueueOk, Grew, C.NodesAfter, C.Changes, Mutate, C.Members;
    var members := C.Members(C.NodesAfter(l.dog.cluster, op), cfg.expireAfter, now);
    var subs := map id | id in l.dog.subs && id in members :: l.dog.subs[id];
    var l1 := l.(dog := l.dog.(subs := subs));
    RaisedKeeps(l, l1, owned);
    MutateKeeps(cfg, l1, owned, op, call, now, full);
    MutateKeeps(cfg, l, owned, op, call, now, full);
    KeepsTransitive(l, l1, Mutate(cfg, l1, op, call, now, full), owned);
  }

  lemma BeatKeeps(cfg: Config, l: Local, owned: set<nat>, b: C.Beat, observed: int, chan: nat, call: Call,
                  now: int, full: set<nat>)
    requires LocalInv(l, owned) && l.dog.loaded && chan in owned
    ensures LocalInv(Beat(cfg, l, b, observed, chan, call, now, full), owned)
    ensures Keeps(l, Beat(cfg, l, b, observed, chan, call, now, full), owned)
  {
    hide QueueOk, Grew, C.Changes, C.Stale, Mutate, SendLatest;
    var l1 := l.(dog := l.dog.(subs := l.dog.subs[b.nodeID := chan]));
    RaisedKeeps(l, l, owned);
    RaisedKeeps(l, l1, owned);
    var l2 := Mutate(cfg, l1, C.ApplyBeat(b), call, now, full);
    MutateKeeps(cfg, l1, owned, C.ApplyBeat(b), call, now, full);
    KeepsTransitive(l, l1, l2, owned);
    SendLatestKeeps(cfg, l2, owned, chan, now, full);
    KeepsTransitive(l, l2, SendLatest(cfg, l2, chan, now, full), owned);
  }

  lemma DemoteKeeps(cfg: Config, l: Local, owned: set<nat>, env: Env)
    requires LocalInv(l, owned)
    ensures LocalInv(Run(cfg, l, Demote, env), owned) && Keeps(l, Run(cfg, l, Demote, env), owned)
  {
    hide QueueOk, Grew;
    var l' := Run(cfg, l, Demote, env);
    RaisedKeeps(l, l, owned);
    forall c | c in owned
      ensures QueueOk(l'.qs[c], l'.dog, l'.store) && Grew(l.qs[c], l'.qs[c], l.dog.generation, l.dog.cluster.epoch)
    {
      assert QueueOk(l.qs[c], l.dog, l.store);
      RetiredQueue(l.qs[c], l'.qs[c], l.dog, l'.dog, l.store, StandbyEnvelope(l'.dog));
    }
  }

  /** Dropping the oldest envelope and adding a standby one. */
  lemma RetiredQueue(q: seq<L.Envelope>, q': seq<L.Envelope>, d: Watchdog, d': Watchdog, store: int, e: L.Envelope)
    requires QueueOk(q, d, store) && store >= 0
    requires d'.generation == d.generation && d'.cluster == d.cluster
    requires q' == q || (e.role != L.Primary && e.epoch == 0 &&
                         var rest := if q == [] then [] else q[1..]; q' == rest || q' == rest + [e])
    ensures QueueOk(q', d', store) && Grew(q, q', d.generation, d.cluster.epoch)
  {
    if q' != q && q != [] {
      assert forall i :: 0 <= i < |q[1..]| ==> q[1..][i] == q[i + 1];
    }
  }

  lemma OpKeeps(cfg: Config, l: Local, owned: set<nat>, op: Topology.Op, env: Env)
    requires LocalInv(l, owned) && (op.RegisterHeartbeat? ==> op.chan in owned)
    ensures LocalInv(Run(cfg, l, op, env), owned) && Keeps(l, Run(cfg, l, op, env), owned)
  {
    hide WeakInv, QueueOk, Keeps, Grew, Load, Prune, Beat, Mutate, Broadcast;
    WeakBasics(l, owned);
    RaisedKeeps(l, l, owned);
    var l1 := Load(l, env.load);
    LoadKeeps(l, owned, env.load);
    WeakBasics(l1, owned);
    match op
    case RegisterHeartbeat(b, observed, chan) =>
      if LoadOk(l, env.load) {
        PruneKeeps(cfg, l1, owned, env.prune, env.now, env.full);
        var l2 := Prune(cfg, l1, env.prune, env.now, env.full);
        WeakBasics(l2, owned);
        BeatKeeps(cfg, l2, owned, b, observed, chan, env.last, env.now, env.full);
        KeepsTransitive(l, l1, l2, owned);
        KeepsTransitive(l, l2, Run(cfg, l, op, env), owned);
      }
    case ObservePods(pods) =>
      if l.dog.role == L.Primary && LoadOk(l, env.load) {
        MutateKeeps(cfg, l1, owned, C.ObservePods(pods, cfg.expireAfter, env.now), env.last, env.now, env.full);
        KeepsTransitive(l, l1, Run(cfg, l, op, env), owned);
      }
    case GetTopology =>
      if l.dog.role == L.Primary && LoadOk(l, env.load) {
        PruneKeeps(cfg, l1, owned, env.prune, env.now, env.full);
        var l2 := Prune(cfg, l1, env.prune, env.now, env.full);
        WeakBasics(l2, owned);
        SaveKeeps(l2, owned, env.last);
        KeepsTransitive(l, l1, l2, owned);
        KeepsTransitive(l, l2, Run(cfg, l, op, env), owned);
      }
    case Reap => PruneKeeps(cfg, l, owned, env.prune, env.now, env.full);
    case Bookworm => BroadcastKeeps(cfg, l, owned, env.last, env.now, env.full);
    case Unregister(id, chan) => RaisedKeeps(l, Run(cfg, l, op, env), owned);
    case Demote => DemoteKeeps(cfg, l, owned, env);
  }

  lemma SaveKeeps(l: Local, owned: set<nat>, call: Call)
    requires LocalInv(l, owned)
    ensures LocalInv(Save(l, l.dog.cluster.epoch, call), owned)
    ensures Keeps(l, Save(l, l.dog.cluster.epoch, call), owned)
  {
    RaisedKeeps(l, Save(l, l.dog.cluster.epoch, call), owned);
  }

  lemma WeakBasics(l: Local, owned: set<nat>)
    requires WeakInv(l, owned)
    ensures owned <= l.qs.Keys && (forall id :: id in l.dog.subs ==> l.dog.subs[id] in owned)
    ensures !l.dog.loaded ==> l.dog.cluster == C.EMPTY && l.dog.subs == map[]
  {
  }

  // ---- all watchdogs and nodes --------------------------------------------

  ghost function Owned(w: World, pid: nat): set<nat> {
    set c | c in w.qs && c in w.owner && w.owner[c] == pid
  }

  /** Queued primary envelopes of the lease's generation are not behind it. */
  ghost predicate Floor(lease: L.State, q: seq<L.Envelope>) {
    forall e :: e in q && e.role == L.Primary && e.generation == lease.generation ==> lease.epoch <= e.epoch
  }

  ghost predicate NodeOk(w: World, n: Node) {
    && n.lease.epoch <= w.store && n.lease.generation <= w.issued
    && (forall pid :: pid in w.dogs && w.dogs[pid].generation == n.lease.generation ==>
                        n.lease.epoch <= w.dogs[pid].cluster.epoch)
    && (n.conn.Some? ==> n.conn.value in w.qs && Floor(n.lease, w.qs[n.conn.value]))
  }

  ghost predicate DogsOk(w: World) {
    && (forall pid :: pid in w.dogs ==>
        LocalInv(LocalOf(w, pid), Owned(w, pid)) && 0 < w.dogs[pid].generation <= w.issued)
    && (forall a, b :: a in w.dogs && b in w.dogs && w.dogs[a].generation == w.dogs[b].generation ==> a == b)
  }

  ghost predicate Inv(w: World) {
    && w.store >= 0 && w.issued >= 0
    && w.owner.Keys == w.qs.Keys && (forall c :: c in w.owner ==> w.owner[c] in w.dogs)
    && DogsOk(w)
    && (forall n :: n in w.nodes ==> NodeOk(w, w.nodes[n]))
  }

  lemma StartKeeps(cfg: Config, w: World, pid: nat, skipped: nat)
    requires Inv(w)
    ensures Inv(Next(cfg, w, Start(pid, skipped)))
  {
    hide LocalInv, Floor, Topology.Run, DogsOk;
    var w' := Next(cfg, w, Start(pid, skipped));
    if w' != w {
      StartDogs(w, w', pid);
      forall n | n in w'.nodes
        ensures NodeOk(w', w'.nodes[n])
      {
        assert NodeOk(w, w.nodes[n]);
      }
    }
  }

  /** A new watchdog owns no channel and has a generation of its own. */
  lemma StartDogs(w: World, w': World, pid: nat)
    requires DogsOk(w) && pid !in w.dogs && w'.issued > w.issued >= 0 && w.store >= 0
    requires forall c :: c in w.owner ==> w.owner[c] in w.dogs
    requires w' == w.(issued := w'.issued,
                      dogs := w.dogs[pid := Watchdog(w'.issued, L.Primary, C.EMPTY, false, false, map[])])
    ensures DogsOk(w')
  {
    hide LocalInv;
    forall p | p in w'.dogs
      ensures LocalInv(LocalOf(w', p), Owned(w', p))
    {
      assert Owned(w', p) == Owned(w, p);
      if p == pid {
        assert Owned(w', pid) == {};
        FreshDog(LocalOf(w', pid));
      } else {
        assert LocalOf(w', p) == LocalOf(w, p);
      }
    }
  }

  lemma FreshDog(l: Local)
    requires l.store >= 0 && l.dog.cluster == C.EMPTY && !l.dog.loaded && l.dog.subs == map[]
    ensures LocalInv(l, {})
  {
  }

  lemma OpenKeeps(cfg: Config, w: World, n: string, pid: nat, chan: nat)
    requires Inv(w)
    ensures Inv(Next(cfg, w, Open(n, pid, chan)))
  {
    hide LocalInv, Topology.Run, DogsOk;
    var w' := Next(cfg, w, Open(n, pid, chan));
    if w' != w {
      OpenDogs(w, w', pid, chan);
      forall m | m in w'.nodes
        ensures NodeOk(w', w'.nodes[m])
      {
        assert NodeOk(w, w.nodes[m]);
      }
    }
  }

  lemma OpenDogs(w: World, w': World, pid: nat, chan: nat)
    requires DogsOk(w) && chan !in w.qs && pid in w.dogs
    requires w' == w.(qs := w.qs[chan := []], owner := w.owner[chan := pid], nodes := w'.nodes)
    ensures DogsOk(w')
  {
    hide LocalInv;
    forall p | p in w'.dogs
      ensures LocalInv(LocalOf(w', p), Owned(w', p))
    {
      assert LocalInv(LocalOf(w, p), Owned(w, p));
      assert Owned(w', p) == Owned(w, p) + (if p == pid then {chan} else {});
      LocalFrame(LocalOf(w, p), LocalOf(w', p), Owned(w, p), Owned(w', p));
    }
  }

  /** A watchdog is not disturbed by what happens on other channels. */
  lemma LocalFrame(l: Local, l': Local, owned: set<nat>, owned': set<nat>)
    requires LocalInv(l, owned) && owned <= owned' <= l'.qs.Keys
    requires l'.dog == l.dog && l.store <= l'.store
    requires forall c :: c in owned' ==> if c in owned then Suffix(l'.qs[c], l.qs[c]) else l'.qs[c] == []
    ensures LocalInv(l', owned')
  {
    forall c | c in owned'
      ensures QueueOk(l'.qs[c], l'.dog, l'.store)
    {
      if c in owned {
        assert QueueOk(l.qs[c], l.dog, l.store);
        if l'.qs[c] != l.qs[c] {
          assert forall i :: 0 <= i < |l'.qs[c]| ==> l'.qs[c][i] == l.qs[c][i + 1];
        }
      }
    }
  }

  ghost predicate Suffix(q': seq<L.Envelope>, q: seq<L.Envelope>) {
    q' == q || (q != [] && q' == q[1..])
  }

  lemma ServeKeeps(cfg: Config, w: World, pid: nat, op: Topology.Op, env: Env)
    requires Inv(w) && Served(w, pid, op)
    ensures Inv(Next(cfg, w, Serve(pid, op, env)))
  {
    hide LocalInv, Floor, Topology.Run, Grew, NodeOk;
    var w', l, owned := Next(cfg, w, Serve(pid, op, env)), LocalOf(w, pid), Owned(w, pid);
    assert LocalInv(l, owned);
    OpKeeps(cfg, l, owned, op, env);
    var l' := Topology.Run(cfg, l, op, env);
    StoreStays(l', owned);
    ServedDogs(w, w', pid, l, l');
    forall n | n in w'.nodes
      ensures NodeOk(w', w'.nodes[n])
    {
      ServedNode(w, w', pid, l, l', w.nodes[n]);
    }
  }

  lemma ServedDogs(w: World, w': World, pid: nat, l: Local, l': Local)
    requires DogsOk(w) && pid in w.dogs && l == LocalOf(w, pid) && Owned(w, pid) <= w.qs.Keys
    requires LocalInv(l', Owned(w, pid)) && Keeps(l, l', Owned(w, pid))
    requires w' == w.(dogs := w.dogs[pid := l'.dog], qs := l'.qs, store := l'.store)
    ensures DogsOk(w')
  {
    hide LocalInv, Grew;
    forall p | p in w'.dogs
      ensures LocalInv(LocalOf(w', p), Owned(w', p))
    {
      assert Owned(w', p) == Owned(w, p);
      if p == pid {
        assert LocalOf(w', p) == l';
      } else {
        assert LocalInv(LocalOf(w, p), Owned(w, p));
        LocalFrame(LocalOf(w, p), LocalOf(w', p), Owned(w, p), Owned(w', p));
      }
    }
  }

  lemma StoreStays(l: Local, owned: set<nat>)
    requires LocalInv(l, owned)
    ensures l.store >= 0
  {
  }

  lemma ServedNode(w: World, w': World, pid: nat, l: Local, l': Local, n: Node)
    requires NodeOk(w, n) && pid in w.dogs && l == LocalOf(w, pid) && Owned(w, pid) <= w.qs.Keys
    requires w.owner.Keys == w.qs.Keys
    requires Keeps(l, l', Owned(w, pid))
    requires w' == w.(dogs := w.dogs[pid := l'.dog], qs := l'.qs, store := l'.store)
    ensures NodeOk(w', n)
  {
    if n.conn.Some? && n.conn.value in Owned(w, pid) {
      var c := n.conn.value;
      assert Grew(w.qs[c], w'.qs[c], l.dog.generation, l.dog.cluster.epoch);
    }
  }

  lemma DeliverKeeps(cfg: Config, w: World, n: string, now: int)
    requires Inv(w) && CanDeliver(w, n)
    ensures Inv(Next(cfg, w, Deliver(n, now)))
  {
    hide DogsOk, Floor, Topology.Run;
    var w', c := Next(cfg, w, Deliver(n, now)), w.nodes[n].conn.value;
    assert w'.qs.Keys == w.qs.Keys;
    DeliverDogs(w, w', c);
    DeliveredNode(w, n, now);
    forall m | m in w'.nodes && m != n
      ensures NodeOk(w', w'.nodes[m])
    {
      assert NodeOk(w, w.nodes[m]);
      FloorTail(w.nodes[m].lease, w.qs[c]);
    }
  }

  lemma DeliverDogs(w: World, w': World, c: nat)
    requires DogsOk(w) && c in w.qs && w.qs[c] != []
    requires w' == w.(qs := w.qs[c := w.qs[c][1..]], nodes := w'.nodes)
    ensures DogsOk(w')
  {
    hide LocalInv;
    forall p | p in w'.dogs
      ensures LocalInv(LocalOf(w', p), Owned(w', p))
    {
      assert LocalInv(LocalOf(w, p), Owned(w, p));
      assert Owned(w', p) == Owned(w, p);
      LocalFrame(LocalOf(w, p), LocalOf(w', p), Owned(w, p), Owned(w', p));
    }
  }

  lemma FloorTail(lease: L.State, q: seq<L.Envelope>)
    requires q != []
    ensures Floor(lease, q) ==> Floor(lease, q[1..])
  {
  }

  /** The node's own state after a delivery. */
  lemma DeliveredNode(w: World, n: string, now: int)
    requires Inv(w) && CanDeliver(w, n)
    ensures
      var c := w.nodes[n].conn.value;
      var env, lease := w.qs[c][0], w.nodes[n].lease;
      var w1 := w.(qs := w.qs[c := w.qs[c][1..]]);
      && NodeOk(w1, Node(lease.(validUntil := 0), None))
      && (L.Refusal(lease, env, now).None? ==> NodeOk(w1, Node(L.AfterApply(lease, env, now), Some(c))))
  {
    var c := w.nodes[n].conn.value;
    var env, lease := w.qs[c][0], w.nodes[n].lease;
    assert NodeOk(w, w.nodes[n]);
    var pid := w.owner[c];
    assert LocalInv(LocalOf(w, pid), Owned(w, pid)) && c in Owned(w, pid);
    assert QueueOk(w.qs[c], w.dogs[pid], w.store);
    if L.Refusal(lease, env, now).None? {
      assert Floor(L.AfterApply(lease, env, now), w.qs[c][1..]);
    }
  }

  /** What a node does to itself disturbs no watchdog and no other node. */
  lemma NodesOnly(w: World, w': World)
    requires w' == w.(nodes := w'.nodes)
    ensures DogsOk(w) ==> DogsOk(w')
    ensures forall n :: NodeOk(w, n) ==> NodeOk(w', n)
  {
    hide LocalInv, Floor;
    forall p | p in w'.dogs
      ensures LocalOf(w', p) == LocalOf(w, p) && Owned(w', p) == Owned(w, p)
    {
    }
  }

  lemma NewNode(w: World)
    requires Inv(w)
    ensures NodeOk(w, Node(L.INITIAL, None))
  {
    hide LocalInv;
  }

  lemma NodeStepsKeep(cfg: Config, w: World, step: Step)
    requires Inv(w) && (step.Boot? || step.Close?)
    ensures Inv(Next(cfg, w, step))
  {
    hide LocalInv, Floor, Topology.Run, DogsOk;
    var w' := Next(cfg, w, step);
    NodesOnly(w, w');
    NewNode(w);
    forall n | n in w'.nodes
      ensures NodeOk(w', w'.nodes[n])
    {
      if n in w.nodes { assert NodeOk(w, w.nodes[n]); }
    }
  }

  lemma StepKeeps(cfg: Config, w: World, step: Step)
    requires Inv(w)
    ensures Inv(Next(cfg, w, step))
  {
    hide Inv;
    match step
    case Start(pid, skipped) => StartKeeps(cfg, w, pid, skipped);
    case Serve(pid, op, env) => if Served(w, pid, op) { ServeKeeps(cfg, w, pid, op, env); }
    case Boot(_) => NodeStepsKeep(cfg, w, step);
    case Open(n, pid, chan) => OpenKeeps(cfg, w, n, pid, chan);
    case Close(_) => NodeStepsKeep(cfg, w, step);
    case Deliver(n, now) => if CanDeliver(w, n) { DeliverKeeps(cfg, w, n, now); }
  }

  lemma {:induction false} RunKeepsInv(cfg: Config, stored: nat, issued: nat, steps: seq<Step>)
    ensures Inv(Exec(cfg, Init(stored, issued), steps))
  {
    hide Next;
    if steps != [] {
      RunKeepsInv(cfg, stored, issued, steps[..|steps| - 1]);
      StepKeeps(cfg, Exec(cfg, Init(stored, issued), steps[..|steps| - 1]), steps[|steps| - 1]);
    }
  }

  // ---- what every run guarantees ------------------------------------------

  /** No envelope is ever in a channel, and no node ever follows one, whose epoch
      is not persisted; loaded and without an error, a watchdog's own epoch is. */
  lemma EnvelopesAreDurable(cfg: Config, stored: nat, issued: nat, steps: seq<Step>)
    ensures
      var w := Exec(cfg, Init(stored, issued), steps);
      && (forall c, i :: c in w.qs && 0 <= i < |w.qs[c]| ==> w.qs[c][i].epoch <= w.store)
      && (forall n :: n in w.nodes ==> w.nodes[n].lease.epoch <= w.store)
      && (forall p :: p in w.dogs && w.dogs[p].loaded && !w.dogs[p].epochErr ==> w.dogs[p].cluster.epoch <= w.store)
  {
    RunKeepsInv(cfg, stored, issued, steps);
    var w := Exec(cfg, Init(stored, issued), steps);
    AllQueuesOk(w);
  }

  lemma AllQueuesOk(w: World)
    requires Inv(w)
    ensures forall c :: c in w.qs ==> w.owner[c] in w.dogs && QueueOk(w.qs[c], w.dogs[w.owner[c]], w.store)
  {
    forall c | c in w.qs
      ensures w.owner[c] in w.dogs && QueueOk(w.qs[c], w.dogs[w.owner[c]], w.store)
    {
      var pid := w.owner[c];
      assert LocalInv(LocalOf(w, pid), Owned(w, pid)) && c in Owned(w, pid);
    }
  }

  /** In every run, a node never refuses an envelope of its subscription as stale
      by epoch, whatever was dropped and however often it reconnected; and
      refuses one as stale by generation only after accepting a newer primary.
      The newest primary is never refused as stale. */
  lemma NewestIsNeverStale(cfg: Config, stored: nat, issued: nat, steps: seq<Step>, n: string, now: int)
    requires CanDeliver(Exec(cfg, Init(stored, issued), steps), n)
    ensures
      var w := Exec(cfg, Init(stored, issued), steps);
      var c := w.nodes[n].conn.value;
      var refusal := L.Refusal(w.nodes[n].lease, w.qs[c][0], now);
      && refusal != Some(L.StaleEpoch)
      && (refusal == Some(L.StaleGeneration) ==> w.qs[c][0].generation < w.nodes[n].lease.generation <= w.issued)
      && (w.qs[c][0].generation == w.issued ==> refusal != Some(L.StaleGeneration))
  {
    RunKeepsInv(cfg, stored, issued, steps);
    var w := Exec(cfg, Init(stored, issued), steps);
    assert NodeOk(w, w.nodes[n]);
    var q := w.qs[w.nodes[n].conn.value];
    assert q[0] in q;
  }

  /** A watchdog that loads its epoch starts at or above every epoch that any
      envelope or any node carries at that moment. */
  lemma RecoveredEpochDominates(cfg: Config, stored: nat, issued: nat, steps: seq<Step>, pid: nat, call: Call)
    requires pid in Exec(cfg, Init(stored, issued), steps).dogs && call.ok
    requires !Exec(cfg, Init(stored, issued), steps).dogs[pid].loaded
    ensures
      var w := Exec(cfg, Init(stored, issued), steps);
      var epoch := Load(LocalOf(w, pid), call).dog.cluster.epoch;
      && (forall c, i :: c in w.qs && 0 <= i < |w.qs[c]| ==> w.qs[c][i].epoch <= epoch)
      && (forall n :: n in w.nodes ==> w.nodes[n].lease.epoch <= epoch)
  {
    EnvelopesAreDurable(cfg, stored, issued, steps);
    LoadedAtLeast(LocalOf(Exec(cfg, Init(stored, issued), steps), pid), call);
  }

  lemma LoadedAtLeast(l: Local, call: Call)
    requires call.ok && !l.dog.loaded
    ensures Load(l, call).dog.cluster.epoch >= l.store
  {
  }

  // ---- a change reaches the nodes ------------------------------------------

  function Delivers(n: string, t: int, k: nat): seq<Step> {
    if k == 0 then [] else Delivers(n, t, k - 1) + [Deliver(n, t)]
  }

  /** Node n is connected on channel c, which holds only envelopes of the newest primary
      that are still valid at t. */
  ghost predicate Fresh(w: World, n: string, c: nat, t: int) {
    && n in w.nodes && w.nodes[n].conn == Some(c) && c in w.qs
    && forall i :: 0 <= i < |w.qs[c]| ==>
         w.qs[c][i].role == L.Primary && w.qs[c][i].generation == w.issued && t < w.qs[c][i].validUntil
  }

  lemma DeliverOne(cfg: Config, w: World, n: string, c: nat, t: int)
    requires Inv(w) && Fresh(w, n, c, t) && w.qs[c] != []
    ensures
      var w', e := Next(cfg, w, Deliver(n, t)), w.qs[c][0];
      && Fresh(w', n, c, t) && w'.qs[c] == w.qs[c][1..]
      && w'.nodes[n].lease.generation == e.generation && w'.nodes[n].lease.epoch == e.epoch
      && w'.nodes[n].lease.validUntil == e.validUntil
  {
    hide LocalInv;
    assert NodeOk(w, w.nodes[n]);
    assert w.qs[c][0] in w.qs[c];
  }

  lemma ExecSplit(cfg: Config, w: World, steps: seq<Step>, last: Step)
    ensures Exec(cfg, w, steps + [last]) == Next(cfg, Exec(cfg, w, steps), last)
  {
    assert (steps + [last])[..|steps|] == steps;
  }

  /** In every run, a node that takes k such envelopes follows the k-th. */
  lemma {:induction false} FollowsEach(cfg: Config, stored: nat, issued: nat, steps: seq<Step>, n: string, c: nat,
                                       t: int, k: nat)
    requires Fresh(Exec(cfg, Init(stored, issued), steps), n, c, t)
    requires k <= |Exec(cfg, Init(stored, issued), steps).qs[c]|
    ensures
      var w, w' := Exec(cfg, Init(stored, issued), steps), Exec(cfg, Init(stored, issued), steps + Delivers(n, t, k));
      && Fresh(w', n, c, t) && w'.qs[c] == w.qs[c][k..]
      && (k > 0 ==>
            && w'.nodes[n].lease.generation == w.qs[c][k - 1].generation
            && w'.nodes[n].lease.epoch == w.qs[c][k - 1].epoch
            && w'.nodes[n].lease.validUntil == w.qs[c][k - 1].validUntil)
  {
    hide Next, Inv;
    if k == 0 {
      assert steps + [] == steps;
    } else {
      var init := steps + Delivers(n, t, k - 1);
      FollowsEach(cfg, stored, issued, steps, n, c, t, k - 1);
      RunKeepsInv(cfg, stored, issued, init);
      DeliverOne(cfg, Exec(cfg, Init(stored, issued), init), n, c, t);
      ExecSplit(cfg, Init(stored, issued), init, Deliver(n, t));
      assert init + [Deliver(n, t)] == steps + Delivers(n, t, k);
    }
  }

  /** In every run: after a heartbeat that changed the membership at the newest primary,
      whose saves succeeded, each subscribed node with room whose channel holds nothing
      stale or expired, once it has taken what its channel holds, follows this primary,
      at the changed epoch, and serves exactly until the lease time is over. */
  lemma ChangeIsFollowed(cfg: Config, stored: nat, issued: nat, steps: seq<Step>, pid: nat, b: C.Beat, observed: int,
                         chan: nat, env: Env, n: string, id: string, t: int, w: World, w1: World)
    requires w == Exec(cfg, Init(stored, issued), steps) && pid in w.dogs && pid in w1.dogs
    requires w1 == Exec(cfg, Init(stored, issued),
                        steps + [Serve(pid, Topology.RegisterHeartbeat(b, observed, chan), env)])
    requires Served(w, pid, Topology.RegisterHeartbeat(b, observed, chan)) && LoadOk(LocalOf(w, pid), env.load)
    requires env.prune.ok && env.last.ok && w1.dogs[pid].cluster.epoch > LoadedEpoch(LocalOf(w, pid), env.load)
    requires id in w1.dogs[pid].subs && w1.dogs[pid].subs[id] !in env.full
    requires w1.dogs[pid].subs[id] != chan || observed < w1.dogs[pid].cluster.epoch
    requires Fresh(w1, n, w1.dogs[pid].subs[id], t)
    ensures
      var all := steps + [Serve(pid, Topology.RegisterHeartbeat(b, observed, chan), env)];
      var w2 := Exec(cfg, Init(stored, issued), all + Delivers(n, t, |w1.qs[w1.dogs[pid].subs[id]]|));
      && n in w2.nodes
      && w2.nodes[n].lease.generation == w1.dogs[pid].generation
      && w2.nodes[n].lease.epoch == w1.dogs[pid].cluster.epoch
      && w2.nodes[n].lease.validUntil == env.now + cfg.leaseTTL
  {
    hide Next, Topology.Run, Inv;
    var op := Topology.RegisterHeartbeat(b, observed, chan);
    ExecSplit(cfg, Init(stored, issued), steps, Serve(pid, op, env));
    ServeIs(cfg, w, pid, op, env);
    HeartbeatReaches(cfg, LocalOf(w, pid), b, observed, chan, env);
    var c := w1.dogs[pid].subs[id];
    FollowsEach(cfg, stored, issued, steps + [Serve(pid, op, env)], n, c, t, |w1.qs[c]|);
  }

  lemma ServeIs(cfg: Config, w: World, pid: nat, op: Topology.Op, env: Env)
    requires Served(w, pid, op)
    ensures
      var w' := Next(cfg, w, Serve(pid, op, env));
      pid in w'.dogs && LocalOf(w', pid) == Topology.Run(cfg, LocalOf(w, pid), op, env)
  {
    hide Topology.Run;
  }
}
