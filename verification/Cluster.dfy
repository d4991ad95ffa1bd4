// Membership as the watchdog keeps it: node lifecycles, heartbeats, pod
// observations, expiry, and the epoch that counts visible changes.
module Cluster {
  import opened Records

  datatype LifeState = Joining | Ready | Suspect | Unreachable | Draining | Leaving | Removed

  datatype LifeEvent = Heartbeat | Suspecting | Expire | Terminal | Drain | Leave | Remove

  /** The lifecycle table; an event the table does not list changes nothing. */
  function Transition(s: LifeState, ev: LifeEvent): LifeState {
    match ev
    case Heartbeat => if s in {Joining, Ready, Suspect, Unreachable} then Ready else s
    case Suspecting => if s in {Joining, Ready} then Suspect else s
    case Expire => if s in {Joining, Ready, Suspect, Draining, Leaving} then Unreachable else s
    case Terminal => Removed
    case Drain => if s in {Joining, Ready, Suspect} then Draining else s
    case Leave => if s in {Ready, Suspect, Draining} then Leaving else s
    case Remove => if s in {Unreachable, Leaving} then Removed else s
  }

  function ReportedEvent(s: LifeState): LifeEvent {
    match s
    case Draining => Drain
    case Leaving => Leave
    case Removed => Remove
    case _ => Heartbeat
  }

  /** How far along its life a node is; only a new incarnation goes back. */
  function Rank(s: LifeState): nat {
    match s
    case Draining => 1
    case Leaving => 2
    case Removed => 3
    case _ => 0
  }

  datatype Node = Node(podName: string, podIP: string, incarnation: int, state: LifeState, protocol: string,
                       lastHeartbeat: int, lastPodSeen: int, podReady: bool, podPhase: string)

  type Nodes = map<string, Node>

  /** A heartbeat; reported is None when the sender leaves it unspecified. */
  datatype Beat = Beat(nodeID: string, podName: string, podIP: string, incarnation: int,
                       reported: Option<LifeState>, protocol: string, seenAt: int)

  /** A pod observation; seenAt is None when the observer leaves it zero. */
  datatype Pod = Pod(podName: string, podIP: string, ready: bool, phase: string, seenAt: Option<int>)

  datatype State = State(nodes: Nodes, epoch: int)

  function Reported(b: Beat): LifeState {
    if b.reported.Some? then b.reported.value else Ready
  }

  function NewNode(b: Beat): Node {
    Node(b.podName, b.podIP, b.incarnation, Reported(b), b.protocol, b.seenAt, 0, false, "")
  }

  predicate Stale(nodes: Nodes, b: Beat) {
    b.nodeID in nodes && b.incarnation < nodes[b.nodeID].incarnation
  }

  /** The node after a heartbeat that is not stale. */
  function Beaten(n: Node, b: Beat): Node {
    n.(podName := b.podName, podIP := b.podIP, incarnation := b.incarnation, protocol := b.protocol,
       lastHeartbeat := b.seenAt,
       state := if b.incarnation > n.incarnation then Reported(b) else Transition(n.state, ReportedEvent(Reported(b))))
  }

  predicate BeatChanges(nodes: Nodes, b: Beat) {
    !Stale(nodes, b) &&
    (b.nodeID !in nodes ||
     var n := nodes[b.nodeID];
     || b.incarnation > n.incarnation || n.podName != b.podName || n.podIP != b.podIP || n.protocol != b.protocol
     || Beaten(n, b).state != n.state)
  }

  function AfterBeat(nodes: Nodes, b: Beat): Nodes {
    if Stale(nodes, b) then nodes
    else nodes[b.nodeID := if b.nodeID in nodes then Beaten(nodes[b.nodeID], b) else NewNode(b)]
  }

  /** What an operation does to one node: the node it leaves, if any, and whether
      it reports a change. */
  datatype Fate = Fate(kept: Option<Node>, changed: bool)

  type Rule = Node -> Fate

  function PruneRule(suspectAfter: int, expireAfter: int, now: int): Rule {
    (n: Node) =>
      if now - n.lastHeartbeat > expireAfter then
        var s1 := Transition(n.state, Expire);
        var s2 := Transition(s1, Remove);
        Fate(if s2 == Removed then None else Some(n.(state := s2)), s1 != n.state || s2 != s1)
      else if now - n.lastHeartbeat > suspectAfter then
        Fate(Some(n.(state := Transition(n.state, Suspecting))), Transition(n.state, Suspecting) != n.state)
      else Fate(Some(n), false)
  }

  /** Observations by pod name and by address; a later one replaces an earlier. */
  function ByName(pods: seq<Pod>): map<string, Pod> {
    if pods == [] then map[]
    else
      var p := pods[|pods| - 1];
      if p.podName != "" then ByName(pods[..|pods| - 1])[p.podName := p] else ByName(pods[..|pods| - 1])
  }

  function ByIP(pods: seq<Pod>): map<string, Pod> {
    if pods == [] then map[]
    else
      var p := pods[|pods| - 1];
      if p.podIP != "" then ByIP(pods[..|pods| - 1])[p.podIP := p] else ByIP(pods[..|pods| - 1])
  }

  function PodFor(n: Node, byName: map<string, Pod>, byIP: map<string, Pod>): Option<Pod> {
    if n.podName in byName then Some(byName[n.podName])
    else if n.podName == "" && n.podIP != "" && n.podIP in byIP then Some(byIP[n.podIP])
    else None
  }

  function PodRule(byName: map<string, Pod>, byIP: map<string, Pod>, expireAfter: int, now: int): Rule {
    (n: Node) =>
      match PodFor(n, byName, byIP)
      case None => if now - n.lastHeartbeat > expireAfter then Fate(None, true) else Fate(Some(n), false)
      case Some(p) =>
        var s := if p.phase == "Failed" || p.phase == "Succeeded" then Transition(n.state, Terminal) else n.state;
        Fate(Some(n.(state := s, podName := p.podName, podReady := p.ready, podPhase := p.phase,
                     lastPodSeen := if p.seenAt.Some? then p.seenAt.value else now)),
             s != n.state || n.podReady != p.ready || n.podPhase != p.phase || n.podName != p.podName)
  }

  function Survivors(nodes: Nodes, rule: Rule): Nodes {
    map id | id in nodes && rule(nodes[id]).kept.Some? :: rule(nodes[id]).kept.value
  }

  predicate AnyChange(nodes: Nodes, rule: Rule) {
    exists id :: id in nodes && rule(nodes[id]).changed
  }

  // ---- operations on values ------------------------------------------------

  datatype Op =
    | ApplyBeat(b: Beat)
    | ObservePods(pods: seq<Pod>, expireAfter: int, now: int)
    | Prune(suspectAfter: int, expireAfter: int, now: int)
    | BumpTo(epoch: int)

  predicate Changes(c: State, op: Op) {
    match op
    case ApplyBeat(b) => BeatChanges(c.nodes, b)
    case ObservePods(pods, exp, now) => AnyChange(c.nodes, PodRule(ByName(pods), ByIP(pods), exp, now))
    case Prune(sus, exp, now) => AnyChange(c.nodes, PruneRule(sus, exp, now))
    case BumpTo(_) => false
  }

  function NodesAfter(c: State, op: Op): Nodes {
    match op
    case ApplyBeat(b) => AfterBeat(c.nodes, b)
    case ObservePods(pods, exp, now) => Survivors(c.nodes, PodRule(ByName(pods), ByIP(pods), exp, now))
    case Prune(sus, exp, now) => Survivors(c.nodes, PruneRule(sus, exp, now))
    case BumpTo(_) => c.nodes
  }

  function Apply(c: State, op: Op): (c': State)
    ensures c'.epoch >= c.epoch
  {
    State(NodesAfter(c, op),
          if op.BumpTo? then (if op.epoch > c.epoch then op.epoch else c.epoch)
          else if Changes(c, op) then c.epoch + 1 else c.epoch)
  }

  function Run(c: State, ops: seq<Op>): State {
    if ops == [] then c else Apply(Run(c, ops[..|ops| - 1]), ops[|ops| - 1])
  }

  const EMPTY := State(map[], 0)

  // ---- the visible membership ---------------------------------------------

  datatype Member = Member(podName: string, podIP: string, incarnation: int, state: LifeState)

  function Face(n: Node): Member {
    Member(n.podName, n.podIP, n.incarnation, n.state)
  }

  predicate Shown(n: Node) {
    n.state != Removed && n.state != Unreachable
  }

  function Visible(nodes: Nodes): map<string, Member> {
    map id | id in nodes && Shown(nodes[id]) :: Face(nodes[id])
  }

  /** What an envelope lists: visible nodes heard from recently enough. */
  function Members(nodes: Nodes, expireAfter: int, now: int): map<string, Member> {
    map id | id in nodes && Shown(nodes[id]) && now - nodes[id].lastHeartbeat <= expireAfter :: Face(nodes[id])
  }

  lemma ChangeRaises(c: State, op: Op)
    ensures Apply(c, op).nodes == NodesAfter(c, op)
    ensures !op.BumpTo? ==> Apply(c, op).epoch == c.epoch + if Changes(c, op) then 1 else 0
  {
  }

  lemma StaleDoesNothing(c: State, b: Beat)
    requires Stale(c.nodes, b)
    ensures Apply(c, ApplyBeat(b)) == c
  {
  }

  /** Any operation that alters the visible membership raises the epoch. */
  lemma VisibleChangeRaisesEpoch(c: State, op: Op)
    ensures Visible(NodesAfter(c, op)) != Visible(c.nodes) ==> Apply(c, op).epoch > c.epoch
  {
    if !op.BumpTo? && !Changes(c, op) {
      var nodes' := NodesAfter(c, op);
      forall id: string
        ensures id in Visible(nodes') <==> id in Visible(c.nodes)
        ensures id in Visible(nodes') ==> Visible(nodes')[id] == Visible(c.nodes)[id]
      {
        if id in c.nodes {
          UnchangedFace(c, op, id);
        }
      }
      assert Visible(nodes') == Visible(c.nodes);
    }
  }

  lemma UnchangedFace(c: State, op: Op, id: string)
    requires !op.BumpTo? && !Changes(c, op) && id in c.nodes
    ensures id in NodesAfter(c, op) ==> Face(NodesAfter(c, op)[id]) == Face(c.nodes[id])
    ensures id !in NodesAfter(c, op) ==> !Shown(c.nodes[id])
  {
    match op
    case ApplyBeat(b) =>
    case ObservePods(pods, exp, now) =>
      assert !PodRule(ByName(pods), ByIP(pods), exp, now)(c.nodes[id]).changed;
    case Prune(sus, exp, now) =>
      assert !PruneRule(sus, exp, now)(c.nodes[id]).changed;
  }

  // ---- lifecycles over runs ------------------------------------------------

  /** (incarnation, rank) does not go back. */
  predicate NotBefore(n: Node, m: Node) {
    n.incarnation < m.incarnation || (n.incarnation == m.incarnation && Rank(n.state) <= Rank(m.state))
  }

  lemma StepNeverGoesBack(c: State, op: Op, id: string)
    requires id in c.nodes && id in NodesAfter(c, op)
    ensures NotBefore(c.nodes[id], NodesAfter(c, op)[id])
  {
    var n := c.nodes[id];
    match op
    case ApplyBeat(b) => RanksRise(n.state, ReportedEvent(Reported(b)));
    case ObservePods(pods, exp, now) => RanksRise(n.state, Terminal);
    case Prune(sus, exp, now) => RanksRise(n.state, Suspecting);
    case BumpTo(_) =>
  }

  lemma RanksRise(s: LifeState, ev: LifeEvent)
    ensures ev != Expire ==> Rank(Transition(s, ev)) <= 3 && Rank(s) <= Rank(Transition(s, ev))
  {
  }

  /** Over every run, while a node stays resident its incarnation never
      decreases, and within one incarnation its rank never decreases: a node that
      drained, left or was removed is revived only by a higher incarnation. */
  lemma {:induction false} LifecycleNeverGoesBack(c: State, ops: seq<Op>, id: string)
    requires forall k :: 0 <= k <= |ops| ==> id in Run(c, ops[..k]).nodes
    ensures id in c.nodes && id in Run(c, ops).nodes
    ensures NotBefore(c.nodes[id], Run(c, ops).nodes[id])
  {
    hide Apply, Transition;
    assert ops[..0] == [] && ops[..|ops|] == ops;
    if ops != [] {
      var init := ops[..|ops| - 1];
      assert forall k :: 0 <= k <= |init| ==> init[..k] == ops[..k];
      LifecycleNeverGoesBack(c, init, id);
      RunStep(c, ops);
      StepNeverGoesBack(Run(c, init), ops[|ops| - 1], id);
    }
  }

  lemma RunStep(c: State, ops: seq<Op>)
    requires ops != []
    ensures Run(c, ops).nodes == NodesAfter(Run(c, ops[..|ops| - 1]), ops[|ops| - 1])
  {
  }

  /** Inside one prune an expiring drained node passes through UNREACHABLE, but no
      state after the operation shows it: the node is gone. */
  lemma PruneRemovesExpired(c: State, sus: int, exp: int, now: int, id: string)
    ensures id in NodesAfter(c, Prune(sus, exp, now)) <==> id in c.nodes && now - c.nodes[id].lastHeartbeat <= exp
  {
    if id in c.nodes {
      ExpiredIsRemoved(c.nodes[id].state);
    }
  }

  lemma ExpiredIsRemoved(s: LifeState)
    ensures Transition(Transition(s, Expire), Remove) == Removed
  {
  }

  /** Prune, then a heartbeat at the same instant: the time filter of Members
      then removes nothing. */
  lemma PruneThenBeatShowsAll(c: State, sus: int, exp: int, b: Beat)
    requires exp >= 0
    ensures
      var c' := Apply(Apply(c, Prune(sus, exp, b.seenAt)), ApplyBeat(b));
      Members(c'.nodes, exp, b.seenAt) == Visible(c'.nodes)
  {
    var c1 := Apply(c, Prune(sus, exp, b.seenAt));
    var c' := Apply(c1, ApplyBeat(b));
    forall id | id in c'.nodes
      ensures b.seenAt - c'.nodes[id].lastHeartbeat <= exp
    {
      PruneRemovesExpired(c, sus, exp, b.seenAt, id);
      if id in c1.nodes {
        PruneKeepsHeartbeat(c, sus, exp, b.seenAt, id);
      }
    }
  }

  lemma PruneKeepsHeartbeat(c: State, sus: int, exp: int, now: int, id: string)
    requires id in NodesAfter(c, Prune(sus, exp, now))
    ensures id in c.nodes && NodesAfter(c, Prune(sus, exp, now))[id].lastHeartbeat == c.nodes[id].lastHeartbeat
  {
  }

  // ---- the lifecycle, state by state ---------------------------------------

  /** What a report of the same incarnation does to a node's state. */
  ghost predicate Follows(s: LifeState, reported: LifeState, s': LifeState) {
    match reported
    case Draining => s' == Draining <==> s in {Joining, Ready, Suspect, Draining}
    case Leaving => s' == Leaving <==> s in {Ready, Suspect, Draining, Leaving}
    case Removed => s' == Removed <==> s in {Unreachable, Leaving, Removed}
    case _ => s' == Ready <==> s in {Joining, Ready, Suspect, Unreachable}
  }

  /** The state a report stands for. */
  ghost function ReportedAs(reported: Option<LifeState>): LifeState {
    match reported
    case Some(Draining) => Draining
    case Some(Leaving) => Leaving
    case Some(Removed) => Removed
    case _ => Ready
  }

  /** The node a heartbeat makes of n: every field, in its own terms. */
  ghost predicate BeatMakes(n: Node, b: Beat, n': Node) {
    && (n'.podName, n'.podIP, n'.incarnation, n'.protocol) == (b.podName, b.podIP, b.incarnation, b.protocol)
    && n'.lastHeartbeat == b.seenAt
    && (n'.lastPodSeen, n'.podReady, n'.podPhase) == (n.lastPodSeen, n.podReady, n.podPhase)
    && if b.incarnation > n.incarnation then n'.state == (if b.reported.Some? then b.reported.value else Ready)
       else
         && Follows(n.state, ReportedAs(b.reported), n'.state)
         && (n'.state == ReportedAs(b.reported) || n'.state == n.state)
  }

  lemma BeatenIs(n: Node, b: Beat)
    requires b.incarnation >= n.incarnation
    ensures BeatMakes(n, b, Beaten(n, b))
  {
  }

  /** What a heartbeat that is not stale leaves: its own node, made or changed, and the
      others as they were; it reports a change exactly if more than the time changed. */
  ghost predicate BeatLeaves(nodes: Nodes, b: Beat, nodes': Nodes, changed: bool) {
    && nodes'.Keys == nodes.Keys + {b.nodeID}
    && (forall id :: id in nodes && id != b.nodeID ==> nodes'[id] == nodes[id])
    && var n' := nodes'[b.nodeID];
       if b.nodeID in nodes then
         var n := nodes[b.nodeID];
         BeatMakes(n, b, n') && (changed <==> n'.(lastHeartbeat := n.lastHeartbeat) != n)
       else
         changed && n' == Node(b.podName, b.podIP, b.incarnation, if b.reported.Some? then b.reported.value else Ready,
                               b.protocol, b.seenAt, 0, false, "")
  }

  lemma BeatIs(nodes: Nodes, b: Beat)
    ensures !Stale(nodes, b) ==> BeatLeaves(nodes, b, AfterBeat(nodes, b), BeatChanges(nodes, b))
  {
    hide BeatMakes, Transition;
    if !Stale(nodes, b) && b.nodeID in nodes {
      BeatenIs(nodes[b.nodeID], b);
    }
  }

  /** The observation is about this node: by pod name, or by address if it has no name. */
  ghost predicate About(p: Pod, n: Node) {
    if n.podName != "" then p.podName == n.podName else n.podIP != "" && p.podIP == n.podIP
  }

  /** Observation i is the last one about this node. */
  ghost predicate LastAbout(pods: seq<Pod>, n: Node, i: nat) {
    i < |pods| && About(pods[i], n) && forall j :: i < j < |pods| ==> !About(pods[j], n)
  }

  ghost predicate NoneAbout(pods: seq<Pod>, n: Node) {
    forall j :: 0 <= j < |pods| ==> !About(pods[j], n)
  }

  /** The node an observation makes of n; a finished pod removes it whatever its state. */
  ghost predicate PodMakes(n: Node, p: Pod, now: int, n': Node) {
    n' == n.(state := if p.phase == "Failed" || p.phase == "Succeeded" then Removed else n.state, podName := p.podName,
             podReady := p.ready, podPhase := p.phase, lastPodSeen := if p.seenAt.Some? then p.seenAt.value else now)
  }

  /** The indexes find the last observation about a node. */
  lemma {:induction false} PodForIsLast(pods: seq<Pod>, n: Node)
    ensures forall i: nat :: LastAbout(pods, n, i) ==> PodFor(n, ByName(pods), ByIP(pods)) == Some(pods[i])
    ensures NoneAbout(pods, n) ==> PodFor(n, ByName(pods), ByIP(pods)) == None
    ensures NoneAbout(pods, n) || exists i: nat :: LastAbout(pods, n, i)
  {
    NoEmptyName(pods);
    if pods != [] {
      var k := |pods| - 1;
      var init := pods[..k];
      PodForIsLast(init, n);
      if About(pods[k], n) {
        assert LastAbout(pods, n, k);
      } else {
        forall i: nat
          ensures LastAbout(pods, n, i) <==> LastAbout(init, n, i)
        {
        }
        assert NoneAbout(pods, n) <==> NoneAbout(init, n);
      }
    }
  }

  lemma {:induction false} NoEmptyName(pods: seq<Pod>)
    ensures "" !in ByName(pods) && "" !in ByIP(pods)
  {
    if pods != [] {
      NoEmptyName(pods[..|pods| - 1]);
    }
  }

  /** What a sweep over observations leaves of a node. */
  ghost predicate PodLeaves(n: Node, pods: seq<Pod>, expireAfter: int, now: int, kept: Option<Node>) {
    && (NoneAbout(pods, n) ==> kept == if now - n.lastHeartbeat > expireAfter then None else Some(n))
    && (forall i: nat :: LastAbout(pods, n, i) ==> kept.Some? && PodMakes(n, pods[i], now, kept.value))
  }

  /** It removed the node, or changed it in more than the time it was seen. */
  ghost predicate PodChanged(n: Node, kept: Option<Node>) {
    kept.None? || kept.value.(lastPodSeen := n.lastPodSeen) != n
  }

  lemma PodRuleIs(pods: seq<Pod>, exp: int, now: int, n: Node)
    ensures
      var fate := PodRule(ByName(pods), ByIP(pods), exp, now)(n);
      PodLeaves(n, pods, exp, now, fate.kept) && (fate.changed <==> PodChanged(n, fate.kept))
  {
    hide ByName, ByIP, LastAbout, NoneAbout, PodFor;
    PodForIsLast(pods, n);
  }

  /** What a prune leaves of a node: nothing after the expiry; before it, a joining or
      ready node whose heartbeat is too old becomes suspect. */
  ghost predicate PruneLeaves(n: Node, suspectAfter: int, expireAfter: int, now: int, kept: Option<Node>) {
    kept ==
    if now - n.lastHeartbeat > expireAfter then None
    else if now - n.lastHeartbeat > suspectAfter && n.state in {Joining, Ready} then Some(n.(state := Suspect))
    else Some(n)
  }

  /** It changed the node, or removed one that was not in state Removed already. */
  ghost predicate PruneChanged(n: Node, kept: Option<Node>) {
    if kept.Some? then kept.value != n else n.state != Removed
  }

  lemma PruneRuleIs(suspectAfter: int, expireAfter: int, now: int, n: Node)
    ensures
      var fate := PruneRule(suspectAfter, expireAfter, now)(n);
      PruneLeaves(n, suspectAfter, expireAfter, now, fate.kept) && (fate.changed <==> PruneChanged(n, fate.kept))
  {
    ExpiredIsRemoved(n.state);
  }

  function Found(nodes: Nodes, id: string): Option<Node> {
    if id in nodes then Some(nodes[id]) else None
  }

  /** Steps that leave a node alone or prune it before it expires. */
  ghost predicate Spares(op: Op, id: string, n: Node) {
    match op
    case ApplyBeat(b) => b.nodeID != id
    case Prune(_, exp, now) => now - n.lastHeartbeat <= exp
    case ObservePods(_, _, _) => false
    case BumpTo(_) => true
  }

  ghost predicate Suspects(op: Op, n: Node) {
    op.Prune? && op.now - n.lastHeartbeat > op.suspectAfter
  }

  /** Over every run that does not reach the node's expiry, a joining or ready node is
      suspect exactly if some prune found its heartbeat too old. */
  lemma {:induction false} SuspectIff(c: State, ops: seq<Op>, id: string)
    requires id in c.nodes && c.nodes[id].state in {Joining, Ready}
    requires forall k :: 0 <= k < |ops| ==> Spares(ops[k], id, c.nodes[id])
    ensures
      var n, c' := c.nodes[id], Run(c, ops);
      && id in c'.nodes
      && c'.nodes[id] == n.(state := if exists k :: 0 <= k < |ops| && Suspects(ops[k], n) then Suspect else n.state)
  {
    if ops != [] {
      var last, init := |ops| - 1, ops[..|ops| - 1];
      SuspectIff(c, init, id);
      var n, c1 := c.nodes[id], Run(c, init);
      if ops[last].Prune? {
        PruneRuleIs(ops[last].suspectAfter, ops[last].expireAfter, ops[last].now, c1.nodes[id]);
      }
      if k :| 0 <= k < |init| && Suspects(init[k], n) {
        assert Suspects(ops[k], n);
      }
    }
  }

  /** A node suspected in such a run is ready again after its next heartbeat, which is
      reported as a change, and it is listed until that heartbeat expires. */
  lemma SuspectRecovers(c: State, ops: seq<Op>, b: Beat)
    requires b.nodeID in c.nodes && c.nodes[b.nodeID].state in {Joining, Ready}
    requires forall k :: 0 <= k < |ops| ==> Spares(ops[k], b.nodeID, c.nodes[b.nodeID])
    requires exists k :: 0 <= k < |ops| && Suspects(ops[k], c.nodes[b.nodeID])
    requires b.incarnation == c.nodes[b.nodeID].incarnation && (b.reported == None || b.reported == Some(Ready))
    ensures
      var id, c1 := b.nodeID, Run(c, ops);
      var c2 := Apply(c1, ApplyBeat(b));
      && id in c1.nodes && c1.nodes[id].state == Suspect
      && id in c2.nodes && c2.nodes[id].state == Ready && c2.epoch == c1.epoch + 1
      && forall exp, t :: t - b.seenAt <= exp ==>
           && id in Members(c2.nodes, exp, t)
           && Members(c2.nodes, exp, t)[id] == Member(b.podName, b.podIP, b.incarnation, Ready)
  {
    SuspectIff(c, ops, b.nodeID);
    BeatenIs(Run(c, ops).nodes[b.nodeID], b);
  }

  // ---- the object ----------------------------------------------------------

  /** An envelope lists exactly the nodes that are neither removed nor unreachable and
      whose last heartbeat has not expired. */
  lemma MembersAre(nodes: Nodes, expireAfter: int, now: int)
    ensures forall id :: id in Members(nodes, expireAfter, now) <==>
              && id in nodes && nodes[id].state != Removed && nodes[id].state != Unreachable
              && now - nodes[id].lastHeartbeat <= expireAfter
    ensures forall id :: id in Members(nodes, expireAfter, now) ==>
              var n := nodes[id];
              Members(nodes, expireAfter, now)[id] == Member(n.podName, n.podIP, n.incarnation, n.state)
  {
  }

  class ClusterState {
    var nodes: Nodes
    var epoch: int

    function View(): State
      reads this
    {
      State(nodes, epoch)
    }

    constructor ()
      ensures View() == EMPTY
    {
      nodes, epoch := map[], 0;
    }

    /** `timed` tells whether the observation carries a time; if not, it is now. */
    method ApplyHeartbeat(obs: Beat, timed: bool, now: int) returns (changed: bool, stale: bool)
      modifies this
      ensures stale == Stale(old(nodes), obs)
      ensures changed == Changes(old(View()), ApplyBeat(if timed then obs else obs.(seenAt := now)))
      ensures View() == Apply(old(View()), ApplyBeat(if timed then obs else obs.(seenAt := now)))
      ensures stale <==> obs.nodeID in old(nodes) && obs.incarnation < old(nodes)[obs.nodeID].incarnation
      ensures stale ==> View() == old(View()) && !changed
      ensures !stale ==> BeatLeaves(old(nodes), if timed then obs else obs.(seenAt := now), nodes, changed)
      ensures epoch == old(epoch) + if changed then 1 else 0
    {
      hide BeatLeaves;
      var b := if timed then obs else obs.(seenAt := now);
      BeatIs(nodes, b);
      var reported := if b.reported.Some? then b.reported.value else Ready;
      if b.nodeID !in nodes {
        nodes := nodes[b.nodeID := NewNode(b)];
        epoch := epoch + 1;
        return true, false;
      }
      var node := nodes[b.nodeID];
      if b.incarnation < node.incarnation {
        return false, true;
      }
      changed := b.incarnation > node.incarnation || node.podName != b.podName || node.podIP != b.podIP
                 || node.protocol != b.protocol;
      var previous := node.state;
      node := node.(podName := b.podName, podIP := b.podIP, protocol := b.protocol, lastHeartbeat := b.seenAt,
                    state := if b.incarnation > node.incarnation then reported
                             else Transition(node.state, ReportedEvent(reported)),
                    incarnation := b.incarnation);
      changed := changed || node.state != previous;
      nodes := nodes[b.nodeID := node];
      if changed {
        epoch := epoch + 1;
      }
      stale := false;
    }

    /** One pass over the nodes: each is replaced or deleted by the rule. */
    method Sweep(rule: Rule) returns (changed: bool)
      modifies this
      ensures nodes == Survivors(old(nodes), rule) && epoch == old(epoch)
      ensures changed == AnyChange(old(nodes), rule)
    {
      var left := nodes.Keys;
      changed := false;
      while left != {}
        invariant left <= old(nodes).Keys && epoch == old(epoch)
        invariant forall id :: id in left ==> id in nodes && nodes[id] == old(nodes)[id]
        invariant forall id :: id in nodes ==> id in old(nodes)
        invariant forall id :: id in old(nodes) && id !in left ==>
                                 (id in nodes <==> rule(old(nodes)[id]).kept.Some?)
        invariant forall id :: id in nodes && id !in left ==> rule(old(nodes)[id]).kept == Some(nodes[id])
        invariant changed <==> exists id :: id in old(nodes) && id !in left && rule(old(nodes)[id]).changed
      {
        var id :| id in left;
        left := left - {id};
        var fate := rule(nodes[id]);
        changed := changed || fate.changed;
        nodes := if fate.kept.Some? then nodes[id := fate.kept.value] else nodes - {id};
      }
    }

    method ApplyPodObservations(pods: seq<Pod>, expireAfter: int, now: int) returns (changed: bool)
      modifies this
      ensures changed == Changes(old(View()), ObservePods(pods, expireAfter, now))
      ensures View() == Apply(old(View()), ObservePods(pods, expireAfter, now))
      ensures nodes.Keys <= old(nodes).Keys
      ensures forall id :: id in old(nodes) ==>
                PodLeaves(old(nodes)[id], pods, expireAfter, now, Found(nodes, id))
      ensures changed <==> exists id :: id in old(nodes) && PodChanged(old(nodes)[id], Found(nodes, id))
      ensures epoch == old(epoch) + if changed then 1 else 0
    {
      var byName, byIP := IndexPods(pods);
      changed := Sweep(PodRule(byName, byIP, expireAfter, now));
      forall id | id in old(nodes)
        ensures PodLeaves(old(nodes)[id], pods, expireAfter, now, Found(nodes, id))
        ensures PodRule(byName, byIP, expireAfter, now)(old(nodes)[id]).changed
                <==> PodChanged(old(nodes)[id], Found(nodes, id))
      {
        PodRuleIs(pods, expireAfter, now, old(nodes)[id]);
      }
      if changed {
        epoch := epoch + 1;
      }
    }

    method IndexPods(pods: seq<Pod>) returns (byName: map<string, Pod>, byIP: map<string, Pod>)
      ensures byName == ByName(pods) && byIP == ByIP(pods)
    {
      byName, byIP := map[], map[];
      var i := 0;
      while i < |pods|
        invariant 0 <= i <= |pods| && byName == ByName(pods[..i]) && byIP == ByIP(pods[..i])
      {
        assert pods[..i + 1][..i] == pods[..i];
        if pods[i].podName != "" {
          byName := byName[pods[i].podName := pods[i]];
        }
        if pods[i].podIP != "" {
          byIP := byIP[pods[i].podIP := pods[i]];
        }
        i := i + 1;
      }
      assert pods[..i] == pods;
    }

    method PruneExpired(suspectAfter: int, expireAfter: int, now: int) returns (changed: bool)
      modifies this
      ensures changed == Changes(old(View()), Prune(suspectAfter, expireAfter, now))
      ensures View() == Apply(old(View()), Prune(suspectAfter, expireAfter, now))
      ensures nodes.Keys <= old(nodes).Keys
      ensures forall id :: id in old(nodes) ==>
                PruneLeaves(old(nodes)[id], suspectAfter, expireAfter, now, Found(nodes, id))
      ensures changed <==> exists id :: id in old(nodes) && PruneChanged(old(nodes)[id], Found(nodes, id))
      ensures epoch == old(epoch) + if changed then 1 else 0
    {
      changed := Sweep(PruneRule(suspectAfter, expireAfter, now));
      forall id | id in old(nodes)
        ensures PruneLeaves(old(nodes)[id], suspectAfter, expireAfter, now, Found(nodes, id))
        ensures PruneRule(suspectAfter, expireAfter, now)(old(nodes)[id]).changed
                <==> PruneChanged(old(nodes)[id], Found(nodes, id))
      {
        PruneRuleIs(suspectAfter, expireAfter, now, old(nodes)[id]);
      }
      if changed {
        epoch := epoch + 1;
      }
    }

    method BumpEpochAtLeast(e: int)
      modifies this
      ensures View() == Apply(old(View()), BumpTo(e))
      ensures nodes == old(nodes) && epoch == if e > old(epoch) then e else old(epoch)
    {
      if e > epoch {
        epoch := e;
      }
    }

    /** The member list of an envelope, sorted by node id, and the epoch it shows. */
    method ListMembers(expireAfter: int, now: int)
      returns (ids: seq<string>, members: seq<Member>, lastSeen: seq<int>, e: int)
      ensures e == epoch && |ids| == |members| == |lastSeen|
      ensures forall i, j :: 0 <= i < j < |ids| ==> StringLess(ids[i], ids[j])
      ensures forall id :: id in ids <==>
                && id in nodes && nodes[id].state != Removed && nodes[id].state != Unreachable
                && now - nodes[id].lastHeartbeat <= expireAfter
      ensures forall i :: 0 <= i < |ids| ==>
                && ids[i] in nodes
                && var n := nodes[ids[i]]; members[i] == Member(n.podName, n.podIP, n.incarnation, n.state)
      ensures forall id :: id in ids <==> id in Members(nodes, expireAfter, now)
      ensures forall i :: 0 <= i < |ids| ==> members[i] == Members(nodes, expireAfter, now)[ids[i]]
      ensures forall i :: 0 <= i < |ids| ==> ids[i] in nodes && lastSeen[i] == nodes[ids[i]].lastHeartbeat
    {
      hide StringLess, Members;
      MembersAre(nodes, expireAfter, now);
      var shown := Members(nodes, expireAfter, now);
      ids, members, lastSeen, e := [], [], [], epoch;
      var left := shown.Keys;
      while left != {}
        invariant left <= shown.Keys && |ids| == |members| == |lastSeen|
        invariant forall i, j :: 0 <= i < j < |ids| ==> StringLess(ids[i], ids[j])
        invariant forall id :: id in shown <==> id in ids || id in left
        invariant forall i :: 0 <= i < |ids| ==> ids[i] in shown && members[i] == shown[ids[i]]
                                                 && lastSeen[i] == nodes[ids[i]].lastHeartbeat
        invariant forall i, id :: 0 <= i < |ids| && id in left ==> StringLess(ids[i], id)
        decreases |left|
      {
        var least := LeastId(left);
        ids, members, lastSeen := ids + [least], members + [shown[least]], lastSeen + [nodes[least].lastHeartbeat];
        left := left - {least};
      }
    }

    method LeastId(s: set<string>) returns (least: string)
      requires s != {}
      ensures least in s && forall id :: id in s && id != least ==> StringLess(least, id)
    {
      hide StringLess;
      least :| least in s;
      var left := s - {least};
      while left != {}
        invariant least in s && left <= s
        invariant forall id :: id in s && id !in left && id != least ==> StringLess(least, id)
        decreases |left|
      {
        var id :| id in left;
        left := left - {id};
        StringLessTotal(id, least);
        if StringLess(id, least) {
          forall x | x in s && StringLess(least, x)
            ensures StringLess(id, x)
          {
            StringLessTransitive(id, least, x);
          }
          least := id;
        }
      }
    }
  }
}
