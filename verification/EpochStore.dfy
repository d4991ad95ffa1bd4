// The persistent epoch and generation counters: one versioned object, and any
// number of clients interleaving the Get, Create and Update calls of SaveEpoch
// and NextGeneration. Updates are compare-and-swap on the object's version.
module EpochStore {
  import opened Bytes
  import opened Records

  /** One key of the object: missing or empty, a number, or not a number. */
  datatype Cell = Absent | Counter(v: int) | Malformed

  datatype ConfigMap = ConfigMap(version: nat, epoch: Cell, generation: Cell)

  datatype Client =
    | Idle
    | WantSave(save: int)
    | WantGeneration
    | SawForSave(save: int, seen: Option<ConfigMap>, at: nat)
    | SawForGeneration(seen: Option<ConfigMap>, at: nat)

  /** How a call ends: answered, answered with an error although it took
      effect, or failed before taking effect. */
  datatype Outcome = Answered | ReplyLost | NotSent

  /** saved and issued collect what successful calls returned; commits counts
      the writes that took effect. */
  datatype World = World(store: Option<ConfigMap>, commits: nat, clients: map<nat, Client>,
                         saved: set<int>, issued: seq<int>)

  datatype Step = CallSave(c: nat, epoch: nat) | CallGeneration(c: nat) | Get(c: nat) | Act(c: nat, outcome: Outcome)

  function Parse(c: Cell): Option<int> {
    match c
    case Absent => Some(0)
    case Counter(v) => Some(v)
    case Malformed => None
  }

  function ValueOf(c: Cell): int {
    if c.Counter? then c.v else 0
  }

  function StoredEpoch(s: Option<ConfigMap>): int {
    if s.Some? then ValueOf(s.value.epoch) else 0
  }

  function StoredGeneration(s: Option<ConfigMap>): int {
    if s.Some? then ValueOf(s.value.generation) else 0
  }

  /** LoadEpoch: one read; None stands for a value that does not parse. */
  function LoadEpoch(s: Option<ConfigMap>): Option<int> {
    if s.None? then Some(0) else Parse(s.value.epoch)
  }

  /** int64 increment; an overflow or a non-positive result starts again at 1. */
  function NextAfter(current: int): int {
    var next := if current == MAX_INT64 then -MAX_INT64 - 1 else current + 1;
    if next <= 0 then 1 else next
  }

  function ClientOf(w: World, c: nat): Client {
    if c in w.clients then w.clients[c] else Idle
  }

  function SetClient(w: World, c: nat, s: Client): World {
    w.(clients := w.clients[c := s])
  }

  /** A write takes effect: the client gets `cm` stored. */
  function Commit(w: World, cm: ConfigMap): World {
    w.(store := Some(cm), commits := w.commits + 1)
  }

  function SaveAct(w: World, c: nat, save: int, seen: Option<ConfigMap>, outcome: Outcome): World {
    if outcome.NotSent? then SetClient(w, c, Idle)
    else if seen.None? then
      if w.store.Some? then SetClient(w, c, WantSave(save))
      else SaveDone(Commit(w, ConfigMap(1, Counter(save), Absent)), c, save, outcome)
    else
      var cm := seen.value;
      match Parse(cm.epoch)
      case None => SetClient(w, c, Idle)
      case Some(current) =>
        if current >= save then SaveDone(w, c, save, outcome)
        else if w.store.None? || w.store.value.version != cm.version then SetClient(w, c, WantSave(save))
        else SaveDone(Commit(w, ConfigMap(cm.version + 1, Counter(save), cm.generation)), c, save, outcome)
  }

  function SaveDone(w: World, c: nat, save: int, outcome: Outcome): World {
    if outcome.Answered? then SetClient(w, c, Idle).(saved := w.saved + {save}) else SetClient(w, c, Idle)
  }

  function GenerationAct(w: World, c: nat, seen: Option<ConfigMap>, outcome: Outcome): World {
    if outcome.NotSent? then SetClient(w, c, Idle)
    else if seen.None? then
      if w.store.Some? then SetClient(w, c, WantGeneration)
      else GenerationDone(Commit(w, ConfigMap(1, Absent, Counter(1))), c, 1, outcome)
    else
      var cm := seen.value;
      match Parse(cm.generation)
      case None => SetClient(w, c, Idle)
      case Some(current) =>
        if w.store.None? || w.store.value.version != cm.version then SetClient(w, c, WantGeneration)
        else
          var next := NextAfter(current);
          GenerationDone(Commit(w, ConfigMap(cm.version + 1, cm.epoch, Counter(next))), c, next, outcome)
  }

  function GenerationDone(w: World, c: nat, next: int, outcome: Outcome): World {
    if outcome.Answered? then SetClient(w, c, Idle).(issued := w.issued + [next]) else SetClient(w, c, Idle)
  }

  function Next(w: World, step: Step): World {
    match (step, ClientOf(w, step.c))
    case (CallSave(c, epoch), Idle) => SetClient(w, c, WantSave(epoch))
    case (CallGeneration(c), Idle) => SetClient(w, c, WantGeneration)
    case (Get(c), WantSave(save)) => SetClient(w, c, SawForSave(save, w.store, w.commits))
    case (Get(c), WantGeneration) => SetClient(w, c, SawForGeneration(w.store, w.commits))
    case (Act(c, outcome), SawForSave(save, seen, _)) => SaveAct(w, c, save, seen, outcome)
    case (Act(c, outcome), SawForGeneration(seen, _)) => GenerationAct(w, c, seen, outcome)
    case _ => w
  }

  function Run(w: World, steps: seq<Step>): World {
    if steps == [] then w else Next(Run(w, steps[..|steps| - 1]), steps[|steps| - 1])
  }

  function Init(store: Option<ConfigMap>): World {
    World(store, 0, map[], {}, [])
  }

  // ---- invariant -----------------------------------------------------------

  /** What a client read is the stored object until somebody commits, and a
      version names one content. */
  ghost predicate Current(w: World, seen: Option<ConfigMap>, at: nat) {
    && at <= w.commits
    && (at == w.commits ==> seen == w.store)
    && StoredEpoch(seen) <= StoredEpoch(w.store)
    && (seen.Some? ==> w.store.Some? && seen.value.version <= w.store.value.version)
    && (seen.Some? && seen.value.version == w.store.value.version ==> seen == w.store)
  }

  ghost predicate ClientOk(w: World, s: Client) {
    match s
    case SawForSave(save, seen, at) => save >= 0 && Current(w, seen, at)
    case SawForGeneration(seen, at) => Current(w, seen, at)
    case WantSave(save) => save >= 0
    case _ => true
  }

  ghost predicate Inv(w: World) {
    && (forall c :: c in w.clients ==> ClientOk(w, w.clients[c]))
    && (forall e :: e in w.saved ==> e <= StoredEpoch(w.store))
    && (forall i :: 0 <= i < |w.issued| ==> 0 < w.issued[i] <= StoredGeneration(w.store))
    && (forall i, j :: 0 <= i < j < |w.issued| ==> w.issued[i] < w.issued[j])
  }

  predicate HasEpoch(s: Option<ConfigMap>) {
    s.Some? && s.value.epoch.Counter?
  }

  predicate HasGeneration(s: Option<ConfigMap>) {
    s.Some? && s.value.generation.Counter?
  }

  /** Counters only grow, and a write to one key leaves the other as it was. */
  ghost predicate Grows(w: World, w': World) {
    && StoredEpoch(w.store) <= StoredEpoch(w'.store)
    && StoredGeneration(w.store) <= StoredGeneration(w'.store)
    && (w.store.Some? ==> w'.store.Some? &&
                          ( || w'.store.value.epoch == w.store.value.epoch
                            || w'.store.value.generation == w.store.value.generation))
    && (HasEpoch(w.store) ==> HasEpoch(w'.store)) && (HasGeneration(w.store) ==> HasGeneration(w'.store))
    && (w'.store == w.store <==> w'.commits == w.commits)
    && w.commits <= w'.commits
  }

  /** The generation counter is below the int64 maximum. */
  predicate RoomLeft(w: World) {
    StoredGeneration(w.store) < MAX_INT64
  }

  lemma CommitKeepsClients(w: World, cm: ConfigMap)
    requires Inv(w)
    requires w.store.None? || cm.version > w.store.value.version
    requires StoredEpoch(w.store) <= StoredEpoch(Some(cm))
    ensures forall c :: c in w.clients ==> ClientOk(Commit(w, cm), w.clients[c])
  {
  }

  lemma SaveActKeeps(w: World, c: nat, outcome: Outcome)
    requires Inv(w) && c in w.clients && w.clients[c].SawForSave?
    ensures var w' := SaveAct(w, c, w.clients[c].save, w.clients[c].seen, outcome); Inv(w') && Grows(w, w')
  {
    var SawForSave(save, seen, at) := w.clients[c];
    assert ClientOk(w, w.clients[c]);
    if seen.None? {
      if w.store.None? { CommitKeepsClients(w, ConfigMap(1, Counter(save), Absent)); }
    } else if w.store.Some? && w.store.value.version == seen.value.version
              && Parse(seen.value.epoch).Some? && Parse(seen.value.epoch).value < save {
      CommitKeepsClients(w, ConfigMap(seen.value.version + 1, Counter(save), seen.value.generation));
    }
  }

  lemma GenerationActKeeps(w: World, c: nat, outcome: Outcome)
    requires Inv(w) && RoomLeft(w) && c in w.clients && w.clients[c].SawForGeneration?
    ensures var w' := GenerationAct(w, c, w.clients[c].seen, outcome); Inv(w') && Grows(w, w')
  {
    var SawForGeneration(seen, at) := w.clients[c];
    assert ClientOk(w, w.clients[c]);
    if seen.None? {
      if w.store.None? { CommitKeepsClients(w, ConfigMap(1, Absent, Counter(1))); }
    } else if w.store.Some? && w.store.value.version == seen.value.version && Parse(seen.value.generation).Some? {
      var next := NextAfter(Parse(seen.value.generation).value);
      CommitKeepsClients(w, ConfigMap(seen.value.version + 1, seen.value.epoch, Counter(next)));
    }
  }

  lemma StepKeeps(w: World, step: Step)
    requires Inv(w) && RoomLeft(w)
    ensures Inv(Next(w, step)) && Grows(w, Next(w, step))
  {
    if step.Act? && ClientOf(w, step.c).SawForSave? {
      SaveActKeeps(w, step.c, step.outcome);
    } else if step.Act? && ClientOf(w, step.c).SawForGeneration? {
      GenerationActKeeps(w, step.c, step.outcome);
    }
  }

  // ---- whole runs ----------------------------------------------------------

  lemma {:induction false} RunKeeps(store: Option<ConfigMap>, steps: seq<Step>)
    requires forall k :: 0 <= k < |steps| ==> RoomLeft(Run(Init(store), steps[..k]))
    ensures Inv(Run(Init(store), steps))
  {
    hide Next, RoomLeft;
    if steps != [] {
      var init := steps[..|steps| - 1];
      assert forall k :: 0 <= k < |init| ==> init[..k] == steps[..k];
      RunKeeps(store, init);
      StepKeeps(Run(Init(store), init), steps[|steps| - 1]);
    }
  }

  /** Under every interleaving, generations come out strictly increasing in
      commit order, hence pairwise distinct, and the stored epoch is at least
      every epoch reported as saved. */
  lemma CountersAreSafe(store: Option<ConfigMap>, steps: seq<Step>)
    requires forall k :: 0 <= k < |steps| ==> RoomLeft(Run(Init(store), steps[..k]))
    ensures
      var w := Run(Init(store), steps);
      && (forall i, j :: 0 <= i < j < |w.issued| ==> w.issued[i] < w.issued[j])
      && (forall e :: e in w.saved ==> e <= StoredEpoch(w.store))
  {
    RunKeeps(store, steps);
  }

  /** The stored epoch and generation never decrease along a run, and neither
      loop ever loses the other's key. */
  lemma {:induction false} CountersNeverDecrease(store: Option<ConfigMap>, steps: seq<Step>, k: nat)
    requires k <= |steps|
    requires forall i :: 0 <= i < |steps| ==> RoomLeft(Run(Init(store), steps[..i]))
    ensures StoredEpoch(Run(Init(store), steps[..k]).store) <= StoredEpoch(Run(Init(store), steps).store)
    ensures StoredGeneration(Run(Init(store), steps[..k]).store) <= StoredGeneration(Run(Init(store), steps).store)
    ensures HasEpoch(Run(Init(store), steps[..k]).store) ==> HasEpoch(Run(Init(store), steps).store)
    ensures HasGeneration(Run(Init(store), steps[..k]).store) ==> HasGeneration(Run(Init(store), steps).store)
    decreases |steps|
  {
    hide Next, RoomLeft;
    if k == |steps| {
      assert steps[..k] == steps;
    } else {
      var init := steps[..|steps| - 1];
      assert forall i :: 0 <= i <= |init| ==> init[..i] == steps[..i];
      CountersNeverDecrease(store, init, k);
      RunKeeps(store, init);
      StepKeeps(Run(Init(store), init), steps[|steps| - 1]);
    }
  }

  /** A call starts over only because another client has committed since this
      one read the object: somebody always makes progress. */
  lemma RetryMeansProgress(w: World, c: nat, outcome: Outcome)
    requires Inv(w) && (ClientOf(w, c).SawForSave? || ClientOf(w, c).SawForGeneration?)
    requires var s := ClientOf(Next(w, Act(c, outcome)), c); s.WantSave? || s.WantGeneration?
    ensures w.commits > ClientOf(w, c).at
    ensures Next(w, Act(c, outcome)).store == w.store
  {
    assert ClientOk(w, w.clients[c]);
  }

  /** At the int64 maximum the guarantee ends: the next generation is 1. */
  lemma OverflowRestarts()
    ensures NextAfter(MAX_INT64) == 1
    ensures forall current :: current < MAX_INT64 ==> NextAfter(current) > current
    ensures forall current :: 0 <= current < MAX_INT64 ==> NextAfter(current) == current + 1
  {
  }

  /** What a client undisturbed by others does to the object: a save raises the epoch to
      at least its own and leaves the generation; it fails exactly on an epoch that does
      not parse, and then changes nothing. */
  lemma LoneSave(w: World, c: nat, epoch: nat)
    requires ClientOf(w, c).Idle?
    ensures
      var w' := Next(Next(Next(w, CallSave(c, epoch)), Get(c)), Act(c, Answered));
      && ClientOf(w', c).Idle? && w'.issued == w.issued
      && if w.store.Some? && w.store.value.epoch.Malformed? then w'.store == w.store && w'.saved == w.saved
         else
           && w'.saved == w.saved + {epoch} && w'.store.Some?
           && StoredEpoch(w'.store) == Max(StoredEpoch(w.store), epoch)
           && (w.store.Some? ==> w'.store.value.generation == w.store.value.generation)
  {
  }

  /** And a generation call returns the next number and leaves the epoch. */
  lemma LoneGeneration(w: World, c: nat)
    requires ClientOf(w, c).Idle? && 0 <= StoredGeneration(w.store) < MAX_INT64
    ensures
      var w' := Next(Next(Next(w, CallGeneration(c)), Get(c)), Act(c, Answered));
      && ClientOf(w', c).Idle? && w'.saved == w.saved
      && if w.store.Some? && w.store.value.generation.Malformed? then w'.store == w.store && w'.issued == w.issued
         else
           && w'.issued == w.issued + [StoredGeneration(w.store) + 1] && w'.store.Some?
           && StoredGeneration(w'.store) == StoredGeneration(w.store) + 1
           && (w.store.Some? ==> w'.store.value.epoch == w.store.value.epoch)
  {
  }
}
