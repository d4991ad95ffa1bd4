// The node's topology lease: which envelopes it accepts, and the fence it hands
// to writes.
module Lease {
  import opened Records

  datatype Role = Primary | Standby | Unspecified

  /** A topology envelope, as far as the lease looks at it. */
  datatype Envelope = Envelope(generation: int, epoch: int, validUntil: int, role: Role)

  datatype ApplyError = NotPrimary | LeaseExpired | StaleGeneration | StaleEpoch

  datatype State = State(generation: int, epoch: int, validUntil: int)

  const INITIAL := State(0, 0, 0)

  /** Why an envelope would be refused, if it would. */
  function Refusal(s: State, env: Envelope, now: int): Option<ApplyError> {
    if env.role != Primary then Some(NotPrimary)
    else if env.validUntil <= now then Some(LeaseExpired)
    else if env.generation < s.generation then Some(StaleGeneration)
    else if env.generation == s.generation && env.epoch < s.epoch then Some(StaleEpoch)
    else None
  }

  function AfterApply(s: State, env: Envelope, now: int): State {
    if Refusal(s, env, now).Some? then s else State(env.generation, env.epoch, env.validUntil)
  }

  predicate Serving(s: State, now: int) {
    s.validUntil > now
  }

  predicate FenceHolds(s: State, generation: int, epoch: int, now: int) {
    Serving(s, now) && s.generation == generation && s.epoch >= epoch
  }

  /** Lexicographic order on (generation, epoch). */
  predicate WindowLeq(g1: int, e1: int, g2: int, e2: int) {
    g1 < g2 || (g1 == g2 && e1 <= e2)
  }

  datatype Event = Offer(env: Envelope, now: int) | Revoked

  function AfterEvent(s: State, ev: Event): State {
    match ev
    case Offer(env, now) => AfterApply(s, env, now)
    case Revoked => s.(validUntil := 0)
  }

  function After(s: State, evs: seq<Event>): State {
    if evs == [] then s else AfterEvent(After(s, evs[..|evs| - 1]), evs[|evs| - 1])
  }

  /** Over every run of envelopes and revocations the fence never moves back. */
  lemma {:induction false} FenceNeverRegresses(s: State, evs: seq<Event>, k: nat)
    requires k <= |evs|
    ensures WindowLeq(After(s, evs[..k]).generation, After(s, evs[..k]).epoch,
                      After(s, evs).generation, After(s, evs).epoch)
    decreases |evs|
  {
    if k == |evs| {
      assert evs[..k] == evs;
    } else {
      var init := evs[..|evs| - 1];
      FenceNeverRegresses(s, init, k);
      assert init[..k] == evs[..k];
    }
  }

  /** If a fence taken from the lease still verifies later, the lease kept its
      generation in between: every envelope accepted meanwhile came from the
      same primary, and the epoch stayed between the fence and the present. */
  lemma VerifiedFenceSpansOneGeneration(s: State, evs: seq<Event>, k: nat, now: int)
    requires k <= |evs|
    requires FenceHolds(After(s, evs), s.generation, s.epoch, now)
    ensures After(s, evs[..k]).generation == s.generation
    ensures s.epoch <= After(s, evs[..k]).epoch <= After(s, evs).epoch
    ensures k < |evs| && evs[k].Offer? && Refusal(After(s, evs[..k]), evs[k].env, evs[k].now).None?
            ==> evs[k].env.generation == s.generation
  {
    FenceNeverRegresses(s, evs, k);
    FenceNeverRegresses(s, evs[..k], 0);
    assert evs[..k][..0] == [];
    if k < |evs| {
      FenceNeverRegresses(s, evs, k + 1);
      FenceNeverRegresses(s, evs[..k + 1], 0);
      assert evs[..k + 1][..0] == [] && evs[..k + 1][..k] == evs[..k];
    }
  }

  // ---- when a node serves --------------------------------------------------

  /** The envelope is accepted in state s. */
  ghost predicate Accepts(s: State, env: Envelope, now: int) {
    && env.role == Primary && now < env.validUntil
    && (env.generation > s.generation || (env.generation == s.generation && env.epoch >= s.epoch))
  }

  /** Event k is an accepted offer. */
  ghost predicate AcceptedAt(s: State, evs: seq<Event>, k: nat) {
    k < |evs| && evs[k].Offer? && Accepts(After(s, evs[..k]), evs[k].env, evs[k].now)
  }

  /** Event k is an accepted offer or a revocation. */
  ghost predicate DecidedAt(s: State, evs: seq<Event>, k: nat) {
    k < |evs| && (evs[k].Revoked? || AcceptedAt(s, evs, k))
  }

  ghost predicate LastDecided(s: State, evs: seq<Event>, k: nat) {
    DecidedAt(s, evs, k) && forall j: nat :: DecidedAt(s, evs, j) ==> j <= k
  }

  ghost predicate LastAccepted(s: State, evs: seq<Event>, k: nat) {
    AcceptedAt(s, evs, k) && forall j: nat :: AcceptedAt(s, evs, j) ==> j <= k
  }

  lemma PrefixDecides(s: State, evs: seq<Event>, k: nat)
    requires k + 1 < |evs|
    ensures AcceptedAt(s, evs, k) <==> AcceptedAt(s, evs[..|evs| - 1], k)
    ensures DecidedAt(s, evs, k) <==> DecidedAt(s, evs[..|evs| - 1], k)
  {
    assert evs[..|evs| - 1][..k] == evs[..k];
  }

  lemma EventEffect(s: State, ev: Event)
    ensures
      var s', accepted := AfterEvent(s, ev), ev.Offer? && Accepts(s, ev.env, ev.now);
      && s'.validUntil == (if ev.Revoked? then 0 else if accepted then ev.env.validUntil else s.validUntil)
      && s'.generation == (if accepted then ev.env.generation else s.generation)
      && s'.epoch == (if accepted then ev.env.epoch else s.epoch)
  {
  }

  /** Over every run the last accepted envelope or revocation decides until when the node
      serves: to the end of that envelope's validity, or not at any time from 0 on. */
  lemma {:induction false} ServesIff(s: State, evs: seq<Event>, k: nat, t: int)
    requires LastDecided(s, evs, k)
    ensures t < After(s, evs).validUntil <==> t < if evs[k].Offer? then evs[k].env.validUntil else 0
  {
    hide AfterEvent, Accepts;
    var n := |evs| - 1;
    EventEffect(After(s, evs[..n]), evs[n]);
    if k < n {
      forall j: nat | DecidedAt(s, evs[..n], j)
        ensures j <= k
      {
        PrefixDecides(s, evs, j);
      }
      PrefixDecides(s, evs, k);
      assert !DecidedAt(s, evs, n);
      ServesIff(s, evs[..n], k, t);
    }
  }

  /** Without either the node serves as long as it did at first. */
  lemma {:induction false} ServesAsBefore(s: State, evs: seq<Event>, t: int)
    requires forall k: nat :: !DecidedAt(s, evs, k)
    ensures t < After(s, evs).validUntil <==> t < s.validUntil
  {
    hide AfterEvent, Accepts;
    if evs != [] {
      var n := |evs| - 1;
      EventEffect(After(s, evs[..n]), evs[n]);
      assert !DecidedAt(s, evs, n);
      forall j: nat
        ensures !DecidedAt(s, evs[..n], j)
      {
        if j < n { PrefixDecides(s, evs, j); }
      }
      ServesAsBefore(s, evs[..n], t);
    }
  }

  /** Over every run the fence is that of the last accepted envelope. */
  lemma {:induction false} FenceIsLastAccepted(s: State, evs: seq<Event>, k: nat)
    requires LastAccepted(s, evs, k)
    ensures After(s, evs).generation == evs[k].env.generation && After(s, evs).epoch == evs[k].env.epoch
  {
    hide AfterEvent, Accepts;
    var n := |evs| - 1;
    EventEffect(After(s, evs[..n]), evs[n]);
    if k < n {
      forall j: nat | AcceptedAt(s, evs[..n], j)
        ensures j <= k
      {
        PrefixDecides(s, evs, j);
      }
      PrefixDecides(s, evs, k);
      assert !AcceptedAt(s, evs, n);
      FenceIsLastAccepted(s, evs[..n], k);
    }
  }

  /** One of the two cases always applies. */
  lemma {:induction false} SomeDecisionOrNone(s: State, evs: seq<Event>)
    ensures (exists k: nat :: LastDecided(s, evs, k)) || forall k: nat :: !DecidedAt(s, evs, k)
  {
    hide After, Accepts;
    if evs != [] {
      var n := |evs| - 1;
      forall j: nat | j < n
        ensures DecidedAt(s, evs, j) <==> DecidedAt(s, evs[..n], j)
      {
        PrefixDecides(s, evs, j);
      }
      SomeDecisionOrNone(s, evs[..n]);
      if DecidedAt(s, evs, n) {
        assert LastDecided(s, evs, n);
      } else if k: nat :| LastDecided(s, evs[..n], k) {
        assert LastDecided(s, evs, k);
      }
    }
  }

  class LeaseTracker {
    var generation: int
    var epoch: int
    var validUntilUnixMs: int

    function View(): State
      reads this
    {
      State(generation, epoch, validUntilUnixMs)
    }

    constructor ()
      ensures View() == INITIAL
    {
      generation, epoch, validUntilUnixMs := 0, 0, 0;
    }

    method Apply(env: Envelope, now: int) returns (err: Option<ApplyError>)
      modifies this
      ensures err == Refusal(old(View()), env, now)
      ensures View() == AfterApply(old(View()), env, now)
      ensures err.None? <==> Accepts(old(View()), env, now)
      ensures err == Some(NotPrimary) <==> env.role != Primary
      ensures err == Some(LeaseExpired) <==> env.role == Primary && env.validUntil <= now
      ensures err == Some(StaleGeneration) ==> env.generation < old(generation)
      ensures err == Some(StaleEpoch) ==> env.generation == old(generation) && env.epoch < old(epoch)
      ensures err.None? ==> generation == env.generation && epoch == env.epoch && validUntilUnixMs == env.validUntil
      ensures err.Some? ==> View() == old(View())
    {
      if env.role != Primary {
        return Some(NotPrimary);
      }
      if env.validUntil <= now {
        return Some(LeaseExpired);
      }
      if env.generation < generation {
        return Some(StaleGeneration);
      } else if env.generation > generation {
        generation := env.generation;
        epoch := env.epoch;
        validUntilUnixMs := env.validUntil;
        return None;
      } else {
        if env.epoch < epoch {
          return Some(StaleEpoch);
        }
        epoch := env.epoch;
        validUntilUnixMs := env.validUntil;
        return None;
      }
    }

    method Revoke()
      modifies this
      ensures View() == AfterEvent(old(View()), Revoked)
      ensures generation == old(generation) && epoch == old(epoch) && validUntilUnixMs == 0
    {
      validUntilUnixMs := 0;
    }

    method ServingAllowed(now: int) returns (ok: bool)
      ensures ok == Serving(View(), now)
      ensures ok <==> now < validUntilUnixMs
    {
      ok := validUntilUnixMs > now;
    }

    method SnapshotForWrite(now: int) returns (fence: Option<(int, int)>)
      ensures fence == if now < validUntilUnixMs then Some((generation, epoch)) else None
    {
      if validUntilUnixMs <= now {
        return None;
      }
      return Some((generation, epoch));
    }

    method VerifyFence(g: int, e: int, now: int) returns (ok: bool)
      ensures ok == FenceHolds(View(), g, e, now)
      ensures ok <==> now < validUntilUnixMs && generation == g && e <= epoch
    {
      if validUntilUnixMs <= now {
        return false;
      }
      if generation != g {
        return false;
      }
      return !(epoch < e);
    }

    /** The receive loop of a subscription: it applies envelopes in arrival order
        and stops at the first refusal, which revokes the lease; or after the
        first accepted one whose joining failed, or beside which a heartbeat had
        failed, which keeps the lease; or when the stream ends. */
    method Receive(stream: seq<Arrival>) returns (accepted: nat, observedEpoch: int, end: End)
      modifies this
      ensures accepted <= |stream|
      ensures accepted > 0 ==> observedEpoch == stream[accepted - 1].env.epoch
      ensures forall i :: 0 <= i < accepted && stream[i].interrupted ==> i == accepted - 1
      ensures
        var s := After(old(View()), Offers(stream[..accepted]));
        match end
        case StreamEnded => accepted == |stream| && View() == s && (accepted > 0 ==> !stream[accepted - 1].interrupted)
        case Interrupted => accepted > 0 && stream[accepted - 1].interrupted && View() == s
        case Refused(err) =>
          && accepted < |stream| && Some(err) == Refusal(s, stream[accepted].env, stream[accepted].now)
          && View() == s.(validUntil := 0)
    {
      accepted, observedEpoch := 0, 0;
      while accepted < |stream|
        invariant 0 <= accepted <= |stream|
        invariant accepted > 0 ==> observedEpoch == stream[accepted - 1].env.epoch
        invariant forall i :: 0 <= i < accepted ==> !stream[i].interrupted
        invariant View() == After(old(View()), Offers(stream[..accepted]))
      {
        var err := Apply(stream[accepted].env, stream[accepted].now);
        if err.Some? {
          Revoke();
          return accepted, observedEpoch, Refused(err.value);
        }
        observedEpoch := stream[accepted].env.epoch;
        OffersNext(stream, accepted);
        accepted := accepted + 1;
        if stream[accepted - 1].interrupted {
          return accepted, observedEpoch, Interrupted;
        }
      }
      return accepted, observedEpoch, StreamEnded;
    }
  }

  /** Accept, renew, revoke, ask: after an accepted envelope the node serves exactly until
      the end of that envelope's validity, whatever it did before, and after a revocation
      at no time from 0 on. */
  method OfferThenAsk(tracker: LeaseTracker, env: Envelope, now: int, revoke: bool, t: int)
    returns (err: Option<ApplyError>, serves: bool)
    modifies tracker
    ensures err.None? <==> Accepts(old(tracker.View()), env, now)
    ensures revoke ==> (serves <==> t < 0)
    ensures !revoke && err.None? ==> (serves <==> t < env.validUntil)
    ensures !revoke && err.Some? ==> (serves <==> t < old(tracker.validUntilUnixMs))
  {
    err := tracker.Apply(env, now);
    if revoke {
      tracker.Revoke();
    }
    serves := tracker.ServingAllowed(t);
  }

  /** An envelope, when it arrived, and whether the loop ends after applying it. */
  datatype Arrival = Arrival(env: Envelope, now: int, interrupted: bool)

  datatype End = StreamEnded | Interrupted | Refused(err: ApplyError)

  function Offers(stream: seq<Arrival>): (evs: seq<Event>)
    ensures |evs| == |stream|
  {
    seq(|stream|, i requires 0 <= i < |stream| => Offer(stream[i].env, stream[i].now))
  }

  lemma OffersNext(stream: seq<Arrival>, n: nat)
    requires n < |stream|
    ensures forall s :: After(s, Offers(stream[..n + 1]))
                     == AfterApply(After(s, Offers(stream[..n])), stream[n].env, stream[n].now)
  {
    var a := Offers(stream[..n]);
    assert Offers(stream[..n + 1]) == a + [Offer(stream[n].env, stream[n].now)];
    assert (a + [Offer(stream[n].env, stream[n].now)])[..n] == a;
  }
}
