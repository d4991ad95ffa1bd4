// Two consumers popping at once, which the ring asks its users not to do and the
// sidecar does not prevent. Both run the same steps on the same bytes and cursors.
module RingTwoConsumers {
  import opened Bytes
  import opened RingLayout
  import opened RingSteps

  /** The second consumer is `other`; everything else is shared. */
  datatype Pair = Pair(s: State, other: Consumer) {
    /** What the second consumer sees. */
    function View(): State {
      s.(cons := other)
    }
  }

  datatype TwoStep = First(step: Step) | Second(step: Step)

  function NextOfTwo(cap: nat, crc: Checksum, p: Pair, step: TwoStep): Pair
    requires cap > 0
  {
    match step
    case First(x) => p.(s := Next(cap, crc, p.s, x))
    case Second(x) =>
      var s := ConsumerStep(cap, crc, p.View(), x);
      Pair(s.(cons := p.s.cons), s.cons)
  }

  function ExecOfTwo(cap: nat, crc: Checksum, p: Pair, steps: seq<TwoStep>): Pair
    requires cap > 0
  {
    if steps == [] then p
    else NextOfTwo(cap, crc, ExecOfTwo(cap, crc, p, steps[..|steps| - 1]), steps[|steps| - 1])
  }

  lemma {:induction false} ExecSplit(cap: nat, crc: Checksum, s: State, a: seq<Step>, b: seq<Step>)
    requires cap > 0
    ensures Exec(cap, crc, s, a + b) == Exec(cap, crc, Exec(cap, crc, s, a), b)
  {
    if b == [] {
      assert a + b == a;
    } else {
      ExecSplit(cap, crc, s, a, b[..|b| - 1]);
      assert (a + b)[..|a + b| - 1] == a + b[..|b| - 1];
    }
  }

  lemma {:induction false} ExecOfTwoSplit(cap: nat, crc: Checksum, p: Pair, a: seq<TwoStep>, b: seq<TwoStep>)
    requires cap > 0
    ensures ExecOfTwo(cap, crc, p, a + b) == ExecOfTwo(cap, crc, ExecOfTwo(cap, crc, p, a), b)
  {
    if b == [] {
      assert a + b == a;
    } else {
      ExecOfTwoSplit(cap, crc, p, a, b[..|b| - 1]);
      assert (a + b)[..|a + b| - 1] == a + b[..|b| - 1];
    }
  }

  lemma {:induction false} ExecKeepsInv(cap: nat, crc: Checksum, s: State, steps: seq<Step>)
    requires cap > 0 && Inv(cap, crc, s)
    ensures Inv(cap, crc, Exec(cap, crc, s, steps))
  {
    hide Inv, Next;
    if steps != [] {
      ExecKeepsInv(cap, crc, s, steps[..|steps| - 1]);
      StepKeepsInv(cap, crc, Exec(cap, crc, s, steps[..|steps| - 1]), steps[|steps| - 1]);
    }
  }

  // ---- while the first consumer waits --------------------------------------

  predicate IsConsumers(step: Step) {
    step.ConsLoadTail? || step.ConsLoadHead? || step.ReadByte? || step.Decide?
  }

  /** Steps of the producer and of the second consumer only. */
  predicate Others(steps: seq<TwoStep>) {
    forall k :: 0 <= k < |steps| ==> (steps[k].First? <==> !IsConsumers(steps[k].step))
  }

  function Strip(steps: seq<TwoStep>): (r: seq<Step>)
    ensures |r| == |steps| && forall k :: 0 <= k < |steps| ==> r[k] == steps[k].step
  {
    seq(|steps|, k requires 0 <= k < |steps| => steps[k].step)
  }

  lemma OtherStep(cap: nat, crc: Checksum, p: Pair, step: TwoStep)
    requires cap > 0 && (step.First? <==> !IsConsumers(step.step))
    ensures NextOfTwo(cap, crc, p, step).View() == Next(cap, crc, p.View(), step.step)
    ensures NextOfTwo(cap, crc, p, step).s.cons == p.s.cons
  {
    hide ConsumerStep, Plan, Needed, Sendable, SlotAt;
  }

  /** Meanwhile the second consumer and the producer are an ordinary pair, and the
      first consumer keeps what it has read. */
  lemma {:induction false} OthersAreOrdinary(cap: nat, crc: Checksum, p: Pair, steps: seq<TwoStep>)
    requires cap > 0 && Others(steps)
    ensures ExecOfTwo(cap, crc, p, steps).View() == Exec(cap, crc, p.View(), Strip(steps))
    ensures ExecOfTwo(cap, crc, p, steps).s.cons == p.s.cons
  {
    hide NextOfTwo, Next;
    if steps != [] {
      var init, last := steps[..|steps| - 1], steps[|steps| - 1];
      OthersAreOrdinary(cap, crc, p, init);
      OtherStep(cap, crc, ExecOfTwo(cap, crc, p, init), last);
      assert Strip(steps)[..|steps| - 1] == Strip(init);
    }
  }

  /** Entries taken and appended only become more. */
  ghost predicate Later(s: State, s': State) {
    s.taken <= s'.taken && s.log <= s'.log && s.tail <= s'.tail && (s'.taken == s.taken ==> s.head <= s'.head)
  }

  lemma StepIsLater(cap: nat, crc: Checksum, s: State, step: Step)
    requires Inv(cap, crc, s)
    ensures Later(s, Next(cap, crc, s, step))
  {
    hide RingInv, Pos, WantsMore, DecideStep, Plan;
    RingBasics(cap, crc, s);
    if step == Decide && s.cons.CRead? && !WantsMore(cap, s.cons.h, s.cons.got) {
      DecideFacts(cap, crc, s);
    }
  }

  lemma {:induction false} RunIsLater(cap: nat, crc: Checksum, s: State, steps: seq<Step>)
    requires cap > 0 && Inv(cap, crc, s)
    ensures Later(s, Exec(cap, crc, s, steps))
  {
    hide Inv, Next;
    if steps != [] {
      var init := steps[..|steps| - 1];
      RunIsLater(cap, crc, s, init);
      ExecKeepsInv(cap, crc, s, init);
      StepIsLater(cap, crc, Exec(cap, crc, s, init), steps[|steps| - 1]);
    }
  }

  /** A consumer that has read the whole entry at cursor h stores the head behind it
      and returns it, whatever the head is by now. */
  lemma StaleDecide(cap: nat, crc: Checksum, s: State, t: nat, again: bool, e: Slot)
    requires cap > 0 && WellPlaced(cap, e) && s.cons == CRead(t, e.start, Frame(crc, e.payload), again)
    ensures Next(cap, crc, s, Decide) == s.(head := e.End(), taken := s.taken + 1, popped := s.popped + [e.payload],
                                            cons := CStart(false))
  {
    hide Pos, LE, FromLE;
    HeadWord(crc, e.payload);
  }

  /** The first consumer reads the next entry, the producer and the second consumer do
      whatever they do, and then the first consumer finishes its Pop. */
  ghost predicate Waits(cap: nat, crc: Checksum, p: Pair, steps: seq<TwoStep>, again: bool) {
    && Inv(cap, crc, p.s) && Inv(cap, crc, p.View()) && AtFrame(p.s)
    && p.s.cons == CRead(p.s.tail, p.s.head, Frame(crc, p.s.log[p.s.taken].payload), again)
    && Others(steps)
  }

  /** Then the entry is returned, without any sign of an error, and the head stored
      behind it. The ring is still a queue exactly if the second consumer has not
      taken the entry in between. */
  lemma QueueSurvivesIff(cap: nat, crc: Checksum, p: Pair, steps: seq<TwoStep>, again: bool)
    requires cap > 0 && Waits(cap, crc, p, steps, again)
    ensures
      var e := p.s.log[p.s.taken];
      var p1 := ExecOfTwo(cap, crc, p, steps);
      var p2 := NextOfTwo(cap, crc, p1, First(Decide));
      && p2.s.popped == p1.s.popped + [e.payload] && p2.s.head == e.End() && !p2.s.corrupt
      && (Inv(cap, crc, p2.s) <==> p1.s.taken == p.s.taken)
  {
    hide RingInv, Pos, WantsMore, DecideStep, Plan, ExecOfTwo, Exec, ProducerInv, WellPlaced;
    var e, p1 := p.s.log[p.s.taken], ExecOfTwo(cap, crc, p, steps);
    OthersAreOrdinary(cap, crc, p, steps);
    ExecKeepsInv(cap, crc, p.View(), Strip(steps));
    RunIsLater(cap, crc, p.View(), Strip(steps));
    SlotIsPlaced(cap, crc, p.s);
    StaleDecide(cap, crc, p1.s, p.s.tail, again, e);
    if p1.s.taken == p.s.taken {
      UntakenKeeps(cap, crc, p.s, p1, again);
    } else {
      TakenBreaks(cap, crc, p1.View(), e, p.s.taken);
    }
  }

  lemma SlotIsPlaced(cap: nat, crc: Checksum, s: State)
    requires Inv(cap, crc, s) && s.taken < |s.log|
    ensures WellPlaced(cap, s.log[s.taken])
  {
  }

  /** Not taken by the other, the entry is still at the head. */
  lemma UntakenKeeps(cap: nat, crc: Checksum, s: State, p: Pair, again: bool)
    requires Inv(cap, crc, s) && AtFrame(s) && Inv(cap, crc, p.View()) && Later(s, p.s) && p.s.taken == s.taken
    requires p.s.cons == s.cons == CRead(s.tail, s.head, Frame(crc, s.log[s.taken].payload), again)
    ensures Inv(cap, crc, Next(cap, crc, p.s, Decide))
  {
    hide RingInv, Pos, WantsMore, DecideStep, Plan;
    RingBasics(cap, crc, p.View());
    assert Inv(cap, crc, p.s);
    DecideKeeps(cap, crc, p.s);
  }

  /** Taken by the other, it is counted twice and the head is behind the count. */
  lemma TakenBreaks(cap: nat, crc: Checksum, s: State, e: Slot, taken: nat)
    requires RingInv(cap, crc, s.mem, s.head, s.tail, s.log, s.taken)
    requires taken < s.taken && s.log[taken] == e
    ensures !RingInv(cap, crc, s.mem, e.End(), s.tail, s.log, s.taken + 1)
  {
    hide Pos, AlignUp, Kept, WellPlaced;
  }

  // ---- a Pop and an Append as runs -----------------------------------------

  function Repeat(n: nat, step: Step): (r: seq<Step>)
    ensures |r| == n && forall k :: 0 <= k < n ==> r[k] == step
  {
    seq(n, _ => step)
  }

  /** Load both cursors and read n bytes. */
  function Look(n: nat): seq<Step> {
    [ConsLoadTail] + [ConsLoadHead] + Repeat(n, ReadByte)
  }

  function PopSteps(skip: bool, p: Payload): seq<Step> {
    SkipSteps(skip) + (Look(8 + |p|) + [Decide])
  }

  function SkipSteps(skip: bool): seq<Step> {
    if skip then Look(4) + [Decide] else []
  }

  lemma ExecOne(cap: nat, crc: Checksum, s: State, step: Step)
    requires cap > 0
    ensures Exec(cap, crc, s, [step]) == Next(cap, crc, s, step)
  {
    assert [step][..0] == [];
  }

  /** Pop wants bytes exactly until it has those stored at the head. */
  lemma WantsIff(cap: nat, crc: Checksum, s: State)
    requires Inv(cap, crc, s) && s.cons.CRead?
    ensures cap > 0 && (WantsMore(cap, s.cons.h, s.cons.got) <==> |s.cons.got| < |Current(crc, s)|)
  {
    hide RingInv, Pos, LE, FromLE;
    RingBasics(cap, crc, s);
    HeadFacts(cap, crc, s.mem, s.head, s.tail, s.log, s.taken);
    HeadWord(crc, s.log[s.taken].payload);
    var got := s.cons.got;
    if |got| >= 4 {
      assert got[..4] == Current(crc, s)[..4];
      assert SkipBytes()[..4][..4] == SkipBytes()[..4];
    }
  }

  lemma ReadsOne(cap: nat, crc: Checksum, s: State)
    requires cap > 0 && Inv(cap, crc, s) && s.cons.CRead? && |s.cons.got| < |Current(crc, s)|
    ensures Next(cap, crc, s, ReadByte) ==
            s.(cons := s.cons.(got := s.cons.got + [Current(crc, s)[|s.cons.got|]]))
  {
    hide RingInv, Pos, WantsMore, SkipBytes, Frame, ProducerInv;
    WantsIff(cap, crc, s);
    NextByte(cap, crc, s);
  }

  lemma {:induction false} ReadsAll(cap: nat, crc: Checksum, s: State, n: nat)
    requires cap > 0 && Inv(cap, crc, s) && s.cons.CRead? && s.cons.got == [] && n <= |Current(crc, s)|
    ensures Exec(cap, crc, s, Repeat(n, ReadByte)) == s.(cons := s.cons.(got := Current(crc, s)[..n]))
  {
    hide RingInv, ProducerInv, Next, SkipBytes, Frame;
    if n > 0 {
      var steps, bs := Repeat(n, ReadByte), Current(crc, s);
      assert steps[..n - 1] == Repeat(n - 1, ReadByte);
      ReadsAll(cap, crc, s, n - 1);
      var s1 := Exec(cap, crc, s, steps[..n - 1]);
      ExecKeepsInv(cap, crc, s, steps[..n - 1]);
      ReadsOne(cap, crc, s1);
      assert bs[..n] == bs[..n - 1] + [bs[n - 1]];
    }
  }

  lemma Looks(cap: nat, crc: Checksum, s: State)
    requires cap > 0 && Inv(cap, crc, s) && s.cons.CStart? && s.taken < |s.log|
    ensures
      var n := |Current(crc, s)|;
      && Exec(cap, crc, s, Look(n)) == s.(cons := CRead(s.tail, s.head, Current(crc, s), s.cons.again))
      && Inv(cap, crc, Exec(cap, crc, s, Look(n)))
  {
    hide RingInv, Pos, WantsMore, SkipBytes, Frame, ProducerInv;
    RingBasics(cap, crc, s);
    var n := |Current(crc, s)|;
    ExecOne(cap, crc, s, ConsLoadTail);
    var s1 := Next(cap, crc, s, ConsLoadTail);
    ExecOne(cap, crc, s1, ConsLoadHead);
    var s2 := Next(cap, crc, s1, ConsLoadHead);
    ExecSplit(cap, crc, s, [ConsLoadTail], [ConsLoadHead]);
    ExecSplit(cap, crc, s, [ConsLoadTail] + [ConsLoadHead], Repeat(n, ReadByte));
    ExecKeepsInv(cap, crc, s, [ConsLoadTail] + [ConsLoadHead]);
    ExecKeepsInv(cap, crc, s, Look(n));
    assert Current(crc, s2) == Current(crc, s);
    ReadsAll(cap, crc, s2, n);
    assert Current(crc, s)[..n] == Current(crc, s);
  }

  /** Past a skip marker, if there is one. */
  lemma SkipRun(cap: nat, crc: Checksum, s: State)
    requires cap > 0 && Inv(cap, crc, s) && s.cons == CStart(false) && s.taken < |s.log|
    ensures
      var e := s.log[s.taken];
      var s' := Exec(cap, crc, s, SkipSteps(s.head < e.start));
      Inv(cap, crc, s') && AtFrame(s') && s' == s.(head := e.start, cons := CStart(s.head < e.start))
  {
    hide RingInv, Pos, WantsMore, DecideStep, Plan, ProducerInv;
    RingBasics(cap, crc, s);
    var e := s.log[s.taken];
    if s.head < e.start {
      Looks(cap, crc, s);
      var s1 := Exec(cap, crc, s, Look(4));
      WantsIff(cap, crc, s1);
      DecideFacts(cap, crc, s1);
      ExecOne(cap, crc, s1, Decide);
      ExecSplit(cap, crc, s, Look(4), [Decide]);
    }
    ExecKeepsInv(cap, crc, s, SkipSteps(s.head < e.start));
    RingBasics(cap, crc, Exec(cap, crc, s, SkipSteps(s.head < e.start)));
  }

  lemma TakeRun(cap: nat, crc: Checksum, s: State)
    requires cap > 0 && Inv(cap, crc, s) && s.cons.CStart? && AtFrame(s)
    ensures
      var e := s.log[s.taken];
      Exec(cap, crc, s, Look(8 + |e.payload|) + [Decide]) ==
      s.(head := e.End(), taken := s.taken + 1, popped := s.popped + [e.payload], cons := CStart(false))
  {
    hide RingInv, Pos, WantsMore, DecideStep, Plan, ProducerInv;
    var n := |Current(crc, s)|;
    Looks(cap, crc, s);
    var s1 := Exec(cap, crc, s, Look(n));
    WantsIff(cap, crc, s1);
    DecideFacts(cap, crc, s1);
    ExecOne(cap, crc, s1, Decide);
    ExecSplit(cap, crc, s, Look(n), [Decide]);
  }

  /** One undisturbed Pop of a ring that is not empty. */
  lemma PopRun(cap: nat, crc: Checksum, s: State)
    requires cap > 0 && Inv(cap, crc, s) && s.cons == CStart(false) && s.taken < |s.log|
    ensures
      var e := s.log[s.taken];
      var s' := Exec(cap, crc, s, PopSteps(s.head < e.start, e.payload));
      && Inv(cap, crc, s')
      && s' == s.(head := e.End(), taken := s.taken + 1, popped := s.popped + [e.payload], cons := CStart(false))
  {
    hide Inv, SkipSteps, Look, Exec;
    var e := s.log[s.taken];
    var skip := SkipSteps(s.head < e.start);
    SkipRun(cap, crc, s);
    TakeRun(cap, crc, Exec(cap, crc, s, skip));
    ExecSplit(cap, crc, s, skip, Look(8 + |e.payload|) + [Decide]);
    ExecKeepsInv(cap, crc, s, PopSteps(s.head < e.start, e.payload));
  }

  function AppendSteps(cap: nat, crc: Checksum, t: nat, p: Payload): seq<Step>
    requires cap > 0
  {
    [Begin(p)] + [LoadTail] + Repeat(|Plan(cap, crc, t, p)|, WriteByte) + [StoreTail]
  }

  lemma {:induction false} WritesAll(cap: nat, crc: Checksum, s: State, n: nat)
    requires cap > 0 && Inv(cap, crc, s) && s.prod.PWrite? && s.prod.k == 0
    requires n <= |Plan(cap, crc, s.prod.t, s.prod.payload)|
    ensures
      var s' := Exec(cap, crc, s, Repeat(n, WriteByte));
      s' == s.(mem := s'.mem, prod := s.prod.(k := n))
  {
    hide RingInv, Pos, AlignUp, Plan;
    if n > 0 {
      var steps := Repeat(n, WriteByte);
      assert steps[..n - 1] == Repeat(n - 1, WriteByte);
      WritesAll(cap, crc, s, n - 1);
      var s1 := Exec(cap, crc, s, steps[..n - 1]);
      ExecKeepsInv(cap, crc, s, steps[..n - 1]);
      RingBasics(cap, crc, s1);
      CursorsAligned(cap, crc, s1.mem, s1.head, s1.tail, s1.log, s1.taken);
      PlacementFacts(cap, s1.tail, s1.prod.payload);
      PlanAddresses(cap, crc, s1.tail, s1.prod.payload, n - 1);
    }
  }

  /** One undisturbed Append of a payload that fits. */
  lemma AppendRun(cap: nat, crc: Checksum, s: State, p: Payload)
    requires cap > 0 && Inv(cap, crc, s) && s.prod.PIdle? && Sendable(cap, p)
    requires Needed(cap, s.tail, p) <= cap - (s.tail - s.head)
    ensures
      var s' := Exec(cap, crc, s, AppendSteps(cap, crc, s.tail, p));
      && Inv(cap, crc, s')
      && s' == s.(mem := s'.mem, tail := s.tail + Needed(cap, s.tail, p), log := s.log + [SlotAt(cap, s.tail, p)])
  {
    hide RingInv, Pos, AlignUp, Plan, ConsumerInv;
    var writes := Repeat(|Plan(cap, crc, s.tail, p)|, WriteByte);
    ExecOne(cap, crc, s, Begin(p));
    var s1 := Next(cap, crc, s, Begin(p));
    ExecOne(cap, crc, s1, LoadTail);
    ExecSplit(cap, crc, s, [Begin(p)], [LoadTail]);
    ExecKeepsInv(cap, crc, s, [Begin(p)] + [LoadTail]);
    var s2 := Next(cap, crc, s1, LoadTail);
    WritesAll(cap, crc, s2, |writes|);
    ExecSplit(cap, crc, s, [Begin(p)] + [LoadTail], writes);
    var s3 := Exec(cap, crc, s2, writes);
    ExecOne(cap, crc, s3, StoreTail);
    ExecSplit(cap, crc, s, [Begin(p)] + [LoadTail] + writes, [StoreTail]);
    ExecKeepsInv(cap, crc, s, AppendSteps(cap, crc, s.tail, p));
  }

  // ---- runs that return an entry twice -------------------------------------

  function AsFirst(steps: seq<Step>): (r: seq<TwoStep>)
    ensures |r| == |steps| && forall k :: 0 <= k < |steps| ==> r[k] == First(steps[k])
  {
    seq(|steps|, k requires 0 <= k < |steps| => First(steps[k]))
  }

  function AsSecond(steps: seq<Step>): (r: seq<TwoStep>)
    ensures |r| == |steps| && forall k :: 0 <= k < |steps| ==> r[k] == Second(steps[k])
  {
    seq(|steps|, k requires 0 <= k < |steps| => Second(steps[k]))
  }

  lemma {:induction false} FirstAlone(cap: nat, crc: Checksum, p: Pair, steps: seq<Step>)
    requires cap > 0
    ensures ExecOfTwo(cap, crc, p, AsFirst(steps)) == p.(s := Exec(cap, crc, p.s, steps))
  {
    hide Next;
    if steps != [] {
      var init := steps[..|steps| - 1];
      FirstAlone(cap, crc, p, init);
      assert AsFirst(steps)[..|steps| - 1] == AsFirst(init);
    }
  }

  lemma SecondAlone(cap: nat, crc: Checksum, p: Pair, steps: seq<Step>)
    requires cap > 0 && forall k :: 0 <= k < |steps| ==> IsConsumers(steps[k])
    ensures
      var s := Exec(cap, crc, p.View(), steps);
      ExecOfTwo(cap, crc, p, AsSecond(steps)) == Pair(s.(cons := p.s.cons), s.cons)
  {
    hide NextOfTwo, Next;
    OthersAreOrdinary(cap, crc, p, AsSecond(steps));
    assert Strip(AsSecond(steps)) == steps;
  }

  /** The first consumer reads the next entry and does not yet store the head. */
  function ReadSteps(s: State): seq<Step>
    requires s.taken < |s.log|
  {
    SkipSteps(s.head < s.log[s.taken].start) + Look(8 + |s.log[s.taken].payload|)
  }

  lemma FirstReads(cap: nat, crc: Checksum, s: State)
    requires cap > 0 && Inv(cap, crc, s) && s.cons == CStart(false) && s.taken < |s.log|
    ensures
      var e := s.log[s.taken];
      var p := ExecOfTwo(cap, crc, Pair(s, CStart(false)), AsFirst(ReadSteps(s)));
      && Waits(cap, crc, p, [], s.head < e.start)
      && p.View() == s.(head := e.start) && p.other == CStart(false)
  {
    hide RingInv, Pos, Plan, SkipSteps, Look, Exec, ExecOfTwo, Frame, ProducerStep, ConsumerStep;
    var e := s.log[s.taken];
    var skip := SkipSteps(s.head < e.start);
    SkipRun(cap, crc, s);
    var s1 := Exec(cap, crc, s, skip);
    Looks(cap, crc, s1);
    ExecSplit(cap, crc, s, skip, Look(8 + |e.payload|));
    FirstAlone(cap, crc, Pair(s, CStart(false)), ReadSteps(s));
  }

  function TwiceSteps(s: State): seq<TwoStep>
    requires s.taken < |s.log|
  {
    AsFirst(ReadSteps(s)) + AsSecond(PopSteps(false, s.log[s.taken].payload)) + [First(Decide)]
  }

  lemma PopIsConsumers(skip: bool, p: Payload)
    ensures forall k :: 0 <= k < |PopSteps(skip, p)| ==> IsConsumers(PopSteps(skip, p)[k])
  {
  }

  lemma OneOfTwo(cap: nat, crc: Checksum, p: Pair, step: TwoStep)
    requires cap > 0
    ensures ExecOfTwo(cap, crc, p, [step]) == NextOfTwo(cap, crc, p, step)
  {
    assert [step][..0] == [];
  }

  /** From every state with an unread entry, two consumers can both return it. */
  lemma TwiceRun(cap: nat, crc: Checksum, s: State)
    requires cap > 0 && Inv(cap, crc, s) && s.cons == CStart(false) && s.taken < |s.log|
    ensures
      var e := s.log[s.taken];
      ExecOfTwo(cap, crc, Pair(s, CStart(false)), TwiceSteps(s)) ==
      Pair(s.(head := e.End(), taken := s.taken + 2, popped := s.popped + [e.payload] + [e.payload]), CStart(false))
  {
    hide Inv, Exec, ExecOfTwo, PopSteps, ReadSteps, WellPlaced, Frame, ConsumerStep;
    var e, p0 := s.log[s.taken], Pair(s, CStart(false));
    FirstReads(cap, crc, s);
    var p1 := ExecOfTwo(cap, crc, p0, AsFirst(ReadSteps(s)));
    PopRun(cap, crc, p1.View());
    PopIsConsumers(false, e.payload);
    SecondAlone(cap, crc, p1, PopSteps(false, e.payload));
    var p2 := ExecOfTwo(cap, crc, p1, AsSecond(PopSteps(false, e.payload)));
    SlotIsPlaced(cap, crc, s);
    StaleDecide(cap, crc, p2.s, s.tail, s.head < e.start, e);
    OneOfTwo(cap, crc, p2, First(Decide));
    ExecOfTwoSplit(cap, crc, p0, AsFirst(ReadSteps(s)), AsSecond(PopSteps(false, e.payload)));
    ExecOfTwoSplit(cap, crc, p0, AsFirst(ReadSteps(s)) + AsSecond(PopSteps(false, e.payload)), [First(Decide)]);
  }

  /** Before the last step of BackSteps the second consumer has returned two entries. */
  function AheadSteps(s: State): seq<TwoStep>
    requires s.taken + 1 < |s.log|
  {
    var a, b := s.log[s.taken], s.log[s.taken + 1];
    AsFirst(ReadSteps(s)) + (AsSecond(PopSteps(false, a.payload)) + AsSecond(PopSteps(a.End() < b.start, b.payload)))
  }

  function BackSteps(s: State): seq<TwoStep>
    requires s.taken + 1 < |s.log|
  {
    AheadSteps(s) + [First(Decide)]
  }

  lemma SecondTakesTwo(cap: nat, crc: Checksum, p: Pair)
    requires cap > 0 && Inv(cap, crc, p.View()) && p.other == CStart(false) && AtFrame(p.s)
    requires p.s.taken + 1 < |p.s.log|
    ensures
      var a, b := p.s.log[p.s.taken], p.s.log[p.s.taken + 1];
      var steps := AsSecond(PopSteps(false, a.payload)) + AsSecond(PopSteps(a.End() < b.start, b.payload));
      ExecOfTwo(cap, crc, p, steps) ==
      p.(s := p.s.(head := b.End(), taken := p.s.taken + 2, popped := p.s.popped + [a.payload] + [b.payload]))
  {
    hide Inv, Exec, ExecOfTwo, PopSteps;
    var a, b := p.s.log[p.s.taken], p.s.log[p.s.taken + 1];
    PopRun(cap, crc, p.View());
    PopIsConsumers(false, a.payload);
    SecondAlone(cap, crc, p, PopSteps(false, a.payload));
    var p1 := ExecOfTwo(cap, crc, p, AsSecond(PopSteps(false, a.payload)));
    PopRun(cap, crc, p1.View());
    PopIsConsumers(a.End() < b.start, b.payload);
    SecondAlone(cap, crc, p1, PopSteps(a.End() < b.start, b.payload));
    ExecOfTwoSplit(cap, crc, p, AsSecond(PopSteps(false, a.payload)),
                   AsSecond(PopSteps(a.End() < b.start, b.payload)));
  }

  /** From every state with two unread entries, the second consumer can return both and
      the first then return the older one again and take the head back behind it. */
  lemma BackRun(cap: nat, crc: Checksum, s: State)
    requires cap > 0 && Inv(cap, crc, s) && s.cons == CStart(false) && s.taken + 1 < |s.log|
    ensures
      var a, b, p0 := s.log[s.taken], s.log[s.taken + 1], Pair(s, CStart(false));
      && ExecOfTwo(cap, crc, p0, AheadSteps(s)).s.head == b.End() > a.End()
      && ExecOfTwo(cap, crc, p0, BackSteps(s)) ==
         Pair(s.(head := a.End(), taken := s.taken + 3,
                 popped := s.popped + [a.payload] + [b.payload] + [a.payload]), CStart(false))
  {
    hide Inv, Exec, ExecOfTwo, PopSteps, ReadSteps, WellPlaced, Frame, ConsumerStep;
    var a, b, p0 := s.log[s.taken], s.log[s.taken + 1], Pair(s, CStart(false));
    FirstReads(cap, crc, s);
    var p1 := ExecOfTwo(cap, crc, p0, AsFirst(ReadSteps(s)));
    SecondTakesTwo(cap, crc, p1);
    var more := AsSecond(PopSteps(false, a.payload)) + AsSecond(PopSteps(a.End() < b.start, b.payload));
    var p2 := ExecOfTwo(cap, crc, p1, more);
    ExecOfTwoSplit(cap, crc, p0, AsFirst(ReadSteps(s)), more);
    SlotIsPlaced(cap, crc, s);
    StaleDecide(cap, crc, p2.s, s.tail, s.head < a.start, a);
    OneOfTwo(cap, crc, p2, First(Decide));
    ExecOfTwoSplit(cap, crc, p0, AheadSteps(s), [First(Decide)]);
    EndsIncrease(cap, crc, s);
  }

  lemma EndsIncrease(cap: nat, crc: Checksum, s: State)
    requires Inv(cap, crc, s) && s.taken + 1 < |s.log|
    ensures s.log[s.taken].End() < s.log[s.taken + 1].End()
  {
    hide Pos, Kept, WellPlaced, AlignUp;
  }

  /** In every ring, and for every payload it can hold, a run that appends the payload
      once and returns it twice. */
  lemma TwiceIsReachable(cap: nat, crc: Checksum, mem: seq<byte>, p: Payload) returns (steps: seq<TwoStep>)
    requires GoodCap(cap) && |mem| == cap && Sendable(cap, p)
    ensures
      var s := ExecOfTwo(cap, crc, Pair(Init(mem), CStart(false)), steps).s;
      Payloads(s.log) == [p] && s.popped == [p, p] && !s.corrupt
  {
    hide Inv, Exec, ExecOfTwo, TwiceSteps, AppendSteps;
    var p0 := Pair(Init(mem), CStart(false));
    assert Inv(cap, crc, Init(mem)) by { RunKeepsInv(cap, crc, mem, []); NoSteps(cap, crc, Init(mem)); }
    AppendRun(cap, crc, Init(mem), p);
    var append := AppendSteps(cap, crc, 0, p);
    var s := Exec(cap, crc, Init(mem), append);
    FirstAlone(cap, crc, p0, append);
    TwiceRun(cap, crc, s);
    ExecOfTwoSplit(cap, crc, p0, AsFirst(append), TwiceSteps(s));
    steps := AsFirst(append) + TwiceSteps(s);
  }

  lemma NoSteps(cap: nat, crc: Checksum, s: State)
    requires cap > 0
    ensures Exec(cap, crc, s, []) == s
  {
  }
}
