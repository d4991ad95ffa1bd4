// Every interleaving of one producer and one consumer on the shared bytes.
// The steps are single loads, single byte writes, single byte reads and single
// cursor stores, over sequentially consistent memory. A step that the state
// does not allow leaves it unchanged, so a run is any sequence of step labels.
module RingSteps {
  import opened Bytes
  import opened RingLayout

  datatype Producer =
    | PIdle
    | PHead(payload: Payload, h: nat)
    | PWrite(payload: Payload, h: nat, t: nat, k: nat)

  /** `again` marks the second iteration of the Pop loop, after a skip marker. */
  datatype Consumer =
    | CStart(again: bool)
    | CTail(t: nat, again: bool)
    | CRead(t: nat, h: nat, got: seq<byte>, again: bool)

  datatype State = State(mem: seq<byte>, head: nat, tail: nat, prod: Producer, cons: Consumer,
                         log: seq<Slot>, taken: nat, popped: seq<Payload>, corrupt: bool)

  datatype Step = Begin(payload: Payload) | LoadTail | WriteByte | StoreTail
                | ConsLoadTail | ConsLoadHead | ReadByte | Decide

  function Writes(pos: nat, bs: seq<byte>): (r: seq<(nat, byte)>)
    ensures |r| == |bs|
    ensures forall i :: 0 <= i < |bs| ==> r[i] == (pos + i, bs[i])
  {
    seq(|bs|, i requires 0 <= i < |bs| => (pos + i, bs[i]))
  }

  /** The byte writes of Append, in program order. */
  function Plan(cap: nat, crc: Checksum, t: nat, p: Payload): seq<(nat, byte)>
    requires cap > 0
  {
    if Space(cap, t) < EntrySize(p)
    then Writes(Pos(cap, t), SkipBytes()) + Writes(0, Frame(crc, p))
    else Writes(Pos(cap, t), Frame(crc, p))
  }

  /** Whether Pop still has bytes to read before it can decide. */
  predicate WantsMore(cap: nat, h: nat, got: seq<byte>)
    requires cap > 0
  {
    |got| < 4 ||
    var raw := FromLE(got[..4]);
    raw != SKIP_MARKER && raw <= MAX_PAYLOAD && AlignUp(8 + raw) <= Space(cap, h) && |got| < 8 + raw
  }

  function ProducerStep(cap: nat, crc: Checksum, s: State, step: Step): State
    requires cap > 0
  {
    match (s.prod, step)
    case (PIdle, Begin(p)) =>
      if Sendable(cap, p) then s.(prod := PHead(p, s.head)) else s
    case (PHead(p, h), LoadTail) =>
      if Needed(cap, s.tail, p) > cap - (s.tail - h) then s.(prod := PIdle)
      else s.(prod := PWrite(p, h, s.tail, 0))
    case (PWrite(p, h, t, k), WriteByte) =>
      var plan := Plan(cap, crc, t, p);
      if k < |plan| && plan[k].0 < |s.mem|
      then s.(mem := s.mem[plan[k].0 := plan[k].1], prod := PWrite(p, h, t, k + 1)) else s
    case (PWrite(p, h, t, k), StoreTail) =>
      if k < |Plan(cap, crc, t, p)| then s
      else s.(tail := t + Needed(cap, t, p), log := s.log + [SlotAt(cap, t, p)], prod := PIdle)
    case _ => s
  }

  function DecideStep(cap: nat, crc: Checksum, s: State, h: nat, got: seq<byte>): State
    requires cap > 0 && !WantsMore(cap, h, got)
  {
    var raw := FromLE(got[..4]);
    if raw == SKIP_MARKER then
      s.(head := h + Space(cap, h), cons := CStart(true))
    else if raw > MAX_PAYLOAD || AlignUp(8 + raw) > Space(cap, h) || FromLE(got[4..8]) != crc(got[8..]) then
      s.(corrupt := true, cons := CStart(false))
    else
      s.(head := h + AlignUp(8 + raw), taken := s.taken + 1, popped := s.popped + [got[8..]], cons := CStart(false))
  }

  function ConsumerStep(cap: nat, crc: Checksum, s: State, step: Step): State
    requires cap > 0
  {
    match (s.cons, step)
    case (CStart(again), ConsLoadTail) => s.(cons := CTail(s.tail, again))
    case (CTail(t, again), ConsLoadHead) =>
      if s.head == t then s.(cons := CStart(false)) else s.(cons := CRead(t, s.head, [], again))
    case (CRead(t, h, got, again), ReadByte) =>
      if !WantsMore(cap, h, got) then s
      else if Pos(cap, h) + |got| >= |s.mem| then s.(corrupt := true)
      else s.(cons := CRead(t, h, got + [s.mem[Pos(cap, h) + |got|]], again))
    case (CRead(t, h, got, again), Decide) =>
      if WantsMore(cap, h, got) then s else DecideStep(cap, crc, s, h, got)
    case _ => s
  }

  function Next(cap: nat, crc: Checksum, s: State, step: Step): State
    requires cap > 0
  {
    if step.Begin? || step.LoadTail? || step.WriteByte? || step.StoreTail?
    then ProducerStep(cap, crc, s, step) else ConsumerStep(cap, crc, s, step)
  }

  function Exec(cap: nat, crc: Checksum, s: State, steps: seq<Step>): State
    requires cap > 0
  {
    if steps == [] then s
    else Next(cap, crc, Exec(cap, crc, s, steps[..|steps| - 1]), steps[|steps| - 1])
  }

  /** The state Create leaves, with any bytes in the data region. */
  function Init(mem: seq<byte>): State {
    State(mem, 0, 0, PIdle, CStart(false), [], 0, [], false)
  }

  // ---- invariant -----------------------------------------------------------

  ghost predicate ProducerInv(cap: nat, crc: Checksum, s: State)
    requires cap > 0
  {
    match s.prod
    case PIdle => true
    case PHead(p, h) => Sendable(cap, p) && h <= s.head && s.tail <= h + cap
    case PWrite(p, h, t, k) =>
      && Sendable(cap, p) && h <= s.head && t == s.tail && t + Needed(cap, t, p) <= h + cap
      && k <= |Plan(cap, crc, t, p)|
      && Written(s.mem, Plan(cap, crc, t, p), k)
  }

  ghost predicate Written(mem: seq<byte>, plan: seq<(nat, byte)>, k: nat)
    requires k <= |plan|
  {
    forall j :: 0 <= j < k ==> plan[j].0 < |mem| && mem[plan[j].0] == plan[j].1
  }

  /** The bytes Pop will read where the head stands. */
  ghost function Current(crc: Checksum, s: State): seq<byte>
    requires s.taken < |s.log|
  {
    if s.head < s.log[s.taken].start then SkipBytes()[..4] else Frame(crc, s.log[s.taken].payload)
  }

  ghost predicate AtFrame(s: State) {
    s.taken < |s.log| && s.head == s.log[s.taken].start < s.tail
  }

  ghost predicate ConsumerInv(crc: Checksum, s: State) {
    match s.cons
    case CStart(again) => again ==> AtFrame(s)
    case CTail(t, again) => s.head <= t <= s.tail && (again ==> AtFrame(s) && s.head < t)
    case CRead(t, h, got, again) =>
      && h == s.head < t <= s.tail && s.taken < |s.log|
      && got <= Current(crc, s)
      && (again ==> AtFrame(s))
  }

  ghost predicate Inv(cap: nat, crc: Checksum, s: State) {
    && RingInv(cap, crc, s.mem, s.head, s.tail, s.log, s.taken)
    && ProducerInv(cap, crc, s)
    && ConsumerInv(crc, s)
    && s.popped == Payloads(s.log)[..s.taken]
    && !s.corrupt
  }

  // ---- the producer's writes ----------------------------------------------

  /** The cursor that write k of the plan touches. */
  function Address(cap: nat, t: nat, p: Payload, k: nat): nat
    requires cap > 0
  {
    if SkipLen(cap, t, p) > 0 && k >= 8 then t + SkipLen(cap, t, p) + (k - 8) else t + k
  }

  lemma PlanAddresses(cap: nat, crc: Checksum, t: nat, p: Payload, k: nat)
    requires cap > 0 && WellPlaced(cap, SlotAt(cap, t, p))
    requires k < |Plan(cap, crc, t, p)|
    ensures Pos(cap, Address(cap, t, p, k)) == Plan(cap, crc, t, p)[k].0
    ensures t <= Address(cap, t, p, k) < t + Needed(cap, t, p)
  {
    hide Pos, AlignUp, Frame, SkipBytes;
    if SkipLen(cap, t, p) > 0 && k >= 8 {
      PosAdvance(cap, t + SkipLen(cap, t, p), k - 8);
    } else {
      PosAdvance(cap, t, k);
    }
  }

  /** The writes of one plan touch distinct bytes. */
  lemma PlanDistinct(cap: nat, crc: Checksum, t: nat, p: Payload, j: nat, k: nat)
    requires cap > 0 && WellPlaced(cap, SlotAt(cap, t, p)) && Needed(cap, t, p) <= cap
    requires j < k < |Plan(cap, crc, t, p)|
    ensures Plan(cap, crc, t, p)[j].0 != Plan(cap, crc, t, p)[k].0
  {
    PlanAddresses(cap, crc, t, p, j);
    PlanAddresses(cap, crc, t, p, k);
    PosApart(cap, Address(cap, t, p, j), Address(cap, t, p, k));
  }

  lemma WritesStored(mem: seq<byte>, pos: nat, bs: seq<byte>, plan: seq<(nat, byte)>, off: nat)
    requires off + |bs| <= |plan| && plan[off..off + |bs|] == Writes(pos, bs)
    requires Written(mem, plan, |plan|)
    requires pos + |bs| <= |mem|
    ensures StoredAt(mem, pos, bs)
  {
    forall i | 0 <= i < |bs|
      ensures mem[pos + i] == bs[i]
    {
      assert plan[off + i] == plan[off..off + |bs|][i] == Writes(pos, bs)[i];
    }
  }

  /** Once the whole plan is written, the entry is in place. */
  lemma PlanStored(cap: nat, crc: Checksum, mem: seq<byte>, head: nat, t: nat, p: Payload)
    requires cap > 0 && |mem| == cap && WellPlaced(cap, SlotAt(cap, t, p))
    requires Written(mem, Plan(cap, crc, t, p), |Plan(cap, crc, t, p)|)
    ensures Kept(cap, crc, mem, head, SlotAt(cap, t, p))
  {
    var plan := Plan(cap, crc, t, p);
    if SkipLen(cap, t, p) > 0 {
      assert plan[0..8] == Writes(Pos(cap, t), SkipBytes());
      WritesStored(mem, Pos(cap, t), SkipBytes(), plan, 0);
      assert plan[8..8 + |Frame(crc, p)|] == Writes(0, Frame(crc, p));
      WritesStored(mem, 0, Frame(crc, p), plan, 8);
    } else {
      assert plan[0..|Frame(crc, p)|] == Writes(Pos(cap, t), Frame(crc, p));
      WritesStored(mem, Pos(cap, t), Frame(crc, p), plan, 0);
    }
  }

  // ---- each step keeps the invariant --------------------------------------

  lemma RingBasics(cap: nat, crc: Checksum, s: State)
    requires RingInv(cap, crc, s.mem, s.head, s.tail, s.log, s.taken)
    ensures GoodCap(cap) && |s.mem| == cap && s.taken <= |s.log| && s.head <= s.tail <= s.head + cap
    ensures s.taken == |s.log| ==> s.head == s.tail
    ensures s.taken < |s.log| ==>
        s.log[s.taken].start < s.log[s.taken].End() <= s.tail && s.head <= s.log[s.taken].start
  {
    hide Pos, Kept, SkipLen;
  }

  lemma BeginKeeps(cap: nat, crc: Checksum, s: State, p: Payload)
    requires Inv(cap, crc, s)
    ensures Inv(cap, crc, ProducerStep(cap, crc, s, Begin(p)))
  {
    hide RingInv, Pos, AlignUp;
    RingBasics(cap, crc, s);
  }

  lemma LoadTailKeeps(cap: nat, crc: Checksum, s: State)
    requires Inv(cap, crc, s)
    ensures Inv(cap, crc, ProducerStep(cap, crc, s, LoadTail))
  {
    hide RingInv, Pos, AlignUp;
  }

  lemma WriteByteKeeps(cap: nat, crc: Checksum, s: State)
    requires Inv(cap, crc, s)
    ensures Inv(cap, crc, ProducerStep(cap, crc, s, WriteByte))
  {
    hide RingInv, Pos, AlignUp, Plan;
    RingBasics(cap, crc, s);
    var s' := ProducerStep(cap, crc, s, WriteByte);
    if s.prod.PWrite? && s' != s {
      var PWrite(p, h, t, k) := s.prod;
      var plan := Plan(cap, crc, t, p);
      CursorsAligned(cap, crc, s.mem, s.head, s.tail, s.log, s.taken);
      PlacementFacts(cap, t, p);
      PlanAddresses(cap, crc, t, p, k);
      FreeWriteIsInvisible(cap, s.mem, s.head, s.tail, Address(cap, t, p, k), plan[k].1);
      KeptTransfer(cap, crc, s.mem, s'.mem, s.head, s.tail, s.log, s.taken);
      forall j | 0 <= j < k
        ensures plan[j].0 != plan[k].0
      {
        PlanDistinct(cap, crc, t, p, j, k);
      }
    }
  }

  lemma StoreTailKeeps(cap: nat, crc: Checksum, s: State)
    requires Inv(cap, crc, s)
    ensures Inv(cap, crc, ProducerStep(cap, crc, s, StoreTail))
  {
    hide RingInv, Pos, AlignUp, Plan;
    RingBasics(cap, crc, s);
    var s' := ProducerStep(cap, crc, s, StoreTail);
    if s.prod.PWrite? && s' != s {
      var PWrite(p, h, t, k) := s.prod;
      CursorsAligned(cap, crc, s.mem, s.head, s.tail, s.log, s.taken);
      PlacementFacts(cap, t, p);
      PlanStored(cap, crc, s.mem, s.head, t, p);
      PublishKeepsInv(cap, crc, s.mem, s.head, s.tail, s.log, s.taken, SlotAt(cap, t, p));
      assert Payloads(s'.log)[..s.taken] == Payloads(s.log)[..s.taken];
    }
  }

  lemma ConsLoadsKeep(cap: nat, crc: Checksum, s: State, step: Step)
    requires Inv(cap, crc, s)
    requires step.ConsLoadTail? || step.ConsLoadHead?
    ensures Inv(cap, crc, ConsumerStep(cap, crc, s, step))
  {
    hide RingInv, Pos, AlignUp;
    RingBasics(cap, crc, s);
    if s.head < s.tail {
      HeadFacts(cap, crc, s.mem, s.head, s.tail, s.log, s.taken);
    }
  }

  /** While bytes are wanted, the next one read is the next one stored. */
  lemma NextByte(cap: nat, crc: Checksum, s: State)
    requires Inv(cap, crc, s) && s.cons.CRead?
    requires WantsMore(cap, s.cons.h, s.cons.got)
    ensures |s.cons.got| < |Current(crc, s)|
    ensures Pos(cap, s.head) + |s.cons.got| < |s.mem|
    ensures s.mem[Pos(cap, s.head) + |s.cons.got|] == Current(crc, s)[|s.cons.got|]
  {
    hide RingInv, Pos, LE, FromLE;
    RingBasics(cap, crc, s);
    HeadFacts(cap, crc, s.mem, s.head, s.tail, s.log, s.taken);
    HeadWord(crc, s.log[s.taken].payload);
    var got, pos, n := s.cons.got, Pos(cap, s.head), |s.cons.got|;
    if n >= 4 {
      assert got[..4] == Current(crc, s)[..4];
      assert SkipBytes()[..4][..4] == SkipBytes()[..4];
    }
    if s.head < s.log[s.taken].start {
      assert s.mem[pos..pos + 8][n] == s.mem[pos + n];
    } else {
      assert s.mem[pos..pos + |Frame(crc, s.log[s.taken].payload)|][n] == s.mem[pos + n];
    }
  }

  lemma ReadByteKeeps(cap: nat, crc: Checksum, s: State)
    requires Inv(cap, crc, s)
    ensures Inv(cap, crc, ConsumerStep(cap, crc, s, ReadByte))
  {
    hide RingInv, Pos, LE, FromLE;
    RingBasics(cap, crc, s);
    if s.cons.CRead? && WantsMore(cap, s.cons.h, s.cons.got) {
      NextByte(cap, crc, s);
      assert s.cons.got + [Current(crc, s)[|s.cons.got|]] <= Current(crc, s);
    }
  }

  /** When Pop decides, it has either a skip marker or the whole next entry:
      it never reports corruption, and skips at most once per call. */
  lemma DecideFacts(cap: nat, crc: Checksum, s: State)
    requires Inv(cap, crc, s) && s.cons.CRead?
    requires !WantsMore(cap, s.cons.h, s.cons.got)
    ensures
      var e := s.log[s.taken];
      var s' := DecideStep(cap, crc, s, s.cons.h, s.cons.got);
      if s.head < e.start then !s.cons.again && s' == s.(head := e.start, cons := CStart(true))
      else s' == s.(head := e.End(), taken := s.taken + 1, popped := s.popped + [e.payload], cons := CStart(false))
  {
    hide RingInv, Pos, LE, FromLE;
    RingBasics(cap, crc, s);
    var got, e := s.cons.got, s.log[s.taken];
    HeadFacts(cap, crc, s.mem, s.head, s.tail, s.log, s.taken);
    HeadWord(crc, e.payload);
    assert got[..4] == Current(crc, s)[..4];
    assert SkipBytes()[..4][..4] == SkipBytes()[..4];
    if s.head == e.start {
      assert got == Frame(crc, e.payload);
    }
  }

  lemma SkipMoveKeeps(cap: nat, crc: Checksum, s: State)
    requires Inv(cap, crc, s) && s.taken < |s.log| && s.head < s.log[s.taken].start
    ensures Inv(cap, crc, s.(head := s.log[s.taken].start, cons := CStart(true)))
  {
    hide RingInv, Pos, AlignUp, Plan;
    RingBasics(cap, crc, s);
    SkipKeepsInv(cap, crc, s.mem, s.head, s.tail, s.log, s.taken);
  }

  lemma TakeMoveKeeps(cap: nat, crc: Checksum, s: State)
    requires Inv(cap, crc, s) && s.taken < |s.log| && s.head == s.log[s.taken].start
    ensures
      var e := s.log[s.taken];
      Inv(cap, crc, s.(head := e.End(), taken := s.taken + 1, popped := s.popped + [e.payload], cons := CStart(false)))
  {
    hide RingInv, Pos, AlignUp, Plan;
    RingBasics(cap, crc, s);
    TakeKeepsInv(cap, crc, s.mem, s.head, s.tail, s.log, s.taken);
    assert Payloads(s.log)[..s.taken + 1] == Payloads(s.log)[..s.taken] + [s.log[s.taken].payload];
  }

  lemma DecideKeeps(cap: nat, crc: Checksum, s: State)
    requires Inv(cap, crc, s)
    ensures Inv(cap, crc, ConsumerStep(cap, crc, s, Decide))
  {
    hide RingInv, Pos, WantsMore, DecideStep, ProducerInv;
    RingBasics(cap, crc, s);
    if s.cons.CRead? && !WantsMore(cap, s.cons.h, s.cons.got) {
      DecideFacts(cap, crc, s);
      if s.head < s.log[s.taken].start {
        SkipMoveKeeps(cap, crc, s);
      } else {
        TakeMoveKeeps(cap, crc, s);
      }
    }
  }

  lemma StepKeepsInv(cap: nat, crc: Checksum, s: State, step: Step)
    requires Inv(cap, crc, s)
    ensures Inv(cap, crc, Next(cap, crc, s, step))
  {
    hide Inv, ProducerStep, ConsumerStep;
    match step
    case Begin(p) => BeginKeeps(cap, crc, s, p);
    case LoadTail => LoadTailKeeps(cap, crc, s);
    case WriteByte => WriteByteKeeps(cap, crc, s);
    case StoreTail => StoreTailKeeps(cap, crc, s);
    case ConsLoadTail => ConsLoadsKeep(cap, crc, s, step);
    case ConsLoadHead => ConsLoadsKeep(cap, crc, s, step);
    case ReadByte => ReadByteKeeps(cap, crc, s);
    case Decide => DecideKeeps(cap, crc, s);
  }

  // ---- whole runs ----------------------------------------------------------

  lemma {:induction false} RunKeepsInv(cap: nat, crc: Checksum, mem: seq<byte>, steps: seq<Step>)
    requires GoodCap(cap) && |mem| == cap
    ensures Inv(cap, crc, Exec(cap, crc, Init(mem), steps))
  {
    if steps != [] {
      RunKeepsInv(cap, crc, mem, steps[..|steps| - 1]);
      StepKeepsInv(cap, crc, Exec(cap, crc, Init(mem), steps[..|steps| - 1]), steps[|steps| - 1]);
    }
  }

  /** Under every interleaving, what Pop has returned is a prefix of what
      Append has accepted, and Pop never reports corruption. */
  lemma PoppedIsPrefixOfAppended(cap: nat, crc: Checksum, mem: seq<byte>, steps: seq<Step>)
    requires GoodCap(cap) && |mem| == cap
    ensures
      var s := Exec(cap, crc, Init(mem), steps);
      && s.popped <= Payloads(s.log)
      && !s.corrupt
      && s.head <= s.tail <= s.head + cap
      && s.head % 8 == 0 && s.tail % 8 == 0
  {
    RunKeepsInv(cap, crc, mem, steps);
    var s := Exec(cap, crc, Init(mem), steps);
    CursorsAligned(cap, crc, s.mem, s.head, s.tail, s.log, s.taken);
  }

  function Queue(s: State): seq<Payload>
    requires s.taken <= |s.log|
  {
    Payloads(s.log)[s.taken..]
  }

  /** The ring refines a FIFO queue: only the tail store enqueues, and it
      enqueues the payload being appended; only the final head store dequeues,
      and it returns the oldest payload; no other step is visible. */
  lemma StepRefinesQueue(cap: nat, crc: Checksum, s: State, step: Step)
    requires Inv(cap, crc, s)
    ensures
      var s' := Next(cap, crc, s, step);
      && Inv(cap, crc, s')
      && if s'.tail != s.tail then
           && step == StoreTail && s.prod.PWrite?
           && Queue(s') == Queue(s) + [s.prod.payload] && s'.popped == s.popped
         else if s'.popped != s.popped then
           && step == Decide && Queue(s) != []
           && Queue(s') == Queue(s)[1..] && s'.popped == s.popped + [Queue(s)[0]]
         else
           Queue(s') == Queue(s)
  {
    hide RingInv, Pos, WantsMore, DecideStep, Plan;
    RingBasics(cap, crc, s);
    StepKeepsInv(cap, crc, s, step);
    var s' := Next(cap, crc, s, step);
    if step == Decide && s.cons.CRead? && !WantsMore(cap, s.cons.h, s.cons.got) {
      DecideFacts(cap, crc, s);
      assert Payloads(s.log)[s.taken..][1..] == Payloads(s.log)[s.taken + 1..];
    }
    if step == StoreTail && s' != s {
      assert Payloads(s'.log) == Payloads(s.log) + [s.prod.payload];
      assert Payloads(s'.log)[s.taken..] == Payloads(s.log)[s.taken..] + [s.prod.payload];
    }
  }
}
