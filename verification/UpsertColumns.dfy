// The same ten assignments evaluated one at a time, each CASE expression
// reading the row as the earlier assignments left it.
module UpsertColumns {
  import opened Records
  import opened Upsert
  import opened Sequencer

  datatype Column = KeyCol | EncodedCol | TtlCol | TimestampCol | TombstoneCol | UpdatedAtCol
                  | WriterCol | OwnerSeqCol | EpochCol | GenerationCol

  /** Column c of r, replaced by that of n. */
  function SetCol(r: Record, n: Record, c: Column): Record {
    match c
    case KeyCol => r.(key := n.key)
    case EncodedCol => r.(encoded := n.encoded)
    case TtlCol => r.(ttl := n.ttl)
    case TimestampCol => r.(timestamp := n.timestamp)
    case TombstoneCol => r.(tombstone := n.tombstone)
    case UpdatedAtCol => r.(updatedAt := n.updatedAt)
    case WriterCol => r.(writer := n.writer)
    case OwnerSeqCol => r.(ownerSeq := n.ownerSeq)
    case EpochCol => r.(epoch := n.epoch)
    case GenerationCol => r.(generation := n.generation)
  }

  function Assign(row: Record, n: Record, c: Column): Record {
    if Newer(n.FenceOf(), row.FenceOf()) then SetCol(row, n, c) else row
  }

  function Eval(order: seq<Column>, row: Record, n: Record): Record {
    if order == [] then row else Eval(order[1..], Assign(row, n, order[0]), n)
  }

  /** How late a column may come: payload first, then the fence from its least
      significant part to its most significant. */
  function Rank(c: Column): nat {
    match c
    case WriterCol => 1
    case OwnerSeqCol => 2
    case EpochCol => 3
    case GenerationCol => 4
    case _ => 0
  }

  ghost predicate Complete(order: seq<Column>) {
    && (forall c: Column :: c in order)
    && (forall i, j :: 0 <= i < j < |order| ==> order[i] != order[j])
  }

  ghost predicate Sorted(order: seq<Column>) {
    forall i, j :: 0 <= i < j < |order| ==> Rank(order[i]) <= Rank(order[j])
  }

  /** Row after the columns in `done` were taken from n. */
  function Taken(r: Record, n: Record, done: set<Column>): Record {
    Record(r.dmap,
           if KeyCol in done then n.key else r.key,
           r.hkey,
           if EncodedCol in done then n.encoded else r.encoded,
           if TtlCol in done then n.ttl else r.ttl,
           if TimestampCol in done then n.timestamp else r.timestamp,
           if TombstoneCol in done then n.tombstone else r.tombstone,
           if GenerationCol in done then n.generation else r.generation,
           if EpochCol in done then n.epoch else r.epoch,
           if OwnerSeqCol in done then n.ownerSeq else r.ownerSeq,
           if WriterCol in done then n.writer else r.writer,
           if UpdatedAtCol in done then n.updatedAt else r.updatedAt)
  }

  /** A record that is not newer leaves the row alone, in every order. */
  lemma {:induction false} NotNewerIsNoop(order: seq<Column>, row: Record, n: Record)
    requires !Newer(n.FenceOf(), row.FenceOf())
    ensures Eval(order, row, n) == row
  {
    if order != [] {
      NotNewerIsNoop(order[1..], row, n);
    }
  }

  /** Once a column is taken, every column of lower rank has been. */
  ghost predicate Closed(done: set<Column>) {
    forall c, d :: c in done && Rank(d) < Rank(c) ==> d in done
  }

  /** With taken columns closed under lower rank, the comparison stops holding
      only when nothing is left to take. */
  lemma StopsWhenDone(r: Record, n: Record, done: set<Column>)
    requires r.KeyOf() == n.KeyOf() && Newer(n.FenceOf(), r.FenceOf()) && Closed(done)
    requires !Newer(n.FenceOf(), Taken(r, n, done).FenceOf())
    ensures Taken(r, n, done) == n
  {
    hide StringLess;
    assert Rank(OwnerSeqCol) < Rank(EpochCol) < Rank(GenerationCol) && Rank(WriterCol) < Rank(OwnerSeqCol);
    if WriterCol in done {
      forall d | Rank(d) == 0
        ensures d in done
      {
        assert Rank(d) < Rank(WriterCol);
      }
    }
  }

  lemma TakeOne(r: Record, n: Record, done: set<Column>, c: Column)
    ensures SetCol(Taken(r, n, done), n, c) == Taken(r, n, done + {c})
  {
    var more := done + {c};
    assert forall d: Column :: d in more <==> d in done || d == c;
    match c {
      case KeyCol => case EncodedCol => case TtlCol => case TimestampCol => case TombstoneCol =>
      case UpdatedAtCol => case WriterCol => case OwnerSeqCol => case EpochCol => case GenerationCol =>
    }
  }

  lemma NextClosed(order: seq<Column>, done: set<Column>)
    requires order != [] && Sorted(order) && Closed(done)
    requires forall c: Column :: c in done || c in order
    ensures Sorted(order[1..]) && Closed(done + {order[0]})
    ensures forall c: Column :: c in done + {order[0]} || c in order[1..]
  {
    hide Rank;
    assert forall d :: d in order ==> d == order[0] || d in order[1..];
  }

  lemma NothingLeft(r: Record, n: Record, done: set<Column>)
    requires r.KeyOf() == n.KeyOf() && forall c: Column :: c in done
    ensures Taken(r, n, done) == n
  {
  }

  lemma {:induction false} SortedEval(order: seq<Column>, r: Record, n: Record, done: set<Column>)
    requires r.KeyOf() == n.KeyOf() && Newer(n.FenceOf(), r.FenceOf())
    requires Sorted(order) && Closed(done)
    requires forall c: Column :: c in done || c in order
    ensures Eval(order, Taken(r, n, done), n) == n
    decreases |order|
  {
    hide Newer, Taken, SetCol, Rank;
    var row := Taken(r, n, done);
    if !Newer(n.FenceOf(), row.FenceOf()) {
      StopsWhenDone(r, n, done);
      NotNewerIsNoop(order, row, n);
    } else if order == [] {
      NothingLeft(r, n, done);
    } else {
      var c := order[0];
      TakeOne(r, n, done, c);
      NextClosed(order, done);
      SortedEval(order[1..], r, n, done + {c});
    }
  }

  // ---- a witness against every other order --------------------------------

  const BASE := Record("", "", 0, [], 0, 0, false, 0, 0, 0, "b", 0)

  /** BASE with fence column c raised, and column d changed: a payload column to
      another value, a fence column downwards. */
  function Witness(c: Column, d: Column): Record {
    var up := match c
      case WriterCol => BASE.(writer := "c")
      case OwnerSeqCol => BASE.(ownerSeq := 1)
      case EpochCol => BASE.(epoch := 1)
      case _ => BASE.(generation := 1);
    match d
    case KeyCol => up.(key := "k")
    case EncodedCol => up.(encoded := [1])
    case TtlCol => up.(ttl := 1)
    case TimestampCol => up.(timestamp := 1)
    case TombstoneCol => up.(tombstone := true)
    case UpdatedAtCol => up.(updatedAt := 1)
    case WriterCol => up.(writer := "a")
    case OwnerSeqCol => up.(ownerSeq := -1)
    case EpochCol => up.(epoch := -1)
    case GenerationCol => up
  }

  lemma WitnessFacts(c: Column, d: Column)
    requires Rank(d) < Rank(c)
    ensures
      var n := Witness(c, d);
      && n.KeyOf() == BASE.KeyOf()
      && Newer(n.FenceOf(), BASE.FenceOf())
      && !Newer(n.FenceOf(), SetCol(BASE, n, c).FenceOf())
      && SetCol(BASE, n, c) != n
      && forall x: Column :: x != c && x != d ==> SetCol(BASE, n, x) == BASE
  {
    assert StringLess("b", "c") && StringLess("a", "b") && !StringLess("b", "a");
    StringLessTotal("c", "c");
    StringLessTotal("b", "b");
  }

  lemma {:induction false} EvalStops(order: seq<Column>, n: Record, c: Column, k: nat)
    requires k < |order| && order[k] == c
    requires forall i :: 0 <= i < k ==> SetCol(BASE, n, order[i]) == BASE
    requires Newer(n.FenceOf(), BASE.FenceOf()) && !Newer(n.FenceOf(), SetCol(BASE, n, c).FenceOf())
    ensures Eval(order, BASE, n) == SetCol(BASE, n, c)
    decreases k
  {
    if k == 0 {
      NotNewerIsNoop(order[1..], SetCol(BASE, n, c), n);
    } else {
      EvalStops(order[1..], n, c, k - 1);
    }
  }

  /** One-at-a-time evaluation agrees with simultaneous evaluation on all rows
      exactly when the payload columns come first and then writer_id, owner_seq,
      epoch, generation. */
  lemma OrderAgreesIff(order: seq<Column>)
    requires Complete(order)
    ensures (forall r: Record, n: Record :: r.KeyOf() == n.KeyOf() ==> Eval(order, r, n) == Merge(r, n)) <==>
        Sorted(order)
  {
    if Sorted(order) {
      forall r: Record, n: Record | r.KeyOf() == n.KeyOf()
        ensures Eval(order, r, n) == Merge(r, n)
      {
        SortedAgrees(order, r, n);
      }
    } else {
      var i, j :| 0 <= i < j < |order| && Rank(order[i]) > Rank(order[j]);
      UnsortedDiffers(order, i, j);
    }
  }

  lemma SortedAgrees(order: seq<Column>, r: Record, n: Record)
    requires Complete(order) && Sorted(order) && r.KeyOf() == n.KeyOf()
    ensures Eval(order, r, n) == Merge(r, n)
  {
    hide Newer;
    MergeIsWholeRow(r, n);
    if Newer(n.FenceOf(), r.FenceOf()) {
      assert Taken(r, n, {}) == r;
      SortedEval(order, r, n, {});
    } else {
      NotNewerIsNoop(order, r, n);
    }
  }

  lemma UnsortedDiffers(order: seq<Column>, i: nat, j: nat)
    requires Complete(order) && i < j < |order| && Rank(order[i]) > Rank(order[j])
    ensures exists r: Record, n: Record :: r.KeyOf() == n.KeyOf() && Eval(order, r, n) != Merge(r, n)
  {
    hide Newer;
    var n := Witness(order[i], order[j]);
    WitnessFacts(order[i], order[j]);
    EvalStops(order, n, order[i], i);
    MergeIsWholeRow(BASE, n);
    assert Eval(order, BASE, n) != Merge(BASE, n);
  }

  // ---- alphabetical order --------------------------------------------------

  const ALPHA_FIRST: seq<Column> := [EncodedCol, EpochCol, GenerationCol]
  const ALPHA_MIDDLE: seq<Column> := [KeyCol, OwnerSeqCol]
  const ALPHA_LAST: seq<Column> := [TimestampCol, TombstoneCol, TtlCol, UpdatedAtCol, WriterCol]
  const ALPHABETICAL := ALPHA_FIRST + ALPHA_MIDDLE + ALPHA_LAST

  lemma {:induction false} EvalSplit(a: seq<Column>, b: seq<Column>, row: Record, n: Record)
    ensures Eval(a + b, row, n) == Eval(b, Eval(a, row, n), n)
  {
    if a == [] {
      assert a + b == b;
    } else {
      EvalSplit(a[1..], b, Assign(row, n, a[0]), n);
      assert (a + b)[1..] == a[1..] + b;
    }
  }

  predicate SeqWriterNewer(n: Record, r: Record) {
    n.ownerSeq > r.ownerSeq || (n.ownerSeq == r.ownerSeq && StringLess(r.writer, n.writer))
  }

  lemma FirstGroup(r: Record, n: Record)
    requires r.KeyOf() == n.KeyOf() && Newer(n.FenceOf(), r.FenceOf())
    ensures
      var row := Eval(ALPHA_FIRST, r, n);
      && row == r.(encoded := n.encoded, epoch := n.epoch, generation := n.generation)
      && (Newer(n.FenceOf(), row.FenceOf()) <==> SeqWriterNewer(n, r))
  {
    var r1 := Assign(r, n, EncodedCol);
    var r2 := Assign(r1, n, EpochCol);
    assert ALPHA_FIRST[1..] == [EpochCol, GenerationCol];
    assert [EpochCol, GenerationCol][1..] == [GenerationCol];
    assert Eval([GenerationCol], r2, n) == Assign(r2, n, GenerationCol);
  }

  lemma MiddleGroup(r: Record, n: Record)
    requires Newer(n.FenceOf(), r.FenceOf()) && r.epoch == n.epoch && r.generation == n.generation
    ensures
      var row := Eval(ALPHA_MIDDLE, r, n);
      && row == r.(key := n.key, ownerSeq := n.ownerSeq)
      && (Newer(n.FenceOf(), row.FenceOf()) <==> StringLess(r.writer, n.writer))
  {
    var r1 := Assign(r, n, KeyCol);
    assert ALPHA_MIDDLE[1..] == [OwnerSeqCol];
    assert Eval([OwnerSeqCol], r1, n) == Assign(r1, n, OwnerSeqCol);
  }

  lemma LastGroup(r: Record, n: Record)
    requires Newer(n.FenceOf(), r.FenceOf())
    ensures Eval(ALPHA_LAST, r, n) ==
            r.(timestamp := n.timestamp, tombstone := n.tombstone, ttl := n.ttl, updatedAt := n.updatedAt,
                writer := n.writer)
  {
    var r1 := Assign(r, n, TimestampCol);
    var r2 := Assign(r1, n, TombstoneCol);
    var r3 := Assign(r2, n, TtlCol);
    var r4 := Assign(r3, n, UpdatedAtCol);
    EvalCons(TimestampCol, [TombstoneCol, TtlCol, UpdatedAtCol, WriterCol], r, n);
    EvalCons(TombstoneCol, [TtlCol, UpdatedAtCol, WriterCol], r1, n);
    EvalCons(TtlCol, [UpdatedAtCol, WriterCol], r2, n);
    EvalCons(UpdatedAtCol, [WriterCol], r3, n);
    EvalCons(WriterCol, [], r4, n);
  }

  lemma EvalCons(c: Column, rest: seq<Column>, row: Record, n: Record)
    ensures Eval([c] + rest, row, n) == Eval(rest, Assign(row, n, c), n)
  {
    assert ([c] + rest)[1..] == rest;
  }

  /** What alphabetical one-at-a-time evaluation leaves in the row. */
  lemma AlphabeticalResult(r: Record, n: Record)
    requires r.KeyOf() == n.KeyOf() && Newer(n.FenceOf(), r.FenceOf())
    ensures
      var first := r.(encoded := n.encoded, epoch := n.epoch, generation := n.generation);
      Eval(ALPHABETICAL, r, n) ==
        if !SeqWriterNewer(n, r) then first
        else if !StringLess(r.writer, n.writer) then first.(key := n.key, ownerSeq := n.ownerSeq)
        else n
  {
    EvalSplit(ALPHA_FIRST + ALPHA_MIDDLE, ALPHA_LAST, r, n);
    EvalSplit(ALPHA_FIRST, ALPHA_MIDDLE, r, n);
    FirstGroup(r, n);
    var first := Eval(ALPHA_FIRST, r, n);
    if SeqWriterNewer(n, r) {
      MiddleGroup(first, n);
      var middle := Eval(ALPHA_MIDDLE, first, n);
      if StringLess(r.writer, n.writer) {
        LastGroup(middle, n);
      } else {
        NotNewerIsNoop(ALPHA_LAST, middle, n);
      }
    } else {
      NotNewerIsNoop(ALPHA_MIDDLE, first, n);
      NotNewerIsNoop(ALPHA_LAST, first, n);
    }
  }

  /** Alphabetical order keeps the whole-row rule for a pair of rows exactly when
      the record is not newer, or carries a greater writer id along with its
      greater-or-equal sequence, or differs only in columns set before the
      comparison stops holding. */
  lemma AlphabeticalAgreesIff(r: Record, n: Record)
    requires r.KeyOf() == n.KeyOf()
    ensures Eval(ALPHABETICAL, r, n) == Merge(r, n) <==>
            || !Newer(n.FenceOf(), r.FenceOf())
            || (SeqWriterNewer(n, r) && StringLess(r.writer, n.writer))
            || ( && r.timestamp == n.timestamp && r.tombstone == n.tombstone && r.ttl == n.ttl
                 && r.updatedAt == n.updatedAt && r.writer == n.writer
                 && (SeqWriterNewer(n, r) || (r.key == n.key && r.ownerSeq == n.ownerSeq)))
  {
    hide Newer, StringLess;
    MergeIsWholeRow(r, n);
    if Newer(n.FenceOf(), r.FenceOf()) {
      AlphabeticalResult(r, n);
    } else {
      NotNewerIsNoop(ALPHABETICAL, r, n);
    }
  }

  /** The next write of the same writer in the same window: alphabetical order
      takes its value and sequence but keeps the old tombstone flag, so a delete
      after a set leaves a live row. */
  lemma AlphabeticalKeepsOldTombstone(r: Record, n: Record)
    requires r.KeyOf() == n.KeyOf() && r.writer == n.writer
    requires r.generation == n.generation && r.epoch == n.epoch && n.ownerSeq > r.ownerSeq
    ensures
      var row := Eval(ALPHABETICAL, r, n);
      row.encoded == n.encoded && row.ownerSeq == n.ownerSeq && row.tombstone == r.tombstone
  {
    AlphabeticalResult(r, n);
    StringLessTotal(r.writer, n.writer);
  }

  // ---- every order, every pair of rows -------------------------------------

  function Cols(order: seq<Column>): set<Column> {
    set c | c in order
  }

  /** The row once the first k columns are taken. */
  function Along(order: seq<Column>, r: Record, n: Record, k: nat): Record
    requires k <= |order|
  {
    Taken(r, n, Cols(order[..k]))
  }

  /** The comparison first stops holding after k columns, or holds for all. */
  ghost predicate StopsAt(order: seq<Column>, r: Record, n: Record, k: nat) {
    && k <= |order|
    && (forall j :: 0 <= j < k ==> Newer(n.FenceOf(), Along(order, r, n, j).FenceOf()))
    && (k == |order| || !Newer(n.FenceOf(), Along(order, r, n, k).FenceOf()))
  }

  /** One-at-a-time evaluation, in any order, takes exactly the columns before that point. */
  lemma {:induction false} EvalTakes(order: seq<Column>, r: Record, n: Record, k: nat, j: nat)
    requires StopsAt(order, r, n, k) && j <= k
    ensures Eval(order[j..], Along(order, r, n, j), n) == Along(order, r, n, k)
    decreases k - j
  {
    hide Newer, Taken, SetCol;
    var rest, row := order[j..], Along(order, r, n, j);
    if j == k {
      if k < |order| {
        NotNewerIsNoop(rest, row, n);
      }
    } else {
      TakeOne(r, n, Cols(order[..j]), order[j]);
      assert Cols(order[..j + 1]) == Cols(order[..j]) + {order[j]};
      assert rest[0] == order[j] && rest[1..] == order[j + 1..];
      EvalTakes(order, r, n, k, j + 1);
    }
  }

  lemma {:induction false} StopExists(order: seq<Column>, r: Record, n: Record, j: nat) returns (k: nat)
    requires j <= |order| && forall i :: 0 <= i < j ==> Newer(n.FenceOf(), Along(order, r, n, i).FenceOf())
    ensures StopsAt(order, r, n, k)
    decreases |order| - j
  {
    hide Newer, Along;
    if j == |order| || !Newer(n.FenceOf(), Along(order, r, n, j).FenceOf()) {
      k := j;
    } else {
      k := StopExists(order, r, n, j + 1);
    }
  }

  /** Taking columns yields the whole record exactly when the rest agreed already. */
  lemma TakenIsAllIff(r: Record, n: Record, done: set<Column>)
    requires r.KeyOf() == n.KeyOf()
    ensures Taken(r, n, done) == n <==> forall c: Column :: c !in done ==> SetCol(r, n, c) == r
  {
    if forall c: Column :: c !in done ==> SetCol(r, n, c) == r {
      forall c: Column
        ensures SetCol(Taken(r, n, done), n, c) == Taken(r, n, done)
      {
        TakeOne(r, n, done, c);
        if c !in done {
          AgreedColumn(r, n, done, c);
        } else {
          assert done + {c} == done;
        }
      }
      AllColumnsAgree(Taken(r, n, done), n);
    } else {
      forall c: Column | c !in done && Taken(r, n, done) == n
        ensures SetCol(r, n, c) == r
      {
        ColumnOfTaken(r, n, done, c);
      }
    }
  }

  lemma AgreedColumn(r: Record, n: Record, done: set<Column>, c: Column)
    requires SetCol(r, n, c) == r
    ensures SetCol(Taken(r, n, done), n, c) == Taken(r, n, done)
  {
    match c {
      case KeyCol => case EncodedCol => case TtlCol => case TimestampCol => case TombstoneCol =>
      case UpdatedAtCol => case WriterCol => case OwnerSeqCol => case EpochCol => case GenerationCol =>
    }
  }

  lemma ColumnOfTaken(r: Record, n: Record, done: set<Column>, c: Column)
    requires c !in done && Taken(r, n, done) == n
    ensures SetCol(r, n, c) == r
  {
    match c {
      case KeyCol => case EncodedCol => case TtlCol => case TimestampCol => case TombstoneCol =>
      case UpdatedAtCol => case WriterCol => case OwnerSeqCol => case EpochCol => case GenerationCol =>
    }
  }

  lemma AllColumnsAgree(r: Record, n: Record)
    requires r.KeyOf() == n.KeyOf() && forall c: Column :: SetCol(r, n, c) == r
    ensures r == n
  {
    assert SetCol(r, n, KeyCol) == r && SetCol(r, n, EncodedCol) == r && SetCol(r, n, TtlCol) == r;
    assert SetCol(r, n, TimestampCol) == r && SetCol(r, n, TombstoneCol) == r && SetCol(r, n, UpdatedAtCol) == r;
    assert SetCol(r, n, WriterCol) == r && SetCol(r, n, OwnerSeqCol) == r;
    assert SetCol(r, n, EpochCol) == r && SetCol(r, n, GenerationCol) == r;
  }

  /** For every complete order and every pair of rows: one-at-a-time evaluation keeps
      the whole-row rule exactly when the record is not newer, or agrees with the
      row in every column that comes after the comparison stops holding. */
  lemma PairAgreesIff(order: seq<Column>, r: Record, n: Record, k: nat)
    requires Complete(order) && r.KeyOf() == n.KeyOf() && StopsAt(order, r, n, k)
    ensures Eval(order, r, n) == Merge(r, n) <==>
            !Newer(n.FenceOf(), r.FenceOf()) || forall j :: k <= j < |order| ==> SetCol(r, n, order[j]) == r
  {
    hide Newer, SetCol;
    MergeIsWholeRow(r, n);
    if Newer(n.FenceOf(), r.FenceOf()) {
      assert order[0..] == order && Along(order, r, n, 0) == r;
      EvalTakes(order, r, n, k, 0);
      TakenIsAllIff(r, n, Cols(order[..k]));
      RestOfOrder(order, k);
    } else {
      NotNewerIsNoop(order, r, n);
    }
  }

  lemma RestOfOrder(order: seq<Column>, k: nat)
    requires Complete(order) && k <= |order|
    ensures forall c: Column :: c !in Cols(order[..k]) <==> c in order[k..]
    ensures forall c: Column :: c in order[k..] <==> exists j :: k <= j < |order| && order[j] == c
  {
    assert order == order[..k] + order[k..];
    forall c: Column
      ensures c !in Cols(order[..k]) <==> c in order[k..]
    {
      assert c in order;
    }
  }

  // ---- a writer's log under alphabetical evaluation ------------------------

  /** Records of one row by one writer, each newer than those before. */
  ghost predicate OneWriter(rs: seq<Record>) {
    && rs != []
    && (forall i :: 0 <= i < |rs| ==> rs[i].KeyOf() == rs[0].KeyOf() && rs[i].writer == rs[0].writer)
    && (forall i, j :: 0 <= i < j < |rs| ==> Newer(rs[j].FenceOf(), rs[i].FenceOf()))
  }

  /** The row after inserting the first record and upserting the others in turn. */
  function AlphaFold(rs: seq<Record>): Record
    requires rs != []
  {
    if |rs| == 1 then rs[0] else Eval(ALPHABETICAL, AlphaFold(rs[..|rs| - 1]), rs[|rs| - 1])
  }

  /** A later record of its window whose sequence an earlier record had reached:
      one of an older window, since within a window sequences rise. */
  ghost predicate Swallowed(rs: seq<Record>, j: nat) {
    && 0 < j < |rs|
    && rs[j].generation == rs[j - 1].generation && rs[j].epoch == rs[j - 1].epoch
    && exists m :: 0 <= m < j && rs[m].ownerSeq >= rs[j].ownerSeq
  }

  ghost predicate IsMaxSeq(s: int, rs: seq<Record>) {
    (exists m :: 0 <= m < |rs| && rs[m].ownerSeq == s) && forall m :: 0 <= m < |rs| ==> rs[m].ownerSeq <= s
  }

  /** The row always carries the last window, the largest sequence of any window, and
      the deadline, time stamps and tombstone flag of the writer's first record. */
  ghost predicate AlphaRow(row: Record, rs: seq<Record>)
    requires rs != []
  {
    var first, last := rs[0], rs[|rs| - 1];
    && row.KeyOf() == first.KeyOf() && row.writer == first.writer
    && row.generation == last.generation && row.epoch == last.epoch && IsMaxSeq(row.ownerSeq, rs)
    && row.ttl == first.ttl && row.timestamp == first.timestamp
    && row.tombstone == first.tombstone && row.updatedAt == first.updatedAt
  }

  lemma {:induction false} AlphaFoldIs(rs: seq<Record>)
    requires OneWriter(rs)
    ensures AlphaRow(AlphaFold(rs), rs)
  {
    hide Newer, Eval, StringLess;
    if |rs| > 1 {
      var init, n := rs[..|rs| - 1], rs[|rs| - 1];
      assert OneWriter(init);
      AlphaFoldIs(init);
      AlphaStep(rs);
    } else {
      assert rs[0].ownerSeq == rs[0].ownerSeq;
    }
  }

  lemma AlphaStep(rs: seq<Record>)
    requires |rs| > 1 && OneWriter(rs) && AlphaRow(AlphaFold(rs[..|rs| - 1]), rs[..|rs| - 1])
    ensures
      var j := |rs| - 1;
      var row := AlphaFold(rs[..j]);
      && AlphaRow(AlphaFold(rs), rs)
      && (Swallowed(rs, j) <==> !Newer(rs[j].FenceOf(), row.FenceOf()))
      && (Swallowed(rs, j) ==> AlphaFold(rs) == row)
      && (!Swallowed(rs, j) ==> AlphaFold(rs).encoded == rs[j].encoded)
  {
    hide Eval;
    var j := |rs| - 1;
    var row, n := AlphaFold(rs[..j]), rs[j];
    StringLessTotal(n.writer, row.writer);
    assert rs[..j][j - 1] == rs[j - 1] && Newer(n.FenceOf(), rs[j - 1].FenceOf());
    MaxOfPrefix(rs, row.ownerSeq);
    if Newer(n.FenceOf(), row.FenceOf()) {
      AlphabeticalResult(row, n);
    } else {
      NotNewerIsNoop(ALPHABETICAL, row, n);
    }
  }

  lemma MaxOfPrefix(rs: seq<Record>, s: int)
    requires |rs| > 1 && IsMaxSeq(s, rs[..|rs| - 1])
    ensures
      var j := |rs| - 1;
      && (rs[j].ownerSeq > s ==> IsMaxSeq(rs[j].ownerSeq, rs))
      && (rs[j].ownerSeq <= s ==> IsMaxSeq(s, rs))
      && ((exists m :: 0 <= m < j && rs[m].ownerSeq >= rs[j].ownerSeq) <==> rs[j].ownerSeq <= s)
  {
    var j := |rs| - 1;
    var m :| 0 <= m < j && rs[..j][m].ownerSeq == s;
    assert rs[m].ownerSeq == s;
    forall i | 0 <= i < j
      ensures rs[i].ownerSeq <= s
    {
      assert rs[..j][i] == rs[i];
    }
  }

  /** Record j of a writer's log takes effect on the value exactly when it is not
      swallowed; a swallowed one leaves the row as it was, although the row's fence
      then counts as not older. */
  lemma AlphabeticalSwallowsIff(rs: seq<Record>, j: nat)
    requires OneWriter(rs) && 0 < j < |rs|
    ensures
      var before, after := AlphaFold(rs[..j]), AlphaFold(rs[..j + 1]);
      && (Swallowed(rs, j) <==> !Newer(rs[j].FenceOf(), before.FenceOf()))
      && (if Swallowed(rs, j) then after == before else after.encoded == rs[j].encoded)
  {
    hide Newer, Eval, AlphaRow;
    var upto := rs[..j + 1];
    assert upto[..j] == rs[..j];
    assert OneWriter(rs[..j]) && OneWriter(upto);
    AlphaFoldIs(rs[..j]);
    AlphaStep(upto);
    SwallowedPrefix(rs, j);
  }

  lemma SwallowedPrefix(rs: seq<Record>, j: nat)
    requires 0 < j < |rs|
    ensures Swallowed(rs[..j + 1], j) <==> Swallowed(rs, j)
  {
    var upto := rs[..j + 1];
    assert forall m :: 0 <= m <= j ==> upto[m] == rs[m];
  }

  /** After a whole log the row holds the value of the last record not swallowed. */
  lemma {:induction false} AlphabeticalLogValue(rs: seq<Record>, j: nat)
    requires OneWriter(rs) && j < |rs| && !Swallowed(rs, j)
    requires forall i :: j < i < |rs| ==> Swallowed(rs, i)
    ensures AlphaFold(rs).encoded == rs[j].encoded
    decreases |rs|
  {
    hide Newer, Eval;
    var n := |rs| - 1;
    assert rs[..n + 1] == rs;
    if n > 0 {
      AlphabeticalSwallowsIff(rs, n);
      if j < n {
        var init := rs[..n];
        assert OneWriter(init);
        forall i | 0 < i < n
          ensures Swallowed(init, i) <==> Swallowed(rs, i)
        {
          SwallowedPrefix(rs, i);
          SwallowedPrefix(init, i);
          assert init[..i + 1] == rs[..i + 1];
        }
        AlphabeticalLogValue(init, j);
      }
    }
  }

  /** Two writes of one key in a window and two in the next: the last is swallowed. */
  lemma SwallowingIsReachable()
    ensures exists rs: seq<Record> ::
              && |rs| == 4 && OneWriter(rs) && Swallowed(rs, 3) && AlphaFold(rs).encoded != rs[3].encoded
              && (forall i :: 0 <= i < 4 ==> rs[i].FenceOf() == TwoByTwo()[i])
  {
    var a, b := BASE.(generation := 1, epoch := 1, ownerSeq := 1), BASE.(generation := 1, epoch := 1, ownerSeq := 2);
    var c := BASE.(generation := 1, epoch := 2, ownerSeq := 1, encoded := [1]);
    var d := BASE.(generation := 1, epoch := 2, ownerSeq := 2, encoded := [2]);
    var rs := [a, b, c, d];
    assert OneWriter(rs);
    assert rs[1].ownerSeq >= rs[3].ownerSeq && Swallowed(rs, 3);
    TwoByTwoIs();
    assert !Swallowed(rs, 2);
    AlphabeticalLogValue(rs, 2);
  }

  /** The first four fences a fresh writer issues for two writes in each of two windows. */
  function TwoByTwo(): seq<Fence> {
    Published(START, [(1, 1), (1, 1), (1, 2), (1, 2)], "b")
  }

  lemma TwoByTwoIs()
    ensures TwoByTwo() == [Fence(1, 1, 1, "b"), Fence(1, 1, 2, "b"), Fence(1, 2, 1, "b"), Fence(1, 2, 2, "b")]
  {
    var r0: seq<(int, int)> := [(1, 1), (1, 1), (1, 2), (1, 2)];
    var r1: seq<(int, int)> := [(1, 1), (1, 2), (1, 2)];
    var r2: seq<(int, int)> := [(1, 2), (1, 2)];
    var r3: seq<(int, int)> := [(1, 2)];
    assert r0[1..] == r1 && r1[1..] == r2 && r2[1..] == r3 && r3[1..] == [];
    assert Published(SeqState(1, 2, 2), r3[1..], "b") == [];
    assert Published(SeqState(1, 2, 1), r3, "b") == [Fence(1, 2, 2, "b")];
    assert Published(SeqState(1, 1, 2), r2, "b") == [Fence(1, 2, 1, "b")] + Published(SeqState(1, 2, 1), r3, "b");
    assert Published(SeqState(1, 1, 1), r1, "b") == [Fence(1, 1, 2, "b")] + Published(SeqState(1, 1, 2), r2, "b");
    assert Published(START, r0, "b") == [Fence(1, 1, 1, "b")] + Published(SeqState(1, 1, 1), r1, "b");
  }
}
