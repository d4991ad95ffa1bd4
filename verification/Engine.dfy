// The in-memory engine's cursor scan.
module Engine {
  import opened EntryCodec

  type Entries = map<nat, StoredEntry>
  type Test = StoredEntry -> bool

  ghost predicate Ascending(ks: seq<nat>) {
    forall i, j :: 0 <= i < j < |ks| ==> ks[i] < ks[j]
  }

  /** ks lists, in ascending order, exactly the keys at or past the cursor. */
  ghost predicate KeysFrom(ks: seq<nat>, m: Entries, cursor: nat) {
    Ascending(ks) && forall k :: k in ks <==> k in m && k >= cursor
  }

  /** Two ascending lists of the same keys are one list. */
  lemma {:induction false} KeysFromUnique(a: seq<nat>, b: seq<nat>, m: Entries, cursor: nat)
    requires KeysFrom(a, m, cursor) && KeysFrom(b, m, cursor)
    ensures a == b
    decreases |a|
  {
    BothEmpty(a, b);
    if a != [] {
      assert a[0] in b;
      assert b[0] in a;
      var i :| 0 <= i < |b| && b[i] == a[0];
      var j :| 0 <= j < |a| && a[j] == b[0];
      assert a[0] == b[0];
      var c := a[0] + 1;
      TailKeys(a, m, cursor);
      TailKeys(b, m, cursor);
      KeysFromUnique(a[1..], b[1..], m, c);
      assert a == [a[0]] + a[1..] && b == [b[0]] + b[1..];
    }
  }

  lemma BothEmpty(a: seq<nat>, b: seq<nat>)
    requires forall k :: k in a <==> k in b
    ensures a == [] <==> b == []
  {
    if |a| > 0 { assert a[0] in b; }
    if |b| > 0 { assert b[0] in a; }
  }

  lemma TailKeys(a: seq<nat>, m: Entries, cursor: nat)
    requires a != [] && KeysFrom(a, m, cursor)
    ensures KeysFrom(a[1..], m, a[0] + 1)
  {
    forall k: nat
      ensures k in a[1..] <==> k in m && k >= a[0] + 1
    {
      if k in m && k >= a[0] + 1 {
        assert a[0] in a && k in a;
        var i :| 0 <= i < |a| && a[i] == k;
        assert a[1..][i - 1] == k;
      }
      if k in a[1..] {
        var i :| 0 <= i < |a[1..]| && a[1..][i] == k;
        assert a[i + 1] == k && k in a;
      }
    }
  }

  /** What one scan does with the listed keys: the keys handed to the callback
      and accepted, and the cursor to continue from, 0 meaning done. */
  datatype Page = Page(next: nat, out: seq<nat>, rejected: bool)

  ghost function Walk(ks: seq<nat>, m: Entries, matches: Test, accepts: Test, room: int): Page
    requires forall k :: k in ks ==> k in m
  {
    if ks == [] then Page(0, [], false)
    else if !matches(m[ks[0]]) then Walk(ks[1..], m, matches, accepts, room)
    else if !accepts(m[ks[0]]) then Page(ks[0], [], true)
    else if room <= 1 then Page(if |ks| > 1 then ks[1] else 0, [ks[0]], false)
    else
      var rest := Walk(ks[1..], m, matches, accepts, room - 1);
      rest.(out := [ks[0]] + rest.out)
  }

  /** The page a scan of m from cursor produces, for a list of its keys. */
  ghost predicate IsPage(p: Page, m: Entries, cursor: nat, count: int, matches: Test, accepts: Test) {
    exists ks :: KeysFrom(ks, m, cursor) && p == Walk(ks, m, matches, accepts, if count <= 0 then |ks| else count)
  }

  // ---- one page ------------------------------------------------------------

  ghost predicate GoodPage(p: Page, ks: seq<nat>, m: Entries, matches: Test)
    requires forall k :: k in ks ==> k in m
  {
    && Ascending(p.out)
    && (forall k :: k in p.out ==> k in ks && matches(m[k]))
    && (p.next != 0 ==> p.next in ks && (forall k :: k in p.out ==> k < p.next))
    && (forall k :: k in ks && matches(m[k]) && k !in p.out ==> p.next != 0 && p.next <= k)
  }

  /** With an accepting callback a page is in key order, holds only matching keys,
      and misses no matching key before the cursor it returns; and that cursor,
      unless 0, is past the first key listed. */
  lemma {:induction false} WalkIsGood(ks: seq<nat>, m: Entries, matches: Test, accepts: Test, room: int)
    requires Ascending(ks) && (forall k :: k in ks ==> k in m) && (forall e :: accepts(e))
    ensures GoodPage(Walk(ks, m, matches, accepts, room), ks, m, matches)
    ensures Walk(ks, m, matches, accepts, room).next != 0 ==>
              ks != [] && ks[0] < Walk(ks, m, matches, accepts, room).next
    ensures !Walk(ks, m, matches, accepts, room).rejected
    decreases |ks|
  {
    if ks != [] {
      var tail := ks[1..];
      assert ks == [ks[0]] + tail;
      assert Ascending(tail);
      assert forall k :: k in tail ==> k > ks[0] by {
        forall k | k in tail ensures k > ks[0] {
          var i :| 0 <= i < |tail| && tail[i] == k;
          assert ks[i + 1] == k;
        }
      }
      if !matches(m[ks[0]]) {
        WalkIsGood(tail, m, matches, accepts, room);
      } else if room <= 1 {
        LastOne(ks, m, matches, accepts, room);
      } else {
        WalkIsGood(tail, m, matches, accepts, room - 1);
        ConsIsGood(ks[0], tail, Walk(tail, m, matches, accepts, room - 1), m, matches);
      }
    }
  }

  lemma ConsIsGood(k0: nat, tail: seq<nat>, rest: Page, m: Entries, matches: Test)
    requires k0 in m && matches(m[k0]) && (forall k :: k in tail ==> k in m && k > k0)
    requires GoodPage(rest, tail, m, matches)
    ensures GoodPage(rest.(out := [k0] + rest.out), [k0] + tail, m, matches)
  {
    var out := [k0] + rest.out;
    forall i, j | 0 <= i < j < |out|
      ensures out[i] < out[j]
    {
      assert out[j] == rest.out[j - 1] && out[j] in rest.out;
    }
  }

  lemma LastOne(ks: seq<nat>, m: Entries, matches: Test, accepts: Test, room: int)
    requires ks != [] && Ascending(ks) && (forall k :: k in ks ==> k in m)
    requires matches(m[ks[0]]) && accepts(m[ks[0]]) && room <= 1
    ensures GoodPage(Walk(ks, m, matches, accepts, room), ks, m, matches)
    ensures |ks| > 1 ==> Walk(ks, m, matches, accepts, room).next == ks[1] > ks[0]
  {
    forall k | k in ks && k != ks[0]
      ensures |ks| > 1 && ks[1] <= k
    {
      var i :| 0 <= i < |ks| && ks[i] == k;
    }
  }

  /** What a caller sees of a page over the whole map. */
  lemma PageFacts(p: Page, m: Entries, cursor: nat, count: int, matches: Test, accepts: Test)
    requires IsPage(p, m, cursor, count, matches, accepts) && forall e :: accepts(e)
    ensures Ascending(p.out) && (forall k :: k in p.out ==> k in m && k >= cursor && matches(m[k]))
    ensures p.next != 0 ==> cursor < p.next && p.next in m && (forall k :: k in p.out ==> k < p.next)
    ensures forall k :: k in m && k >= cursor && matches(m[k]) && (p.next == 0 || k < p.next) ==> k in p.out
    ensures !p.rejected
  {
    var ks :| KeysFrom(ks, m, cursor) && p == Walk(ks, m, matches, accepts, if count <= 0 then |ks| else count);
    WalkIsGood(ks, m, matches, accepts, if count <= 0 then |ks| else count);
    if p.next != 0 { assert ks[0] in ks; }
  }

  /** The keys went through: no more to come, and none rejected. */
  ghost predicate Done(p: Page) {
    p.next == 0 && !p.rejected
  }

  /** Whatever the callback does: the page holds exactly the matching keys listed before
      the cursor it returns, or all of them when done, and the callback accepted each. */
  ghost predicate ExactPage(p: Page, ks: seq<nat>, m: Entries, matches: Test, accepts: Test)
    requires forall k :: k in ks ==> k in m
  {
    && (forall k :: k in p.out <==> k in ks && matches(m[k]) && (Done(p) || k < p.next))
    && (forall k :: k in p.out ==> accepts(m[k]))
    && (!Done(p) ==> p.next in ks)
  }

  lemma {:induction false} WalkIsExact(ks: seq<nat>, m: Entries, matches: Test, accepts: Test, room: int)
    requires Ascending(ks) && (forall k :: k in ks ==> k in m)
    ensures ExactPage(Walk(ks, m, matches, accepts, room), ks, m, matches, accepts)
    decreases |ks|
  {
    if ks != [] {
      var k0, tail := ks[0], ks[1..];
      FirstIsLeast(ks);
      if !matches(m[k0]) {
        WalkIsExact(tail, m, matches, accepts, room);
      } else if accepts(m[k0]) && room > 1 {
        WalkIsExact(tail, m, matches, accepts, room - 1);
      }
    }
  }

  lemma FirstIsLeast(ks: seq<nat>)
    requires ks != [] && Ascending(ks)
    ensures ks == [ks[0]] + ks[1..] && Ascending(ks[1..])
    ensures forall k :: k in ks[1..] ==> k > ks[0]
    ensures |ks| > 1 ==> ks[1] in ks[1..] && forall k :: k in ks[1..] ==> k >= ks[1]
  {
    forall k | k in ks[1..]
      ensures k > ks[0] && |ks| > 1 && k >= ks[1]
    {
      var i :| 0 <= i < |ks[1..]| && ks[1..][i] == k;
      assert ks[i + 1] == k;
    }
  }

  /** A page holds at most as many keys as there is room for, and exactly as many when
      it stops before the end without a rejection. */
  lemma {:induction false} WalkIsBounded(ks: seq<nat>, m: Entries, matches: Test, accepts: Test, room: int)
    requires forall k :: k in ks ==> k in m
    requires Ascending(ks) && room >= 1
    ensures
      var p := Walk(ks, m, matches, accepts, room);
      |p.out| <= room && |p.out| <= |ks| && (!p.rejected && p.next != 0 ==> |p.out| == room < |ks|)
    decreases |ks|
  {
    if ks != [] {
      FirstIsLeast(ks);
      if !matches(m[ks[0]]) {
        WalkIsBounded(ks[1..], m, matches, accepts, room);
      } else if room > 1 {
        WalkIsBounded(ks[1..], m, matches, accepts, room - 1);
      }
    }
  }

  /** Every page, whatever the callback does: exactly the matching keys from the cursor up
      to the one returned; at most count of them, and exactly count when it stops before
      the end without a rejection; without a count it does not stop before the end. */
  lemma PageIsExact(p: Page, m: Entries, cursor: nat, count: int, matches: Test, accepts: Test)
    requires IsPage(p, m, cursor, count, matches, accepts)
    ensures forall k :: k in p.out <==> k in m && k >= cursor && matches(m[k]) && (Done(p) || k < p.next)
    ensures forall k :: k in p.out ==> accepts(m[k])
    ensures count > 0 ==> |p.out| <= count && (!p.rejected && p.next != 0 ==> |p.out| == count)
    ensures count <= 0 && !p.rejected ==> p.next == 0
  {
    var ks :| KeysFrom(ks, m, cursor) && p == Walk(ks, m, matches, accepts, if count <= 0 then |ks| else count);
    WalkIsExact(ks, m, matches, accepts, if count <= 0 then |ks| else count);
    if ks != [] {
      WalkIsBounded(ks, m, matches, accepts, if count <= 0 then |ks| else count);
    }
  }

  /** A rejecting callback: the scan returns the rejected key itself. */
  lemma {:induction false} RejectedKeyIsReturned(ks: seq<nat>, m: Entries, matches: Test, accepts: Test, room: int)
    requires forall k :: k in ks ==> k in m
    requires Walk(ks, m, matches, accepts, room).rejected
    ensures var next := Walk(ks, m, matches, accepts, room).next;
            next in ks && matches(m[next]) && !accepts(m[next])
    decreases |ks|
  {
    if ks != [] && !(matches(m[ks[0]]) && !accepts(m[ks[0]])) {
      RejectedKeyIsReturned(ks[1..], m, matches, accepts, if matches(m[ks[0]]) then room - 1 else room);
    }
  }

  /** The returned cursor is 0, which reads as "done", although the callback
      rejected a key, exactly when a scan from the start meets key 0, matching and
      rejected: that entry is not offered again. */
  lemma RejectionLooksDoneIff(p: Page, m: Entries, cursor: nat, count: int, matches: Test, accepts: Test)
    requires IsPage(p, m, cursor, count, matches, accepts)
    ensures p.rejected && p.next == 0 <==> cursor == 0 && 0 in m && matches(m[0]) && !accepts(m[0])
    ensures p.rejected ==> p.next in m && p.next >= cursor && matches(m[p.next]) && !accepts(m[p.next])
  {
    var ks :| KeysFrom(ks, m, cursor) && p == Walk(ks, m, matches, accepts, if count <= 0 then |ks| else count);
    if p.rejected {
      RejectedKeyIsReturned(ks, m, matches, accepts, if count <= 0 then |ks| else count);
    }
    if cursor == 0 && 0 in m {
      assert 0 in ks;
      var i :| 0 <= i < |ks| && ks[i] == 0;
      assert i == 0;
    }
  }

  lemma RejectionCanLookDone()
    ensures exists p: Page, m: Entries, matches: Test, accepts: Test ::
              IsPage(p, m, 0, 1, matches, accepts) && p.rejected && p.next == 0
  {
    var e := StoredEntry([], [], 0, 0, 0);
    var m: Entries := map[0 := e];
    var matches: Test, accepts: Test := _ => true, _ => false;
    var p := Page(0, [], true);
    assert KeysFrom([0], m, 0);
    assert p == Walk([0], m, matches, accepts, 1);
    assert IsPage(p, m, 0, 1, matches, accepts) && p.rejected && p.next == 0;
  }

  /** A scan of given entries has one result. */
  lemma PageIsUnique(p: Page, q: Page, m: Entries, cursor: nat, count: int, matches: Test, accepts: Test)
    requires IsPage(p, m, cursor, count, matches, accepts) && IsPage(q, m, cursor, count, matches, accepts)
    ensures p == q
  {
    var a :| KeysFrom(a, m, cursor) && p == Walk(a, m, matches, accepts, if count <= 0 then |a| else count);
    var b :| KeysFrom(b, m, cursor) && q == Walk(b, m, matches, accepts, if count <= 0 then |b| else count);
    KeysFromUnique(a, b, m, cursor);
  }

  class Store {
    var entries: Entries

    constructor (entries: Entries)
      ensures this.entries == entries
    {
      this.entries := entries;
    }

    /** The keys at or past the cursor, sorted. */
    method SortedKeys(cursor: nat) returns (ks: seq<nat>)
      ensures KeysFrom(ks, entries, cursor)
    {
      var left := set k | k in entries && k >= cursor;
      ks := [];
      while left != {}
        invariant forall k :: k in left ==> k in entries && k >= cursor
        invariant Ascending(ks) && (forall k :: k in ks ==> k in entries && k >= cursor)
        invariant forall k :: k in entries && k >= cursor ==> k in ks || k in left
        invariant forall a, b :: a in ks && b in left ==> a < b
        decreases |left|
      {
        var least := Least(left);
        assert forall i :: 0 <= i < |ks| ==> ks[i] in ks;
        ks := ks + [least];
        left := left - {least};
      }
    }

    method Least(s: set<nat>) returns (least: nat)
      requires s != {}
      ensures least in s && forall k :: k in s ==> least <= k
    {
      least :| least in s;
      var left := s - {least};
      while left != {}
        invariant least in s && left <= s && forall k :: k in s && k !in left ==> least <= k
        decreases |left|
      {
        var k :| k in left;
        left := left - {k};
        if k < least {
          least := k;
        }
      }
    }

    /** Hands matching entries to the callback in key order until it rejects one,
        the count is reached, or the keys run out. */
    method Scan(cursor: nat, count: int, matches: Test, accepts: Test)
      returns (next: nat, out: seq<nat>, rejected: bool)
      ensures IsPage(Page(next, out, rejected), entries, cursor, count, matches, accepts)
    {
      var ks := SortedKeys(cursor);
      var limit := if count <= 0 then |ks| else count;
      out := [];
      var i := 0;
      ghost var whole := Walk(ks, entries, matches, accepts, limit);
      while i < |ks|
        invariant 0 <= i <= |ks| && (i < |ks| ==> |out| < limit)
        invariant whole == var rest := Walk(ks[i..], entries, matches, accepts, limit - |out|);
                           rest.(out := out + rest.out)
        decreases |ks| - i
      {
        assert ks[i] in ks;
        var e := entries[ks[i]];
        assert ks[i..][1..] == ks[i + 1..];
        if matches(e) {
          if !accepts(e) {
            return ks[i], out, true;
          }
          ghost var before := out;
          out := out + [ks[i]];
          if |out| >= limit {
            return if i + 1 < |ks| then ks[i + 1] else 0, out, false;
          }
          assert forall r: seq<nat> :: before + ([ks[i]] + r) == out + r;
        }
        i := i + 1;
      }
      return 0, out, false;
    }
  }

  // ---- a whole iteration ---------------------------------------------------

  /** An iteration: page i was read from maps[i], starting where page i-1 ended;
      the entries may change between the calls. */
  ghost predicate IsIteration(pages: seq<Page>, maps: seq<Entries>, cursor: nat, count: int,
                              matches: Test, accepts: Test)
  {
    && |pages| == |maps|
    && forall i :: 0 <= i < |pages| ==>
                     && IsPage(pages[i], maps[i], CursorAt(pages, cursor, i), count, matches, accepts)
                     && (i + 1 < |pages| ==> pages[i].next != 0)
  }

  ghost function CursorAt(pages: seq<Page>, cursor: nat, i: nat): nat
    requires i <= |pages|
  {
    if i == 0 then cursor else pages[i - 1].next
  }

  function Emitted(pages: seq<Page>): seq<nat> {
    if pages == [] then [] else Emitted(pages[..|pages| - 1]) + pages[|pages| - 1].out
  }

  lemma IterationPrefix(pages: seq<Page>, maps: seq<Entries>, cursor: nat, count: int, matches: Test, accepts: Test)
    requires pages != [] && IsIteration(pages, maps, cursor, count, matches, accepts)
    ensures IsIteration(pages[..|pages| - 1], maps[..|maps| - 1], cursor, count, matches, accepts)
  {
    hide IsPage;
    var n := |pages| - 1;
    forall i | 0 <= i < n
      ensures IsPage(pages[..n][i], maps[..n][i], CursorAt(pages[..n], cursor, i), count, matches, accepts)
    {
      assert CursorAt(pages[..n], cursor, i) == CursorAt(pages, cursor, i);
    }
  }

  /** Continuation cursors strictly increase, so that an iteration over keys below
      a limit takes at most that many calls. */
  lemma {:induction false} IterationIsBounded(pages: seq<Page>, maps: seq<Entries>, cursor: nat, count: int,
                                              matches: Test, accepts: Test, limit: nat)
    requires IsIteration(pages, maps, cursor, count, matches, accepts) && (forall e :: accepts(e))
    requires forall i, k :: 0 <= i < |maps| && k in maps[i] ==> k < limit
    requires pages != []
    ensures pages[|pages| - 1].next != 0 ==> cursor + |pages| <= pages[|pages| - 1].next < limit
    ensures |pages| > 1 ==> cursor + |pages| <= limit
  {
    hide IsPage;
    var n := |pages| - 1;
    PageFacts(pages[n], maps[n], CursorAt(pages, cursor, n), count, matches, accepts);
    if n > 0 {
      IterationPrefix(pages, maps, cursor, count, matches, accepts);
      IterationIsBounded(pages[..n], maps[..n], cursor, count, matches, accepts, limit);
      assert pages[..n][n - 1] == pages[n - 1];
    }
  }

  /** Everything emitted so far is in ascending key order, hence each key at most
      once, and lies before the next cursor; and every key that matched in every
      map read so far and lies before that cursor has been emitted. */
  lemma {:induction false} IterationSoFar(pages: seq<Page>, maps: seq<Entries>, cursor: nat, count: int,
                                          matches: Test, accepts: Test)
    requires IsIteration(pages, maps, cursor, count, matches, accepts) && (forall e :: accepts(e))
    ensures Ascending(Emitted(pages))
    ensures
      var next := CursorAt(pages, cursor, |pages|);
      && (pages != [] && next != 0 ==> forall k :: k in Emitted(pages) ==> k < next)
      && (forall k :: k in Emitted(pages) ==> k >= cursor)
      && (pages != [] && next != 0 ==> cursor < next)
      && (pages != [] ==> forall k: nat :: k >= cursor && (next == 0 || k < next) && AlwaysThere(k, maps, matches)
                                           ==> k in Emitted(pages))
    decreases |pages|
  {
    hide IsPage;
    if pages != [] {
      var n := |pages| - 1;
      var p, c := pages[n], CursorAt(pages, cursor, n);
      var before := pages[..n];
      IterationPrefix(pages, maps, cursor, count, matches, accepts);
      IterationSoFar(before, maps[..n], cursor, count, matches, accepts);
      PageFacts(p, maps[n], c, count, matches, accepts);
      if n > 0 {
        assert CursorAt(before, cursor, n) == c != 0;
      }
      IterationStep(before, p, maps, cursor, c, matches);
    }
  }

  ghost predicate AlwaysThere(k: nat, maps: seq<Entries>, matches: Test) {
    forall i :: 0 <= i < |maps| ==> k in maps[i] && matches(maps[i][k])
  }

  lemma IterationStep(before: seq<Page>, p: Page, maps: seq<Entries>, cursor: nat, c: nat, matches: Test)
    requires |maps| == |before| + 1
    requires Ascending(Emitted(before)) && Ascending(p.out)
    requires before == [] ==> c == cursor
    requires before != [] ==> c != 0 && (forall k :: k in Emitted(before) ==> k < c)
    requires forall k :: k in Emitted(before) ==> k >= cursor
    requires before != [] ==>
               forall k: nat :: cursor <= k < c && AlwaysThere(k, maps[..|before|], matches) ==> k in Emitted(before)
    requires forall k :: k in p.out ==> k >= c
    requires c >= cursor
    requires p.next != 0 ==> c < p.next && (forall k :: k in p.out ==> k < p.next)
    requires forall k :: k in maps[|before|] && k >= c && matches(maps[|before|][k]) && (p.next == 0 || k < p.next)
                         ==> k in p.out
    ensures
      var out := Emitted(before) + p.out;
      && Ascending(out)
      && (p.next != 0 ==> forall k :: k in out ==> k < p.next)
      && (forall k :: k in out ==> k >= cursor)
      && (forall k: nat :: k >= cursor && (p.next == 0 || k < p.next) && AlwaysThere(k, maps, matches) ==> k in out)
  {
    var a, b := Emitted(before), p.out;
    assert before == [] ==> a == [];
    forall i, j | 0 <= i < j < |a + b|
      ensures (a + b)[i] < (a + b)[j]
    {
      if i < |a| && j >= |a| {
        assert a[i] in a && b[j - |a|] in b;
      }
    }
    forall k: nat | k >= cursor && (p.next == 0 || k < p.next) && AlwaysThere(k, maps, matches)
      ensures k in a + b
    {
      if k >= c {
        assert k in b;
      } else {
        assert AlwaysThere(k, maps[..|before|], matches);
      }
    }
  }

  ghost predicate SeenThere(k: nat, maps: seq<Entries>, matches: Test) {
    exists i :: 0 <= i < |maps| && k in maps[i] && matches(maps[i][k])
  }

  /** An iteration emits nothing that did not match in one of the maps read. */
  lemma {:induction false} IterationIsSound(pages: seq<Page>, maps: seq<Entries>, cursor: nat, count: int,
                                            matches: Test, accepts: Test, k: nat)
    requires IsIteration(pages, maps, cursor, count, matches, accepts) && (forall e :: accepts(e))
    requires k in Emitted(pages)
    ensures SeenThere(k, maps, matches)
    decreases |pages|
  {
    hide IsPage;
    var n := |pages| - 1;
    PageFacts(pages[n], maps[n], CursorAt(pages, cursor, n), count, matches, accepts);
    if k in Emitted(pages[..n]) {
      IterationPrefix(pages, maps, cursor, count, matches, accepts);
      IterationIsSound(pages[..n], maps[..n], cursor, count, matches, accepts, k);
    }
  }

  /** A finished iteration from cursor 0 has emitted every matching entry that was
      there throughout, exactly once, in key order, and nothing else but entries
      that were there for a while. */
  lemma IterationIsComplete(pages: seq<Page>, maps: seq<Entries>, count: int, matches: Test, accepts: Test, k: nat)
    requires IsIteration(pages, maps, 0, count, matches, accepts) && (forall e :: accepts(e))
    requires pages != [] && pages[|pages| - 1].next == 0
    ensures Ascending(Emitted(pages))
    ensures AlwaysThere(k, maps, matches) ==> k in Emitted(pages)
    ensures k in Emitted(pages) ==> SeenThere(k, maps, matches)
  {
    hide IsPage, SeenThere;
    IterationSoFar(pages, maps, 0, count, matches, accepts);
    if k in Emitted(pages) {
      IterationIsSound(pages, maps, 0, count, matches, accepts, k);
    }
  }
}
