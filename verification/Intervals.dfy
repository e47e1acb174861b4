// The interval lists behind MySQL GTID sets: sorted half-open intervals that
// stand for a set of transaction ids.
module Intervals {
  import opened Bytes

  type int64 = x: int | -TWO_63 <= x < TWO_63 witness 0

  // [start, stop): stop is the first id after the interval.
  datatype Interval = Interval(start: int64, stop: int64)

  predicate Less(a: Interval, b: Interval)
  {
    a.start < b.start || (a.start == b.start && a.stop < b.stop)
  }

  predicate Holds(i: Interval, x: int) { i.start <= x < i.stop }

  // x is one of the ids that s stands for.
  ghost predicate Covers(s: seq<Interval>, x: int) { exists i :: i in s && Holds(i, x) }

  ghost predicate SameIds(a: seq<Interval>, b: seq<Interval>) { forall x :: Covers(a, x) <==> Covers(b, x) }

  ghost predicate SubIds(a: seq<Interval>, b: seq<Interval>) { forall x :: Covers(a, x) ==> Covers(b, x) }

  predicate NonEmpty(s: seq<Interval>) { forall i :: i in s ==> i.start < i.stop }

  predicate Sorted(s: seq<Interval>) { forall i, j :: 0 <= i < j < |s| ==> !Less(s[j], s[i]) }

  // At least one id is missing between any two intervals.
  predicate Gapped(s: seq<Interval>) { forall i, j :: 0 <= i < j < |s| ==> s[i].stop < s[j].start }

  predicate Normal(s: seq<Interval>) { NonEmpty(s) && Gapped(s) }

  // ---- sorting ----

  function Insert(t: seq<Interval>, x: Interval): (r: seq<Interval>)
    ensures |r| == |t| + 1
  {
    if t == [] || !Less(x, t[|t| - 1]) then t + [x]
    else Insert(t[..|t| - 1], x) + [t[|t| - 1]]
  }

  function Sort(s: seq<Interval>): (r: seq<Interval>)
    ensures |r| == |s|
  {
    if s == [] then [] else Insert(Sort(s[..|s| - 1]), s[|s| - 1])
  }

  lemma PushSorted(t: seq<Interval>, x: Interval)
    requires Sorted(t) && forall i :: 0 <= i < |t| ==> !Less(x, t[i])
    ensures Sorted(t + [x]) && multiset(t + [x]) == multiset(t) + multiset{x}
  {
  }

  lemma LastIsAbove(t: seq<Interval>, x: Interval)
    requires Sorted(t) && t != [] && !Less(x, t[|t| - 1])
    ensures forall i :: 0 <= i < |t| ==> !Less(x, t[i])
  {
    forall i | 0 <= i < |t| ensures !Less(x, t[i]) {
      if i < |t| - 1 { assert !Less(t[|t| - 1], t[i]); }
    }
  }

  lemma {:induction false} InsertSorts(t: seq<Interval>, x: Interval)
    requires Sorted(t)
    ensures Sorted(Insert(t, x)) && multiset(Insert(t, x)) == multiset(t) + multiset{x}
    decreases |t|
  {
    if t == [] || !Less(x, t[|t| - 1]) {
      if t != [] { LastIsAbove(t, x); }
      PushSorted(t, x);
    } else {
      var front, last := t[..|t| - 1], t[|t| - 1];
      assert t == front + [last];
      FrontElements(t, front, last);
      InsertSorts(front, x);
      var r := Insert(front, x);
      hide Insert, Sorted;
      forall i | 0 <= i < |r| ensures !Less(last, r[i]) {
        BelowLast(t, front, last, x, r, i);
      }
      PushSorted(r, last);
    }
  }

  lemma BelowLast(t: seq<Interval>, front: seq<Interval>, last: Interval, x: Interval, r: seq<Interval>, i: nat)
    requires Sorted(t) && t == front + [last] && Less(x, last)
    requires multiset(r) == multiset(front) + multiset{x} && i < |r|
    ensures !Less(last, r[i])
  {
    assert r[i] in multiset(r);
    if r[i] != x {
      assert r[i] in front;
      var k :| 0 <= k < |front| && front[k] == r[i];
      assert t[k] == r[i] && t[|front|] == last;
    }
  }

  lemma {:induction false} SortSorts(s: seq<Interval>)
    ensures Sorted(Sort(s)) && multiset(Sort(s)) == multiset(s)
    decreases |s|
  {
    if s != [] {
      SortSorts(s[..|s| - 1]);
      InsertSorts(Sort(s[..|s| - 1]), s[|s| - 1]);
      assert s == s[..|s| - 1] + [s[|s| - 1]];
    }
  }

  lemma LastIsGreatest(s: seq<Interval>, t: seq<Interval>)
    requires |s| == |t| > 0 && Sorted(t) && multiset(s) == multiset(t)
    ensures !Less(t[|t| - 1], s[|s| - 1])
  {
    assert s[|s| - 1] in multiset(t);
    var k :| 0 <= k < |t| && t[k] == s[|s| - 1];
  }

  // The order is total, so every sorting algorithm gives the same list.
  lemma {:induction false} SortedIsUnique(s: seq<Interval>, t: seq<Interval>)
    requires Sorted(s) && Sorted(t) && multiset(s) == multiset(t)
    ensures s == t
    decreases |s|
  {
    assert |multiset(s)| == |s| && |multiset(t)| == |t|;
    if s != [] {
      LastIsGreatest(s, t);
      LastIsGreatest(t, s);
      var last, front, front' := s[|s| - 1], s[..|s| - 1], t[..|s| - 1];
      assert t[|s| - 1] == last && s == front + [last] && t == front' + [last];
      FrontElements(s, front, last);
      FrontElements(t, front', last);
      SortedIsUnique(front, front');
    }
  }

  lemma FrontElements(s: seq<Interval>, front: seq<Interval>, last: Interval)
    requires s == front + [last] && Sorted(s)
    ensures Sorted(front) && multiset(front) == multiset(s) - multiset{last}
  {
    forall i, j | 0 <= i < j < |front| ensures !Less(front[j], front[i]) {
      assert front[i] == s[i] && front[j] == s[j];
    }
  }

  lemma SortedIsFixed(s: seq<Interval>)
    requires Sorted(s)
    ensures Sort(s) == s
  {
    SortSorts(s);
    SortedIsUnique(Sort(s), s);
  }

  // ---- normalisation ----

  function Merge(n: seq<Interval>, s: seq<Interval>): (r: seq<Interval>)
    requires n != []
    decreases |s|
  {
    if s == [] then n else Merge(Step(n, s[0]), s[1..])
  }

  function Normalize(s: seq<Interval>): (r: seq<Interval>)
  {
    if s == [] then [] else var t := Sort(s); Merge([t[0]], t[1..])
  }

  // What the loop keeps about the merged list n and the rest s of the sorted input.
  ghost predicate Ordered(n: seq<Interval>, s: seq<Interval>)
  {
    && n != [] && Sorted(n) && Gapped(n) && Sorted(s)
    && var last := n[|n| - 1];
       forall i :: i in s ==> last.start <= i.start && (Less(i, last) ==> last.start <= last.stop)
  }

  // One turn of the loop.
  function Step(n: seq<Interval>, x: Interval): (r: seq<Interval>)
    requires n != []
    ensures r != []
  {
    var last := n[|n| - 1];
    if x.start > last.stop then n + [x]
    else n[..|n| - 1] + [Interval(last.start, if last.stop > x.stop then last.stop else x.stop)]
  }

  lemma SortedTail(s: seq<Interval>)
    requires Sorted(s) && s != []
    ensures Sorted(s[1..]) && forall i :: i in s[1..] ==> i in s && !Less(i, s[0])
  {
    forall i | i in s[1..] ensures i in s && !Less(i, s[0]) {
      var k :| 0 <= k < |s[1..]| && s[1..][k] == i;
      assert i == s[k + 1];
    }
  }

  lemma AppendKeepsOrder(n: seq<Interval>, x: Interval)
    requires Ordered(n, [x]) && x.start > n[|n| - 1].stop
    ensures Sorted(n + [x]) && Gapped(n + [x])
  {
    var last := n[|n| - 1];
    assert x in [x];
    forall i | 0 <= i < |n|
      ensures !Less(x, n[i]) && n[i].stop < x.start
    {
      assert i == |n| - 1 || (!Less(last, n[i]) && n[i].stop < last.start);
    }
  }

  lemma JoinKeepsOrder(n: seq<Interval>, stop: int64)
    requires n != [] && Sorted(n) && Gapped(n) && stop >= n[|n| - 1].stop
    ensures var r := n[..|n| - 1] + [Interval(n[|n| - 1].start, stop)]; Sorted(r) && Gapped(r)
  {
    var last, joined := n[|n| - 1], Interval(n[|n| - 1].start, stop);
    forall i | 0 <= i < |n| - 1
      ensures !Less(joined, n[i]) && n[i].stop < joined.start
    {
      assert !Less(last, n[i]) && n[i].stop < last.start;
    }
  }

  lemma StepKeepsOrder(n: seq<Interval>, s: seq<Interval>)
    requires Ordered(n, s) && s != []
    ensures Ordered(Step(n, s[0]), s[1..])
    ensures NonEmpty(n) && NonEmpty(s) ==> NonEmpty(Step(n, s[0]))
  {
    var last, x, r := n[|n| - 1], s[0], Step(n, s[0]);
    assert x in s && last in n;
    SortedTail(s);
    if x.start > last.stop {
      AppendKeepsOrder(n, x);
    } else {
      JoinKeepsOrder(n, r[|r| - 1].stop);
      forall i | i in n[..|n| - 1] ensures i in n {}
    }
  }

  lemma StepIds(n: seq<Interval>, s: seq<Interval>, x: int)
    requires Ordered(n, s) && s != []
    ensures Covers(Step(n, s[0]), x) <==> Covers(n, x) || Holds(s[0], x)
  {
    var r, last := Step(n, s[0]), n[|n| - 1];
    assert s[0] in s;
    assert n == n[..|n| - 1] + [last];
    if s[0].start > last.stop {
      assert s[0] in r;
    } else {
      var joined := r[|r| - 1];
      assert r == n[..|n| - 1] + [joined];
      assert joined in r && last in n;
      assert Holds(joined, x) <==> Holds(last, x) || Holds(s[0], x);
      forall i | i in n[..|n| - 1] ensures i in n && i in r {}
    }
  }

  lemma {:induction false} MergeMeaning(n: seq<Interval>, s: seq<Interval>)
    requires Ordered(n, s)
    ensures Sorted(Merge(n, s)) && Gapped(Merge(n, s))
    ensures NonEmpty(n) && NonEmpty(s) ==> NonEmpty(Merge(n, s))
    ensures forall x :: Covers(Merge(n, s), x) <==> Covers(n, x) || Covers(s, x)
    decreases |s|
  {
    if s != [] {
      StepKeepsOrder(n, s);
      MergeMeaning(Step(n, s[0]), s[1..]);
      forall x
        ensures Covers(Merge(n, s), x) <==> Covers(n, x) || Covers(s, x)
      {
        StepIds(n, s, x);
        CoversCons(s, x);
      }
    }
  }

  lemma CoversCons(s: seq<Interval>, x: int)
    requires s != []
    ensures Covers(s, x) <==> Holds(s[0], x) || Covers(s[1..], x)
  {
    assert s == [s[0]] + s[1..];
    assert s[0] in s;
    forall i | i in s[1..] ensures i in s {}
  }

  // Normalize keeps the ids of every list; its result is sorted with a gap between
  // neighbours, and has no empty interval unless the list had one.
  lemma NormalizeMeaning(s: seq<Interval>)
    ensures SameIds(Normalize(s), s)
    ensures Sorted(Normalize(s)) && Gapped(Normalize(s))
    ensures NonEmpty(s) ==> Normal(Normalize(s))
  {
    if s != [] {
      var t := Sort(s);
      SortSorts(s);
      forall i ensures i in t <==> i in s {
        assert i in t <==> i in multiset(t);
        assert i in s <==> i in multiset(s);
      }
      SortedTail(t);
      MergeMeaning([t[0]], t[1..]);
      forall x ensures Covers(Normalize(s), x) <==> Covers(s, x) {
        CoversCons(t, x);
        assert Covers([t[0]], x) <==> Holds(t[0], x) by { assert t[0] in [t[0]]; }
      }
    }
  }

  // ---- canonical form ----

  lemma HeadIds(a: seq<Interval>)
    requires Normal(a) && a != []
    ensures Covers(a, a[0].start) && !Covers(a, a[0].stop)
    ensures forall x :: Covers(a, x) ==> a[0].start <= x
    ensures forall x :: Covers(a[1..], x) <==> Covers(a, x) && x > a[0].stop
    ensures Normal(a[1..])
  {
    assert a[0] in a && Holds(a[0], a[0].start);
    forall i | i in a
      ensures i == a[0] || (i in a[1..] && i.start > a[0].stop)
    {
      var k :| 0 <= k < |a| && a[k] == i;
      assert k > 0 ==> a[1..][k - 1] == i;
    }
    forall i | i in a[1..]
      ensures i in a && i.start > a[0].stop
    {
      var k :| 0 <= k < |a[1..]| && a[1..][k] == i;
      assert a[k + 1] == i;
    }
  }

  lemma NoIds(b: seq<Interval>)
    requires Normal(b) && SameIds([], b)
    ensures b == []
  {
    var x := if b == [] then 0 else b[0].start;
    if b != [] { HeadIds(b); }
    assert Covers([], x) <==> Covers(b, x);
  }

  lemma TailsAgree(a: seq<Interval>, b: seq<Interval>)
    requires Normal(a) && Normal(b) && SameIds(a, b) && a != [] && b != [] && a[0] == b[0]
    ensures Normal(a[1..]) && Normal(b[1..]) && SameIds(a[1..], b[1..])
  {
    hide Covers, Normal;
    HeadIds(a);
    HeadIds(b);
    forall x ensures Covers(a[1..], x) <==> Covers(b[1..], x) {
      assert Covers(a, x) <==> Covers(b, x);
    }
  }

  // Two normal lists stand for the same ids only if they are the same list.
  lemma {:induction false} Canonical(a: seq<Interval>, b: seq<Interval>)
    requires Normal(a) && Normal(b) && SameIds(a, b)
    ensures a == b
    decreases |a|
  {
    hide Covers, Normal;
    assert SameIds(b, a);
    if a == [] {
      NoIds(b);
    } else if b == [] {
      NoIds(a);
    } else {
      HeadsAgree(a, b);
      HeadsAgree(b, a);
      hide SameIds;
      TailsAgree(a, b);
      Canonical(a[1..], b[1..]);
      assert a == [a[0]] + a[1..] && b == [b[0]] + b[1..];
    }
  }

  lemma HeadsAgree(a: seq<Interval>, b: seq<Interval>)
    requires Normal(a) && Normal(b) && SameIds(a, b) && a != [] && b != []
    ensures b[0].start <= a[0].start
    ensures a[0].start == b[0].start ==> b[0].stop <= a[0].stop
  {
    HeadIds(a);
    HeadIds(b);
    assert Covers(b, a[0].start);
    assert !Covers(b, a[0].stop);
    assert b[0] in b;
    assert !Holds(b[0], a[0].stop);
    assert a[0] in a;
  }

  lemma NormalIsFixed(s: seq<Interval>)
    requires Normal(s)
    ensures Normalize(s) == s
  {
    NormalizeMeaning(s);
    Canonical(Normalize(s), s);
  }

  // Normalize is idempotent on every list, empty intervals included.
  lemma Idempotent(s: seq<Interval>)
    ensures Normalize(Normalize(s)) == Normalize(s)
  {
    NormalizeMeaning(s);
    var n := Normalize(s);
    SortedIsFixed(n);
    if n != [] { GappedIsFixed([n[0]], n[1..]); }
  }

  lemma {:induction false} GappedIsFixed(n: seq<Interval>, s: seq<Interval>)
    requires n != [] && Gapped(n + s)
    ensures Merge(n, s) == n + s
    decreases |s|
  {
    if s != [] {
      assert (n + s)[|n| - 1] == n[|n| - 1] && (n + s)[|n|] == s[0];
      assert n + s == (n + [s[0]]) + s[1..];
      GappedIsFixed(n + [s[0]], s[1..]);
    } else {
      assert n + s == n;
    }
  }

  // Lists without empty intervals stand for the same ids exactly when their normal
  // forms are equal.
  lemma SameIdsIffSameForm(s: seq<Interval>, t: seq<Interval>)
    requires NonEmpty(s) && NonEmpty(t)
    ensures SameIds(s, t) <==> Normalize(s) == Normalize(t)
  {
    NormalizeMeaning(s);
    NormalizeMeaning(t);
    if SameIds(s, t) {
      forall x ensures Covers(Normalize(s), x) <==> Covers(Normalize(t), x) {
        assert Covers(s, x) <==> Covers(t, x);
      }
      Canonical(Normalize(s), Normalize(t));
    } else {
      var x :| Covers(s, x) != Covers(t, x);
      assert Covers(Normalize(s), x) != Covers(Normalize(t), x);
    }
  }

  // ---- the source's loops ----

  // Moves a[i] down to its place among the sorted a[..i].
  method InsertInPlace(a: array<Interval>, i: nat)
    requires i < a.Length
    modifies a
    ensures a[..] == Insert(old(a[..i]), old(a[i])) + old(a[i + 1..])
  {
    ghost var t, x, rest := a[..i], a[i], a[i + 1..];
    assert t[..i] == t && Insert(t, x) + [] == Insert(t, x);
    assert a[..] == t[..i] + [x] + t[i..] + rest;
    var j := i;
    while j > 0 && Less(a[j], a[j - 1])
      invariant 0 <= j <= i && a[..] == t[..j] + [x] + t[j..] + rest
      invariant Insert(t, x) == Insert(t[..j], x) + t[j..]
    {
      Placed(a[..], t, x, rest, j);
      InsertStep(t, x, j);
      SwapDown(t, x, rest, j);
      a[j], a[j - 1] := a[j - 1], a[j];
      j := j - 1;
    }
    Placed(a[..], t, x, rest, j);
    assert Insert(t[..j], x) == t[..j] + [x];
  }

  lemma Placed(a: seq<Interval>, t: seq<Interval>, x: Interval, rest: seq<Interval>, j: nat)
    requires j <= |t| && a == t[..j] + [x] + t[j..] + rest
    ensures a[j] == x && (j > 0 ==> a[j - 1] == t[j - 1] == t[..j][j - 1])
  {
  }

  lemma SwapDown(t: seq<Interval>, x: Interval, rest: seq<Interval>, j: nat)
    requires 0 < j <= |t|
    ensures var a := t[..j] + [x] + t[j..] + rest;
            a[j := t[j - 1]][j - 1 := x] == t[..j - 1] + [x] + t[j - 1..] + rest
  {
  }

  lemma InsertStep(t: seq<Interval>, x: Interval, j: nat)
    requires 0 < j <= |t| && Less(x, t[j - 1])
    ensures Insert(t[..j], x) + t[j..] == Insert(t[..j - 1], x) + t[j - 1..]
  {
    assert t[..j][..j - 1] == t[..j - 1];
    assert t[j - 1..] == [t[j - 1]] + t[j..];
  }

  // sort.Sort: by SortedIsUnique the result does not depend on the algorithm.
  method SortInPlace(a: array<Interval>)
    modifies a
    ensures a[..] == Sort(old(a[..]))
  {
    ghost var s := a[..];
    assert s == Sort(s[..0]) + s[0..];
    for i := 0 to a.Length
      invariant a[..] == Sort(s[..i]) + s[i..]
    {
      Sorting(a[..], s, i);
      assert a[..i] == a[..][..i] && a[i + 1..] == a[..][i + 1..];
      InsertInPlace(a, i);
    }
    assert s[..a.Length] == s && a[..] == Sort(s) + [];
  }

  lemma Sorting(a: seq<Interval>, s: seq<Interval>, i: nat)
    requires i < |s| && a == Sort(s[..i]) + s[i..]
    ensures a[..i] == Sort(s[..i]) && a[i] == s[i] && a[i + 1..] == s[i + 1..]
    ensures Sort(s[..i + 1]) == Insert(Sort(s[..i]), s[i])
  {
    assert s[..i + 1][..i] == s[..i];
  }

  // IntervalSlice.Normalize: sorts its receiver in place and returns a new list.
  method NormalizeInPlace(s: array<Interval>) returns (n: seq<Interval>)
    modifies s
    ensures s[..] == Sort(old(s[..]))
    ensures n == Normalize(old(s[..]))
  {
    n := [];
    if s.Length == 0 { return; }
    SortInPlace(s);
    n := MergeLoop(s[..]);
  }

  method MergeLoop(s: seq<Interval>) returns (n: seq<Interval>)
    requires s != []
    ensures n == Merge([s[0]], s[1..])
  {
    n := [s[0]];
    for i := 1 to |s|
      invariant n != [] && Merge(n, s[i..]) == Merge([s[0]], s[1..])
    {
      ghost var n0, rest := n, s[i..];
      assert rest[1..] == s[i + 1..];
      var last := n[|n| - 1];
      if s[i].start > last.stop {
        n := n + [s[i]];
      } else {
        var stop := if last.stop > s[i].stop then last.stop else s[i].stop;
        n := n[..|n| - 1] + [Interval(last.start, stop)];
      }
      assert n == Step(n0, rest[0]);
    }
  }

  // IntervalSlice.Contain: one pass over both lists. A true answer is right for any
  // lists; a false answer is right when s is normal and sub sorted without empty intervals.
  method Contain(s: seq<Interval>, sub: seq<Interval>) returns (r: bool)
    ensures r ==> SubIds(sub, s)
    ensures Normal(s) && NonEmpty(sub) && Sorted(sub) ==> r == SubIds(sub, s)
  {
    ghost var exact := Normal(s) && NonEmpty(sub) && Sorted(sub);
    var j := 0;
    for i := 0 to |sub|
      invariant 0 <= j <= |s|
      invariant exact ==> forall k :: 0 <= k < j && i < |sub| ==> s[k].stop < sub[i].start
      invariant forall k :: 0 <= k < i ==> Inside(sub[k], s)
    {
      while j < |s| && sub[i].start > s[j].stop
        invariant j <= |s|
        invariant exact ==> forall k :: 0 <= k < j ==> s[k].stop < sub[i].start
      {
        j := j + 1;
      }
      if j == |s| || sub[i].start < s[j].start || sub[i].stop > s[j].stop {
        if exact { Escapes(s, sub, i, j); }
        return false;
      }
      assert Inside(sub[i], s);
      assert exact && i + 1 < |sub| ==> !Less(sub[i + 1], sub[i]);
    }
    AllInside(s, sub);
    return true;
  }

  lemma NormalIsSorted(s: seq<Interval>)
    requires Normal(s)
    ensures Sorted(s)
  {
    forall i, j | 0 <= i < j < |s| ensures !Less(s[j], s[i]) {
      assert s[i] in s && s[i].stop < s[j].start;
    }
  }

  ghost predicate Inside(i: Interval, s: seq<Interval>)
  {
    exists t :: t in s && t.start <= i.start && i.stop <= t.stop
  }

  lemma AllInside(s: seq<Interval>, sub: seq<Interval>)
    requires forall k :: 0 <= k < |sub| ==> Inside(sub[k], s)
    ensures SubIds(sub, s)
  {
    forall x | Covers(sub, x)
      ensures Covers(s, x)
    {
      var i :| i in sub && Holds(i, x);
      assert Inside(i, s);
      var t :| t in s && t.start <= i.start && i.stop <= t.stop;
      assert Holds(t, x);
    }
  }

  // Where the pass stops with false there is an id of sub that s lacks.
  lemma Escapes(s: seq<Interval>, sub: seq<Interval>, i: nat, j: nat)
    requires Normal(s) && NonEmpty(sub) && i < |sub| && j <= |s|
    requires forall k :: 0 <= k < j ==> s[k].stop < sub[i].start
    requires j == |s| || sub[i].start < s[j].start
             || (sub[i].start <= s[j].stop && sub[i].stop > s[j].stop)
    ensures !SubIds(sub, s)
  {
    var x := if j == |s| || sub[i].start < s[j].start then sub[i].start else s[j].stop;
    assert sub[i] in sub && Holds(sub[i], x);
    assert Covers(sub, x);
    forall k | 0 <= k < |s|
      ensures !Holds(s[k], x)
    {
      if j < |s| && k != j { assert s[j] in s; }
    }
  }

  // IntervalSlice.Equal compares element by element.
  method Equal(s: seq<Interval>, o: seq<Interval>) returns (r: bool)
    ensures r == (s == o)
    ensures Normal(s) && Normal(o) ==> r == SameIds(s, o)
  {
    if Normal(s) && Normal(o) && SameIds(s, o) { Canonical(s, o); }
    if |s| != |o| { return false; }
    for i := 0 to |s|
      invariant s[..i] == o[..i]
    {
      if s[i].start != o[i].start || s[i].stop != o[i].stop { return false; }
    }
    assert s == s[..|s|] && o == o[..|o|];
    return true;
  }

  // On normal forms: 0 for the same ids, 1 when o's ids are a proper part of s's, -1 otherwise.
  method Compare(s: seq<Interval>, o: seq<Interval>) returns (r: int)
    ensures r == 0 <==> s == o
    ensures r == 1 ==> SubIds(o, s)
    ensures Normal(s) && Normal(o) ==> r == if SameIds(s, o) then 0 else if SubIds(o, s) then 1 else -1
  {
    var equal := Equal(s, o);
    if equal { return 0; }
    if Normal(o) { NormalIsSorted(o); }
    var contains := Contain(s, o);
    r := if contains then 1 else -1;
  }

  // Sorted means by first id, and by the end where first ids are equal.
  lemma SortedMeans(s: seq<Interval>)
    ensures Sorted(s) <==>
            forall i, j :: 0 <= i < j < |s| ==>
              s[i].start < s[j].start || (s[i].start == s[j].start && s[i].stop <= s[j].stop)
  {
    if Sorted(s) {
      forall i, j | 0 <= i < j < |s|
        ensures s[i].start < s[j].start || (s[i].start == s[j].start && s[i].stop <= s[j].stop)
      {
        assert !Less(s[j], s[i]);
      }
    }
  }
}
