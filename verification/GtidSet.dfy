// MysqlGTIDSet: one normalised interval list per server UUID, refining a plain set
// of (UUID, transaction number) pairs. The source keys its map by the text of the
// UUID; that text is injective (Uuid.ToStringInjective), so the model keys by the UUID.
module GtidSet {
  import opened Intervals
  import opened Uuid

  type Sets = map<Uuid, seq<Interval>>

  // The transaction ids a GTID set stands for.
  ghost predicate HasId(m: Sets, u: Uuid, x: int) { u in m && Covers(m[u], x) }

  ghost predicate SameGtids(a: Sets, b: Sets) { forall u, x :: HasId(a, u, x) <==> HasId(b, u, x) }

  ghost predicate SubGtids(a: Sets, b: Sets) { forall u, x :: HasId(a, u, x) ==> HasId(b, u, x) }

  predicate WellFormed(m: Sets) { forall u :: u in m ==> Normal(m[u]) }

  // No UUID is listed without an interval; parsing gives only such sets.
  predicate Proper(m: Sets) { forall u :: u in m ==> Normal(m[u]) && m[u] != [] }

  // ---- the specification of AddSet and Update ----

  function AddSet(m: Sets, u: Uuid, s: seq<Interval>): (r: Sets)
  {
    m[u := if u in m then Normalize(m[u] + s) else s]
  }

  // All of g added to m, in whatever order.
  function Union(m: Sets, g: Sets): (r: Sets)
  {
    map u | u in m.Keys + g.Keys ::
      if u in m && u in g then Normalize(m[u] + g[u]) else if u in m then m[u] else g[u]
  }

  lemma UnionNothing(m: Sets, g: Sets)
    ensures Union(m, g - g.Keys) == m
  {
    assert (g - g.Keys).Keys == {};
    assert Union(m, g - g.Keys).Keys == m.Keys;
  }

  // Adding one more UUID of g.
  lemma UnionStep(m: Sets, g: Sets, todo: set<Uuid>, u: Uuid)
    requires u in todo && todo <= g.Keys
    ensures AddSet(Union(m, g - todo), u, g[u]) == Union(m, g - (todo - {u}))
  {
    hide Normalize;
    var a, b := AddSet(Union(m, g - todo), u, g[u]), Union(m, g - (todo - {u}));
    assert a.Keys == b.Keys;
    forall v | v in a ensures a[v] == b[v] {}
  }

  lemma CombineIds(a: seq<Interval>, b: seq<Interval>)
    ensures forall x :: Covers(Normalize(a + b), x) <==> Covers(a, x) || Covers(b, x)
    ensures Normal(a) && Normal(b) ==> Normal(Normalize(a + b))
    ensures Normal(a) && a != [] ==> Normalize(a + b) != []
  {
    NormalizeMeaning(a + b);
    forall x ensures Covers(a + b, x) <==> Covers(a, x) || Covers(b, x) {
      forall i ensures i in a + b <==> i in a || i in b {}
    }
    if Normal(a) && a != [] {
      HeadIds(a);
      assert Covers(a + b, a[0].start);
    }
  }

  lemma AddSetMeaning(m: Sets, u: Uuid, s: seq<Interval>)
    requires WellFormed(m) && Normal(s)
    ensures WellFormed(AddSet(m, u, s))
    ensures Proper(m) && s != [] ==> Proper(AddSet(m, u, s))
    ensures forall v, x :: HasId(AddSet(m, u, s), v, x) <==> HasId(m, v, x) || (v == u && Covers(s, x))
  {
    if u in m { CombineIds(m[u], s); }
  }

  lemma UnionMeaning(m: Sets, g: Sets)
    requires WellFormed(m) && WellFormed(g)
    ensures WellFormed(Union(m, g))
    ensures Proper(m) && Proper(g) ==> Proper(Union(m, g))
    ensures forall u, x :: HasId(Union(m, g), u, x) <==> HasId(m, u, x) || HasId(g, u, x)
  {
    forall u | u in m && u in g
      ensures Normal(Union(m, g)[u]) && (m[u] != [] ==> Union(m, g)[u] != [])
      ensures forall x :: Covers(Union(m, g)[u], x) <==> Covers(m[u], x) || Covers(g[u], x)
    {
      CombineIds(m[u], g[u]);
    }
  }

  // Proper sets that stand for the same ids are the same sets.
  lemma CanonicalSets(a: Sets, b: Sets)
    requires Proper(a) && Proper(b) && SameGtids(a, b)
    ensures a == b
  {
    KeysFollow(a, b);
    KeysFollow(b, a);
    forall u | u in a
      ensures a[u] == b[u]
    {
      forall x ensures Covers(a[u], x) <==> Covers(b[u], x) {
        assert HasId(a, u, x) <==> HasId(b, u, x);
      }
      Canonical(a[u], b[u]);
    }
  }

  lemma KeysFollow(a: Sets, b: Sets)
    requires Proper(a) && SubGtids(a, b)
    ensures a.Keys <= b.Keys
  {
    forall u | u in a
      ensures u in b
    {
      HeadIds(a[u]);
      assert HasId(a, u, a[u][0].start);
    }
  }

  // ---- lists of sets, as the two decoders produce them ----

  datatype UuidSet = UuidSet(sid: Uuid, intervals: seq<Interval>)

  function AddList(l: seq<UuidSet>, m: Sets): (r: Sets)
    decreases |l|
  {
    if l == [] then m else AddList(l[1..], AddSet(m, l[0].sid, l[0].intervals))
  }

  // Some entry of the list has the id, whatever the intervals look like.
  ghost predicate Lists(l: seq<UuidSet>, u: Uuid, x: int)
  {
    exists e :: e in l && e.sid == u && Covers(e.intervals, x)
  }

  lemma AddSetIds(m: Sets, u: Uuid, s: seq<Interval>)
    ensures forall v, x :: HasId(AddSet(m, u, s), v, x) <==> HasId(m, v, x) || (v == u && Covers(s, x))
  {
    hide Covers, Normalize;
    if u in m { CombineIds(m[u], s); }
  }

  // Adding a list, with or without repeated UUIDs, adds exactly the ids of its entries.
  lemma {:induction false} AddListMeaning(l: seq<UuidSet>, m: Sets)
    ensures forall u, x :: HasId(AddList(l, m), u, x) <==> HasId(m, u, x) || Lists(l, u, x)
    decreases |l|
  {
    hide HasId, Covers, AddSet;
    if l != [] {
      var first, rest := l[0], l[1..];
      assert l == [first] + rest;
      AddSetIds(m, first.sid, first.intervals);
      AddListMeaning(rest, AddSet(m, first.sid, first.intervals));
      forall u: Uuid, x
        ensures Lists(l, u, x) <==> (first.sid == u && Covers(first.intervals, x)) || Lists(rest, u, x)
      {
        assert first in l;
      }
    }
  }

  lemma {:induction false} AddListProper(l: seq<UuidSet>, m: Sets)
    requires Proper(m) && forall e :: e in l ==> Normal(e.intervals) && e.intervals != []
    ensures Proper(AddList(l, m))
    decreases |l|
  {
    if l != [] {
      assert l[0] in l;
      AddSetMeaning(m, l[0].sid, l[0].intervals);
      AddListProper(l[1..], AddSet(m, l[0].sid, l[0].intervals));
    }
  }

  ghost predicate NoRepeats(order: seq<Uuid>) { forall i, j :: 0 <= i < j < |order| ==> order[i] != order[j] }

  // order visits every UUID of m once.
  ghost predicate Visits(order: seq<Uuid>, m: Sets) { NoRepeats(order) && forall u :: u in order <==> u in m }

  function ListOf(m: Sets, order: seq<Uuid>): (l: seq<UuidSet>)
    requires forall u :: u in order ==> u in m
    ensures |l| == |order| && forall i :: 0 <= i < |l| ==> l[i] == UuidSet(order[i], m[order[i]])
  {
    if order == [] then [] else [UuidSet(order[0], m[order[0]])] + ListOf(m, order[1..])
  }

  lemma {:induction false} AddListed(m: Sets, order: seq<Uuid>, done: Sets)
    requires NoRepeats(order) && forall u :: u in order ==> u in m && u !in done
    ensures var r := AddList(ListOf(m, order), done);
            && (forall u :: u in r <==> u in done || u in order)
            && (forall u :: u in r ==> r[u] == if u in order then m[u] else done[u])
    decreases |order|
  {
    if order != [] {
      var u, tail := order[0], order[1..];
      assert u in order && order == [u] + tail && u !in tail;
      assert ListOf(m, order)[1..] == ListOf(m, tail);
      assert AddSet(done, u, m[u]) == done[u := m[u]];
      AddListed(m, tail, done[u := m[u]]);
    }
  }

  lemma SameMap<K, V>(a: map<K, V>, b: map<K, V>)
    requires (forall k :: k in a <==> k in b) && forall k :: k in a ==> a[k] == b[k]
    ensures a == b
  {
    assert a.Keys == b.Keys;
  }

  // A set is rebuilt from a listing of it in any order.
  lemma AddVisited(m: Sets, order: seq<Uuid>)
    requires Visits(order, m)
    ensures AddList(ListOf(m, order), map[]) == m
  {
    hide AddList, ListOf, NoRepeats;
    AddListed(m, order, map[]);
    var r := AddList(ListOf(m, order), map[]);
    SameMap(r, m);
  }

  lemma {:induction false} CountDistinct<T>(s: seq<T>)
    requires forall i, j :: 0 <= i < j < |s| ==> s[i] != s[j]
    ensures |set x | x in s| == |s|
    decreases |s|
  {
    if s == [] {
      assert (set x | x in s) == {};
    } else {
      CountDistinct(s[1..]);
      assert s == [s[0]] + s[1..];
      assert (set x | x in s) == {s[0]} + (set x | x in s[1..]);
      assert s[0] !in s[1..];
    }
  }

  lemma VisitCount(m: Sets, order: seq<Uuid>)
    requires Visits(order, m)
    ensures |order| == |m|
  {
    CountDistinct(order);
    assert m.Keys == set u | u in order;
  }
}
