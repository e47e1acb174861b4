// The MysqlGTIDSet object and what any sequence of its updates amounts to.
module Gtid {
  import opened Bytes
  import opened Text
  import opened Options
  import opened Intervals
  import opened Uuid
  import opened GtidSet
  import opened GtidText
  import opened GtidBinary

  // ---- runs of Update ----

  function UpdateSets(m: Sets, str: string): (r: Sets)
  {
    match ParseGtids(str)
    case None => m
    case Some(g) => Union(m, g)
  }

  function Feed(m: Sets, strs: seq<string>): (r: Sets)
    decreases |strs|
  {
    if strs == [] then m else Feed(UpdateSets(m, strs[0]), strs[1..])
  }

  // The string s is a GTID set that names transaction x of server u.
  ghost predicate Names(s: string, u: Uuid, x: int)
  {
    IsSetText(s) && Says(s, u, x)
  }

  lemma UpdateMeaning(m: Sets, s: string)
    requires Proper(m)
    ensures Proper(UpdateSets(m, s))
    ensures forall u, x :: HasId(UpdateSets(m, s), u, x) <==> HasId(m, u, x) || Names(s, u, x)
  {
    hide IsSetText, Says;
    ParsedIsProper(s);
    ParseMeaning(s);
    if ParseGtids(s).Some? { UnionMeaning(m, ParseGtids(s).value); }
  }

  // Feeding strings leaves exactly the ids there were and the ids the strings name;
  // strings that do not parse change nothing.
  lemma {:induction false} FeedMeaning(m: Sets, strs: seq<string>)
    requires Proper(m)
    ensures Proper(Feed(m, strs))
    ensures forall u, x :: HasId(Feed(m, strs), u, x)
                      <==> HasId(m, u, x) || exists s :: s in strs && Names(s, u, x)
    decreases |strs|
  {
    if strs != [] {
      var first, rest := strs[0], strs[1..];
      assert strs == [first] + rest;
      UpdateMeaning(m, first);
      FeedMeaning(UpdateSets(m, first), rest);
      forall u: Uuid, x
        ensures (exists s :: s in strs && Names(s, u, x)) <==>
                Names(first, u, x) || exists s :: s in rest && Names(s, u, x)
      {
        assert first in strs;
      }
    }
  }

  // Order and repetition of the strings do not matter.
  lemma FeedOrder(m: Sets, a: seq<string>, b: seq<string>)
    requires Proper(m) && forall s :: s in a <==> s in b
    ensures Feed(m, a) == Feed(m, b)
  {
    FeedMeaning(m, a);
    FeedMeaning(m, b);
    forall u: Uuid, x ensures HasId(Feed(m, a), u, x) <==> HasId(Feed(m, b), u, x) {
      assert (exists s :: s in a && Names(s, u, x)) <==> (exists s :: s in b && Names(s, u, x));
    }
    CanonicalSets(Feed(m, a), Feed(m, b));
  }

  // ---- the text of a set ----

  // r is the text String gives for m: the sets' texts in ascending order.
  ghost predicate IsText(m: Sets, order: seq<Uuid>, r: string)
  {
    Visits(order, m) && var texts := Pick(Texts(m), order); Ascending(texts) && r == Join(texts, ',')
  }

  // A set has one text, whatever order the map was visited in.
  lemma TextIsUnique(m: Sets, a: seq<Uuid>, r: string, b: seq<Uuid>, s: string)
    requires IsText(m, a, r) && IsText(m, b, s)
    ensures r == s
  {
    SameElements(Texts(m), a, b);
    SameElements(Texts(m), b, a);
    AscendingIsUnique(Pick(Texts(m), a), Pick(Texts(m), b));
  }

  lemma SameElements(t: map<Uuid, string>, a: seq<Uuid>, b: seq<Uuid>)
    requires forall u :: u in a <==> u in b
    requires forall u :: u in a ==> u in t
    ensures forall s :: s in Pick(t, a) ==> s in Pick(t, b)
  {
    forall s | s in Pick(t, a)
      ensures s in Pick(t, b)
    {
      var i :| 0 <= i < |a| && s == t[a[i]];
      assert a[i] in b;
      var j :| 0 <= j < |b| && b[j] == a[i];
      assert Pick(t, b)[j] == s;
    }
  }

  // What String prints parses back to an equal set exactly when every UUID has an
  // interval and no interval starts below zero.
  lemma StringRoundTrip(m: Sets, order: seq<Uuid>, r: string)
    requires WellFormed(m) && IsText(m, order, r)
    ensures ParseGtids(r) == if forall u :: u in m ==> Printable(m[u]) then Some(m) else None
  {
    TextRoundTrip(m, order);
  }

  lemma SameSizeKeys(a: set<Uuid>, b: set<Uuid>)
    requires a <= b && |a| == |b|
    ensures a == b
  {
    assert |b - a| == 0;
  }

  lemma {:induction false} EncodeAppend(m: Sets, order: seq<Uuid>, u: Uuid)
    requires u in m && Fits(m[u]) && forall v :: v in order ==> v in m && Fits(m[v])
    ensures EncodeAll(m, order + [u]) == EncodeAll(m, order) + EncodeUuidSet(u, m[u])
    decreases |order|
  {
    if order == [] {
      assert order + [u] == [u] && [u][1..] == [];
    } else {
      assert (order + [u])[1..] == order[1..] + [u];
      EncodeAppend(m, order[1..], u);
    }
  }

  lemma TextsDistinct(m: Sets)
    ensures var t := Texts(m); forall u, v :: u in t && v in t && t[u] == t[v] ==> u == v
  {
    forall u, v | u in m && v in m && FormatUuidSet(u, m[u]) == FormatUuidSet(v, m[v])
      ensures u == v
    {
      FormatInjective(u, m[u], v, m[v]);
    }
  }

  // One step of the sort: the text of u goes before the first text that is not before it.
  method InsertText(t: map<Uuid, string>, texts: seq<string>, ghost order: seq<Uuid>, u: Uuid)
    returns (texts': seq<string>, ghost order': seq<Uuid>)
    requires u in t && u !in order && NoRepeats(order) && forall v :: v in order ==> v in t && t[v] != t[u]
    requires texts == Pick(t, order) && Ascending(texts)
    ensures NoRepeats(order') && forall v :: v in order' <==> v in order || v == u
    ensures texts' == Pick(t, order') && Ascending(texts')
  {
    var k := 0;
    while k < |texts| && Before(texts[k], t[u])
      invariant k <= |texts|
      invariant forall i :: 0 <= i < k ==> Before(texts[i], t[u])
    {
      k := k + 1;
    }
    texts' := texts[..k] + [t[u]] + texts[k..];
    order' := order[..k] + [u] + order[k..];
    hide Ascending, NoRepeats, Before;
    FitsAt(texts, t[u], k);
    SpliceElements(order, k, u);
    SpliceNew(order, k, u);
    SplicePick(t, order, k, u);
  }

  lemma SplicePick(t: map<Uuid, string>, order: seq<Uuid>, k: nat, u: Uuid)
    requires k <= |order| && u in t && forall v :: v in order ==> v in t
    ensures var order', texts := order[..k] + [u] + order[k..], Pick(t, order);
            (forall v :: v in order' ==> v in t) && Pick(t, order') == texts[..k] + [t[u]] + texts[k..]
  {
    SpliceElements(order, k, u);
  }

  lemma SpliceNew(order: seq<Uuid>, k: nat, u: Uuid)
    requires k <= |order| && u !in order && NoRepeats(order)
    ensures NoRepeats(order[..k] + [u] + order[k..])
  {
    var r := order[..k] + [u] + order[k..];
    forall i, j | 0 <= i < j < |r| ensures r[i] != r[j] {
      var i', j' := if i <= k then i else i - 1, if j <= k then j else j - 1;
      assert i != k ==> r[i] == order[i'];
      assert j != k ==> r[j] == order[j'];
    }
  }

  lemma SpliceElements<T>(s: seq<T>, k: nat, x: T)
    requires k <= |s|
    ensures forall v :: v in s[..k] + [x] + s[k..] <==> v in s || v == x
  {
    assert s == s[..k] + s[k..];
  }

  lemma FitsAt(texts: seq<string>, t: string, k: nat)
    requires Ascending(texts) && k <= |texts| && t !in texts
    requires forall i :: 0 <= i < k ==> Before(texts[i], t)
    requires k < |texts| ==> !Before(texts[k], t)
    ensures Ascending(texts[..k] + [t] + texts[k..])
  {
    forall j | k <= j < |texts|
      ensures Before(t, texts[j])
    {
      assert texts[k] in texts;
      BeforeIsStrict(t, texts[k]);
      if k < j { BeforeIsTransitive(t, texts[k], texts[j]); }
    }
  }

  // ---- the object ----

  // The loop of Clone: the normal form of every list, and the lists as Normalize
  // leaves them.
  method CloneLists(m: Sets) returns (copied: Sets, sorted: Sets)
    ensures copied == map u | u in m :: Normalize(m[u])
    ensures sorted == map u | u in m :: Sort(m[u])
  {
    hide Normalize, Sort;
    copied, sorted := map[], m;
    var todo := m.Keys;
    while todo != {}
      invariant todo <= m.Keys && Cloned(m, todo, copied, sorted)
      decreases todo
    {
      var u :| u in todo;
      var list := m[u];
      var a := new Interval[|list|](i requires 0 <= i < |list| => list[i]);
      assert a[..] == list;
      var n := NormalizeInPlace(a);
      CloneOne(m, todo, copied, sorted, u);
      copied, sorted, todo := copied[u := n], sorted[u := a[..]], todo - {u};
    }
    SameMap(copied, map u | u in m :: Normalize(m[u]));
    SameMap(sorted, map u | u in m :: Sort(m[u]));
  }

  // The lists outside todo have been cloned.
  predicate Cloned(m: Sets, todo: set<Uuid>, copied: Sets, sorted: Sets)
  {
    && sorted.Keys == m.Keys && copied.Keys == m.Keys - todo
    && (forall u :: u in copied ==> copied[u] == Normalize(m[u]))
    && (forall u :: u in sorted ==> sorted[u] == if u in todo then m[u] else Sort(m[u]))
  }

  lemma CloneOne(m: Sets, todo: set<Uuid>, copied: Sets, sorted: Sets, u: Uuid)
    requires todo <= m.Keys && u in todo && Cloned(m, todo, copied, sorted)
    ensures Cloned(m, todo - {u}, copied[u := Normalize(m[u])], sorted[u := Sort(m[u])])
  {
    hide Normalize, Sort;
  }

  class MysqlGTIDSet {
    var sets: Sets

    constructor ()
      ensures sets == map[]
    {
      sets := map[];
    }

    // AddSet; adding to a known UUID appends the intervals and normalises (AddInterval).
    method AddSet(u: Uuid, s: seq<Interval>)
      modifies this
      ensures sets == GtidSet.AddSet(old(sets), u, s)
    {
      if u in sets {
        var both := sets[u] + s;
        var a := new Interval[|both|](i requires 0 <= i < |both| => both[i]);
        assert a[..] == both;
        var n := NormalizeInPlace(a);
        sets := sets[u := n];
      } else {
        sets := sets[u := s];
      }
    }

    // Update; the parsed sets are added in an arbitrary order.
    method Update(str: string) returns (ok: bool)
      modifies this
      ensures ok == ParseGtids(str).Some?
      ensures sets == UpdateSets(old(sets), str)
    {
      match ParseGtids(str)
      case None => return false;
      case Some(g) =>
        var todo := g.Keys;
        hide Union;
        assert sets == Union(old(sets), g - todo) by { UnionNothing(sets, g); }
        while todo != {}
          invariant todo <= g.Keys && sets == Union(old(sets), g - todo)
          decreases todo
        {
          var u :| u in todo;
          UnionStep(old(sets), g, todo, u);
          AddSet(u, g[u]);
          todo := todo - {u};
        }
        assert g - {} == g;
        return true;
    }

    // Contain. A true answer is right for any sets; on normalised sets the answer is
    // inclusion, except that a UUID listed without intervals must be listed here too.
    method Contain(sub: MysqlGTIDSet) returns (r: bool)
      ensures r ==> SubGtids(sub.sets, sets)
      ensures WellFormed(sets) && WellFormed(sub.sets) ==>
              r == (sub.sets.Keys <= sets.Keys && SubGtids(sub.sets, sets))
      ensures WellFormed(sets) && Proper(sub.sets) ==> r == SubGtids(sub.sets, sets)
    {
      if Proper(sub.sets) && SubGtids(sub.sets, sets) { KeysFollow(sub.sets, sets); }
      var todo := sub.sets.Keys;
      while todo != {}
        invariant todo <= sub.sets.Keys
        invariant forall u :: u in sub.sets && u !in todo ==> u in sets && SubIds(sub.sets[u], sets[u])
        decreases todo
      {
        var u :| u in todo;
        if u !in sets { return false; }
        var inside := Intervals.Contain(sets[u], sub.sets[u]);
        if Normal(sub.sets[u]) { NormalIsSorted(sub.sets[u]); }
        if !inside {
          if x :| Covers(sub.sets[u], x) && !Covers(sets[u], x) {
            assert HasId(sub.sets, u, x) && !HasId(sets, u, x);
          }
          return false;
        }
        todo := todo - {u};
      }
      return true;
    }

    // Equal compares the maps entry by entry.
    method Equal(o: MysqlGTIDSet) returns (r: bool)
      ensures r == (sets == o.sets)
      ensures Proper(sets) && Proper(o.sets) ==> r == SameGtids(sets, o.sets)
    {
      if Proper(sets) && Proper(o.sets) && SameGtids(sets, o.sets) { CanonicalSets(sets, o.sets); }
      if |o.sets| != |sets| { return false; }
      var todo := o.sets.Keys;
      while todo != {}
        invariant todo <= o.sets.Keys
        invariant forall u :: u in o.sets && u !in todo ==> u in sets && sets[u] == o.sets[u]
        decreases todo
      {
        var u :| u in todo;
        if u !in sets { return false; }
        var same := Intervals.Equal(sets[u], o.sets[u]);
        if !same { return false; }
        todo := todo - {u};
      }
      SameSizeKeys(o.sets.Keys, sets.Keys);
      return true;
    }

    // Clone normalises every list it copies, which also sorts the receiver's list.
    method Clone() returns (clone: MysqlGTIDSet)
      modifies this
      ensures fresh(clone)
      ensures clone.sets == map u | u in old(sets) :: Normalize(old(sets)[u])
      ensures sets == map u | u in old(sets) :: Sort(old(sets)[u])
      ensures old(WellFormed(sets)) ==> clone.sets == sets == old(sets)
    {
      ghost var before := sets;
      var copied, sorted := CloneLists(sets);
      clone := new MysqlGTIDSet();
      clone.sets := copied;
      sets := sorted;
      if WellFormed(before) {
        forall u | u in before ensures Normalize(before[u]) == before[u] == Sort(before[u]) {
          NormalIsFixed(before[u]);
          NormalIsSorted(before[u]);
          SortedIsFixed(before[u]);
        }
        SameMap(copied, before);
        SameMap(sorted, before);
      }
    }

    // Encode visits the map in an arbitrary order.
    method Encode() returns (data: seq<byte>)
      requires AllFit(sets)
      ensures exists order :: Visits(order, sets) && data == EncodeSets(sets, order)
    {
      hide EncodeUuidSet;
      data := Int64Bytes(|sets|);
      ghost var order: seq<Uuid> := [];
      var todo := sets.Keys;
      while todo != {}
        invariant todo <= sets.Keys && NoRepeats(order)
        invariant forall u :: u in order <==> u in sets && u !in todo
        invariant data == Int64Bytes(|sets|) + EncodeAll(sets, order)
        decreases todo
      {
        var u :| u in todo;
        EncodeAppend(sets, order, u);
        data := data + EncodeUuidSet(u, sets[u]);
        order := order + [u];
        todo := todo - {u};
      }
      assert Visits(order, sets);
    }

    // String collects the texts in an arbitrary order and sorts them.
    method String() returns (r: string)
      ensures exists order :: IsText(sets, order, r)
    {
      hide FormatUuidSet;
      ghost var order: seq<Uuid> := [];
      var texts, t := [], Texts(sets);
      TextsDistinct(sets);
      var todo := sets.Keys;
      while todo != {}
        invariant todo <= sets.Keys && NoRepeats(order)
        invariant forall u :: u in order <==> u in sets && u !in todo
        invariant texts == Pick(t, order) && Ascending(texts)
        decreases todo
      {
        var u :| u in todo;
        texts, order := InsertText(t, texts, order, u);
        todo := todo - {u};
      }
      r := Join(texts, ',');
      assert IsText(sets, order, r);
    }
  }

  // ParseUUIDSet: parses the intervals one by one and normalises them at the end.
  method ReadUuidSetText(str: string) returns (r: Option<UuidSet>)
    ensures r == ParseUuidSet(str)
  {
    var sep := Split(TrimSpace(str), ':');
    if |sep| < 2 { return None; }
    var sid := FromString(sep[0]);
    if sid == None { return None; }
    var s := ReadIntervals(sep[1..]);
    if s == None { return None; }
    r := Some(UuidSet(sid.value, Normalize(s.value)));
  }

  method ReadIntervals(parts: seq<string>) returns (r: Option<seq<Interval>>)
    ensures r == ParseIntervals(parts)
  {
    hide ParseInterval;
    var s: seq<Interval> := [];
    ghost var whole := ParseIntervals(parts);
    assert parts[0..] == parts;
    for i := 0 to |parts|
      invariant var more := ParseIntervals(parts[i..]);
                whole.Some? == more.Some? && (more.Some? ==> whole.value == s + more.value)
    {
      assert parts[i..][1..] == parts[i + 1..];
      var one := ParseInterval(parts[i]);
      if one == None { return None; }
      ghost var more := ParseIntervals(parts[i + 1..]);
      assert more.Some? ==> s + ([one.value] + more.value) == (s + [one.value]) + more.value;
      s := s + [one.value];
    }
    assert s + [] == s;
    r := Some(s);
  }

  // ParseMysqlGTIDSet; null is the error return.
  method ParseMysqlGTIDSet(str: string) returns (s: MysqlGTIDSet?)
    ensures s == null <==> ParseGtids(str) == None
    ensures s != null ==> fresh(s) && ParseGtids(str) == Some(s.sets)
  {
    hide ParseUuidSet;
    var set_ := new MysqlGTIDSet();
    if str == "" { return set_; }
    var sp := Split(str, ',');
    for i := 0 to |sp|
      invariant fresh(set_)
      invariant match ParseList(sp[i..])
                case None => ParseGtids(str) == None
                case Some(l) => ParseGtids(str) == Some(AddList(l, set_.sets))
    {
      assert sp[i..][1..] == sp[i + 1..];
      var one := ReadUuidSetText(sp[i]);
      if one == None { return null; }
      ghost var more := ParseList(sp[i + 1..]);
      assert more.Some? ==> ([one.value] + more.value)[1..] == more.value;
      set_.AddSet(one.value.sid, one.value.intervals);
    }
    return set_;
  }

  // UUIDSet.decode
  method ReadUuidSetBytes(data: seq<byte>) returns (r: Decoded<UuidSet>)
    ensures r == DecodeUuidSet(data)
  {
    if |data| < 24 { return DecodeError; }
    var n: int := ReadInt64(data[16..24]);
    if |data| < Wrap64(Wrap64(16 * n) + 24) { return DecodeError; }
    if n < 0 || n >= MAX_INTERVALS { return DecodePanic; }
    var s := ReadBounds(data[24..], n);
    r := Decoded(UuidSet(data[..16], s), data[24 + 16 * n..]);
  }

  lemma NextBounds(data: seq<byte>, pos: nat, k: nat, s: seq<Interval>, one: Interval)
    requires k > 0 && pos + 16 * k <= |data|
    requires one == Interval(ReadInt64(data[pos..pos + 8]), ReadInt64(data[pos + 8..pos + 16]))
    ensures s + DecodeIntervals(data[pos..], k) == (s + [one]) + DecodeIntervals(data[pos + 16..], k - 1)
  {
    hide ReadInt64;
    var left := data[pos..];
    assert left[..8] == data[pos..pos + 8] && left[8..16] == data[pos + 8..pos + 16];
    assert left[16..] == data[pos + 16..];
    var more := DecodeIntervals(left[16..], k - 1);
    assert DecodeIntervals(left, k) == [one] + more;
  }

  method ReadBounds(data: seq<byte>, n: nat) returns (s: seq<Interval>)
    requires |data| >= 16 * n
    ensures s == DecodeIntervals(data, n)
  {
    s := [];
    var pos := 0;
    assert data[0..] == data && s + DecodeIntervals(data, n) == DecodeIntervals(data, n);
    assert DecodeIntervals(data[16 * n..], 0) == [];
    hide ReadInt64, DecodeIntervals;
    for i := 0 to n
      invariant pos == 16 * i && s + DecodeIntervals(data[pos..], n - i) == DecodeIntervals(data, n)
    {
      var one := Interval(ReadInt64(data[pos..pos + 8]), ReadInt64(data[pos + 8..pos + 16]));
      NextBounds(data, pos, n - i, s, one);
      s := s + [one];
      pos := pos + 16;
    }
    assert s + [] == s;
  }

  // DecodeMysqlGTIDSet; set_ is the decoded object unless decoding failed.
  method DecodeMysqlGTIDSet(data: seq<byte>) returns (r: Decoded<()>, set_: MysqlGTIDSet)
    ensures fresh(set_)
    ensures match DecodeSets(data)
            case Decoded(m, rest) => r == Decoded((), rest) && set_.sets == m
            case DecodeError => r == DecodeError
            case DecodePanic => r == DecodePanic
  {
    hide DecodeUuidSet;
    set_ := new MysqlGTIDSet();
    if |data| < 8 { return DecodeError, set_; }
    var n: int := ReadInt64(data[..8]);
    var left := data[8..];
    var i := 0;
    while i < n
      invariant i <= n || n < 0
      invariant fresh(set_)
      invariant match DecodeList(left, n - i)
                case Decoded(l, rest) => DecodeSets(data) == Decoded(AddList(l, set_.sets), rest)
                case DecodeError => DecodeSets(data) == DecodeError
                case DecodePanic => DecodeSets(data) == DecodePanic
    {
      var one := ReadUuidSetBytes(left);
      match one
      case DecodeError => return DecodeError, set_;
      case DecodePanic => return DecodePanic, set_;
      case Decoded(e, rest) =>
        ghost var more := DecodeList(rest, n - i - 1);
        assert more.Decoded? ==> ([e] + more.value)[1..] == more.value;
        set_.AddSet(e.sid, e.intervals);
        left := rest;
        i := i + 1;
    }
    r := Decoded((), left);
  }
}
