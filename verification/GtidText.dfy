// The text form of GTID sets: UUID:n[-n][:n[-n]...][,UUID:...], with closed
// intervals where the sets store half-open ones.
module GtidText {
  import opened Bytes
  import opened Text
  import opened Options
  import opened Intervals
  import opened Uuid
  import opened GtidSet

  // ---- intervals ----

  // Interval.String
  function FormatInterval(i: Interval): (s: string)
  {
    if i.stop == Wrap64(i.start + 1) then FormatInt(i.start)
    else FormatInt(i.start) + "-" + FormatInt(Wrap64(i.stop - 1))
  }

  // The closed end as the first id after the interval; int64 addition wraps, and an
  // interval that wrapped is refused like any other that does not end after its start.
  function CloseInterval(start: int64, end: int64): (r: Option<Interval>)
    ensures r.Some? <==> start <= end < TWO_63 - 1
    ensures r.Some? ==> r.value == Interval(start, end + 1)
  {
    var stop := Wrap64(end + 1);
    if stop <= start then None else Some(Interval(start, stop))
  }

  function ParseInterval(str: string): (r: Option<Interval>)
    ensures r.Some? ==> r.value.start < r.value.stop
  {
    var p := Split(str, '-');
    if |p| == 1 then
      match ParseInt(p[0])
      case None => None
      case Some(n) => CloseInterval(n, n)
    else if |p| == 2 then
      match (ParseInt(p[0]), ParseInt(p[1]))
      case (Some(n), Some(e)) => CloseInterval(n, e)
      case _ => None
    else None
  }

  lemma ParseParts(a: string, b: string, n: int64, e: int64)
    requires '-' !in a && '-' !in b && ParseInt(a) == Some(n) && ParseInt(b) == Some(e)
    ensures ParseInterval(a) == CloseInterval(n, n)
    ensures ParseInterval(a + "-" + b) == CloseInterval(n, e)
  {
    hide ParseInt, CloseInterval;
    SplitFirst(a, '-', b);
    SplitFirst(b, '-', "");
    hide Split;
    assert a + "-" + b == a + ['-'] + b;
  }

  lemma NoDash(n: nat)
    ensures '-' !in FormatInt(n)
  {
    hide Decimal;
  }

  lemma PositiveRoundTrip(i: Interval)
    requires 0 <= i.start < i.stop
    ensures ParseInterval(FormatInterval(i)) == Some(i)
  {
    hide ParseInt, FormatInt, ParseInterval;
    ParseFormatted(i.start);
    ParseFormatted(i.stop - 1);
    NoDash(i.start);
    NoDash(i.stop - 1);
    ParseParts(FormatInt(i.start), FormatInt(i.stop - 1), i.start, i.stop - 1);
  }

  lemma NegativeRefused(i: Interval)
    requires i.start < 0
    ensures ParseInterval(FormatInterval(i)) == None
  {
    var s := FormatInterval(i);
    assert s == "" + ['-'] + s[1..];
    SplitFirst("", '-', s[1..]);
  }

  // A non-empty interval reads back exactly when it starts at or above zero; a
  // negative start is printed with a sign that is then taken for a separator.
  lemma IntervalRoundTrip(i: Interval)
    requires i.start < i.stop
    ensures ParseInterval(FormatInterval(i)) == if i.start >= 0 then Some(i) else None
  {
    if i.start >= 0 { PositiveRoundTrip(i); } else { NegativeRefused(i); }
  }

  lemma FormatIntervalChars(i: Interval)
    ensures FormatInterval(i) != "" && Clean(FormatInterval(i))
  {
  }

  // ---- one UUID with its intervals ----

  function FormatIntervals(s: seq<Interval>): (r: seq<string>)
    ensures |r| == |s|
  {
    if s == [] then [] else [FormatInterval(s[0])] + FormatIntervals(s[1..])
  }

  // UUIDSet.String
  function FormatUuidSet(u: Uuid, s: seq<Interval>): (r: string)
  {
    Join([ToString(u)] + FormatIntervals(s), ':')
  }

  function ParseIntervals(parts: seq<string>): (r: Option<seq<Interval>>)
    ensures r.Some? ==> |r.value| == |parts| && NonEmpty(r.value)
  {
    if parts == [] then Some([])
    else
      match (ParseInterval(parts[0]), ParseIntervals(parts[1..]))
      case (Some(i), Some(rest)) => Some([i] + rest)
      case _ => None
  }

  function ParseUuidSet(str: string): (r: Option<UuidSet>)
  {
    var sep := Split(TrimSpace(str), ':');
    if |sep| < 2 then None
    else
      match (FromString(sep[0]), ParseIntervals(sep[1..]))
      case (Some(sid), Some(s)) => Some(UuidSet(sid, Normalize(s)))
      case _ => None
  }

  predicate Printable(s: seq<Interval>) { s != [] && forall i :: i in s ==> i.start >= 0 }

  lemma {:induction false} IntervalsRoundTrip(s: seq<Interval>)
    requires NonEmpty(s)
    ensures ParseIntervals(FormatIntervals(s))
         == if forall i :: i in s ==> i.start >= 0 then Some(s) else None
    ensures forall p :: p in FormatIntervals(s) ==> p != "" && Clean(p)
    decreases |s|
  {
    if s != [] {
      var tail := s[1..];
      assert s == [s[0]] + tail && s[0] in s;
      forall i | i in tail ensures i in s {}
      IntervalRoundTrip(s[0]);
      FormatIntervalChars(s[0]);
      IntervalsRoundTrip(tail);
      assert FormatIntervals(s)[1..] == FormatIntervals(tail);
    }
  }

  lemma {:induction false} JoinEnds(parts: seq<string>, sep: char)
    requires parts != [] && forall p :: p in parts ==> p != "" && Clean(p)
    ensures var s := Join(parts, sep); s != "" && !IsSpace(s[0]) && !IsSpace(s[|s| - 1])
    decreases |parts|
  {
    assert parts[0] in parts && parts[0][0] in parts[0] && parts[0][|parts[0]| - 1] in parts[0];
    if |parts| > 1 {
      forall p | p in parts[1..] ensures p in parts {}
      JoinEnds(parts[1..], sep);
    }
  }

  // A UUID's list reads back exactly when it has an interval and none starts below zero.
  lemma UuidSetRoundTrip(u: Uuid, s: seq<Interval>)
    requires Normal(s)
    ensures ParseUuidSet(FormatUuidSet(u, s)) == if Printable(s) then Some(UuidSet(u, s)) else None
    ensures ',' !in FormatUuidSet(u, s) && FormatUuidSet(u, s) != ""
  {
    hide ParseIntervals, FormatIntervals, Split, Join, Normalize, ToString, FromString, TrimSpace, IsSpace;
    var parts := [ToString(u)] + FormatIntervals(s);
    UuidClean(u);
    IntervalsRoundTrip(s);
    JoinEnds(parts, ':');
    SplitJoin(parts, ':');
    JoinChars(parts, ':', ',');
    assert parts[1..] == FormatIntervals(s);
    UuidRoundTrip(u);
    NormalIsFixed(s);
  }

  lemma FormatInjective(u: Uuid, s: seq<Interval>, v: Uuid, t: seq<Interval>)
    requires FormatUuidSet(u, s) == FormatUuidSet(v, t)
    ensures u == v
  {
    FormatPrefix(u, s);
    FormatPrefix(v, t);
    ToStringInjective(u, v);
  }

  lemma FormatPrefix(u: Uuid, s: seq<Interval>)
    ensures |FormatUuidSet(u, s)| >= 36 && FormatUuidSet(u, s)[..36] == ToString(u)
  {
    var parts := [ToString(u)] + FormatIntervals(s);
    assert parts[0] == ToString(u);
  }

  // ---- whole sets ----

  function ParseList(parts: seq<string>): (r: Option<seq<UuidSet>>)
  {
    if parts == [] then Some([])
    else
      match (ParseUuidSet(parts[0]), ParseList(parts[1..]))
      case (Some(set_), Some(rest)) => Some([set_] + rest)
      case _ => None
  }

  function ParseGtids(str: string): (r: Option<Sets>)
  {
    if str == "" then Some(map[])
    else
      match ParseList(Split(str, ','))
      case None => None
      case Some(l) => Some(AddList(l, map[]))
  }

  // ---- what a text says ----

  // The text of an interval gives its closed bounds.
  ghost predicate Bounds(t: string, n: int, e: int)
  {
    var p := Split(t, '-');
    || (|p| == 1 && ParseInt(p[0]) == Some(n) && e == n)
    || (|p| == 2 && ParseInt(p[0]) == Some(n) && ParseInt(p[1]) == Some(e))
  }

  ghost predicate IsIntervalText(t: string) { exists n, e :: Bounds(t, n, e) && n <= e < TWO_63 - 1 }

  ghost predicate IntervalSays(t: string, x: int) { exists n, e :: Bounds(t, n, e) && n <= x <= e }

  lemma ParseIntervalMeaning(t: string)
    ensures ParseInterval(t).Some? <==> IsIntervalText(t)
    ensures ParseInterval(t).Some? ==> forall x :: Holds(ParseInterval(t).value, x) <==> IntervalSays(t, x)
  {
    hide ParseInt, Split, CloseInterval;
    var p := Split(t, '-');
    if |p| == 1 && ParseInt(p[0]).Some? {
      assert Bounds(t, ParseInt(p[0]).value, ParseInt(p[0]).value);
    } else if |p| == 2 && ParseInt(p[0]).Some? && ParseInt(p[1]).Some? {
      assert Bounds(t, ParseInt(p[0]).value, ParseInt(p[1]).value);
    }
  }

  ghost predicate AnySays(parts: seq<string>, x: int)
  {
    exists k :: 0 <= k < |parts| && IntervalSays(parts[k], x)
  }

  lemma {:induction false} ParseIntervalsMeaning(parts: seq<string>)
    ensures ParseIntervals(parts).Some? <==> forall k :: 0 <= k < |parts| ==> IsIntervalText(parts[k])
    ensures ParseIntervals(parts).Some? ==>
              forall x :: Covers(ParseIntervals(parts).value, x) <==> AnySays(parts, x)
    decreases |parts|
  {
    hide IsIntervalText, IntervalSays, ParseInterval, Holds;
    if parts != [] {
      var first, rest := parts[0], parts[1..];
      ParseIntervalMeaning(first);
      ParseIntervalsMeaning(rest);
      if ParseIntervals(parts).Some? {
        var i, more := ParseInterval(first).value, ParseIntervals(rest).value;
        forall x ensures Covers([i] + more, x) <==> AnySays(parts, x) {
          HeadCovers(i, more, x);
          HeadSays(parts, x);
        }
      }
    }
  }

  lemma HeadCovers(i: Interval, more: seq<Interval>, x: int)
    ensures Covers([i] + more, x) <==> Holds(i, x) || Covers(more, x)
  {
    assert i in [i] + more;
  }

  lemma HeadSays(parts: seq<string>, x: int)
    requires parts != []
    ensures AnySays(parts, x) <==> IntervalSays(parts[0], x) || AnySays(parts[1..], x)
  {
    hide IntervalSays;
    if AnySays(parts[1..], x) {
      var k :| 0 <= k < |parts[1..]| && IntervalSays(parts[1..][k], x);
      assert IntervalSays(parts[k + 1], x);
    }
    if AnySays(parts, x) && !IntervalSays(parts[0], x) {
      var k :| 0 <= k < |parts| && IntervalSays(parts[k], x);
      assert parts[1..][k - 1] == parts[k];
    }
  }

  // One comma-separated part: a UUID and at least one interval.
  ghost predicate IsPart(part: string)
  {
    var sep := Split(TrimSpace(part), ':');
    && |sep| >= 2 && FromString(sep[0]).Some?
    && forall k :: 0 <= k < |sep[1..]| ==> IsIntervalText(sep[1..][k])
  }

  ghost predicate PartSays(part: string, u: Uuid, x: int)
  {
    var sep := Split(TrimSpace(part), ':');
    |sep| >= 2 && FromString(sep[0]) == Some(u) && AnySays(sep[1..], x)
  }

  lemma ParseUuidSetMeaning(part: string)
    ensures ParseUuidSet(part).Some? <==> IsPart(part)
    ensures ParseUuidSet(part).Some? ==>
              forall u, x :: PartSays(part, u, x) <==>
                             ParseUuidSet(part).value.sid == u && Covers(ParseUuidSet(part).value.intervals, x)
  {
    hide TrimSpace, Split, FromString, IsIntervalText, AnySays, Covers, Normalize, ParseIntervals;
    var sep := Split(TrimSpace(part), ':');
    if |sep| >= 2 {
      ParseIntervalsMeaning(sep[1..]);
      if ParseIntervals(sep[1..]).Some? {
        NormalizeMeaning(ParseIntervals(sep[1..]).value);
      }
    }
  }

  lemma {:induction false} ParseListMeaning(parts: seq<string>)
    ensures ParseList(parts).Some? <==> forall k :: 0 <= k < |parts| ==> IsPart(parts[k])
    ensures ParseList(parts).Some? ==>
              forall u, x :: Lists(ParseList(parts).value, u, x) <==>
                             exists k :: 0 <= k < |parts| && PartSays(parts[k], u, x)
    decreases |parts|
  {
    hide IsPart, PartSays, ParseUuidSet, Covers;
    if parts != [] {
      var first, rest := parts[0], parts[1..];
      ParseUuidSetMeaning(first);
      ParseListMeaning(rest);
      if ParseList(parts).Some? {
        var e, more := ParseUuidSet(first).value, ParseList(rest).value;
        forall u: Uuid, x
          ensures Lists([e] + more, u, x) <==> exists k :: 0 <= k < |parts| && PartSays(parts[k], u, x)
        {
          HeadLists(e, more, u, x);
          HeadPart(parts, u, x);
        }
      }
    }
  }

  lemma HeadLists(e: UuidSet, more: seq<UuidSet>, u: Uuid, x: int)
    ensures Lists([e] + more, u, x) <==> (e.sid == u && Covers(e.intervals, x)) || Lists(more, u, x)
  {
    hide Covers;
    assert e in [e] + more;
  }

  lemma HeadPart(parts: seq<string>, u: Uuid, x: int)
    requires parts != []
    ensures (exists k :: 0 <= k < |parts| && PartSays(parts[k], u, x)) <==>
            PartSays(parts[0], u, x) || exists k :: 0 <= k < |parts[1..]| && PartSays(parts[1..][k], u, x)
  {
    hide PartSays;
    if k :| 0 <= k < |parts[1..]| && PartSays(parts[1..][k], u, x) {
      assert PartSays(parts[k + 1], u, x);
    }
    if k :| 0 <= k < |parts| && PartSays(parts[k], u, x) && k > 0 {
      assert parts[1..][k - 1] == parts[k];
    }
  }

  // A GTID set in text: nothing, or parts separated by commas.
  ghost predicate IsSetText(str: string)
  {
    str == "" || forall k :: 0 <= k < |Split(str, ',')| ==> IsPart(Split(str, ',')[k])
  }

  // Some part has the UUID u and an interval whose closed bounds contain x.
  ghost predicate Says(str: string, u: Uuid, x: int)
  {
    str != "" && exists k :: 0 <= k < |Split(str, ',')| && PartSays(Split(str, ',')[k], u, x)
  }

  // A text parses exactly when all of its parts do, to exactly the transactions its
  // parts say, repeated UUIDs included.
  lemma ParseMeaning(str: string)
    ensures ParseGtids(str).Some? <==> IsSetText(str)
    ensures ParseGtids(str).Some? ==> forall u, x :: HasId(ParseGtids(str).value, u, x) <==> Says(str, u, x)
  {
    hide IsPart, PartSays, Split, ParseList, AddList, Covers, Lists;
    if str != "" {
      ParseListMeaning(Split(str, ','));
      var l := ParseList(Split(str, ','));
      if l.Some? { AddListMeaning(l.value, map[]); }
    }
  }

  lemma ParsedIsUsable(str: string)
    ensures var r := ParseUuidSet(str); r.Some? ==> Normal(r.value.intervals) && r.value.intervals != []
  {
    if ParseUuidSet(str).Some? {
      var s := ParseIntervals(Split(TrimSpace(str), ':')[1..]).value;
      NormalizeMeaning(s);
      assert s[0] in s && Holds(s[0], s[0].start);
      assert Covers(Normalize(s), s[0].start);
    }
  }

  lemma {:induction false} ParseListUsable(parts: seq<string>)
    ensures var r := ParseList(parts);
            r.Some? ==> forall e :: e in r.value ==> Normal(e.intervals) && e.intervals != []
    decreases |parts|
  {
    if parts != [] {
      ParsedIsUsable(parts[0]);
      ParseListUsable(parts[1..]);
    }
  }

  // Whatever parses is normalised and lists no UUID without ids.
  lemma ParsedIsProper(str: string)
    ensures ParseGtids(str).Some? ==> Proper(ParseGtids(str).value)
  {
    var l := ParseList(Split(str, ','));
    ParseListUsable(Split(str, ','));
    if l.Some? { AddListProper(l.value, map[]); }
  }

  // The text of every set of m.
  function Texts(m: Sets): (t: map<Uuid, string>)
  {
    map u | u in m :: FormatUuidSet(u, m[u])
  }

  function Pick<K(==), V>(t: map<K, V>, order: seq<K>): (r: seq<V>)
    requires forall u :: u in order ==> u in t
    ensures |r| == |order| && forall i :: 0 <= i < |r| ==> r[i] == t[order[i]]
  {
    seq(|order|, i requires 0 <= i < |order| => t[order[i]])
  }

  lemma {:induction false} ParseListIs(ts: seq<string>, l: seq<UuidSet>)
    requires |ts| == |l| && forall i :: 0 <= i < |ts| ==> ParseUuidSet(ts[i]) == Some(l[i])
    ensures ParseList(ts) == Some(l)
    decreases |ts|
  {
    hide ParseUuidSet;
    if ts != [] {
      ParseListIs(ts[1..], l[1..]);
      assert l == [l[0]] + l[1..];
    }
  }

  lemma {:induction false} ParseListFails(ts: seq<string>, i: nat)
    requires i < |ts| && ParseUuidSet(ts[i]) == None
    ensures ParseList(ts) == None
    decreases i
  {
    hide ParseUuidSet;
    if i > 0 { ParseListFails(ts[1..], i - 1); }
  }

  lemma TextsParse(m: Sets, order: seq<Uuid>)
    requires WellFormed(m) && forall u :: u in order ==> u in m
    ensures ParseList(Pick(Texts(m), order))
         == if forall u :: u in order ==> Printable(m[u]) then Some(ListOf(m, order)) else None
  {
    if forall u :: u in order ==> Printable(m[u]) {
      forall i | 0 <= i < |order|
        ensures ParseUuidSet(Pick(Texts(m), order)[i]) == Some(ListOf(m, order)[i])
      {
        UuidSetRoundTrip(order[i], m[order[i]]);
      }
      ParseListIs(Pick(Texts(m), order), ListOf(m, order));
    } else {
      var i :| 0 <= i < |order| && !Printable(m[order[i]]);
      UuidSetRoundTrip(order[i], m[order[i]]);
      ParseListFails(Pick(Texts(m), order), i);
    }
  }

  lemma TextsClean(m: Sets)
    requires WellFormed(m)
    ensures forall u :: u in m ==> ',' !in Texts(m)[u] && Texts(m)[u] != ""
  {
    forall u | u in m
      ensures ',' !in Texts(m)[u] && Texts(m)[u] != ""
    {
      UuidSetRoundTrip(u, m[u]);
    }
  }

  lemma JoinedTexts(texts: seq<string>)
    requires texts != [] && forall t :: t in texts ==> ',' !in t && t != ""
    ensures Join(texts, ',') != "" && Split(Join(texts, ','), ',') == texts
  {
    SplitJoin(texts, ',');
    assert texts[0] in texts;
  }

  // The texts of a normalised set, in any order, parse back to it if every UUID has
  // an interval and no interval starts below zero; otherwise parsing fails.
  lemma TextRoundTrip(m: Sets, order: seq<Uuid>)
    requires WellFormed(m) && Visits(order, m)
    ensures ParseGtids(Join(Pick(Texts(m), order), ','))
         == if forall u :: u in m ==> Printable(m[u]) then Some(m) else None
  {
    hide ParseUuidSet, FormatUuidSet, ParseList, AddList, ListOf, Split, Printable, WellFormed, NoRepeats;
    TextsParse(m, order);
    AddVisited(m, order);
    assert (forall u :: u in order ==> Printable(m[u])) <==> (forall u :: u in m ==> Printable(m[u]));
    if order == [] {
      assert m == map[];
    } else {
      TextsClean(m);
      JoinedTexts(Pick(Texts(m), order));
    }
  }

  // ---- the order in which String lists the sets ----

  // sort.Strings' order
  predicate Before(a: string, b: string)
  {
    b != "" && (a == "" || a[0] < b[0] || (a[0] == b[0] && Before(a[1..], b[1..])))
  }

  predicate Ascending(s: seq<string>) { forall i, j :: 0 <= i < j < |s| ==> Before(s[i], s[j]) }

  lemma {:induction false} BeforeIsStrict(a: string, b: string)
    ensures !(Before(a, b) && Before(b, a))
    ensures a == b || Before(a, b) || Before(b, a)
    ensures a == b ==> !Before(a, b)
    decreases |a|
  {
    if a != "" && b != "" && a[0] == b[0] {
      BeforeIsStrict(a[1..], b[1..]);
      assert a == [a[0]] + a[1..] && b == [b[0]] + b[1..];
    }
  }

  lemma {:induction false} BeforeIsTransitive(a: string, b: string, c: string)
    requires Before(a, b) && Before(b, c)
    ensures Before(a, c)
    decreases |a|
  {
    if a != "" && a[0] == b[0] && b[0] == c[0] {
      BeforeIsTransitive(a[1..], b[1..], c[1..]);
    }
  }

  // An ascending list is determined by its elements, so String does not depend on the
  // iteration order of the map.
  lemma {:induction false} AscendingIsUnique(a: seq<string>, b: seq<string>)
    requires Ascending(a) && Ascending(b) && forall t :: t in a <==> t in b
    ensures a == b
    decreases |a|
  {
    assert a != [] ==> a[0] in b;
    assert b != [] ==> b[0] in a;
    if a != [] {
      FirstIsLeast(a, b);
      FirstIsLeast(b, a);
      BeforeIsStrict(a[0], b[0]);
      TailElements(a);
      TailElements(b);
      AscendingIsUnique(a[1..], b[1..]);
      assert a == [a[0]] + a[1..] && b == [b[0]] + b[1..];
    }
  }

  lemma FirstIsLeast(a: seq<string>, b: seq<string>)
    requires Ascending(a) && a != [] && b != [] && b[0] in a
    ensures !Before(b[0], a[0])
  {
    var k :| 0 <= k < |a| && a[k] == b[0];
    BeforeIsStrict(a[0], b[0]);
  }

  lemma TailElements(a: seq<string>)
    requires Ascending(a) && a != []
    ensures Ascending(a[1..]) && forall t :: t in a[1..] <==> t in a && t != a[0]
  {
    forall t
      ensures t in a[1..] <==> t in a && t != a[0]
    {
      assert a == [a[0]] + a[1..];
      if t in a[1..] {
        var k :| 0 <= k < |a[1..]| && a[1..][k] == t;
        assert a[k + 1] == t;
        BeforeIsStrict(a[0], t);
      }
    }
  }

  // An interval prints as its one id, or as its first and last id around a dash.
  lemma FormatMeaning(i: Interval)
    requires i.start < i.stop
    ensures FormatInterval(i) ==
            if i.stop - i.start == 1 then FormatInt(i.start) else FormatInt(i.start) + "-" + FormatInt(i.stop - 1)
  {
  }
}
