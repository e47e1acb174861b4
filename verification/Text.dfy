// The parts of Go's strings and strconv packages that GTID parsing rests on.
module Text {
  import opened Bytes
  import opened Options

  // ---- strings.Split and its inverse ----

  function Split(s: string, sep: char): (r: seq<string>)
    ensures |r| >= 1
  {
    if s == "" then [""]
    else
      var r := Split(s[1..], sep);
      if s[0] == sep then [""] + r else [[s[0]] + r[0]] + r[1..]
  }

  function Join(parts: seq<string>, sep: char): (s: string)
  {
    if parts == [] then ""
    else if |parts| == 1 then parts[0]
    else parts[0] + [sep] + Join(parts[1..], sep)
  }

  lemma {:induction false} SplitFirst(p: string, sep: char, rest: string)
    requires sep !in p
    ensures Split(p, sep) == [p]
    ensures Split(p + [sep] + rest, sep) == [p] + Split(rest, sep)
    decreases |p|
  {
    var s := p + [sep] + rest;
    if p == "" {
      assert s[1..] == rest;
    } else {
      SplitFirst(p[1..], sep, rest);
      assert s[1..] == p[1..] + [sep] + rest;
      assert p == [p[0]] + p[1..];
    }
  }

  lemma {:induction false} SplitJoin(parts: seq<string>, sep: char)
    requires parts != [] && forall p :: p in parts ==> sep !in p
    ensures Split(Join(parts, sep), sep) == parts
    decreases |parts|
  {
    assert parts[0] in parts;
    if |parts| == 1 {
      SplitFirst(parts[0], sep, "");
    } else {
      forall p | p in parts[1..] ensures p in parts {}
      SplitJoin(parts[1..], sep);
      SplitFirst(parts[0], sep, Join(parts[1..], sep));
    }
  }

  lemma {:induction false} JoinChars(parts: seq<string>, sep: char, c: char)
    requires c != sep && forall p :: p in parts ==> c !in p
    ensures c !in Join(parts, sep)
    decreases |parts|
  {
    if parts != [] {
      assert parts[0] in parts;
      forall p | p in parts[1..] ensures p in parts {}
      JoinChars(parts[1..], sep, c);
    }
  }

  // ---- strings.TrimSpace ----

  predicate IsSpace(c: char)
  {
    || '\t' <= c <= '\r' || c == ' ' || c == '\U{85}' || c == '\U{A0}' || c == '\U{1680}'
    || '\U{2000}' <= c <= '\U{200a}' || c == '\U{2028}' || c == '\U{2029}' || c == '\U{202f}'
    || c == '\U{205f}' || c == '\U{3000}'
  }

  function TrimSpace(s: string): (t: string)
    ensures s != "" && !IsSpace(s[0]) && !IsSpace(s[|s| - 1]) ==> t == s
    decreases |s|
  {
    if s == "" then s
    else if IsSpace(s[0]) then TrimSpace(s[1..])
    else if IsSpace(s[|s| - 1]) then TrimSpace(s[..|s| - 1])
    else s
  }

  // The white space of Unicode, by code point.
  lemma SpaceCodes(c: char)
    ensures IsSpace(c) <==>
            || c as int in {9, 10, 11, 12, 13, 32, 0x85, 0xA0, 0x1680, 0x2028, 0x2029, 0x202F, 0x205F, 0x3000}
            || 0x2000 <= c as int <= 0x200A
  {
  }

  predicate AllSpace(s: string) { forall c :: c in s ==> IsSpace(c) }

  // Nothing to trim.
  predicate Trimmed(s: string) { s == "" || (!IsSpace(s[0]) && !IsSpace(s[|s| - 1])) }

  lemma {:induction false} TrimFront(a: string, s: string)
    requires AllSpace(a)
    ensures TrimSpace(a + s) == TrimSpace(s)
    decreases |a|
  {
    if a == "" {
      assert a + s == s;
    } else {
      assert (a + s)[1..] == a[1..] + s && a[0] in a;
      TrimFront(a[1..], s);
    }
  }

  lemma {:induction false} TrimBack(t: string, b: string)
    requires AllSpace(b) && Trimmed(t)
    ensures TrimSpace(t + b) == t
    decreases |b|
  {
    if b == "" {
      assert t + b == t;
    } else if t == "" {
      TrimFront(b, "");
      assert b + "" == b && t + b == b;
    } else {
      var front := b[..|b| - 1];
      assert b[|b| - 1] in b && (t + b)[..|t + b| - 1] == t + front;
      TrimBack(t, front);
    }
  }

  // TrimSpace takes off all the space around a text and nothing else.
  lemma TrimMeaning(a: string, t: string, b: string)
    requires AllSpace(a) && AllSpace(b) && Trimmed(t)
    ensures TrimSpace(a + t + b) == t
  {
    hide TrimSpace, IsSpace, AllSpace, Trimmed;
    assert a + t + b == a + (t + b);
    TrimFront(a, t + b);
    TrimBack(t, b);
  }

  // ---- decimal numbers ----

  predicate IsDigit(c: char) { '0' <= c <= '9' }

  function Digit(d: nat): (c: char)
    requires d < 10
    ensures IsDigit(c) && c as int - '0' as int == d
  {
    ('0' as int + d) as char
  }

  function Decimal(n: nat): (s: string)
    ensures s != "" && forall c :: c in s ==> IsDigit(c)
    ensures |s| > 1 ==> s[0] != '0'
    ensures n > 0 ==> s[0] != '0'
  {
    if n < 10 then [Digit(n)] else Decimal(n / 10) + [Digit(n % 10)]
  }

  // fmt's %d
  function FormatInt(v: int): (s: string)
    ensures s != ""
  {
    if v >= 0 then Decimal(v) else "-" + Decimal(-v)
  }

  function Value(s: string): (n: nat)
    requires forall c :: c in s ==> IsDigit(c)
  {
    if s == "" then 0 else assert IsDigit(s[|s| - 1]); 10 * Value(s[..|s| - 1]) + (s[|s| - 1] as int - '0' as int)
  }

  lemma {:induction false} ValueOfDecimal(n: nat)
    ensures Value(Decimal(n)) == n
  {
    if n >= 10 {
      ValueOfDecimal(n / 10);
      var s := Decimal(n);
      assert s[..|s| - 1] == Decimal(n / 10) && s[|s| - 1] == Digit(n % 10);
    } else {
      assert Decimal(n)[..0] == "";
    }
  }

  // strconv.ParseInt(s, 10, 64); None is a syntax or range error.
  function ParseInt(s: string): (r: Option<int>)
    ensures r.Some? ==> -TWO_63 <= r.value < TWO_63
  {
    if s == "" then None
    else
      var signed := s[0] == '+' || s[0] == '-';
      var digits := if signed then s[1..] else s;
      if digits == "" || exists c :: c in digits && !IsDigit(c) then None
      else
        var n := Value(digits);
        if s[0] == '-' then (if n <= TWO_63 then Some(0 - n) else None)
        else if n < TWO_63 then Some(n) else None
  }

  // strconv.ParseUint(s, 10, 64)
  function ParseUint(s: string): (r: Option<nat>)
    ensures r.Some? ==> r.value < TWO_64
  {
    if s == "" || exists c :: c in s && !IsDigit(c) then None
    else if Value(s) < TWO_64 then Some(Value(s)) else None
  }

  // A printed number parses to itself exactly when it is in range.
  lemma ParseFormatted(v: int)
    ensures ParseInt(FormatInt(v)) == if -TWO_63 <= v < TWO_63 then Some(v) else None
    ensures ParseUint(FormatInt(v)) == if 0 <= v < TWO_64 then Some(v) else None
  {
    var digits := Decimal(if v >= 0 then v else -v);
    ValueOfDecimal(if v >= 0 then v else -v);
    if v >= 0 {
      assert digits[0] in digits;
    } else {
      assert FormatInt(v)[0] == '-' && FormatInt(v)[0] in FormatInt(v);
      assert FormatInt(v)[1..] == digits;
    }
  }

  // A plus sign is accepted and changes nothing.
  lemma PlusSign(n: nat)
    ensures ParseInt("+" + Decimal(n)) == ParseInt(Decimal(n))
  {
    assert ("+" + Decimal(n))[1..] == Decimal(n);
    assert Decimal(n)[0] in Decimal(n);
  }
}
