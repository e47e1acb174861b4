// UUIDs as 16 bytes and their text forms, as the vendored UUID library reads and writes them.
module Uuid {
  import opened Bytes
  import opened Text
  import opened Options

  type Uuid = u: seq<byte> | |u| == 16 witness seq(16, _ => 0)

  function HexDigit(d: nat): (c: char)
    requires d < 16
    ensures HexValue(c) == Some(d)
    ensures c != '-' && c != ':' && c != ',' && !IsSpace(c)
  {
    if d < 10 then ('0' as int + d) as char else ('a' as int + (d - 10)) as char
  }

  function HexValue(c: char): (r: Option<nat>)
    ensures r.Some? ==> r.value < 16
  {
    if '0' <= c <= '9' then Some(c as int - '0' as int)
    else if 'a' <= c <= 'f' then Some(c as int - 'a' as int + 10)
    else if 'A' <= c <= 'F' then Some(c as int - 'A' as int + 10)
    else None
  }

  function HexEncode(b: seq<byte>): (s: string)
    ensures |s| == 2 * |b|
  {
    if b == [] then "" else [HexDigit(b[0] / 16), HexDigit(b[0] % 16)] + HexEncode(b[1..])
  }

  // hex.Decode into a buffer of half the size of s.
  function HexDecode(s: string): (r: Option<seq<byte>>)
    requires |s| % 2 == 0
    ensures r.Some? ==> |r.value| == |s| / 2
  {
    if s == "" then Some([])
    else
      match (HexValue(s[0]), HexValue(s[1]), HexDecode(s[2..]))
      case (Some(hi), Some(lo), Some(rest)) => Some([16 * hi + lo] + rest)
      case _ => None
  }

  lemma {:induction false} HexRoundTrip(b: seq<byte>)
    ensures HexDecode(HexEncode(b)) == Some(b)
    decreases |b|
  {
    if b != [] {
      HexRoundTrip(b[1..]);
      var s := HexEncode(b);
      assert s[2..] == HexEncode(b[1..]);
      assert b == [b[0]] + b[1..];
    }
  }

  // UUID.String: xxxxxxxx-xxxx-xxxx-xxxx-xxxxxxxxxxxx
  function ToString(u: Uuid): (s: string)
    ensures |s| == 36
  {
    Dash(HexEncode(u[..4]), HexEncode(u[4..6]), HexEncode(u[6..8]), HexEncode(u[8..10]), HexEncode(u[10..]))
  }

  function Dash(a: string, b: string, c: string, d: string, e: string): (s: string)
  {
    a + "-" + b + "-" + c + "-" + d + "-" + e
  }

  // The hexadecimal digits of the canonical form without its dashes.
  function Undash(s: string): (t: string)
    requires |s| == 36
    ensures |t| == 32
  {
    s[..8] + s[9..13] + s[14..18] + s[19..23] + s[24..]
  }

  function FromPlain(s: string): (r: Option<Uuid>)
  {
    if |s| == 32 then HexDecode(s)
    else if |s| == 36 && s[8] == '-' && s[13] == '-' && s[18] == '-' && s[23] == '-' then HexDecode(Undash(s))
    else None
  }

  // uuid.FromString
  function FromString(s: string): (r: Option<Uuid>)
  {
    if |s| == 32 || |s| == 36 then FromPlain(s)
    else if |s| == 38 && s[0] == '{' && s[37] == '}' then FromPlain(s[1..37])
    else if (|s| == 41 || |s| == 45) && s[..9] == "urn:uuid:" then FromPlain(s[9..])
    else None
  }

  lemma {:induction false} HexConcat(a: seq<byte>, b: seq<byte>)
    ensures HexEncode(a + b) == HexEncode(a) + HexEncode(b)
    decreases |a|
  {
    if a == [] {
      assert a + b == b;
    } else {
      assert (a + b)[1..] == a[1..] + b;
      HexConcat(a[1..], b);
    }
  }

  lemma DashUndash(a: string, b: string, c: string, d: string, e: string)
    requires |a| == 8 && |b| == |c| == |d| == 4 && |e| == 12
    ensures var s := Dash(a, b, c, d, e);
            && |s| == 36 && s[8] == s[13] == s[18] == s[23] == '-' && Undash(s) == a + b + c + d + e
  {
    var s := Dash(a, b, c, d, e);
    assert s[..8] == a && s[9..13] == b && s[14..18] == c && s[19..23] == d && s[24..] == e;
  }

  lemma HexParts(u: Uuid)
    ensures HexEncode(u[..4]) + HexEncode(u[4..6]) + HexEncode(u[6..8]) + HexEncode(u[8..10]) + HexEncode(u[10..])
         == HexEncode(u)
  {
    hide HexEncode;
    HexConcat(u[..4], u[4..6]);
    HexConcat(u[..6], u[6..8]);
    HexConcat(u[..8], u[8..10]);
    HexConcat(u[..10], u[10..]);
    assert u[..4] + u[4..6] == u[..6] && u[..6] + u[6..8] == u[..8];
    assert u[..8] + u[8..10] == u[..10] && u[..10] + u[10..] == u;
  }

  // Every UUID is read back from its text.
  lemma UuidRoundTrip(u: Uuid)
    ensures FromString(ToString(u)) == Some(u)
  {
    HexParts(u);
    DashUndash(HexEncode(u[..4]), HexEncode(u[4..6]), HexEncode(u[6..8]), HexEncode(u[8..10]), HexEncode(u[10..]));
    HexRoundTrip(u);
  }

  // Free of the separators of the GTID formats.
  predicate Clean(s: string) { forall c :: c in s ==> c != ':' && c != ',' && !IsSpace(c) }

  lemma {:induction false} HexClean(b: seq<byte>)
    ensures Clean(HexEncode(b))
    decreases |b|
  {
    if b != [] { HexClean(b[1..]); }
  }

  lemma UuidClean(u: Uuid)
    ensures Clean(ToString(u))
  {
    HexClean(u[..4]);
    HexClean(u[4..6]);
    HexClean(u[6..8]);
    HexClean(u[8..10]);
    HexClean(u[10..]);
  }

  lemma ToStringInjective(u: Uuid, v: Uuid)
    requires ToString(u) == ToString(v)
    ensures u == v
  {
    UuidRoundTrip(u);
    UuidRoundTrip(v);
  }

  // A UUID prints as lower-case hexadecimal digits in groups of 8, 4, 4, 4 and 12.
  lemma UuidShape(u: Uuid, k: nat)
    requires k < 36
    ensures var c := ToString(u)[k];
            if k in {8, 13, 18, 23} then c == '-' else '0' <= c <= '9' || 'a' <= c <= 'f'
  {
    var a, b, c := HexEncode(u[..4]), HexEncode(u[4..6]), HexEncode(u[6..8]);
    var d, e := HexEncode(u[8..10]), HexEncode(u[10..]);
    HexDigits(u[..4]);
    HexDigits(u[4..6]);
    HexDigits(u[6..8]);
    HexDigits(u[8..10]);
    HexDigits(u[10..]);
    hide HexEncode;
    GroupAt(a, b, c, d, e, k);
  }

  predicate IsHexDigit(c: char) { '0' <= c <= '9' || 'a' <= c <= 'f' }

  lemma {:induction false} HexDigits(b: seq<byte>)
    ensures forall i :: 0 <= i < |HexEncode(b)| ==> IsHexDigit(HexEncode(b)[i])
    decreases |b|
  {
    if b != [] { HexDigits(b[1..]); }
  }

  lemma GroupAt(a: string, b: string, c: string, d: string, e: string, k: nat)
    requires |a| == 8 && |b| == |c| == |d| == 4 && |e| == 12 && k < 36
    requires forall s :: s in [a, b, c, d, e] ==> forall i :: 0 <= i < |s| ==> IsHexDigit(s[i])
    ensures |Dash(a, b, c, d, e)| == 36
    ensures var x := Dash(a, b, c, d, e)[k];
            if k in {8, 13, 18, 23} then x == '-' else IsHexDigit(x)
  {
    assert a in [a, b, c, d, e] && b in [a, b, c, d, e] && c in [a, b, c, d, e] && d in [a, b, c, d, e];
    assert e in [a, b, c, d, e];
    DashUndash(a, b, c, d, e);
  }

  // The other accepted spellings: without dashes, in braces, and as a URN.
  lemma OtherForms(u: Uuid)
    ensures FromString(HexEncode(u)) == Some(u)
    ensures FromString("{" + ToString(u) + "}") == Some(u)
    ensures FromString("urn:uuid:" + ToString(u)) == Some(u)
    ensures FromString("urn:uuid:" + HexEncode(u)) == Some(u)
  {
    UuidRoundTrip(u);
    HexRoundTrip(u);
    hide HexEncode, HexDecode, ToString, Undash;
    var braced, urn, plain := "{" + ToString(u) + "}", "urn:uuid:" + ToString(u), "urn:uuid:" + HexEncode(u);
    assert braced[1..37] == ToString(u);
    assert urn[..9] == "urn:uuid:" && urn[9..] == ToString(u);
    assert plain[..9] == "urn:uuid:" && plain[9..] == HexEncode(u);
  }

  // Upper-case digits are read like lower-case ones.
  lemma UpperHex(d: nat)
    requires 10 <= d < 16
    ensures HexValue(('A' as int + d - 10) as char) == HexValue(HexDigit(d)) == Some(d)
  {
  }
}
