// What JSON does to the bytes of a Go string: every byte that does not belong to
// well-formed UTF-8 is replaced by U+FFFD. Strings are sequences of bytes here, each
// byte written as the character with its number.
module Utf8 {

  predicate Between(c: char, lo: int, hi: int) { lo <= c as int <= hi }

  predicate Tail(c: char) { Between(c, 0x80, 0xBF) }

  // The second byte of a three- or four-byte form with the given first byte.
  predicate Second(first: char, c: char)
  {
    match first as int
    case 0xE0 => Between(c, 0xA0, 0xBF)
    case 0xED => Between(c, 0x80, 0x9F)
    case 0xF0 => Between(c, 0x90, 0xBF)
    case 0xF4 => Between(c, 0x80, 0x8F)
    case _ => Tail(c)
  }

  // The number of bytes of the character at the front; 0 if there is none.
  function RuneLen(s: string): (n: nat)
    ensures n <= |s|
  {
    if s == "" then 0
    else if Between(s[0], 0, 0x7F) then 1
    else if Between(s[0], 0xC2, 0xDF) && |s| >= 2 && Tail(s[1]) then 2
    else if Between(s[0], 0xE0, 0xEF) && |s| >= 3 && Second(s[0], s[1]) && Tail(s[2]) then 3
    else if Between(s[0], 0xF0, 0xF4) && |s| >= 4 && Second(s[0], s[1]) && Tail(s[2]) && Tail(s[3]) then 4
    else 0
  }

  predicate Valid(s: string)
  {
    s == "" || (RuneLen(s) > 0 && Valid(s[RuneLen(s)..]))
  }

  const REPLACEMENT: string := "\U{EF}\U{BF}\U{BD}"

  function Sanitize(s: string): (r: string)
  {
    if s == "" then ""
    else if RuneLen(s) == 0 then REPLACEMENT + Sanitize(s[1..])
    else s[..RuneLen(s)] + Sanitize(s[RuneLen(s)..])
  }

  lemma {:induction false} SanitizeGrows(s: string)
    ensures |Sanitize(s)| >= |s|
    ensures |Sanitize(s)| == |s| ==> Valid(s)
    decreases |s|
  {
    hide RuneLen;
    if s != "" {
      SanitizeGrows(if RuneLen(s) == 0 then s[1..] else s[RuneLen(s)..]);
    }
  }

  // A string comes through unchanged exactly when it is well-formed UTF-8.
  lemma {:induction false} SanitizeIff(s: string)
    ensures Sanitize(s) == s <==> Valid(s)
    decreases |s|
  {
    hide RuneLen;
    SanitizeGrows(s);
    if s != "" && Valid(s) {
      SanitizeIff(s[RuneLen(s)..]);
      assert s == s[..RuneLen(s)] + s[RuneLen(s)..];
    }
  }

  lemma RuneLenIsLocal(s: string, rest: string)
    ensures var n := RuneLen(s); n > 0 ==> RuneLen(s[..n] + rest) == n
  {
  }

  // What arrives is well-formed, so it would come through again.
  lemma {:induction false} SanitizedIsValid(s: string)
    ensures Valid(Sanitize(s)) && Sanitize(Sanitize(s)) == Sanitize(s)
    decreases |s|
  {
    SanitizeIff(Sanitize(s));
    if s != "" {
      var n := RuneLen(s);
      var front, tail := if n == 0 then REPLACEMENT else s[..n], if n == 0 then s[1..] else s[n..];
      SanitizedIsValid(tail);
      assert RuneLen(REPLACEMENT) == 3 && REPLACEMENT[..3] == REPLACEMENT;
      RuneLenIsLocal(if n == 0 then REPLACEMENT else s, Sanitize(tail));
      assert Sanitize(s) == front + Sanitize(tail);
      assert Sanitize(s)[|front|..] == Sanitize(tail);
    }
  }

  // ---- code points ----

  // A Unicode scalar value: a code point that is no surrogate.
  predicate Scalar(c: nat) { c < 0xD800 || 0xE000 <= c < 0x11_0000 }

  function Byte(n: nat): (c: char)
    requires n < 256
  {
    n as char
  }

  // The bytes of a code point, six bits in each but the first.
  function Encode(c: nat): (s: string)
    requires Scalar(c)
  {
    if c < 0x80 then [Byte(c)]
    else if c < 0x800 then [Byte(0xC0 + c / 64), Byte(0x80 + c % 64)]
    else if c < 0x1_0000 then [Byte(0xE0 + c / 64 / 64), Byte(0x80 + c / 64 % 64), Byte(0x80 + c % 64)]
    else [Byte(0xF0 + c / 64 / 64 / 64), Byte(0x80 + c / 64 / 64 % 64), Byte(0x80 + c / 64 % 64), Byte(0x80 + c % 64)]
  }

  predicate AllScalar(cs: seq<nat>) { forall c :: c in cs ==> Scalar(c) }

  function EncodeAll(cs: seq<nat>): (s: string)
    requires AllScalar(cs)
  {
    if cs == [] then "" else Encode(cs[0]) + EncodeAll(cs[1..])
  }

  // The character at the front is taken off exactly.
  lemma RuneOfScalar(c: nat, rest: string)
    requires Scalar(c)
    ensures RuneLen(Encode(c) + rest) == |Encode(c)|
  {
  }

  lemma SixBits(q: nat, r: nat)
    requires r < 64
    ensures (q * 64 + r) / 64 == q && (q * 64 + r) % 64 == r
  {
  }

  lemma EncodeTwo(q: nat, r: nat)
    requires 2 <= q < 32 && r < 64
    ensures Encode(q * 64 + r) == [Byte(0xC0 + q), Byte(0x80 + r)]
  {
    SixBits(q, r);
  }

  lemma EncodeThree(p: nat, q: nat, r: nat)
    requires p < 16 && q < 64 && r < 64 && (p == 0 ==> q >= 32) && (p == 13 ==> q < 32)
    ensures Scalar((p * 64 + q) * 64 + r)
    ensures Encode((p * 64 + q) * 64 + r) == [Byte(0xE0 + p), Byte(0x80 + q), Byte(0x80 + r)]
  {
    SixBits(p * 64 + q, r);
    SixBits(p, q);
  }

  lemma EncodeFour(o: nat, p: nat, q: nat, r: nat)
    requires o <= 4 && p < 64 && q < 64 && r < 64 && (o == 0 ==> p >= 16) && (o == 4 ==> p < 16)
    ensures Scalar(((o * 64 + p) * 64 + q) * 64 + r)
    ensures Encode(((o * 64 + p) * 64 + q) * 64 + r) ==
            [Byte(0xF0 + o), Byte(0x80 + p), Byte(0x80 + q), Byte(0x80 + r)]
  {
    SixBits((o * 64 + p) * 64 + q, r);
    SixBits(o * 64 + p, q);
    SixBits(o, p);
  }

  lemma TwoOfRune(s: string) returns (c: nat)
    requires RuneLen(s) == 2
    ensures Scalar(c) && Encode(c) == s[..2]
  {
    var q, r := s[0] as int - 0xC0, s[1] as int - 0x80;
    hide Encode;
    c := q * 64 + r;
    EncodeTwo(q, r);
  }

  lemma ThreeOfRune(s: string) returns (c: nat)
    requires RuneLen(s) == 3
    ensures Scalar(c) && Encode(c) == s[..3]
  {
    var p, q, r := s[0] as int - 0xE0, s[1] as int - 0x80, s[2] as int - 0x80;
    hide Encode, Scalar;
    c := (p * 64 + q) * 64 + r;
    EncodeThree(p, q, r);
  }

  lemma FourOfRune(s: string) returns (c: nat)
    requires RuneLen(s) == 4
    ensures Scalar(c) && Encode(c) == s[..4]
  {
    var o, p, q, r := s[0] as int - 0xF0, s[1] as int - 0x80, s[2] as int - 0x80, s[3] as int - 0x80;
    hide Encode, Scalar;
    c := ((o * 64 + p) * 64 + q) * 64 + r;
    EncodeFour(o, p, q, r);
  }

  // Every character taken for well-formed encodes one scalar value.
  lemma ScalarOfRune(s: string) returns (c: nat)
    requires RuneLen(s) > 0
    ensures Scalar(c) && Encode(c) == s[..RuneLen(s)]
  {
    match RuneLen(s)
    case 1 =>
      c := s[0] as int;
      EncodeOne(c);
    case 2 => c := TwoOfRune(s);
    case 3 => c := ThreeOfRune(s);
    case _ => c := FourOfRune(s);
  }

  lemma EncodeOne(c: nat)
    requires c < 0x80
    ensures Encode(c) == [Byte(c)]
  {
  }

  // The well-formed strings are exactly the encodings of sequences of scalar values.
  lemma {:induction false} EncodedIsValid(cs: seq<nat>)
    requires AllScalar(cs)
    ensures Valid(EncodeAll(cs))
    decreases |cs|
  {
    if cs != [] {
      RuneOfScalar(cs[0], EncodeAll(cs[1..]));
      hide RuneLen, Encode;
      EncodedIsValid(cs[1..]);
      assert EncodeAll(cs)[|Encode(cs[0])|..] == EncodeAll(cs[1..]);
    }
  }

  lemma {:induction false} ValidIsEncoded(s: string) returns (cs: seq<nat>)
    requires Valid(s)
    ensures AllScalar(cs) && EncodeAll(cs) == s
    decreases |s|
  {
    if s == "" {
      cs := [];
    } else {
      hide RuneLen, Encode, Scalar, EncodeAll, AllScalar;
      var n := RuneLen(s);
      assert 0 < n <= |s| && Valid(s[n..]);
      hide Valid;
      var c := ScalarOfRune(s);
      var more := ValidIsEncoded(s[n..]);
      EncodeCons(c, more);
      Rejoined(s, n);
      cs := [c] + more;
    }
  }

  lemma Rejoined(s: string, n: nat)
    requires n <= |s|
    ensures s[..n] + s[n..] == s
  {
  }

  lemma EncodeCons(c: nat, more: seq<nat>)
    requires Scalar(c) && AllScalar(more)
    ensures AllScalar([c] + more) && EncodeAll([c] + more) == Encode(c) + EncodeAll(more)
  {
    hide Encode, Scalar;
    assert ([c] + more)[1..] == more;
  }

  lemma SanitizeCons(c: nat, rest: string)
    requires Scalar(c)
    ensures Sanitize(Encode(c) + rest) == Encode(c) + Sanitize(rest)
  {
    RuneOfScalar(c, rest);
    assert |Encode(c)| > 0;
    hide RuneLen, Encode;
    assert (Encode(c) + rest)[..|Encode(c)|] == Encode(c) && (Encode(c) + rest)[|Encode(c)|..] == rest;
  }

  // The first byte that begins no character is replaced by U+FFFD, what is in front of
  // it stays and what follows is treated alike.
  lemma {:induction false} Replaces(cs: seq<nat>, bad: string)
    requires AllScalar(cs) && bad != "" && RuneLen(bad) == 0
    ensures Sanitize(EncodeAll(cs) + bad) == EncodeAll(cs) + (Encode(0xFFFD) + Sanitize(bad[1..]))
    decreases |cs|
  {
    if cs == [] {
      assert EncodeAll(cs) == "";
      ReplacesFirst(bad);
      hide *;
      Assoc("", bad, "");
      Assoc("", Sanitize(bad), "");
    } else {
      var c, more, out := cs[0], EncodeAll(cs[1..]), Encode(0xFFFD) + Sanitize(bad[1..]);
      assert EncodeAll(cs) == Encode(c) + more;
      Replaces(cs[1..], bad);
      hide *;
      SanitizeCons(c, more + bad);
      Assoc(Encode(c), more, bad);
      Assoc(Encode(c), more, out);
    }
  }

  lemma ReplacesFirst(bad: string)
    requires bad != "" && RuneLen(bad) == 0
    ensures Sanitize(bad) == Encode(0xFFFD) + Sanitize(bad[1..])
  {
    assert Encode(0xFFFD) == REPLACEMENT;
    hide RuneLen, Encode;
  }

  lemma Assoc(a: string, b: string, c: string)
    ensures (a + b) + c == a + (b + c) && "" + b == b
  {
  }
}
