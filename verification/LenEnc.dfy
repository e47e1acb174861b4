// The length-encoded integers and strings of the MySQL protocol.
module LenEnc {
  import opened Bytes

  // What a Go function that slices and indexes its input can do.
  // Panic stands for an index or slice bound out of range.
  datatype LenInt = LenInt(num: nat, isNull: bool, n: nat) | IntPanic

  datatype LenString = LenString(v: seq<byte>, isNull: bool, n: nat) | Eof | StringPanic

  function LengthEncodedInt(b: seq<byte>): (r: LenInt)
    ensures r.LenInt? ==> r.n <= |b| && r.num < TWO_64
  {
    Capacities();
    if |b| == 0 then LenInt(0, true, 0)
    else if b[0] == 0xfb then LenInt(0, true, 1)
    else if b[0] == 0xfc then ReadFixed(b, 2)
    else if b[0] == 0xfd then ReadFixed(b, 3)
    else if b[0] == 0xfe then ReadFixed(b, 8)
    else LenInt(b[0], false, 1)
  }

  function ReadFixed(b: seq<byte>, w: nat): (r: LenInt)
    requires |b| > 0
    ensures r.LenInt? ==> r.n <= |b| && r.num < Capacity(w)
  {
    if |b| < w + 1 then IntPanic
    else FromLEBound(b[1..w + 1]); LenInt(FromLE(b[1..w + 1]), false, w + 1)
  }

  function PutLengthEncodedInt(n: nat): (b: seq<byte>)
    requires n < TWO_64
    ensures 1 <= |b| <= 9
  {
    if n <= 250 then [n]
    else if n <= 0xffff then [0xfc] + LE(n, 2)
    else if n <= 0xff_ffff then [0xfd] + LE(n, 3)
    else [0xfe] + LE(n, 8)
  }

  // The length is a uint64 that Go converts to int before adding the prefix size,
  // so a huge length wraps to a negative slice bound.
  function LengthEncodedString(b: seq<byte>): (r: LenString)
    ensures r.LenString? ==> r.n <= |b| && |r.v| <= r.n
  {
    match LengthEncodedInt(b)
    case IntPanic => StringPanic
    case LenInt(num, isNull, n) =>
      if num < 1 then LenString([], isNull, n)
      else
        var end := Wrap64(n + Signed(num, TWO_63));
        if |b| < end then Eof
        else if end < n then StringPanic
        else LenString(b[n..end], false, end)
  }

  // SkipLengthEncodedString together with the slicing by its result, which panics on
  // a negative one. Unlike a read, it does not notice an end in front of the string.
  datatype Skip = Skipped(n: nat) | SkipEof | SkipPanic

  function SkipLengthEncodedString(b: seq<byte>): (r: Skip)
    ensures r.Skipped? ==> r.n <= |b|
  {
    match LengthEncodedInt(b)
    case IntPanic => SkipPanic
    case LenInt(num, _, n) =>
      if num < 1 then Skipped(n)
      else
        var end := Wrap64(n + Signed(num, TWO_63));
        if |b| < end then SkipEof else if end < 0 then SkipPanic else Skipped(end)
  }

  function PutLengthEncodedString(s: seq<byte>): (b: seq<byte>)
    requires FitsSlice(s)
    ensures |s| < |b| <= |s| + 9
  {
    PutLengthEncodedInt(|s|) + s
  }

  // A string and its length prefix together are still a Go slice, whose length is an int.
  predicate FitsSlice(s: seq<byte>)
  {
    |s| + 9 < TWO_63
  }

  lemma IntRoundTrip(n: nat, rest: seq<byte>)
    requires n < TWO_64
    ensures LengthEncodedInt(PutLengthEncodedInt(n) + rest)
         == LenInt(n, false, |PutLengthEncodedInt(n)|)
  {
    var e := PutLengthEncodedInt(n);
    Capacities();
    if n > 250 {
      var w := |e| - 1;
      assert (e + rest)[1..w + 1] == LE(n, w);
      ReadWritten(n, w);
    }
  }

  // Every string reads back with whatever follows it left alone.
  lemma StringRoundTrip(s: seq<byte>, rest: seq<byte>)
    requires FitsSlice(s)
    ensures LengthEncodedString(PutLengthEncodedString(s) + rest)
         == LenString(s, false, |PutLengthEncodedString(s)|)
    ensures SkipLengthEncodedString(PutLengthEncodedString(s) + rest) == Skipped(|PutLengthEncodedString(s)|)
  {
    var e := PutLengthEncodedInt(|s|);
    IntRoundTrip(|s|, s + rest);
    assert PutLengthEncodedString(s) + rest == e + (s + rest);
    assert (e + (s + rest))[|e|..|e| + |s|] == s;
  }

  // The first byte of an encoded string never collides with the NULL marker or
  // the error header, and collides with the EOF header only when at least
  // 2^24 bytes follow.
  lemma StringFirstByte(s: seq<byte>)
    requires FitsSlice(s)
    ensures var e := PutLengthEncodedString(s);
            e[0] != 0xfb && e[0] != 0xff && (e[0] == 0xfe ==> |e| > 0xff_ffff)
  {
    var e := PutLengthEncodedInt(|s|);
    assert PutLengthEncodedString(s)[0] == e[0];
  }

  // The forms of the protocol: one byte up to 250, then a marker and two, three or
  // eight bytes, lowest first, whichever is shortest.
  lemma IntForm(n: nat)
    requires n < TWO_64
    ensures var b := PutLengthEncodedInt(n);
            if n < 0xfb then b == [n]
            else
              && b[0] == (if n < 0x1_0000 then 0xfc else if n < 0x100_0000 then 0xfd else 0xfe)
              && |b| == (if n < 0x1_0000 then 3 else if n < 0x100_0000 then 4 else 9)
              && FromLE(b[1..]) == n
  {
    Capacities();
    var b := PutLengthEncodedInt(n);
    if n >= 0xfb {
      assert b[1..] == LE(n, |b| - 1);
      ReadWritten(n, |b| - 1);
    }
  }

  // The NULL marker, and the end of the input, read as NULL.
  lemma NullForms(rest: seq<byte>)
    ensures LengthEncodedString([0xfb] + rest) == LenString([], true, 1)
    ensures LengthEncodedString([]) == LenString([], true, 0)
  {
  }

  // A string behind any eight-byte length: it is read when it is there and missed when the
  // sum of prefix and length is an int. Else a read panics, and a skip panics or goes
  // back by the part of the length that wraps.
  lemma LongLength(num: nat, rest: seq<byte>)
    requires 1 <= num < TWO_64 && 9 + |rest| < TWO_63
    ensures var b := [0xfe] + LE(num, 8) + rest;
            && LengthEncodedString(b) == (if num <= |rest| then LenString(rest[..num], false, 9 + num)
                                          else if num + 9 < TWO_63 then Eof else StringPanic)
            && SkipLengthEncodedString(b) == (if num <= |rest| then Skipped(9 + num)
                                              else if num + 9 < TWO_63 then SkipEof
                                              else if num + 9 < TWO_64 then SkipPanic
                                              else Skipped(num + 9 - TWO_64))
  {
    var b := [0xfe] + LE(num, 8) + rest;
    Capacities();
    ReadWritten(num, 8);
    assert b[1..9] == LE(num, 8);
    hide LE, FromLE;
    assert LengthEncodedInt(b) == LenInt(num, false, 9);
    assert num <= |rest| ==> b[9..9 + num] == rest[..num];
  }

  // A string that is cut off after its first byte never reads: its length is not all
  // there, or its bytes are not.
  lemma CutString(s: seq<byte>, n: nat)
    requires FitsSlice(s) && 0 < n < |PutLengthEncodedString(s)|
    ensures !LengthEncodedString(PutLengthEncodedString(s)[..n]).LenString?
  {
    var e, p := PutLengthEncodedInt(|s|), PutLengthEncodedString(s)[..n];
    if n >= |e| {
      assert p == e + s[..n - |e|];
      IntRoundTrip(|s|, s[..n - |e|]);
    } else {
      assert p[0] == e[0];
    }
  }
}
