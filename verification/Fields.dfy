// Column definitions and their packets.
module Fields {
  import opened Bytes
  import opened LenEnc
  import opened Options

  datatype Field = Field(
    schema: seq<byte>, table: seq<byte>, orgTable: seq<byte>, name: seq<byte>, orgName: seq<byte>,
    charset: nat, columnLength: nat, typ: byte, flag: nat, decimal: byte,
    defaultValueLength: nat, defaultValue: Option<seq<byte>>)

  // Every value the Go struct can hold.
  predicate Fits(f: Field)
  {
    && FitsSlice(f.schema) && FitsSlice(f.table) && FitsSlice(f.orgTable)
    && FitsSlice(f.name) && FitsSlice(f.orgName)
    && f.charset < 0x1_0000 && f.columnLength < 0x1_0000_0000 && f.flag < 0x1_0000
    && f.defaultValueLength < TWO_64
  }

  // ---- Dump ----

  const DEF: seq<byte> := ['d' as int, 'e' as int, 'f' as int]

  function PutStrings(strings: seq<seq<byte>>): (b: seq<byte>)
    requires forall s :: s in strings ==> FitsSlice(s)
  {
    if strings == [] then [] else PutLengthEncodedString(strings[0]) + PutStrings(strings[1..])
  }

  function Strings(f: Field): (s: seq<seq<byte>>)
  {
    [f.schema, f.table, f.orgTable, f.name, f.orgName]
  }

  function Numbers(f: Field): (b: seq<byte>)
    ensures |b| == 13
  {
    [0x0c] + LE(f.charset, 2) + LE(f.columnLength, 4) + [f.typ] + LE(f.flag, 2) + [f.decimal] + [0, 0]
  }

  // The length of the default value is written as eight bytes.
  function Default(f: Field): (b: seq<byte>)
  {
    if f.defaultValue.Some? then LE(f.defaultValueLength, 8) + f.defaultValue.value else []
  }

  function Dump(f: Field): (b: seq<byte>)
    requires Fits(f)
  {
    PutLengthEncodedString(DEF) + (PutStrings(Strings(f)) + (Numbers(f) + Default(f)))
  }

  // ---- Parse ----

  datatype Parsed = Parsed(f: Field) | ParseEof | ParseMalformed | ParsePanic

  datatype StringsRead = StringsRead(v: seq<seq<byte>>, rest: seq<byte>) | StringsEof | StringsPanic

  function ReadStrings(p: seq<byte>, k: nat): (r: StringsRead)
    ensures r.StringsRead? ==> |r.v| == k && |r.rest| <= |p|
    decreases k, |p|
  {
    if k == 0 then StringsRead([], p)
    else
      match LengthEncodedString(p)
      case Eof => StringsEof
      case StringPanic => StringsPanic
      case LenString(v, _, n) =>
        (match ReadStrings(p[n..], k - 1)
         case StringsRead(vs, rest) => StringsRead([v] + vs, rest)
         case failed => failed)
  }

  // The default value at position at of a packet, of which d is left. Its length is
  // read as a length-encoded integer.
  function ParseDefault(f: Field, d: seq<byte>, at: nat): (r: Parsed)
  {
    match LengthEncodedInt(d)
    case IntPanic => ParsePanic
    case LenInt(num, _, n) =>
      var end := Wrap64(at + n + Signed(num, TWO_63)) - at;
      if end > |d| then ParseMalformed
      else if end < n then ParsePanic
      else Parsed(f.(defaultValueLength := num, defaultValue := Some(d[n..end])))
  }

  function ParseNumbers(f: Field, b: seq<byte>, at: nat): (r: Parsed)
  {
    if |b| < 11 then ParsePanic
    else
      var g := f.(charset := FromLE(b[1..3]), columnLength := FromLE(b[3..7]), typ := b[7],
                  flag := FromLE(b[8..10]), decimal := b[10], defaultValue := None);
      if |b| > 13 then ParseDefault(g, b[13..], at + 13) else Parsed(g)
  }

  // Parse on a field that held f0; without a default value its old length stays.
  function Parse(f0: Field, p: seq<byte>): (r: Parsed)
  {
    match SkipLengthEncodedString(p)
    case SkipEof => ParseEof
    case SkipPanic => ParsePanic
    case Skipped(n) =>
      match ReadStrings(p[n..], 5)
      case StringsEof => ParseEof
      case StringsPanic => ParsePanic
      case StringsRead(v, b) =>
        ParseNumbers(f0.(schema := v[0], table := v[1], orgTable := v[2], name := v[3], orgName := v[4]),
                     b, |p| - |b|)
  }

  // ---- round trip ----

  lemma {:induction false} StringsRoundTrip(strings: seq<seq<byte>>, rest: seq<byte>)
    requires forall s :: s in strings ==> FitsSlice(s)
    ensures ReadStrings(PutStrings(strings) + rest, |strings|) == StringsRead(strings, rest)
    decreases |strings|
  {
    hide LengthEncodedString, PutLengthEncodedString, FitsSlice;
    var all := PutStrings(strings) + rest;
    if strings == [] {
      assert all == rest;
    } else {
      var first, more := PutLengthEncodedString(strings[0]), PutStrings(strings[1..]) + rest;
      assert all == first + more;
      StringRoundTrip(strings[0], more);
      assert all[|first|..] == more;
      StringsRoundTrip(strings[1..], rest);
      assert [strings[0]] + strings[1..] == strings;
    }
  }

  lemma NumbersRoundTrip(f: Field, g: Field, rest: seq<byte>, at: nat)
    requires Fits(f) && Strings(f) == Strings(g)
    ensures var h := f.(defaultValueLength := g.defaultValueLength, defaultValue := None);
            ParseNumbers(g, Numbers(f) + rest, at) ==
            if rest == [] then Parsed(h) else ParseDefault(h, rest, at + 13)
  {
    Capacities();
    ReadWritten(f.charset, 2);
    ReadWritten(f.columnLength, 4);
    ReadWritten(f.flag, 2);
    var b := Numbers(f) + rest;
    assert b[1..3] == LE(f.charset, 2);
    assert b[3..7] == LE(f.columnLength, 4);
    assert b[8..10] == LE(f.flag, 2);
    assert b[7] == f.typ && b[10] == f.decimal;
    assert b[13..] == rest;
    assert Strings(f) == [g.schema, g.table, g.orgTable, g.name, g.orgName];
    assert g.schema == Strings(f)[0] && g.table == Strings(f)[1] && g.orgTable == Strings(f)[2]
        && g.name == Strings(f)[3] && g.orgName == Strings(f)[4];
  }

  // Where the parser stands behind the fixed part.
  lemma DumpParts(f0: Field, f: Field)
    requires Fits(f)
    ensures |Default(f)| + 13 <= |Dump(f)|
    ensures var h := f.(defaultValueLength := f0.defaultValueLength, defaultValue := None);
            Parse(f0, Dump(f)) ==
            if Default(f) == [] then Parsed(h) else ParseDefault(h, Default(f), |Dump(f)| - |Default(f)|)
  {
    hide ParseNumbers, ParseDefault, Default, Numbers, PutLengthEncodedString, LengthEncodedString,
         SkipLengthEncodedString, ReadStrings, PutStrings;
    var first, tail := PutLengthEncodedString(DEF), Numbers(f) + Default(f);
    var p := Dump(f);
    assert FitsSlice(DEF);
    StringRoundTrip(DEF, PutStrings(Strings(f)) + tail);
    assert p[|first|..] == PutStrings(Strings(f)) + tail;
    StringsRoundTrip(Strings(f), tail);
    var v := Strings(f);
    var g := f0.(schema := v[0], table := v[1], orgTable := v[2], name := v[3], orgName := v[4]);
    NumbersRoundTrip(f, g, Default(f), |p| - |tail|);
  }

  // A field without a default value reads back.
  lemma FieldRoundTrip(f0: Field, f: Field)
    requires Fits(f) && f.defaultValue == None
    ensures Parse(f0, Dump(f)) == Parsed(f.(defaultValueLength := f0.defaultValueLength))
  {
    DumpParts(f0, f);
  }

  // ---- default values ----

  // A default value survives exactly when it is a run of zero bytes as long as its
  // declared length, in a length that one byte can announce.
  predicate ZeroDefault(length: nat, value: seq<byte>)
  {
    && |value| == length && (length <= 250 || length == 255)
    && (forall i :: 0 <= i < |value| ==> value[i] == 0)
  }

  lemma {:induction false} ZeroBytes(w: nat, i: nat)
    requires i < w
    ensures LE(0, w)[i] == 0
    decreases w
  {
    if i > 0 { ZeroBytes(w - 1, i - 1); }
  }

  lemma Distribute(x: nat, c: nat, m: nat)
    ensures 256 * (x + c * m) == 256 * x + (256 * c) * m
  {
  }

  lemma {:induction false} FromLEConcat(a: seq<byte>, b: seq<byte>)
    ensures FromLE(a + b) == FromLE(a) + Capacity(|a|) * FromLE(b)
    decreases |a|
  {
    if a == [] {
      assert a + b == b;
    } else {
      var tail := a[1..];
      assert (a + b)[1..] == tail + b;
      calc {
        FromLE(a + b);
        a[0] + 256 * FromLE(tail + b);
        { FromLEConcat(tail, b); }
        a[0] + 256 * (FromLE(tail) + Capacity(|tail|) * FromLE(b));
        { Distribute(FromLE(tail), Capacity(|tail|), FromLE(b)); }
        (a[0] + 256 * FromLE(tail)) + (256 * Capacity(|tail|)) * FromLE(b);
      }
    }
  }

  // The low bytes of a number are no larger than the number.
  lemma LowBytes(n: nat, w: nat, k: nat)
    requires n < Capacity(w) && k <= w
    ensures FromLE(LE(n, w)[..k]) <= n
  {
    hide LE, FromLE, Capacity;
    var b := LE(n, w);
    ReadWritten(n, w);
    assert b == b[..k] + b[k..];
    FromLEConcat(b[..k], b[k..]);
    var c: nat, m: nat := Capacity(|b[..k]|), FromLE(b[k..]);
    assert c * m >= 0;
  }

  // A value that equals itself shifted by seven zero bytes is all zeros.
  lemma {:induction false} ShiftedIsZero(value: seq<byte>, i: nat)
    requires value == (LE(0, 7) + value)[..|value|] && i < |value|
    ensures value[i] == 0
    decreases i
  {
    assert value[i] == (LE(0, 7) + value)[i];
    if i < 7 {
      ZeroBytes(7, i);
    } else {
      ShiftedIsZero(value, i - 7);
    }
  }

  // Eight bytes with the EOF marker in front that announce their own number announce
  // a negative Go int.
  lemma EightByteLength(length: nat, v0: byte)
    requires length % 256 == 0xfe && length < TWO_64
    requires length / 256 + 0x100_0000_0000_0000 * v0 == length
    ensures length >= TWO_63
  {
    var q := length / 256;
    var m := q + 1 - 0x1_0101_0101_0101 * v0;
    assert 255 * m == v0 + 1;
    assert v0 == 254;
  }

  // The announced length is not the declared one, or cannot be sliced, when it does
  // not fit one byte.
  lemma LongLengthFails(h: Field, length: nat, value: seq<byte>, at: nat)
    requires 0xfb <= length % 256 <= 0xfe && length < TWO_64 && at + 8 + |value| < TWO_63
    ensures var r := ParseDefault(h, LE(length, 8) + value, at);
            r.Parsed? ==> r.f.defaultValueLength != length
  {
    Capacities();
    var d, q := LE(length, 8) + value, length / 256;
    assert LE(length, 8) == [length % 256] + LE(q, 7);
    assert d[0] == length % 256;
    assert Capacity(8) == 256 * Capacity(7);
    if d[0] == 0xfc {
      assert d[1..3] == LE(q, 7)[..2];
      LowBytes(q, 7, 2);
    } else if d[0] == 0xfd {
      assert d[1..4] == LE(q, 7)[..3];
      LowBytes(q, 7, 3);
    } else if d[0] == 0xfe && |d| >= 9 {
      assert d[1..9] == LE(q, 7) + [value[0]];
      FromLEConcat(LE(q, 7), [value[0]]);
      ReadWritten(q, 7);
      var num := FromLE(d[1..9]);
      assert FromLE([value[0]]) == value[0];
      assert num == q + 0x100_0000_0000_0000 * value[0];
      if num == length {
        EightByteLength(length, value[0]);
      }
    }
  }

  lemma OneByteHead(length: nat, value: seq<byte>)
    requires length < 256 && (length <= 250 || length == 255)
    ensures var d := LE(length, 8) + value;
            LengthEncodedInt(d) == LenInt(length, false, 1) && d[1..] == LE(0, 7) + value
  {
    var d := LE(length, 8) + value;
    assert LE(length, 8) == [length % 256] + LE(length / 256, 7);
    assert length / 256 == 0;
    hide LE;
    assert d[0] == length;
  }

  // What the parser slices out when one byte announces the length.
  lemma OneByteLength(h: Field, length: nat, value: seq<byte>, at: nat)
    requires length < 256 && (length <= 250 || length == 255) && at + 8 + |value| < TWO_63
    ensures var r := ParseDefault(h, LE(length, 8) + value, at);
            if length > 7 + |value| then !r.Parsed?
            else r == Parsed(h.(defaultValueLength := length, defaultValue := Some((LE(0, 7) + value)[..length])))
  {
    hide LE, LengthEncodedInt, Wrap64;
    var d := LE(length, 8) + value;
    OneByteHead(length, value);
    if length <= 7 + |value| {
      assert d[1..length + 1] == d[1..][..length];
    }
  }

  lemma SliceIsValueIff(length: nat, value: seq<byte>)
    requires length <= 7 + |value| && (length <= 250 || length == 255)
    ensures (LE(0, 7) + value)[..length] == value <==> ZeroDefault(length, value)
  {
    var slice := (LE(0, 7) + value)[..length];
    if slice == value {
      forall i | 0 <= i < |value| ensures value[i] == 0 { ShiftedIsZero(value, i); }
    }
    if ZeroDefault(length, value) {
      forall i | 0 <= i < 7 ensures LE(0, 7)[i] == 0 { ZeroBytes(7, i); }
      assert slice == value;
    }
  }

  // A number above one byte announces something smaller.
  lemma ShortLength(h: Field, length: nat, value: seq<byte>, at: nat)
    requires (length % 256 <= 250 || length % 256 == 255) && length < TWO_64 && at + 8 + |value| < TWO_63
    ensures var r := ParseDefault(h, LE(length, 8) + value, at);
            r == Parsed(h.(defaultValueLength := length, defaultValue := Some(value)))
            <==> ZeroDefault(length, value)
  {
    if length < 256 {
      hide ParseDefault, LE;
      OneByteLength(h, length, value, at);
      if length <= 7 + |value| {
        SliceIsValueIff(length, value);
      }
    } else {
      var d := LE(length, 8) + value;
      assert d[0] == length % 256;
      assert LengthEncodedInt(d).num < length;
    }
  }

  // A field with a default value reads back if and only if the value is such a run of zeros.
  lemma DefaultRoundTripIff(f0: Field, f: Field)
    requires Fits(f) && f.defaultValue.Some? && |Dump(f)| < TWO_63
    ensures Parse(f0, Dump(f)) == Parsed(f) <==> ZeroDefault(f.defaultValueLength, f.defaultValue.value)
  {
    hide Parse, Dump, ParseDefault;
    DumpParts(f0, f);
    var h := f.(defaultValueLength := f0.defaultValueLength, defaultValue := None);
    var length, value, at := f.defaultValueLength, f.defaultValue.value, |Dump(f)| - |Default(f)|;
    assert f == h.(defaultValueLength := length, defaultValue := Some(value));
    if 0xfb <= length % 256 <= 0xfe {
      LongLengthFails(h, length, value, at);
    } else {
      ShortLength(h, length, value, at);
    }
  }

  // ---- where the packet has things ----

  lemma NumbersLayout(f: Field)
    requires Fits(f)
    ensures var b := Numbers(f);
            && b[0] == 12 && FromLE(b[1..3]) == f.charset && FromLE(b[3..7]) == f.columnLength
            && b[7] == f.typ && FromLE(b[8..10]) == f.flag && b[10] == f.decimal && b[11] == b[12] == 0
  {
    Capacities();
    ReadWritten(f.charset, 2);
    ReadWritten(f.columnLength, 4);
    ReadWritten(f.flag, 2);
    var b := Numbers(f);
    assert b[1..3] == LE(f.charset, 2);
    assert b[3..7] == LE(f.columnLength, 4);
    assert b[8..10] == LE(f.flag, 2);
  }

  // A column definition: the catalogue "def", schema, table, original table, name and
  // original name, and then the numbers.
  lemma DumpLayout(f: Field)
    requires Fits(f) && f.defaultValue == None
    ensures Dump(f) == PutLengthEncodedString(DEF) + PutLengthEncodedString(f.schema)
                       + PutLengthEncodedString(f.table) + PutLengthEncodedString(f.orgTable)
                       + PutLengthEncodedString(f.name) + PutLengthEncodedString(f.orgName) + Numbers(f)
  {
    assert FitsSlice(DEF);
    hide PutLengthEncodedString, Numbers, FitsSlice;
    assert Strings(f) == [f.schema] + [f.table, f.orgTable, f.name, f.orgName];
    assert [f.table, f.orgTable, f.name, f.orgName] == [f.table] + [f.orgTable, f.name, f.orgName];
    assert [f.orgTable, f.name, f.orgName] == [f.orgTable] + [f.name, f.orgName];
    assert [f.name, f.orgName] == [f.name] + [f.orgName] && [f.orgName] == [f.orgName] + [];
    PutCons(f.schema, [f.table, f.orgTable, f.name, f.orgName]);
    PutCons(f.table, [f.orgTable, f.name, f.orgName]);
    PutCons(f.orgTable, [f.name, f.orgName]);
    PutCons(f.name, [f.orgName]);
    PutCons(f.orgName, []);
    assert PutStrings([]) == [];
    assert Numbers(f) + Default(f) == Numbers(f);
    hide PutStrings;
    Flatten(PutLengthEncodedString(DEF), PutLengthEncodedString(f.schema), PutLengthEncodedString(f.table),
            PutLengthEncodedString(f.orgTable), PutLengthEncodedString(f.name), PutLengthEncodedString(f.orgName),
            Numbers(f));
  }

  lemma PutCons(s: seq<byte>, more: seq<seq<byte>>)
    requires FitsSlice(s) && forall x :: x in more ==> FitsSlice(x)
    ensures PutStrings([s] + more) == PutLengthEncodedString(s) + PutStrings(more)
  {
    assert ([s] + more)[1..] == more;
  }

  lemma Flatten(a: seq<byte>, b: seq<byte>, c: seq<byte>, d: seq<byte>, e: seq<byte>, f: seq<byte>, g: seq<byte>)
    ensures a + ((b + (c + (d + (e + (f + []))))) + g) == a + b + c + d + e + f + g
  {
    var x := e + f;
    assert e + (f + []) == x;
    assert b + (c + (d + x)) == b + c + d + x;
  }

  // ---- truncated packets ----

  lemma {:induction false} CutStrings(strings: seq<seq<byte>>, n: nat)
    requires (forall s :: s in strings ==> FitsSlice(s)) && n < |PutStrings(strings)|
    ensures var r := ReadStrings(PutStrings(strings)[..n], |strings|); r.StringsRead? ==> r.rest == []
    decreases |strings|
  {
    hide PutLengthEncodedString, LengthEncodedString, FitsSlice;
    var first, more := PutLengthEncodedString(strings[0]), PutStrings(strings[1..]);
    var p := PutStrings(strings)[..n];
    assert PutStrings(strings) == first + more;
    if n == 0 {
      assert p == [];
      NothingToRead(|strings|);
    } else if n < |first| {
      assert p == first[..n];
      CutString(strings[0], n);
    } else {
      assert p == first + more[..n - |first|];
      StringRoundTrip(strings[0], more[..n - |first|]);
      assert p[|first|..] == more[..n - |first|];
      CutStrings(strings[1..], n - |first|);
    }
  }

  lemma {:induction false} NothingToRead(k: nat)
    ensures ReadStrings([], k).StringsRead? && ReadStrings([], k).rest == []
    decreases k
  {
    if k > 0 {
      NullForms([]);
      NothingToRead(k - 1);
    }
  }

  // A column definition that lost its last bytes parses only if no more than the two
  // filler bytes are gone.
  lemma TruncatedField(f0: Field, f: Field, n: nat)
    requires Fits(f) && f.defaultValue == None && n <= |Dump(f)|
    ensures Parse(f0, Dump(f)[..n]).Parsed? <==> n >= |Dump(f)| - 2
  {
    hide ParseNumbers, Numbers, PutLengthEncodedString, LengthEncodedString, SkipLengthEncodedString,
         ReadStrings, PutStrings;
    var first, body, numbers := PutLengthEncodedString(DEF), PutStrings(Strings(f)), Numbers(f);
    var p := Dump(f)[..n];
    assert FitsSlice(DEF);
    assert Dump(f) == first + (body + numbers) by { assert numbers + [] == numbers; }
    if n >= |first| + |body| {
      var k := n - |first| - |body|;
      var tail := numbers[..k];
      assert p == first + (body + tail);
      StringRoundTrip(DEF, body + tail);
      assert p[|first|..] == body + tail;
      StringsRoundTrip(Strings(f), tail);
      CutNumbers(f, f0, k, |p| - |tail|);
    } else if n >= |first| {
      var tail := body[..n - |first|];
      assert p == first + tail;
      StringRoundTrip(DEF, tail);
      assert p[|first|..] == tail;
      CutStrings(Strings(f), n - |first|);
      NoNumbers();
    } else {
      assert p == first[..n];
      assert n < 4 by { assert |first| == 4 by { CutCatalogue(f0, 0); } }
      CutCatalogue(f0, n);
    }
  }

  lemma NoNumbers()
    ensures forall g, at :: ParseNumbers(g, [], at) == ParsePanic
  {
  }

  lemma CutNumbers(f: Field, f0: Field, k: nat, at: nat)
    requires k <= 13
    ensures forall g :: ParseNumbers(g, Numbers(f)[..k], at).Parsed? <==> k >= 11
  {
  }

  // The catalogue is four bytes: its length and "def".
  lemma CutCatalogue(f0: Field, n: nat)
    requires n < 4
    ensures |PutLengthEncodedString(DEF)| == 4
    ensures !Parse(f0, PutLengthEncodedString(DEF)[..n]).Parsed?
  {
    var e := PutLengthEncodedString(DEF);
    assert e == [3] + DEF;
    hide PutLengthEncodedString;
    if n == 0 {
      var p := e[..n];
      assert p == [] && p[0..] == [];
      assert SkipLengthEncodedString(p) == Skipped(0);
      NothingToRead(5);
      NoNumbers();
    } else {
      var p := e[..n];
      assert LengthEncodedInt(p) == LenInt(3, false, 1);
    }
  }
}
