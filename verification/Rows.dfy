// Text rows: building them from values with their column types, and parsing them.
module Rows {
  import opened Bytes
  import opened LenEnc
  import opened Options
  import opened Fields
  import opened MysqlTypes
  import Text

  // NilBytes is a nil byte slice. NilString is an empty string with a nil data pointer,
  // as a literal or a boxed one has; an empty string with storage is Str([]). A float is
  // given by the text that AppendFloat prints for it. Unsupported is any other Go type.
  datatype Value =
    | Null | NilBytes | NilString
    | Int(i: int) | Uint(u: nat) | Float(text: seq<byte>) | Str(s: seq<byte>)
    | Unsupported

  predicate InRange(v: Value)
  {
    match v
    case Int(i) => -TWO_63 <= i < TWO_63
    case Uint(u) => u < TWO_64
    case Float(text) => FitsSlice(text)
    case Str(s) => FitsSlice(s)
    case _ => true
  }

  const NOT_NULL_FLAG := 1
  const UNSIGNED_FLAG := 32
  const BINARY_FLAG := 128

  function Code(c: char): (b: byte)
    requires c < '\U{80}'
  {
    c as int
  }

  function Ascii(s: string): (b: seq<byte>)
    requires forall i :: 0 <= i < |s| ==> s[i] < '\U{80}'
    ensures |b| == |s|
  {
    seq(|s|, i requires 0 <= i < |s| => Code(s[i]))
  }

  function Chars(b: seq<byte>): (s: string)
    ensures |s| == |b|
  {
    seq(|b|, i requires 0 <= i < |b| => b[i] as char)
  }

  function Digits(v: int): (b: seq<byte>)
    ensures Chars(b) == Text.FormatInt(v)
  {
    var s := Text.FormatInt(v);
    assert forall i :: 0 <= i < |s| ==> s[i] in s;
    assert Chars(Ascii(s)) == s;
    Ascii(s)
  }

  // formatTextValue: None is a nil slice.
  function FormatTextValue(v: Value): (r: Option<seq<byte>>)
  {
    match v
    case Int(i) => Some(Digits(i))
    case Uint(u) => Some(Digits(u))
    case Float(text) => Some(text)
    case Str(s) => Some(s)
    case _ => None
  }

  lemma {:induction false} DecimalLength(n: nat)
    ensures |Text.Decimal(n)| <= n / 10 + 1
  {
    if n >= 10 {
      DecimalLength(n / 10);
    }
  }

  lemma FormattedFits(v: Value)
    requires InRange(v)
    ensures var t := FormatTextValue(v); t.Some? ==> FitsSlice(t.value)
  {
    match v
    case Int(i) => DecimalLength(if i >= 0 then i else -i); assert |Digits(i)| == |Text.FormatInt(i)|;
    case Uint(u) => DecimalLength(u); assert |Digits(u)| == |Text.FormatInt(u)|;
    case _ =>
  }

  // A NULL is the single byte 0xfb.
  function EncodeValue(v: Value): (b: seq<byte>)
    requires InRange(v)
    ensures |b| >= 1
  {
    FormattedFits(v);
    match FormatTextValue(v)
    case None => [0xfb]
    case Some(t) => PutLengthEncodedString(t)
  }

  function EncodeRow(vs: seq<Value>): (b: seq<byte>)
    requires forall v :: v in vs ==> InRange(v)
  {
    if vs == [] then [] else EncodeValue(vs[0]) + EncodeRow(vs[1..])
  }

  // ---- ParseText ----

  // A value of a float column stands for what ParseFloat makes of its text.
  datatype FieldValue =
    | FNull | FUnsigned(u: nat) | FSigned(i: int) | FFloat(text: seq<byte>) | FString(s: seq<byte>)

  predicate IsUnsigned(f: Field) { f.flag / UNSIGNED_FLAG % 2 == 1 }

  predicate IsInteger(t: byte)
  {
    || t == TYPE_TINY || t == TYPE_SHORT || t == TYPE_INT24
    || t == TYPE_LONGLONG || t == TYPE_LONG || t == TYPE_YEAR
  }

  // None is a syntax or range error.
  function ReadValue(f: Field, v: seq<byte>): (r: Option<FieldValue>)
  {
    if IsInteger(f.typ) then
      if IsUnsigned(f) then
        match Text.ParseUint(Chars(v)) case None => None case Some(n) => Some(FUnsigned(n))
      else
        match Text.ParseInt(Chars(v)) case None => None case Some(n) => Some(FSigned(n))
    else if f.typ == TYPE_FLOAT || f.typ == TYPE_DOUBLE then Some(FFloat(v))
    else Some(FString(v))
  }

  datatype RowParse = Row(values: seq<FieldValue>) | RowEof | RowSyntax | RowPanic

  // ParseText from position p of a row, with the values done so far.
  function ParseFrom(fields: seq<Field>, p: seq<byte>, done: seq<FieldValue>): (r: RowParse)
    requires |done| <= |fields|
    decreases |fields| - |done|
  {
    var k := |done|;
    if k == |fields| then Row(done)
    else
      match LengthEncodedString(p)
      case Eof => RowEof
      case StringPanic => RowPanic
      case LenString(v, isNull, n) =>
        if isNull then ParseFrom(fields, p[n..], done + [FNull])
        else
          match ReadValue(fields[k], v)
          case None => RowSyntax
          case Some(x) => ParseFrom(fields, p[n..], done + [x])
  }

  method ParseText(fields: seq<Field>, p: seq<byte>) returns (r: RowParse)
    ensures r == ParseFrom(fields, p, [])
  {
    hide LengthEncodedString, ReadValue;
    var data: seq<FieldValue> := [];
    var pos := 0;
    for i := 0 to |fields|
      invariant |data| == i && pos <= |p|
      invariant ParseFrom(fields, p, []) == ParseFrom(fields, p[pos..], data)
    {
      match LengthEncodedString(p[pos..])
      case Eof => return RowEof;
      case StringPanic => return RowPanic;
      case LenString(v, isNull, n) =>
        assert p[pos..][n..] == p[pos + n..];
        pos := pos + n;
        if isNull {
          data := data + [FNull];
        } else {
          match ReadValue(fields[i], v)
          case None => return RowSyntax;
          case Some(x) => data := data + [x];
        }
    }
    return Row(data);
  }

  // ---- what comes back ----

  // The value is of the kind its column announces.
  predicate Suits(f: Field, v: Value)
  {
    match v
    case Null => true
    case NilBytes => true
    case NilString => true
    case Int(_) => f.typ == TYPE_LONGLONG
    case Uint(_) => f.typ == TYPE_LONGLONG
    case Float(_) => f.typ == TYPE_DOUBLE
    case Str(_) => f.typ == TYPE_VAR_STRING
    case Unsupported => false
  }

  // A number is in the range of its column's signedness.
  predicate FitsColumn(f: Field, v: Value)
  {
    match v
    case Int(i) => IsUnsigned(f) ==> i >= 0
    case Uint(u) => !IsUnsigned(f) ==> u < TWO_63
    case _ => true
  }

  function Back(f: Field, v: Value): (r: FieldValue)
    requires FitsColumn(f, v)
  {
    match v
    case Int(i) => if IsUnsigned(f) then FUnsigned(i) else FSigned(i)
    case Uint(u) => if IsUnsigned(f) then FUnsigned(u) else FSigned(u)
    case Float(text) => FFloat(text)
    case Str(s) => FString(s)
    case _ => FNull
  }

  predicate SuitsAll(fields: seq<Field>, vs: seq<Value>)
  {
    |fields| == |vs| && forall j :: 0 <= j < |vs| ==> InRange(vs[j]) && Suits(fields[j], vs[j])
  }

  predicate FitsAll(fields: seq<Field>, vs: seq<Value>)
    requires |fields| == |vs|
  {
    forall j :: 0 <= j < |vs| ==> FitsColumn(fields[j], vs[j])
  }

  function BackAll(fields: seq<Field>, vs: seq<Value>): (r: seq<FieldValue>)
    requires |fields| == |vs| && FitsAll(fields, vs)
    ensures |r| == |vs|
  {
    seq(|vs|, j requires 0 <= j < |vs| => Back(fields[j], vs[j]))
  }

  lemma ValueRoundTrip(f: Field, v: Value, rest: seq<byte>)
    requires InRange(v) && Suits(f, v)
    ensures var e := EncodeValue(v);
            var r := LengthEncodedString(e + rest);
            && r.LenString? && r.n == |e| && (e + rest)[|e|..] == rest
            && r.isNull == (v.Null? || v.NilBytes? || v.NilString?)
            && (r.isNull ==> FitsColumn(f, v) && Back(f, v) == FNull)
            && (!r.isNull ==>
                  ReadValue(f, r.v) == if FitsColumn(f, v) then Some(Back(f, v)) else None)
  {
    FormattedFits(v);
    match FormatTextValue(v)
    case None =>
    case Some(t) =>
      StringRoundTrip(t, rest);
      match v
      case Int(i) => Text.ParseFormatted(i);
      case Uint(u) => Text.ParseFormatted(u);
      case _ =>
  }

  lemma FitsCons(fields: seq<Field>, vs: seq<Value>)
    requires |fields| == |vs| > 0
    ensures FitsAll(fields, vs) <==> FitsColumn(fields[0], vs[0]) && FitsAll(fields[1..], vs[1..])
    ensures FitsAll(fields, vs) ==>
              BackAll(fields, vs) == [Back(fields[0], vs[0])] + BackAll(fields[1..], vs[1..])
  {
    hide FitsColumn, Back;
    if FitsColumn(fields[0], vs[0]) && FitsAll(fields[1..], vs[1..]) {
      forall j | 0 <= j < |vs| ensures FitsColumn(fields[j], vs[j]) {
        if j > 0 {
          assert FitsColumn(fields[1..][j - 1], vs[1..][j - 1]);
        }
      }
    }
  }

  lemma ParseOne(fields: seq<Field>, v: Value, rest: seq<byte>, done: seq<FieldValue>)
    requires |done| < |fields| && InRange(v) && Suits(fields[|done|], v)
    ensures var f := fields[|done|];
            ParseFrom(fields, EncodeValue(v) + rest, done) ==
            if FitsColumn(f, v) then ParseFrom(fields, rest, done + [Back(f, v)]) else RowSyntax
  {
    hide EncodeValue, LengthEncodedString, ReadValue, FitsColumn, Suits, InRange, Back;
    ValueRoundTrip(fields[|done|], v, rest);
  }

  lemma NothingLeft(fields: seq<Field>, done: seq<FieldValue>)
    requires |done| == |fields|
    ensures ParseFrom(fields, [], done) == Row(done)
    ensures FitsAll(fields[|done|..], []) && BackAll(fields[|done|..], []) == []
  {
  }

  // A built row parses to its values if they all fit their columns, and is an error
  // otherwise.
  lemma {:induction false} RowRoundTrip(fields: seq<Field>, vs: seq<Value>, done: seq<FieldValue>)
    requires |done| <= |fields| && SuitsAll(fields[|done|..], vs)
    ensures ParseFrom(fields, EncodeRow(vs), done) ==
            if FitsAll(fields[|done|..], vs) then Row(done + BackAll(fields[|done|..], vs)) else RowSyntax
    decreases |vs|
  {
    hide EncodeValue, ParseFrom, FitsColumn, Suits, InRange, Back, FitsAll, BackAll;
    var fs := fields[|done|..];
    if vs == [] {
      NothingLeft(fields, done);
    } else {
      var v, rest := vs[0], EncodeRow(vs[1..]);
      ParseOne(fields, v, rest, done);
      FitsCons(fs, vs);
      assert fs[1..] == fields[|done| + 1..];
      if FitsColumn(fs[0], v) {
        var x := Back(fs[0], v);
        RowRoundTrip(fields, vs[1..], done + [x]);
        if FitsAll(fs[1..], vs[1..]) {
          assert done + [x] + BackAll(fs[1..], vs[1..]) == done + ([x] + BackAll(fs[1..], vs[1..]));
        }
      }
    }
  }

  function Nulls(n: nat): (r: seq<FieldValue>) { seq(n, _ => FNull) }

  // Columns that a row has no bytes for read as NULL.
  lemma {:induction false} MissingAreNull(fields: seq<Field>, done: seq<FieldValue>)
    requires |done| <= |fields|
    ensures ParseFrom(fields, [], done) == Row(done + Nulls(|fields| - |done|))
    decreases |fields| - |done|
  {
    if |done| == |fields| {
      assert done + Nulls(0) == done;
    } else {
      NullForms([]);
      MissingAreNull(fields, done + [FNull]);
      assert done + [FNull] + Nulls(|fields| - |done| - 1) == done + Nulls(|fields| - |done|);
    }
  }

  // The protocol's type codes: TINY, SHORT, LONG, LONGLONG, INT24 and YEAR are whole
  // numbers, FLOAT and DOUBLE floats, all others strings.
  lemma ReadsByType(f: Field, v: int, text: seq<byte>)
    ensures f.typ in {1, 2, 3, 8, 9, 13} && !IsUnsigned(f) ==>
              ReadValue(f, Digits(v)) == if -TWO_63 <= v < TWO_63 then Some(FSigned(v)) else None
    ensures f.typ in {1, 2, 3, 8, 9, 13} && IsUnsigned(f) ==>
              ReadValue(f, Digits(v)) == if 0 <= v < TWO_64 then Some(FUnsigned(v)) else None
    ensures f.typ in {4, 5} ==> ReadValue(f, text) == Some(FFloat(text))
    ensures f.typ !in {1, 2, 3, 4, 5, 8, 9, 13} ==> ReadValue(f, text) == Some(FString(text))
  {
    Text.ParseFormatted(v);
    hide Text.ParseInt, Text.ParseUint, Text.FormatInt;
  }
}
