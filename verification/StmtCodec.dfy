// The parameters of COM_STMT_EXECUTE: how the client writes an argument list and how
// the server binds it again.
module StmtCodec {
  import opened Bytes
  import opened Options
  import opened LenEnc
  import opened MysqlTypes
  import Packet

  // A Go argument by its dynamic type. Integers carry their size in bytes; floats are
  // bit patterns. Int and Uint are Go's int and uint, Other is any unsupported type.
  datatype Arg =
    | Nil
    | Sized(w: nat, v: int) | USized(w: nat, u: nat)
    | Int(v: int) | Uint(u: nat) | Bool(b: bool)
    | Float(w: nat, bits: nat)
    | Str(s: seq<byte>) | Blob(s: seq<byte>) | Json(s: seq<byte>)
    | Other

  // MYSQL_TYPE_DECIMAL, TIMESTAMP, DATE, TIME, DATETIME, NEWDATE, VARCHAR, BIT and
  // NEWDECIMAL to GEOMETRY: everything the server reads as a length-encoded string.
  predicate IsStringType(t: byte)
  {
    t in {0, 7, 10, 11, 12, 14, 15, 16} || 0xf6 <= t
  }

  function Half(w: nat): (h: nat)
    requires w in {1, 2, 4, 8}
  {
    if w == 1 then 0x80 else if w == 2 then 0x8000 else if w == 4 then 0x8000_0000 else TWO_63
  }

  lemma HalfIsHalf(w: nat)
    requires w in {1, 2, 4, 8}
    ensures 2 * Half(w) == Capacity(w)
  {
    Capacities();
  }

  // The values the Go types can hold.
  predicate Valid(a: Arg)
  {
    match a
    case Sized(w, v) => w in {1, 2, 4, 8} && 0 - Half(w) <= v < Half(w)
    case USized(w, u) => w in {1, 2, 4, 8} && u < 2 * Half(w)
    case Int(v) => -TWO_63 <= v < TWO_63
    case Uint(u) => u < TWO_64
    case Float(w, bits) => w in {4, 8} && bits < 2 * Half(w)
    case Str(s) => FitsSlice(s)
    case Blob(s) => FitsSlice(s)
    case Json(s) => FitsSlice(s)
    case _ => true
  }

  // What the server hands to the statement handler for an argument.
  function Canon(a: Arg): (r: Arg)
  {
    match a
    case Int(v) => Sized(8, v)
    case Uint(u) => USized(8, u)
    case Bool(b) => Sized(1, if b then 1 else 0)
    case Str(s) => Blob(s)
    case Json(s) => Blob(s)
    case _ => a
  }

  function CanonAll(args: seq<Arg>): (r: seq<Arg>)
    ensures |r| == |args| && forall i :: 0 <= i < |r| ==> r[i] == Canon(args[i])
  {
    seq(|args|, i requires 0 <= i < |args| => Canon(args[i]))
  }

  // ---- the null bitmap ----

  function Bit(b: nat, k: nat): (r: bool)
    decreases k
  {
    if k == 0 then b % 2 == 1 else Bit(b / 2, k - 1)
  }

  // b | 1 << k
  function SetBit(b: nat, k: nat): (r: nat)
    decreases k
  {
    if k == 0 then b - b % 2 + 1 else b % 2 + 2 * SetBit(b / 2, k - 1)
  }

  lemma {:induction false} SetBitMeaning(b: nat, k: nat, j: nat)
    ensures Bit(SetBit(b, k), j) == (j == k || Bit(b, j))
    decreases k
  {
    if k == 0 {
      if j > 0 { assert SetBit(b, 0) / 2 == b / 2; }
    } else {
      var r := SetBit(b / 2, k - 1);
      assert SetBit(b, k) / 2 == r && SetBit(b, k) % 2 == b % 2;
      if j > 0 { SetBitMeaning(b / 2, k - 1, j - 1); }
    }
  }

  function Pow2(n: nat): (p: nat) { if n == 0 then 1 else 2 * Pow2(n - 1) }

  lemma {:induction false} SetBitFits(b: nat, k: nat, n: nat)
    requires b < Pow2(n) && k < n
    ensures SetBit(b, k) < Pow2(n)
    decreases n
  {
    var half, q := Pow2(n - 1), b / 2;
    assert b == 2 * q + b % 2 && q < half;
    if k == 0 {
      assert SetBit(b, k) == 2 * q + 1;
    } else {
      SetBitFits(q, k - 1, n - 1);
      assert SetBit(b, k) == b % 2 + 2 * SetBit(q, k - 1);
    }
  }

  lemma {:induction false} ZeroBits(j: nat)
    ensures !Bit(0, j)
  {
    if j > 0 { ZeroBits(j - 1); }
  }

  function BitmapLen(n: nat): (len: nat)
    ensures 8 * len >= n
  {
    (n + 7) / 8
  }

  // bm has bit i set exactly for the null arguments.
  ghost predicate IsNullBitmap(bm: seq<byte>, args: seq<Arg>)
  {
    && |bm| == BitmapLen(|args|)
    && forall i: nat :: i < 8 * |bm| ==> Bit(bm[i / 8], i % 8) == (i < |args| && args[i].Nil?)
  }

  // ---- the client ----

  function TypeCode(w: nat): (t: byte)
  {
    if w == 1 then TYPE_TINY else if w == 2 then TYPE_SHORT else if w == 4 then TYPE_LONG else TYPE_LONGLONG
  }

  // The two bytes of an argument's type; 0x80 marks unsigned values.
  function TypeOf(a: Arg): (t: seq<byte>)
    ensures |t| == 2
  {
    match a
    case Nil => [TYPE_NULL, 0]
    case Sized(w, _) => [TypeCode(w), 0]
    case USized(w, _) => [TypeCode(w), 0x80]
    case Int(_) => [TYPE_LONGLONG, 0]
    case Uint(_) => [TYPE_LONGLONG, 0x80]
    case Bool(_) => [TYPE_TINY, 0]
    case Float(w, _) => [if w == 4 then TYPE_FLOAT else TYPE_DOUBLE, 0]
    case _ => [TYPE_STRING, 0]
  }

  function ValueOf(a: Arg): (b: seq<byte>)
    requires Valid(a)
  {
    match a
    case Sized(w, v) => LE(Unsigned(v, Half(w)), w)
    case USized(w, u) => LE(u, w)
    case Int(v) => LE(Unsigned(v, TWO_63), 8)
    case Uint(u) => LE(u, 8)
    case Bool(b) => [if b then 1 else 0]
    case Float(w, bits) => LE(bits, w)
    case Str(s) => PutLengthEncodedString(s)
    case Blob(s) => PutLengthEncodedString(s)
    case Json(s) => PutLengthEncodedString(s)
    case _ => []
  }

  // ---- the server ----

  datatype BindError = Malformed | UnknownType(t: byte) | ShortString | Panic | UnsupportedFlag(f: byte)

  // One value read at the front of in_.
  datatype Item = Item(a: Arg, rest: seq<byte>) | Bad(e: BindError)

  function ReadSized(in_: seq<byte>, w: nat, unsigned: bool): (r: Item)
    requires w in {1, 2, 4, 8}
  {
    if |in_| < w then Bad(Malformed)
    else
      FromLEBound(in_[..w]);
      HalfIsHalf(w);
      var n := FromLE(in_[..w]);
      Item(if unsigned then USized(w, n) else Sized(w, Signed(n, Half(w))), in_[w..])
  }

  function ReadValue(t: byte, unsigned: bool, in_: seq<byte>): (r: Item)
  {
    if t == TYPE_NULL then Item(Nil, in_)
    else if t == TYPE_TINY then ReadSized(in_, 1, unsigned)
    else if t == TYPE_SHORT || t == TYPE_YEAR then ReadSized(in_, 2, unsigned)
    else if t == TYPE_INT24 || t == TYPE_LONG then ReadSized(in_, 4, unsigned)
    else if t == TYPE_LONGLONG then ReadSized(in_, 8, unsigned)
    else if t == TYPE_FLOAT || t == TYPE_DOUBLE then
      var w := if t == TYPE_FLOAT then 4 else 8;
      if |in_| < w then Bad(Malformed) else Item(Float(w, FromLE(in_[..w])), in_[w..])
    else if IsStringType(t) then
      if |in_| < 1 then Bad(Malformed)
      else
        match LengthEncodedString(in_)
        case StringPanic => Bad(Panic)
        case Eof => Bad(ShortString)
        case LenString(v, isNull, n) => Item(if isNull then Nil else Blob(v), in_[n..])
    else Bad(UnknownType(t))
  }

  // The state of bindStmtArgs after it stopped: args is overwritten in place up to there.
  datatype Bound = Bound(args: seq<Arg>) | BindFailed(e: BindError, args: seq<Arg>)

  // The loop of bindStmtArgs from parameter i on, with in_ the values not yet read.
  function BindFrom(bm: seq<byte>, types: seq<byte>, i: nat, in_: seq<byte>, args: seq<Arg>): (r: Bound)
    requires i <= |args| && |bm| == BitmapLen(|args|)
    ensures |r.args| == |args|
    decreases |args| - i
  {
    if i == |args| then Bound(args)
    else if Bit(bm[i / 8], i % 8) then BindFrom(bm, types, i + 1, in_, args[i := Nil])
    else if |types| <= 2 * i + 1 then BindFailed(Panic, args)
    else
      match ReadValue(types[2 * i], types[2 * i + 1] >= 0x80, in_)
      case Bad(e) => BindFailed(e, args)
      case Item(a, rest) => BindFrom(bm, types, i + 1, rest, args[i := a])
  }

  // The server's reader of a whole number of w bytes.
  lemma ReadsSized(w: nat, unsigned: bool, in_: seq<byte>)
    requires w in {1, 2, 4, 8}
    ensures ReadValue(TypeCode(w), unsigned, in_) == ReadSized(in_, w, unsigned)
  {
    hide ReadSized, LengthEncodedString, FromLE;
  }

  lemma ReadsFloat(w: nat, unsigned: bool, in_: seq<byte>)
    requires w in {4, 8} && |in_| >= w
    ensures ReadValue(if w == 4 then TYPE_FLOAT else TYPE_DOUBLE, unsigned, in_)
         == Item(Float(w, FromLE(in_[..w])), in_[w..])
  {
    hide ReadSized, LengthEncodedString, FromLE;
  }

  lemma ReadsString(unsigned: bool, in_: seq<byte>, v: seq<byte>, n: nat)
    requires |in_| >= 1 && LengthEncodedString(in_) == LenString(v, false, n)
    ensures ReadValue(TYPE_STRING, unsigned, in_) == Item(Blob(v), in_[n..])
  {
    hide ReadSized, LengthEncodedString, FromLE;
  }

  lemma SignedRoundTrip(w: nat, v: int, rest: seq<byte>)
    requires w in {1, 2, 4, 8} && 0 - Half(w) <= v < Half(w)
    ensures ReadSized(LE(Unsigned(v, Half(w)), w) + rest, w, false) == Item(Sized(w, v), rest)
  {
    hide LE, FromLE, Capacity, Half, Signed, Unsigned;
    SizedRoundTrip(w, Unsigned(v, Half(w)), rest);
  }

  lemma UnsignedRoundTrip(w: nat, u: nat, rest: seq<byte>)
    requires w in {1, 2, 4, 8} && u < 2 * Half(w)
    ensures ReadSized(LE(u, w) + rest, w, true) == Item(USized(w, u), rest)
  {
    hide LE, FromLE, Capacity, Half, Signed, Unsigned;
    SizedRoundTrip(w, u, rest);
  }

  lemma BytesRoundTrip(s: seq<byte>, unsigned: bool, rest: seq<byte>)
    requires FitsSlice(s)
    ensures ReadValue(TYPE_STRING, unsigned, PutLengthEncodedString(s) + rest) == Item(Blob(s), rest)
  {
    hide ReadValue, PutLengthEncodedString, LengthEncodedString, FitsSlice;
    var e := PutLengthEncodedString(s);
    StringRoundTrip(s, rest);
    ReadsString(unsigned, e + rest, s, |e|);
    assert (e + rest)[|e|..] == rest;
  }

  lemma OneByte(n: nat)
    requires n < 256
    ensures LE(n, 1) == [n]
  {
    assert LE(n / 256, 0) == [];
  }

  lemma BoolRoundTrip(b: bool, rest: seq<byte>)
    ensures ReadSized([if b then 1 else 0] + rest, 1, false) == Item(Sized(1, if b then 1 else 0), rest)
  {
    var n := if b then 1 else 0;
    OneByte(n);
    SignedRoundTrip(1, n, rest);
  }

  lemma ValueRoundTrip(a: Arg, rest: seq<byte>)
    requires Valid(a) && !a.Nil? && !a.Other?
    ensures ReadValue(TypeOf(a)[0], TypeOf(a)[1] >= 0x80, ValueOf(a) + rest) == Item(Canon(a), rest)
  {
    hide ReadValue, ReadSized, LE, FromLE, PutLengthEncodedString, LengthEncodedString, FitsSlice, Unsigned;
    var in_ := ValueOf(a) + rest;
    match a
    case Sized(w, v) => SignedRoundTrip(w, v, rest); ReadsSized(w, false, in_);
    case USized(w, u) => UnsignedRoundTrip(w, u, rest); ReadsSized(w, true, in_);
    case Int(v) => SignedRoundTrip(8, v, rest); ReadsSized(8, false, in_);
    case Uint(u) => UnsignedRoundTrip(8, u, rest); ReadsSized(8, true, in_);
    case Float(w, bits) => SizedRoundTrip(w, bits, rest); ReadsFloat(w, false, in_);
    case Bool(b) => BoolRoundTrip(b, rest); ReadsSized(1, false, in_);
    case Str(s) => BytesRoundTrip(s, false, rest);
    case Blob(s) => BytesRoundTrip(s, false, rest);
    case Json(s) => BytesRoundTrip(s, false, rest);
  }

  lemma SizedRoundTrip(w: nat, n: nat, rest: seq<byte>)
    requires w in {1, 2, 4, 8} && n < 2 * Half(w)
    ensures var in_ := LE(n, w) + rest;
            && |in_| >= w && FromLE(in_[..w]) == n && in_[w..] == rest
  {
    HalfIsHalf(w);
    ReadWritten(n, w);
    assert (LE(n, w) + rest)[..w] == LE(n, w);
  }

  // ---- the packet ----

  const COM_STMT_EXECUTE: byte := 23

  function TypesOf(args: seq<Arg>): (b: seq<byte>)
    ensures |b| == 2 * |args|
  {
    if args == [] then [] else TypesOf(args[..|args| - 1]) + TypeOf(args[|args| - 1])
  }

  predicate AllValid(args: seq<Arg>) { forall a :: a in args ==> Valid(a) }

  function ValuesOf(args: seq<Arg>): (b: seq<byte>)
    requires AllValid(args)
  {
    if args == [] then [] else ValueOf(args[0]) + ValuesOf(args[1..])
  }

  predicate AllNil(args: seq<Arg>) { forall a :: a in args ==> a.Nil? }

  // The command without its leading byte, for the null bitmap bm.
  function Body(id: nat, args: seq<Arg>, bm: seq<byte>): (b: seq<byte>)
    requires AllValid(args)
  {
    LE(id, 4) + [0, 1, 0, 0, 0] + if args == [] then [] else bm + Bindings(args)
  }

  // new-params-bound-flag, and types and values unless every argument is null.
  function Bindings(args: seq<Arg>): (b: seq<byte>)
    requires AllValid(args)
    ensures |b| >= 1
  {
    if AllNil(args) then [0] else [1] + (TypesOf(args) + ValuesOf(args))
  }

  // What handleStmtExecute makes of a command for a statement with the given Args.
  function Execute(data: seq<byte>, args: seq<Arg>): (r: Bound)
    ensures |r.args| == |args|
  {
    var n := |args|;
    var len := BitmapLen(n);
    if |data| < 9 then BindFailed(Malformed, args)
    else if data[4] != 0 then BindFailed(UnsupportedFlag(data[4]), args)
    else if n == 0 then Bound(args)
    else if |data| < 9 + len + 1 then BindFailed(Malformed, args)
    else
      BindMore(data[9..9 + len], data[9 + len..], args)
  }

  lemma {:induction false} TypesAt(args: seq<Arg>, i: nat)
    requires i < |args|
    ensures TypesOf(args)[2 * i] == TypeOf(args[i])[0] && TypesOf(args)[2 * i + 1] == TypeOf(args[i])[1]
    decreases |args|
  {
    if i < |args| - 1 { TypesAt(args[..|args| - 1], i); }
  }

  ghost predicate TypesFit(types: seq<byte>, args: seq<Arg>)
  {
    forall i :: 0 <= i < |args| && !args[i].Nil? ==>
      |types| > 2 * i + 1 && types[2 * i] == TypeOf(args[i])[0] && types[2 * i + 1] == TypeOf(args[i])[1]
  }

  // The loop, at parameter i, on what the client wrote for the remaining arguments.
  lemma {:induction false} BindWritten(bm: seq<byte>, types: seq<byte>, args: seq<Arg>, i: nat, old_: seq<Arg>)
    requires AllValid(args) && Other !in args
    requires IsNullBitmap(bm, args) && TypesFit(types, args)
    requires i <= |args| == |old_| && old_[..i] == CanonAll(args)[..i]
    ensures BindFrom(bm, types, i, ValuesOf(args[i..]), old_) == Bound(CanonAll(args))
    decreases |args| - i
  {
    hide ValueOf, ReadValue, TypeOf, Canon, Valid, Bit;
    if i < |args| {
      var a, tail := args[i], args[i + 1..];
      assert args[i..][1..] == tail && args[i..][0] == a && a in args;
      assert ValuesOf(args[i..]) == ValueOf(a) + ValuesOf(tail);
      assert Bit(bm[i / 8], i % 8) == a.Nil?;
      hide BindFrom, ValuesOf, IsNullBitmap, CanonAll;
      BoundSoFar(args, i, old_);
      BindWritten(bm, types, args, i + 1, old_[i := Canon(a)]);
      if a.Nil? {
        NilWritesNothing(a, tail);
        BindNil(bm, types, i, ValuesOf(tail), old_);
      } else {
        ValueRoundTrip(a, ValuesOf(tail));
        BindValue(bm, types, i, ValueOf(a) + ValuesOf(tail), old_, Canon(a), ValuesOf(tail));
      }
    } else {
      assert old_ == old_[..i] && CanonAll(args) == CanonAll(args)[..i];
    }
  }

  // One round of the binding loop.
  lemma BindNil(bm: seq<byte>, types: seq<byte>, i: nat, in_: seq<byte>, args: seq<Arg>)
    requires i < |args| && |bm| == BitmapLen(|args|) && Bit(bm[i / 8], i % 8)
    ensures BindFrom(bm, types, i, in_, args) == BindFrom(bm, types, i + 1, in_, args[i := Nil])
  {
    hide ReadValue, Bit;
  }

  lemma BindValue(bm: seq<byte>, types: seq<byte>, i: nat, in_: seq<byte>, args: seq<Arg>, a: Arg, rest: seq<byte>)
    requires i < |args| && |bm| == BitmapLen(|args|) && !Bit(bm[i / 8], i % 8) && |types| > 2 * i + 1
    requires ReadValue(types[2 * i], types[2 * i + 1] >= 0x80, in_) == Item(a, rest)
    ensures BindFrom(bm, types, i, in_, args) == BindFrom(bm, types, i + 1, rest, args[i := a])
  {
    hide ReadValue, Bit;
  }

  lemma BoundSoFar(args: seq<Arg>, i: nat, old_: seq<Arg>)
    requires i < |args| == |old_| && old_[..i] == CanonAll(args)[..i]
    ensures old_[i := Canon(args[i])][..i + 1] == CanonAll(args)[..i + 1]
  {
    hide Canon;
    assert old_[i := Canon(args[i])][..i + 1] == old_[..i] + [Canon(args[i])];
    assert CanonAll(args)[..i + 1] == CanonAll(args)[..i] + [Canon(args[i])];
  }

  lemma NilWritesNothing(a: Arg, tail: seq<Arg>)
    requires a.Nil? && AllValid(tail)
    ensures ValueOf(a) + ValuesOf(tail) == ValuesOf(tail) && Canon(a) == Nil
  {
  }

  lemma {:induction false} NilsWriteNothing(args: seq<Arg>)
    requires AllNil(args)
    ensures AllValid(args) && ValuesOf(args) == []
    decreases |args|
  {
    if args != [] {
      assert args[0] in args;
      NilsWriteNothing(args[1..]);
    }
  }

  // The part of handleStmtExecute behind the bitmap.
  function BindMore(bm: seq<byte>, more: seq<byte>, args: seq<Arg>): (r: Bound)
    requires |bm| == BitmapLen(|args|) && |more| >= 1
    ensures |r.args| == |args|
  {
    var n := |args|;
    if more[0] != 1 then BindFrom(bm, [], 0, [], args)
    else if |more| < 1 + 2 * n then BindFailed(Malformed, args)
    else BindFrom(bm, more[1..1 + 2 * n], 0, more[1 + 2 * n..], args)
  }

  lemma ExecuteParts(head: seq<byte>, bm: seq<byte>, more: seq<byte>, old_: seq<Arg>)
    requires |head| == 4 && |old_| > 0 && |bm| == BitmapLen(|old_|) && |more| >= 1
    ensures Execute(head + [0, 1, 0, 0, 0] + (bm + more), old_) == BindMore(bm, more, old_)
  {
    hide BindMore;
    var data := head + [0, 1, 0, 0, 0] + (bm + more);
    assert data[9..9 + |bm|] == bm && data[9 + |bm|..] == more;
  }

  lemma TypesFitAll(args: seq<Arg>)
    ensures TypesFit(TypesOf(args), args)
  {
    hide TypeOf;
    forall i | 0 <= i < |args|
      ensures TypesOf(args)[2 * i] == TypeOf(args[i])[0] && TypesOf(args)[2 * i + 1] == TypeOf(args[i])[1]
    {
      TypesAt(args, i);
    }
  }

  lemma NoTypesFit(args: seq<Arg>)
    requires AllNil(args)
    ensures TypesFit([], args)
  {
  }

  lemma Slices<T>(x: T, a: seq<T>, b: seq<T>)
    ensures var s := [x] + (a + b); s[0] == x && s[1..1 + |a|] == a && s[1 + |a|..] == b
  {
  }

  lemma BindTyped(bm: seq<byte>, types: seq<byte>, values: seq<byte>, old_: seq<Arg>)
    requires |bm| == BitmapLen(|old_|) && |types| == 2 * |old_|
    ensures BindMore(bm, [1] + (types + values), old_) == BindFrom(bm, types, 0, values, old_)
  {
    hide BindFrom, BitmapLen;
    Slices(1, types, values);
  }

  lemma MoreRoundTrip(args: seq<Arg>, bm: seq<byte>, old_: seq<Arg>)
    requires AllValid(args) && Other !in args && IsNullBitmap(bm, args) && |old_| == |args|
    ensures BindMore(bm, Bindings(args), old_) == Bound(CanonAll(args))
  {
    hide BindFrom, ValuesOf, TypesOf, TypesFit;
    assert args[0..] == args;
    if AllNil(args) {
      NilsWriteNothing(args);
      NoTypesFit(args);
      BindWritten(bm, [], args, 0, old_);
    } else {
      TypesFitAll(args);
      BindTyped(bm, TypesOf(args), ValuesOf(args), old_);
      BindWritten(bm, TypesOf(args), args, 0, old_);
    }
  }

  // Whatever arguments a statement is executed with, the server binds the same list,
  // up to the wider types it uses, whatever was bound before.
  lemma ExecuteRoundTrip(id: nat, args: seq<Arg>, bm: seq<byte>, old_: seq<Arg>)
    requires AllValid(args) && Other !in args && IsNullBitmap(bm, args) && |old_| == |args|
    ensures Execute(Body(id, args, bm), old_) == Bound(CanonAll(args))
  {
    if args == [] {
      assert old_ == CanonAll(args);
    } else {
      hide BindMore, Bindings, Execute;
      ExecuteParts(LE(id, 4), bm, Bindings(args), old_);
      MoreRoundTrip(args, bm, old_);
    }
  }

  // The same over the wire: the command travels as frames, is read back together with
  // whatever follows it, and binds the list.
  lemma ExecuteOverWire(id: nat, args: seq<Arg>, bm: seq<byte>, old_: seq<Arg>, suffix: seq<byte>)
    requires AllValid(args) && Other !in args && IsNullBitmap(bm, args) && |old_| == |args|
    ensures var r := Packet.ReadFrames(Packet.Frames([COM_STMT_EXECUTE] + Body(id, args, bm), 0) + suffix, 0);
            && r.Done? && r.rest == suffix
            && |r.payload| > 0 && r.payload[0] == COM_STMT_EXECUTE
            && Execute(r.payload[1..], old_) == Bound(CanonAll(args))
  {
    hide Execute, Body;
    var body := Body(id, args, bm);
    Packet.FramesRoundTrip([COM_STMT_EXECUTE] + body, 0, suffix);
    assert ([COM_STMT_EXECUTE] + body)[1..] == body;
    ExecuteRoundTrip(id, args, bm, old_);
  }

  // ---- what was bound before does not matter ----

  lemma {:induction false} BindForgets(bm: seq<byte>, types: seq<byte>, i: nat, in_: seq<byte>,
                                       a: seq<Arg>, b: seq<Arg>)
    requires i <= |a| == |b| && |bm| == BitmapLen(|a|) && a[..i] == b[..i]
    ensures var r, s := BindFrom(bm, types, i, in_, a), BindFrom(bm, types, i, in_, b);
            if r.Bound? then s == r else s.BindFailed? && s.e == r.e
    decreases |a| - i
  {
    hide ReadValue, Bit;
    if i == |a| {
      assert a == a[..i] && b == b[..i];
    } else if Bit(bm[i / 8], i % 8) {
      OneMore(a, b, i, Nil);
      BindForgets(bm, types, i + 1, in_, a[i := Nil], b[i := Nil]);
    } else if |types| > 2 * i + 1 {
      var item := ReadValue(types[2 * i], types[2 * i + 1] >= 0x80, in_);
      if item.Item? {
        OneMore(a, b, i, item.a);
        BindForgets(bm, types, i + 1, item.rest, a[i := item.a], b[i := item.a]);
      }
    }
  }

  lemma OneMore(a: seq<Arg>, b: seq<Arg>, i: nat, x: Arg)
    requires i < |a| == |b| && a[..i] == b[..i]
    ensures a[i := x][..i + 1] == b[i := x][..i + 1]
  {
    assert a[i := x][..i + 1] == a[..i] + [x] && b[i := x][..i + 1] == b[..i] + [x];
  }

  // Executing a command gives the same arguments, or the same error, whatever the
  // statement's arguments were before.
  lemma ExecuteForgets(data: seq<byte>, a: seq<Arg>, b: seq<Arg>)
    requires |a| == |b|
    ensures var r, s := Execute(data, a), Execute(data, b);
            if r.Bound? then s == r else s.BindFailed? && s.e == r.e
  {
    hide BindFrom;
    var n := |a|;
    if n == 0 {
      assert a == [] && b == [];
    } else if |data| >= 9 + BitmapLen(n) + 1 {
      var bm, more := data[9..9 + BitmapLen(n)], data[9 + BitmapLen(n)..];
      assert a[..0] == b[..0];
      BindForgets(bm, [], 0, [], a, b);
      if |more| >= 1 + 2 * n {
        BindForgets(bm, more[1..1 + 2 * n], 0, more[1 + 2 * n..], a, b);
      }
    }
  }

  // ---- the source's loops ----

  lemma {:induction false} ValuesAppend(args: seq<Arg>, a: Arg)
    requires AllValid(args) && Valid(a)
    ensures AllValid(args + [a]) && ValuesOf(args + [a]) == ValuesOf(args) + ValueOf(a)
    decreases |args|
  {
    hide ValueOf, Valid;
    if args == [] {
      assert args + [a] == [a] && [a][1..] == [];
    } else {
      assert (args + [a])[1..] == args[1..] + [a];
      assert args[0] in args;
      ValuesAppend(args[1..], a);
    }
  }

  // The bits of the first i arguments.
  ghost predicate BitsSet(bm: seq<byte>, args: seq<Arg>, i: nat)
  {
    forall j: nat :: j < 8 * |bm| ==> Bit(bm[j / 8], j % 8) == (j < i && j < |args| && args[j].Nil?)
  }

  lemma SetNext(bm: seq<byte>, args: seq<Arg>, i: nat)
    requires BitsSet(bm, args, i) && i < |args| && |args| <= 8 * |bm|
    ensures !args[i].Nil? ==> BitsSet(bm, args, i + 1)
    ensures args[i].Nil? ==> SetBit(bm[i / 8], i % 8) < 256
                             && BitsSet(bm[i / 8 := SetBit(bm[i / 8], i % 8)], args, i + 1)
  {
    hide Bit, SetBit;
    if args[i].Nil? {
      SetBitFits(bm[i / 8], i % 8, 8);
      var new_ := bm[i / 8 := SetBit(bm[i / 8], i % 8)];
      forall j: nat | j < 8 * |bm|
        ensures Bit(new_[j / 8], j % 8) == (j < i + 1 && args[j].Nil?)
      {
        SetBitMeaning(bm[i / 8], i % 8, j % 8);
      }
    }
  }

  // Stmt.write up to the packet it sends; None is an error return.
  method Write(id: nat, params: nat, args: seq<Arg>) returns (r: Option<seq<byte>>)
    requires AllValid(args)
    ensures r == None <==> |args| != params || Other in args
    ensures r.Some? ==> exists bm :: IsNullBitmap(bm, args) && r.value == [COM_STMT_EXECUTE] + Body(id, args, bm)
  {
    hide Body, TypesOf, ValuesOf, AllNil, IsNullBitmap, LE;
    if |args| != params { return None; }
    var ok, bm, flag, types, values := Collect(args);
    if !ok { return None; }
    var data := [COM_STMT_EXECUTE] + LE(id, 4);
    data := data + [0x00];
    data := data + [1, 0, 0, 0];
    if params > 0 {
      data := data + bm;
      data := data + [flag];
      if flag == 1 {
        data := data + types;
        data := data + values;
      }
    }
    Assembled(id, args, bm, flag, types, values, data);
    r := Some(data);
  }

  lemma Assembled(id: nat, args: seq<Arg>, bm: seq<byte>, flag: byte, types: seq<byte>, values: seq<byte>,
                  data: seq<byte>)
    requires AllValid(args)
    requires (flag == 1 <==> !AllNil(args)) && (flag == 0 || flag == 1)
    requires types == TypesOf(args) && values == ValuesOf(args)
    requires data == [COM_STMT_EXECUTE] + LE(id, 4) + [0x00] + [1, 0, 0, 0]
                     + (if args == [] then [] else bm + [flag] + (if flag == 1 then types + values else []))
    ensures data == [COM_STMT_EXECUTE] + Body(id, args, bm)
  {
    hide TypesOf, ValuesOf, LE;
    var more: seq<byte> := if args == [] then [] else bm + [flag] + (if flag == 1 then types + values else []);
    if args != [] {
      Regroup(bm, [flag], if flag == 1 then types + values else [], [], []);
      assert [0] + [] == [0];
    }
    Regroup([COM_STMT_EXECUTE], LE(id, 4), [0x00], [1, 0, 0, 0], more);
    assert [0x00] + [1, 0, 0, 0] == [0, 1, 0, 0, 0];
  }

  lemma Regroup<T>(a: seq<T>, b: seq<T>, c: seq<T>, d: seq<T>, e: seq<T>)
    ensures a + b + c + d + e == a + (b + (c + d) + e)
    ensures a + b + c == a + (b + c)
  {
  }

  // The loop of Stmt.write: null bitmap, new-params-bound-flag, types and values.
  method Collect(args: seq<Arg>) returns (ok: bool, bm: seq<byte>, flag: byte, types: seq<byte>, values: seq<byte>)
    requires AllValid(args)
    ensures ok == (Other !in args)
    ensures ok ==> IsNullBitmap(bm, args) && types == TypesOf(args) && values == ValuesOf(args)
                   && flag == if AllNil(args) then 0 else 1
  {
    hide ValueOf, TypeOf, Valid, SetBit, BitsSet, TypesOf, ValuesOf, AllNil, IsNullBitmap;
    bm, flag, types, values := seq(BitmapLen(|args|), _ => 0), 0, [], [];
    NoBits(bm, args);
    NothingCollected(args);
    for i := 0 to |args|
      invariant |bm| == BitmapLen(|args|) && BitsSet(bm, args, i)
      invariant AllValid(args[..i]) && types == TypesOf(args[..i]) && values == ValuesOf(args[..i])
      invariant flag == (if AllNil(args[..i]) then 0 else 1) && Other !in args[..i]
    {
      CollectNext(args, i);
      SetNext(bm, args, i);
      if args[i].Other? { return false, bm, flag, types, values; }
      if args[i].Nil? {
        bm := bm[i / 8 := SetBit(bm[i / 8], i % 8)];
      } else {
        flag := 1;
      }
      types := types + TypeOf(args[i]);
      values := values + ValueOf(args[i]);
    }
    assert args[..|args|] == args;
    AllBits(bm, args);
    ok := true;
  }

  lemma NothingCollected(args: seq<Arg>)
    ensures TypesOf(args[..0]) == [] && ValuesOf(args[..0]) == [] && AllNil(args[..0])
  {
  }

  lemma CollectNext(args: seq<Arg>, i: nat)
    requires i < |args| && AllValid(args)
    ensures AllValid(args[..i]) && AllValid(args[..i + 1]) && Valid(args[i])
    ensures TypesOf(args[..i + 1]) == TypesOf(args[..i]) + TypeOf(args[i])
    ensures ValuesOf(args[..i + 1]) == ValuesOf(args[..i]) + ValueOf(args[i])
    ensures AllNil(args[..i + 1]) == (AllNil(args[..i]) && args[i].Nil?)
    ensures Other in args[..i + 1] <==> Other in args[..i] || args[i].Other?
  {
    hide ValueOf, TypeOf, Valid;
    var before := args[..i];
    assert args[..i + 1] == before + [args[i]];
    assert args[i] in args;
    assert (before + [args[i]])[..i] == before;
    ValuesAppend(before, args[i]);
  }

  lemma AllBits(bm: seq<byte>, args: seq<Arg>)
    requires |bm| == BitmapLen(|args|) && BitsSet(bm, args, |args|)
    ensures IsNullBitmap(bm, args)
  {
  }

  lemma NoBits(bm: seq<byte>, args: seq<Arg>)
    requires forall k :: 0 <= k < |bm| ==> bm[k] == 0
    ensures BitsSet(bm, args, 0)
  {
    forall j: nat | j < 8 * |bm| ensures !Bit(bm[j / 8], j % 8) {
      ZeroBits(j % 8);
    }
  }

  // bindStmtArgs: overwrites the statement's arguments in place.
  method BindStmtArgs(args: array<Arg>, bm: seq<byte>, types: seq<byte>, values: seq<byte>)
    returns (e: Option<BindError>)
    requires |bm| == BitmapLen(args.Length)
    modifies args
    ensures var r := BindFrom(bm, types, 0, values, old(args[..]));
            && args[..] == r.args
            && (r.Bound? ==> e == None) && (r.BindFailed? ==> e == Some(r.e))
  {
    hide ReadValue, Bit;
    var in_ := values;
    for i := 0 to args.Length
      invariant BindFrom(bm, types, 0, values, old(args[..])) == BindFrom(bm, types, i, in_, args[..])
    {
      ghost var now := args[..];
      if Bit(bm[i / 8], i % 8) {
        args[i] := Nil;
        assert args[..] == now[i := Nil];
      } else if |types| <= 2 * i + 1 {
        return Some(Panic);
      } else {
        var item := ReadValue(types[2 * i], types[2 * i + 1] >= 0x80, in_);
        if item.Bad? { return Some(item.e); }
        args[i] := item.a;
        assert args[..] == now[i := item.a];
        in_ := item.rest;
      }
    }
    e := None;
  }

  // ---- the protocol's own terms ----

  // Bit k of a byte of the bitmap counts 2^k.
  lemma {:induction false} SetBitAdds(b: nat, k: nat)
    ensures SetBit(b, k) == if Bit(b, k) then b else b + Pow2(k)
    decreases k
  {
    if k > 0 { SetBitAdds(b / 2, k - 1); }
  }

  // The type codes the client writes, with 0x80 for unsigned values.
  lemma TypesOnWire(w: nat, v: int, u: nat, b: bool, s: seq<byte>)
    requires w in {1, 2, 4, 8}
    ensures var code := if w == 1 then 1 else if w == 2 then 2 else if w == 4 then 3 else 8;
            TypeOf(Sized(w, v)) == [code, 0] && TypeOf(USized(w, u)) == [code, 0x80]
    ensures TypeOf(Nil) == [6, 0] && TypeOf(Bool(b)) == [1, 0]
    ensures TypeOf(Int(v)) == [8, 0] && TypeOf(Uint(u)) == [8, 0x80]
    ensures TypeOf(Float(4, u)) == [4, 0] && TypeOf(Float(8, u)) == [5, 0]
    ensures TypeOf(Str(s)) == TypeOf(Blob(s)) == TypeOf(Json(s)) == [254, 0]
  {
  }

  // The width of a whole number of type TINY, SHORT, YEAR, LONG, INT24 or LONGLONG.
  function WidthOf(t: byte): (w: nat)
    requires t in {1, 2, 13, 3, 9, 8}
    ensures w in {1, 2, 4, 8}
  {
    if t == 1 then 1 else if t in {2, 13} then 2 else if t in {3, 9} then 4 else 8
  }

  // Whole numbers of every type the server knows, from any client.
  lemma ReadsWhole(t: byte, unsigned: bool, n: nat, rest: seq<byte>)
    requires t in {1, 2, 13, 3, 9, 8} && n < 2 * Half(WidthOf(t))
    ensures var w := WidthOf(t);
            ReadValue(t, unsigned, LE(n, w) + rest) ==
            Item(if unsigned then USized(w, n) else Sized(w, Signed(n, Half(w))), rest)
  {
    var w := WidthOf(t);
    var in_ := LE(n, w) + rest;
    assert ReadValue(t, unsigned, in_) == ReadSized(in_, w, unsigned) by {
      hide ReadSized, LengthEncodedString, FromLE, LE;
    }
    hide ReadValue, LE, FromLE;
    SizedRoundTrip(w, n, rest);
  }

  // DECIMAL, TIMESTAMP, DATE, TIME, DATETIME, NEWDATE, VARCHAR, BIT, and NEWDECIMAL to
  // GEOMETRY: strings, from any client.
  lemma ReadsText(t: byte, unsigned: bool, s: seq<byte>, rest: seq<byte>)
    requires t in {0, 7, 10, 11, 12, 14, 15, 16} || t >= 246
    requires FitsSlice(s)
    ensures ReadValue(t, unsigned, PutLengthEncodedString(s) + rest) == Item(Blob(s), rest)
    ensures ReadValue(t, unsigned, [0xfb] + rest) == Item(Nil, rest)
  {
    var e := PutLengthEncodedString(s);
    StringRoundTrip(s, rest);
    NullForms(rest);
    assert (e + rest)[|e|..] == rest && ([0xfb] + rest)[1..] == rest;
    hide ReadSized, LengthEncodedString, PutLengthEncodedString, FromLE;
  }

  // What ends in the middle of a number, or in front of a string, is malformed.
  lemma ReadsTooLittle(t: byte, unsigned: bool, in_: seq<byte>)
    ensures t in {1, 2, 13, 3, 9, 8} && |in_| < WidthOf(t) ==> ReadValue(t, unsigned, in_) == Bad(Malformed)
    ensures (t == 4 && |in_| < 4) || (t == 5 && |in_| < 8) ==> ReadValue(t, unsigned, in_) == Bad(Malformed)
    ensures t in {0, 7, 10, 11, 12, 14, 15, 16} || t >= 246 ==> ReadValue(t, unsigned, []) == Bad(Malformed)
  {
    hide LengthEncodedString, FromLE;
  }

  // All other types are refused.
  lemma UnknownTypes(t: byte, unsigned: bool, in_: seq<byte>)
    ensures 17 <= t <= 245 ==> ReadValue(t, unsigned, in_) == Bad(UnknownType(t))
    ensures ReadValue(6, unsigned, in_) == Item(Nil, in_)
  {
    hide ReadSized, LengthEncodedString, FromLE;
  }

  // The command: statement id, no cursor, one iteration, and for a statement with
  // parameters the bitmap, whether types follow, the types and the values.
  lemma CommandLayout(id: nat, args: seq<Arg>, bm: seq<byte>)
    requires AllValid(args) && |bm| == BitmapLen(|args|) && args != []
    ensures var d, n := Body(id, args, bm), |bm|;
            && |d| >= 10 + n && d[..4] == LE(id, 4) && d[4] == 0 && d[5..9] == [1, 0, 0, 0]
            && d[9..9 + n] == bm && n == (|args| + 7) / 8
            && d[9 + n] == (if AllNil(args) then 0 else 1)
            && d[10 + n..] == (if AllNil(args) then [] else TypesOf(args) + ValuesOf(args))
  {
    var head, more := LE(id, 4), Bindings(args);
    var d := Body(id, args, bm);
    assert d == head + [0, 1, 0, 0, 0] + (bm + more);
    assert more[1..] == (if AllNil(args) then [] else TypesOf(args) + ValuesOf(args));
    hide LE, Body, Bindings, TypesOf, ValuesOf, AllNil;
    CommandParts(head, bm, more);
  }

  lemma CommandParts(head: seq<byte>, bm: seq<byte>, more: seq<byte>)
    requires |head| == 4 && |more| >= 1
    ensures var d, n := head + [0, 1, 0, 0, 0] + (bm + more), |bm|;
            && |d| >= 10 + n && d[..4] == head && d[4] == 0 && d[5..9] == [1, 0, 0, 0]
            && d[9..9 + n] == bm && d[9 + n] == more[0] && d[10 + n..] == more[1..]
  {
    var d, n := head + [0, 1, 0, 0, 0] + (bm + more), |bm|;
    assert d[9..] == bm + more;
    assert d[9..9 + n] == d[9..][..n] && d[10 + n..] == d[9..][n + 1..];
  }

  // ---- truncated commands ----

  lemma CutValue(a: Arg, n: nat)
    requires Valid(a) && !a.Nil? && !a.Other? && n < |ValueOf(a)|
    ensures ReadValue(TypeOf(a)[0], TypeOf(a)[1] >= 0x80, ValueOf(a)[..n]).Bad?
  {
    hide LE, FromLE, LengthEncodedString, PutLengthEncodedString, FitsSlice, Unsigned;
    if n > 0 {
      match a
      case Str(s) => CutString(s, n);
      case Blob(s) => CutString(s, n);
      case Json(s) => CutString(s, n);
      case _ =>
    }
  }

  // The binding loop on a cut-off list of values.
  lemma {:induction false} BindCut(bm: seq<byte>, types: seq<byte>, args: seq<Arg>, i: nat, old_: seq<Arg>, n: nat)
    requires AllValid(args) && Other !in args
    requires IsNullBitmap(bm, args) && TypesFit(types, args)
    requires i <= |args| == |old_| && n < |ValuesOf(args[i..])|
    ensures BindFrom(bm, types, i, ValuesOf(args[i..])[..n], old_).BindFailed?
    decreases |args| - i
  {
    hide ValueOf, ReadValue, TypeOf, Canon, Valid, Bit;
    if i < |args| {
      var a, tail := args[i], args[i + 1..];
      assert args[i..][1..] == tail && args[i..][0] == a && a in args;
      var value, more := ValueOf(a), ValuesOf(tail);
      assert ValuesOf(args[i..]) == value + more;
      assert Bit(bm[i / 8], i % 8) == a.Nil?;
      var p := (value + more)[..n];
      hide ValuesOf, IsNullBitmap;
      if a.Nil? {
        NilWritesNothing(a, tail);
        BindNil(bm, types, i, p, old_);
        BindCut(bm, types, args, i + 1, old_[i := Nil], n);
      } else if n < |value| {
        assert p == value[..n];
        CutValue(a, n);
      } else {
        assert p == value + more[..n - |value|];
        ValueRoundTrip(a, more[..n - |value|]);
        BindValue(bm, types, i, p, old_, Canon(a), more[..n - |value|]);
        BindCut(bm, types, args, i + 1, old_[i := Canon(a)], n - |value|);
      }
    }
  }

  lemma MoreCut(args: seq<Arg>, bm: seq<byte>, old_: seq<Arg>, n: nat)
    requires AllValid(args) && Other !in args && IsNullBitmap(bm, args) && |old_| == |args|
    requires !AllNil(args) && n < |TypesOf(args) + ValuesOf(args)|
    ensures BindMore(bm, [1] + (TypesOf(args) + ValuesOf(args))[..n], old_).BindFailed?
  {
    hide BindFrom, Valid, AllNil;
    var types, values := TypesOf(args), ValuesOf(args);
    hide TypesOf, ValuesOf;
    if n >= |types| {
      var k := n - |types|;
      assert (types + values)[..n] == types + values[..k];
      BindTyped(bm, types, values[..k], old_);
      TypesFitAll(args);
      assert args[0..] == args;
      hide BindMore, IsNullBitmap;
      BindCut(bm, types, args, 0, old_, k);
    }
  }

  // No proper prefix of the client's command binds, whatever the statement held.
  lemma TruncatedIsRefused(id: nat, args: seq<Arg>, bm: seq<byte>, old_: seq<Arg>, n: nat)
    requires AllValid(args) && Other !in args && IsNullBitmap(bm, args) && |old_| == |args|
    requires n < |Body(id, args, bm)|
    ensures Execute(Body(id, args, bm)[..n], old_).BindFailed?
  {
    hide BindMore, Valid, TypesOf, ValuesOf;
    if args != [] && n >= 10 + |bm| {
      var head, k := LE(id, 4), n - 10 - |bm|;
      var more := TypesOf(args) + ValuesOf(args);
      assert Body(id, args, bm) == head + [0, 1, 0, 0, 0] + (bm + ([1] + more));
      hide LE, Body, AllNil;
      CutCommand(head, bm, more, k);
      ExecuteParts(head, bm, [1] + more[..k], old_);
      hide IsNullBitmap, Execute;
      MoreCut(args, bm, old_, k);
    }
  }

  lemma CutCommand(head: seq<byte>, bm: seq<byte>, more: seq<byte>, k: nat)
    requires |head| == 4 && k <= |more|
    ensures (head + [0, 1, 0, 0, 0] + (bm + ([1] + more)))[..10 + |bm| + k] ==
            head + [0, 1, 0, 0, 0] + (bm + ([1] + more[..k]))
  {
  }
}
