// The binary form of GTID sets: a count, then per UUID 16 bytes, an interval count
// and the interval bounds, all counts and bounds as 8-byte little-endian integers.
module GtidBinary {
  import opened Bytes
  import opened Intervals
  import opened Uuid
  import opened GtidSet

  // Go refuses to allocate a slice of this many 16-byte elements.
  const MAX_INTERVALS := 0x1000_0000_0000

  // Panic is a negative or impossible slice capacity in the decoder.
  datatype Decoded<+T> = Decoded(value: T, rest: seq<byte>) | DecodeError | DecodePanic

  function Int64Bytes(v: int64): (b: seq<byte>)
    ensures |b| == 8
  {
    LE(Unsigned(v, TWO_63), 8)
  }

  function ReadInt64(b: seq<byte>): (v: int64)
    requires |b| == 8
  {
    FromLEBound(b);
    Capacities();
    Signed(FromLE(b), TWO_63)
  }

  lemma Int64RoundTrip(v: int64, rest: seq<byte>)
    ensures ReadInt64((Int64Bytes(v) + rest)[..8]) == v && (Int64Bytes(v) + rest)[8..] == rest
  {
    Capacities();
    ReadWritten(Unsigned(v, TWO_63), 8);
    assert (Int64Bytes(v) + rest)[..8] == Int64Bytes(v);
  }

  function EncodeIntervals(s: seq<Interval>): (b: seq<byte>)
    ensures |b| == 16 * |s|
  {
    if s == [] then [] else Int64Bytes(s[0].start) + (Int64Bytes(s[0].stop) + EncodeIntervals(s[1..]))
  }

  function DecodeIntervals(data: seq<byte>, n: nat): (s: seq<Interval>)
    requires |data| >= 16 * n
    ensures |s| == n
    decreases n
  {
    if n == 0 then []
    else [Interval(ReadInt64(data[..8]), ReadInt64(data[8..16]))] + DecodeIntervals(data[16..], n - 1)
  }

  predicate Fits(s: seq<Interval>) { |s| < MAX_INTERVALS }

  // UUIDSet.encode
  function EncodeUuidSet(u: Uuid, s: seq<Interval>): (b: seq<byte>)
    requires Fits(s)
    ensures |b| == 24 + 16 * |s|
  {
    u + (Int64Bytes(|s|) + EncodeIntervals(s))
  }

  // UUIDSet.decode. The size check multiplies and adds in int64, so a hostile count
  // can pass it by wrapping; the allocation that follows then panics.
  function DecodeUuidSet(data: seq<byte>): (r: Decoded<UuidSet>)
    ensures r.Decoded? ==> |r.rest| < |data|
  {
    if |data| < 24 then DecodeError
    else
      var n := ReadInt64(data[16..24]);
      if |data| < Wrap64(Wrap64(16 * n) + 24) then DecodeError
      else if n < 0 || n >= MAX_INTERVALS then DecodePanic
      else Decoded(UuidSet(data[..16], DecodeIntervals(data[24..], n)), data[24 + 16 * n..])
  }

  lemma IntervalBinaryRoundTrip(i: Interval, tail: seq<byte>)
    ensures var data := Int64Bytes(i.start) + (Int64Bytes(i.stop) + tail);
            && |data| >= 16 && ReadInt64(data[..8]) == i.start && ReadInt64(data[8..16]) == i.stop
            && data[16..] == tail
  {
    var more := Int64Bytes(i.stop) + tail;
    var data := Int64Bytes(i.start) + more;
    Int64RoundTrip(i.start, more);
    Int64RoundTrip(i.stop, tail);
    assert data[8..] == more;
    assert data[8..16] == more[..8] && data[16..] == more[8..];
  }

  lemma {:induction false} IntervalsBinaryRoundTrip(s: seq<Interval>, rest: seq<byte>)
    ensures DecodeIntervals(EncodeIntervals(s) + rest, |s|) == s
    decreases |s|
  {
    if s != [] {
      var tail := EncodeIntervals(s[1..]) + rest;
      assert EncodeIntervals(s) + rest == Int64Bytes(s[0].start) + (Int64Bytes(s[0].stop) + tail);
      IntervalBinaryRoundTrip(s[0], tail);
      IntervalsBinaryRoundTrip(s[1..], rest);
      assert s == [s[0]] + s[1..];
    }
  }

  lemma UuidSetBinaryRoundTrip(u: Uuid, s: seq<Interval>, rest: seq<byte>)
    requires Fits(s)
    ensures DecodeUuidSet(EncodeUuidSet(u, s) + rest) == Decoded(UuidSet(u, s), rest)
  {
    var data := EncodeUuidSet(u, s) + rest;
    var body := EncodeIntervals(s) + rest;
    assert data[..16] == u && data[16..] == Int64Bytes(|s|) + body;
    Int64RoundTrip(|s|, body);
    assert data[16..24] == data[16..][..8] && data[24..] == data[16..][8..];
    IntervalsBinaryRoundTrip(s, rest);
    assert data[24 + 16 * |s|..] == rest;
  }

  predicate AllFit(m: Sets) { |m| < TWO_63 && forall u :: u in m ==> Fits(m[u]) }

  function EncodeAll(m: Sets, order: seq<Uuid>): (b: seq<byte>)
    requires forall u :: u in order ==> u in m && Fits(m[u])
  {
    if order == [] then [] else EncodeUuidSet(order[0], m[order[0]]) + EncodeAll(m, order[1..])
  }

  // MysqlGTIDSet.Encode, visiting the map in the given order.
  function EncodeSets(m: Sets, order: seq<Uuid>): (b: seq<byte>)
    requires AllFit(m) && forall u :: u in order ==> u in m
  {
    Int64Bytes(|m|) + EncodeAll(m, order)
  }

  function DecodeList(data: seq<byte>, n: int): (r: Decoded<seq<UuidSet>>)
    decreases |data|
  {
    if n <= 0 then Decoded([], data)
    else
      match DecodeUuidSet(data)
      case DecodeError => DecodeError
      case DecodePanic => DecodePanic
      case Decoded(set_, more) =>
        match DecodeList(more, n - 1)
        case Decoded(l, rest) => Decoded([set_] + l, rest)
        case failed => failed
  }

  // DecodeMysqlGTIDSet; rest is what the decoder leaves unread.
  function DecodeSets(data: seq<byte>): (r: Decoded<Sets>)
  {
    if |data| < 8 then DecodeError
    else
      match DecodeList(data[8..], ReadInt64(data[..8]))
      case Decoded(l, rest) => Decoded(AddList(l, map[]), rest)
      case DecodeError => DecodeError
      case DecodePanic => DecodePanic
  }

  lemma {:induction false} DecodeEncoded(m: Sets, order: seq<Uuid>, rest: seq<byte>)
    requires forall u :: u in order ==> u in m && Fits(m[u])
    ensures DecodeList(EncodeAll(m, order) + rest, |order|) == Decoded(ListOf(m, order), rest)
    decreases |order|
  {
    hide DecodeUuidSet, EncodeUuidSet;
    if order == [] {
      assert EncodeAll(m, order) + rest == rest;
    } else {
      var u, tail := order[0], order[1..];
      assert u in order;
      var more := EncodeAll(m, tail) + rest;
      assert EncodeAll(m, order) + rest == EncodeUuidSet(u, m[u]) + more;
      assert ListOf(m, order) == [UuidSet(u, m[u])] + ListOf(m, tail);
      hide EncodeAll, ListOf, Fits;
      UuidSetBinaryRoundTrip(u, m[u], more);
      DecodeEncoded(m, tail, rest);
    }
  }

  // Every set, normalised or not, decodes back from its encoding in any map order,
  // and the decoder reads exactly the encoded bytes.
  lemma BinaryRoundTrip(m: Sets, order: seq<Uuid>, rest: seq<byte>)
    requires AllFit(m) && Visits(order, m)
    ensures DecodeSets(EncodeSets(m, order) + rest) == Decoded(m, rest)
  {
    VisitCount(m, order);
    var body := EncodeAll(m, order) + rest;
    assert EncodeSets(m, order) + rest == Int64Bytes(|m|) + body;
    Int64RoundTrip(|m|, body);
    DecodeEncoded(m, order, rest);
    AddVisited(m, order);
  }

  // The number of bytes written: 8, and 24 plus 16 per interval for every UUID.
  lemma EncodedSize(m: Sets, order: seq<Uuid>)
    requires AllFit(m) && forall u :: u in order ==> u in m
    ensures |EncodeSets(m, order)| == 8 + SizeOf(m, order)
  {
    BodySize(m, order);
  }

  lemma {:induction false} BodySize(m: Sets, order: seq<Uuid>)
    requires forall u :: u in order ==> u in m && Fits(m[u])
    ensures |EncodeAll(m, order)| == SizeOf(m, order)
    decreases |order|
  {
    if order != [] { BodySize(m, order[1..]); }
  }

  function SizeOf(m: Sets, order: seq<Uuid>): (n: nat)
    requires forall u :: u in order ==> u in m
  {
    if order == [] then 0 else 24 + 16 * |m[order[0]]| + SizeOf(m, order[1..])
  }

  // Whatever decodes denotes exactly the ids of the decoded entries, repeated UUIDs included.
  lemma DecodeMeaning(data: seq<byte>)
    requires DecodeSets(data).Decoded?
    ensures |data| >= 8
    ensures var list := DecodeList(data[8..], ReadInt64(data[..8]));
            && list.Decoded?
            && forall u, x :: HasId(DecodeSets(data).value, u, x) <==> Lists(list.value, u, x)
  {
    hide DecodeList, AddList, Lists, HasId;
    var list := DecodeList(data[8..], ReadInt64(data[..8]));
    AddListMeaning(list.value, map[]);
    forall u: Uuid, x ensures !HasId(map[], u, x) { NoIdsInNothing(u, x); }
  }

  lemma NoIdsInNothing(u: Uuid, x: int)
    ensures !HasId(map[], u, x)
  {
  }

  // Where the format puts things: the UUID, the number of intervals, and for each
  // interval its first id and the first id after it.
  lemma {:induction false} IntervalAt(s: seq<Interval>, k: nat)
    requires k < |s|
    ensures var b := EncodeIntervals(s);
            && |b| == 16 * |s|
            && b[16 * k..16 * k + 8] == Int64Bytes(s[k].start)
            && b[16 * k + 8..16 * k + 16] == Int64Bytes(s[k].stop)
    decreases k
  {
    hide Int64Bytes;
    var b, tail := EncodeIntervals(s), EncodeIntervals(s[1..]);
    assert b == Int64Bytes(s[0].start) + (Int64Bytes(s[0].stop) + tail);
    hide EncodeIntervals;
    assert b[16..] == tail;
    if k == 0 {
      assert b[0..8] == Int64Bytes(s[0].start) && b[8..16] == Int64Bytes(s[0].stop);
    } else {
      IntervalAt(s[1..], k - 1);
      assert b[16 * k..16 * k + 8] == tail[16 * (k - 1)..16 * (k - 1) + 8];
      assert b[16 * k + 8..16 * k + 16] == tail[16 * (k - 1) + 8..16 * (k - 1) + 16];
    }
  }

  lemma UuidSetLayout(u: Uuid, s: seq<Interval>)
    requires Fits(s)
    ensures var b := EncodeUuidSet(u, s);
            b[..16] == u && b[16..24] == Int64Bytes(|s|) && b[24..] == EncodeIntervals(s)
  {
    var count, rest := Int64Bytes(|s|), EncodeIntervals(s);
    assert EncodeUuidSet(u, s) == u + (count + rest);
    hide EncodeUuidSet, Int64Bytes, EncodeIntervals;
    ThreeParts(u, count, rest);
  }

  lemma ThreeParts(a: seq<byte>, b: seq<byte>, c: seq<byte>)
    requires |a| == 16 && |b| == 8
    ensures var s := a + (b + c); s[..16] == a && s[16..24] == b && s[24..] == c
  {
  }

  // An int64 is eight bytes, lowest first, in two's complement.
  lemma Int64Layout(v: int64)
    ensures Int64Bytes(v) == LE(if v >= 0 then v else v + TWO_64, 8)
  {
  }

  // ---- truncated input ----

  lemma ShortUuidSet(u: Uuid, s: seq<Interval>, n: nat)
    requires Fits(s) && n < |EncodeUuidSet(u, s)|
    ensures DecodeUuidSet(EncodeUuidSet(u, s)[..n]) == DecodeError
  {
    hide DecodeIntervals, EncodeIntervals, ReadInt64, Int64Bytes;
    var b := EncodeUuidSet(u, s);
    if n >= 24 {
      UuidSetLayout(u, s);
      Int64RoundTrip(|s|, []);
      assert Int64Bytes(|s|) + [] == Int64Bytes(|s|) && Int64Bytes(|s|)[..8] == Int64Bytes(|s|);
      assert b[..n][16..24] == b[16..24];
    }
  }

  lemma {:induction false} ShortList(m: Sets, order: seq<Uuid>, n: nat)
    requires forall u :: u in order ==> u in m && Fits(m[u])
    requires n < |EncodeAll(m, order)|
    ensures DecodeList(EncodeAll(m, order)[..n], |order|) == DecodeError
    decreases |order|
  {
    hide DecodeUuidSet, EncodeUuidSet;
    var u, tail := order[0], order[1..];
    assert u in order;
    var first, more := EncodeUuidSet(u, m[u]), EncodeAll(m, tail);
    var p := EncodeAll(m, order)[..n];
    assert EncodeAll(m, order) == first + more;
    if n < |first| {
      ShortUuidSet(u, m[u], n);
      assert p == first[..n];
    } else {
      assert p == first + more[..n - |first|];
      UuidSetBinaryRoundTrip(u, m[u], more[..n - |first|]);
      ShortList(m, tail, n - |first|);
    }
  }

  // No proper prefix of an encoded set decodes.
  lemma TruncatedIsRefused(m: Sets, order: seq<Uuid>, n: nat)
    requires AllFit(m) && Visits(order, m) && n < |EncodeSets(m, order)|
    ensures DecodeSets(EncodeSets(m, order)[..n]) == DecodeError
  {
    hide DecodeList, EncodeAll, ReadInt64, Int64Bytes;
    var b := EncodeSets(m, order);
    if n >= 8 {
      VisitCount(m, order);
      var body := EncodeAll(m, order)[..n - 8];
      assert b[..n] == Int64Bytes(|m|) + body;
      Int64RoundTrip(|m|, body);
      ShortList(m, order, n - 8);
    }
  }
}
