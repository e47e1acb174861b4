// Result sets on the wire: what the server writes and what the client reads back.
module Resultset {
  import opened Bytes
  import opened LenEnc
  import opened Options
  import opened Packet
  import opened Fields
  import opened Rows
  import opened Builder

  const OK_HEADER: byte := 0x00
  const LOCAL_IN_FILE_HEADER: byte := 0xfb
  const EOF_HEADER: byte := 0xfe
  const ERR_HEADER: byte := 0xff

  // The connection state that ends up in EOF packets; both sides negotiated p41.
  datatype Status = Status(p41: bool, warnings: nat, status: nat)

  predicate StatusFits(st: Status)
  {
    st.warnings < 0x1_0000 && st.status < 0x1_0000
  }

  // ---- server ----

  function EofPacket(st: Status): (b: seq<byte>)
  {
    [EOF_HEADER] + if st.p41 then LE(st.warnings, 2) + LE(st.status, 2) else []
  }

  predicate AllFit(fields: seq<Field>)
  {
    forall i :: 0 <= i < |fields| ==> Fits(fields[i])
  }

  function FieldPackets(fields: seq<Field>): (r: seq<seq<byte>>)
    requires AllFit(fields)
    ensures |r| == |fields|
  {
    seq(|fields|, i requires 0 <= i < |fields| => Dump(fields[i]))
  }

  function ResultPackets(fields: seq<Field>, rows: seq<seq<byte>>, st: Status): (r: seq<seq<byte>>)
    requires AllFit(fields) && |fields| < TWO_64
  {
    [PutLengthEncodedInt(|fields|)] + (FieldPackets(fields) + ([EofPacket(st)] + (rows + [EofPacket(st)])))
  }

  // ---- client ----

  datatype ReadError =
    | Net(e: ConnError) | Malformed | UnexpectedEof | SyntaxError | Panicked | ServerError(data: seq<byte>)

  predicate IsEof(data: seq<byte>)
    requires data != []
  {
    data[0] == EOF_HEADER && |data| <= 5
  }

  datatype Columns =
    | Columns(fields: seq<Field>, rest: seq<byte>, sequence: byte)
    | ColumnsFailed(e: ReadError)

  // readResultColumns from field i on.
  function ReadColumns(input: seq<byte>, s: byte, fields: seq<Field>, i: nat, p41: bool): (r: Columns)
    decreases |input|
  {
    match ReadFrames(input, s)
    case Failed(e, _, _) => ColumnsFailed(Net(e))
    case Done(data, rest, t) =>
      if data == [] then ColumnsFailed(Panicked)
      else if IsEof(data) then
        if p41 && |data| < 5 then ColumnsFailed(Panicked)
        else if i != |fields| then ColumnsFailed(Malformed)
        else Columns(fields, rest, t)
      else if i >= |fields| then ColumnsFailed(Panicked)
      else
        match Parse(fields[i], data)
        case ParseEof => ColumnsFailed(UnexpectedEof)
        case ParseMalformed => ColumnsFailed(Malformed)
        case ParsePanic => ColumnsFailed(Panicked)
        case Parsed(f) => ReadColumns(rest, t, fields[i := f], i + 1, p41)
  }

  datatype RawRows =
    | RawRows(rows: seq<seq<byte>>, warnings: nat, status: nat, rest: seq<byte>, sequence: byte)
    | RawRowsFailed(e: ReadError)

  // The packet loop of readResultRows with the rows read so far.
  function ReadRawRows(input: seq<byte>, s: byte, rows: seq<seq<byte>>, p41: bool): (r: RawRows)
    decreases |input|
  {
    match ReadFrames(input, s)
    case Failed(e, _, _) => RawRowsFailed(Net(e))
    case Done(data, rest, t) =>
      if data == [] then RawRowsFailed(Panicked)
      else if IsEof(data) then
        if !p41 then RawRows(rows, 0, 0, rest, t)
        else if |data| < 5 then RawRowsFailed(Panicked)
        else RawRows(rows, FromLE(data[1..3]), FromLE(data[3..5]), rest, t)
      else if data[0] == ERR_HEADER then RawRowsFailed(ServerError(data))
      else ReadRawRows(rest, t, rows + [data], p41)
  }

  datatype Values = Values(v: seq<seq<FieldValue>>) | ValuesFailed(e: ReadError)

  // The parse loop of readResultRows with the rows parsed so far.
  function ParseRows(fields: seq<Field>, rows: seq<seq<byte>>, done: seq<seq<FieldValue>>): (r: Values)
    requires |done| <= |rows|
    decreases |rows| - |done|
  {
    if |done| == |rows| then Values(done)
    else
      match ParseFrom(fields, rows[|done|], [])
      case RowEof => ValuesFailed(UnexpectedEof)
      case RowSyntax => ValuesFailed(SyntaxError)
      case RowPanic => ValuesFailed(Panicked)
      case Row(v) => ParseRows(fields, rows, done + [v])
  }

  // An OK packet is handled elsewhere.
  datatype Result =
    | Result(fields: seq<Field>, rows: seq<seq<byte>>, values: seq<seq<FieldValue>>,
             warnings: nat, status: nat, rest: seq<byte>, sequence: byte)
    | OkPacket(data: seq<byte>)
    | ReadFailed(e: ReadError)

  // The fields of a result set taken from a pool that held old ones.
  function NewFields(pooled: seq<Field>, n: nat): (r: seq<Field>)
    ensures |r| == n
  {
    if |pooled| < n then seq(n, _ => NewField([], 0)) else pooled[..n]
  }

  function ReadResult(input: seq<byte>, s: byte, pooled: seq<Field>, p41: bool): (r: Result)
  {
    match ReadFrames(input, s)
    case Failed(e, _, _) => ReadFailed(Net(e))
    case Done(data, rest, t) =>
      if data == [] then ReadFailed(Panicked)
      else if data[0] == OK_HEADER then OkPacket(data)
      else if data[0] == ERR_HEADER then ReadFailed(ServerError(data))
      else if data[0] == LOCAL_IN_FILE_HEADER then ReadFailed(Malformed)
      else ReadResultset(data, rest, t, pooled, p41)
  }

  function ReadResultset(data: seq<byte>, rest: seq<byte>, t: byte, pooled: seq<Field>, p41: bool): (r: Result)
  {
    match LengthEncodedInt(data)
    case IntPanic => ReadFailed(Panicked)
    case LenInt(count, _, n) =>
      if n != |data| then ReadFailed(Malformed)
      else if count >= TWO_63 then ReadFailed(Panicked)
      else
        match ReadColumns(rest, t, NewFields(pooled, count), 0, p41)
        case ColumnsFailed(e) => ReadFailed(e)
        case Columns(fields, rest', t') => ReadRows(fields, rest', t', p41)
  }

  function ReadRows(fields: seq<Field>, input: seq<byte>, s: byte, p41: bool): (r: Result)
  {
    match ReadRawRows(input, s, [], p41)
    case RawRowsFailed(e) => ReadFailed(e)
    case RawRows(rows, warnings, status, rest, t) =>
      match ParseRows(fields, rows, [])
      case ValuesFailed(e) => ReadFailed(e)
      case Values(v) => Result(fields, rows, v, warnings, status, rest, t)
  }

  // ---- columns read back ----

  // The fields as parsed into objects that held cur, from field i on.
  function Received(cur: seq<Field>, fields: seq<Field>, i: nat): (r: seq<Field>)
    requires |cur| == |fields|
    ensures |r| == |fields|
  {
    seq(|fields|, k requires 0 <= k < |fields| =>
      if k < i then cur[k] else fields[k].(defaultValueLength := cur[k].defaultValueLength))
  }

  lemma FirstByte(f: Field)
    requires Fits(f)
    ensures |Dump(f)| > 0 && Dump(f)[0] == 3
  {
    assert PutLengthEncodedInt(3) == [3];
    assert PutLengthEncodedString(DEF)[0] == 3;
  }

  lemma EofIsEof(st: Status)
    ensures var e := EofPacket(st); e != [] && IsEof(e) && (st.p41 ==> |e| == 5)
  {
  }

  lemma {:induction false} ColumnsRoundTrip(fields: seq<Field>, i: nat, cur: seq<Field>, st: Status,
                                            tail: seq<seq<byte>>, s: byte, suffix: seq<byte>)
    requires AllFit(fields) && i <= |fields| == |cur|
    requires forall k :: 0 <= k < |fields| ==> fields[k].defaultValue == None
    ensures var packets := FieldPackets(fields)[i..] + ([EofPacket(st)] + tail);
            var t := StreamSeq(FieldPackets(fields)[i..] + [EofPacket(st)], s);
            ReadColumns(Stream(packets, s) + suffix, s, cur, i, st.p41)
            == Columns(Received(cur, fields, i), Stream(tail, t) + suffix, t)
    decreases |fields| - i
  {
    hide Stream, ReadFrames, Dump, Parse, SeqAfter, EofPacket, Fits;
    var all := FieldPackets(fields);
    var packets := all[i..] + ([EofPacket(st)] + tail);
    StreamRead(packets, s, suffix);
    var t := SeqAfter(|packets[0]|, s);
    if i == |fields| {
      assert packets == [EofPacket(st)] + tail && packets[1..] == tail;
      assert all[i..] + [EofPacket(st)] == [EofPacket(st)];
      EofIsEof(st);
      assert Received(cur, fields, i) == cur;
    } else {
      var f := fields[i];
      assert packets[0] == Dump(f);
      assert packets[1..] == all[i + 1..] + ([EofPacket(st)] + tail);
      assert (all[i..] + [EofPacket(st)])[1..] == all[i + 1..] + [EofPacket(st)];
      FirstByte(f);
      FieldRoundTrip(cur[i], f);
      var cur' := cur[i := f.(defaultValueLength := cur[i].defaultValueLength)];
      ColumnsRoundTrip(fields, i + 1, cur', st, tail, t, suffix);
      assert Received(cur', fields, i + 1) == Received(cur, fields, i);
    }
  }

  // ---- rows read back ----

  // A row packet that the client takes for a row: not empty, not an ERR packet, and
  // longer than five bytes if it starts like an EOF packet.
  predicate IsRow(row: seq<byte>)
  {
    row != [] && row[0] != 0xff && (row[0] == 0xfe ==> |row| > 5)
  }

  // Raw rows come back if and only if each of them is taken for a row.
  lemma {:induction false} RawRowsRoundTrip(rows: seq<seq<byte>>, done: seq<seq<byte>>, st: Status,
                                            s: byte, suffix: seq<byte>)
    requires StatusFits(st)
    ensures var packets := rows + [EofPacket(st)];
            var r := ReadRawRows(Stream(packets, s) + suffix, s, done, st.p41);
            var expected := RawRows(done + rows, if st.p41 then st.warnings else 0,
                                    if st.p41 then st.status else 0, suffix, StreamSeq(packets, s));
            && (r == expected <==> forall k :: 0 <= k < |rows| ==> IsRow(rows[k]))
            && (r.RawRows? && r.rows == done + rows ==> r == expected)
    decreases |rows|
  {
    hide ReadFrames, SeqAfter, EofPacket;
    var packets := rows + [EofPacket(st)];
    StreamRead(packets, s, suffix);
    var t := SeqAfter(|packets[0]|, s);
    if rows == [] {
      EofReads(st);
      assert packets[1..] == [] && Stream([], t) + suffix == suffix;
      assert done + rows == done;
    } else {
      assert packets[0] == rows[0] && packets[1..] == rows[1..] + [EofPacket(st)];
      if IsRow(rows[0]) {
        RawRowsRoundTrip(rows[1..], done + [rows[0]], st, t, suffix);
        assert done + [rows[0]] + rows[1..] == done + rows;
        assert forall k :: 0 < k < |rows| ==> rows[k] == rows[1..][k - 1];
      }
    }
  }

  lemma EofReads(st: Status)
    requires StatusFits(st)
    ensures var e := EofPacket(st);
            && e != [] && IsEof(e)
            && (st.p41 ==> |e| == 5 && FromLE(e[1..3]) == st.warnings && FromLE(e[3..5]) == st.status)
  {
    var e := EofPacket(st);
    if st.p41 {
      Capacities();
      ReadWritten(st.warnings, 2);
      ReadWritten(st.status, 2);
      assert e[1..3] == LE(st.warnings, 2) && e[3..5] == LE(st.status, 2);
    }
  }

  // ---- whole result sets ----

  lemma CountPacket(n: nat)
    requires n < TWO_64
    ensures var b := PutLengthEncodedInt(n);
            && LengthEncodedInt(b) == LenInt(n, false, |b|)
            && (b[0] == OK_HEADER <==> n == 0)
            && b[0] != ERR_HEADER && b[0] != LOCAL_IN_FILE_HEADER
  {
    IntRoundTrip(n, []);
    assert PutLengthEncodedInt(n) + [] == PutLengthEncodedInt(n);
  }

  // No packet of a result set with rows that are taken for rows is mistaken for another
  // kind: the client parses exactly the rows that were sent, with exactly the fields.
  lemma ResultRoundTrip(fields: seq<Field>, rows: seq<seq<byte>>, st: Status, pooled: seq<Field>,
                        s: byte, suffix: seq<byte>)
    requires AllFit(fields) && 1 <= |fields| < TWO_63 && StatusFits(st)
    requires forall k :: 0 <= k < |fields| ==> fields[k].defaultValue == None
    requires forall k :: 0 <= k < |rows| ==> IsRow(rows[k])
    ensures var packets := ResultPackets(fields, rows, st);
            var got := Received(NewFields(pooled, |fields|), fields, 0);
            ReadResult(Stream(packets, s) + suffix, s, pooled, st.p41) ==
            match ParseRows(got, rows, [])
            case ValuesFailed(e) => ReadFailed(e)
            case Values(v) => Result(got, rows, v, if st.p41 then st.warnings else 0,
                                     if st.p41 then st.status else 0, suffix, StreamSeq(packets, s))
  {
    hide Stream, ReadFrames, PutLengthEncodedInt, LengthEncodedInt, FieldPackets, EofPacket, SeqAfter,
         ReadColumns, ReadRawRows, ParseRows, StreamSeq, Received, NewFields, Fits, IsRow;
    var count, all, eof := PutLengthEncodedInt(|fields|), FieldPackets(fields), EofPacket(st);
    var tail := rows + [eof];
    var packets := ResultPackets(fields, rows, st);
    CountPacket(|fields|);
    StreamRead(packets, s, suffix);
    assert packets[0] == count && packets[1..] == all + ([eof] + tail);
    var t := SeqAfter(|count|, s);
    assert all[0..] == all;
    ColumnsRoundTrip(fields, 0, NewFields(pooled, |fields|), st, tail, t, suffix);
    var t' := StreamSeq(all + [eof], t);
    RawRowsRoundTrip(rows, [], st, t', suffix);
    assert [] + rows == rows;
    assert packets == [count] + (all + ([eof] + tail));
    StreamParts(count, all, eof, tail, s);
  }

  lemma StreamParts(first: seq<byte>, all: seq<seq<byte>>, eof: seq<byte>, tail: seq<seq<byte>>, s: byte)
    ensures StreamSeq([first] + (all + ([eof] + tail)), s)
         == StreamSeq(tail, StreamSeq(all + [eof], SeqAfter(|first|, s)))
  {
    hide SeqAfter;
    assert all + ([eof] + tail) == (all + [eof]) + tail;
    StreamConcat([first], (all + [eof]) + tail, s);
    OneStream(first, s);
    StreamConcat(all + [eof], tail, SeqAfter(|first|, s));
  }

  lemma OneStream(p: seq<byte>, s: byte)
    ensures Stream([p], s) == Frames(p, s)
    ensures StreamSeq([p], s) == SeqAfter(|p|, s)
  {
    hide Frames, SeqAfter;
    assert StreamSeq([p][1..], SeqAfter(|p|, s)) == SeqAfter(|p|, s);
  }

  // Without columns the first packet is an OK packet.
  lemma NoColumns(rows: seq<seq<byte>>, st: Status, pooled: seq<Field>, s: byte, suffix: seq<byte>)
    ensures ReadResult(Stream(ResultPackets([], rows, st), s) + suffix, s, pooled, st.p41) == OkPacket([0])
  {
    hide Stream, ReadFrames, FieldPackets;
    CountPacket(0);
    StreamRead(ResultPackets([], rows, st), s, suffix);
  }

  // ---- other answers ----

  // A first packet with one of the special headers is never taken for a result set.
  lemma OtherAnswers(data: seq<byte>, s: byte, suffix: seq<byte>, pooled: seq<Field>, p41: bool)
    requires data != []
    ensures var r := ReadResult(Frames(data, s) + suffix, s, pooled, p41);
            && (data[0] == 0xff ==> r == ReadFailed(ServerError(data)))
            && (data[0] == 0x00 ==> r == OkPacket(data))
            && (data[0] == 0xfb ==> r == ReadFailed(Malformed))
  {
    hide ReadFrames, Frames, SeqAfter, ReadResultset;
    FramesRoundTrip(data, s, suffix);
  }

  // A column count with anything behind it is malformed, and one that is no Go int panics.
  lemma BadCount(n: nat, extra: seq<byte>, s: byte, suffix: seq<byte>, pooled: seq<Field>, p41: bool)
    requires 1 <= n < TWO_64 && (extra != [] || n >= TWO_63)
    ensures ReadResult(Frames(PutLengthEncodedInt(n) + extra, s) + suffix, s, pooled, p41) ==
            ReadFailed(if extra != [] then Malformed else Panicked)
  {
    CountPacket(n);
    IntRoundTrip(n, extra);
    hide ReadFrames, Frames, SeqAfter, PutLengthEncodedInt, LengthEncodedInt, ReadColumns;
    FramesRoundTrip(PutLengthEncodedInt(n) + extra, s, suffix);
  }

  // An ERR packet among the rows ends the reading with that error.
  lemma {:induction false} ErrAmongRows(rows: seq<seq<byte>>, err: seq<byte>, done: seq<seq<byte>>, p41: bool,
                                        s: byte, suffix: seq<byte>)
    requires (forall k :: 0 <= k < |rows| ==> IsRow(rows[k])) && err != [] && err[0] == 0xff
    ensures ReadRawRows(Stream(rows + [err], s) + suffix, s, done, p41) == RawRowsFailed(ServerError(err))
    decreases |rows|
  {
    hide ReadFrames, SeqAfter, Stream;
    var packets := rows + [err];
    StreamRead(packets, s, suffix);
    var t := SeqAfter(|packets[0]|, s);
    if rows != [] {
      assert packets[0] == rows[0] && packets[1..] == rows[1..] + [err];
      ErrAmongRows(rows[1..], err, done + [rows[0]], p41, t, suffix);
    }
  }

  // A server that fails while sending rows: the client gets the error, not some rows.
  lemma ErrorResult(fields: seq<Field>, rows: seq<seq<byte>>, err: seq<byte>, st: Status, pooled: seq<Field>,
                    s: byte, suffix: seq<byte>)
    requires AllFit(fields) && 1 <= |fields| < TWO_63
    requires forall k :: 0 <= k < |fields| ==> fields[k].defaultValue == None
    requires (forall k :: 0 <= k < |rows| ==> IsRow(rows[k])) && err != [] && err[0] == 0xff
    ensures var packets := [PutLengthEncodedInt(|fields|)]
                           + (FieldPackets(fields) + ([EofPacket(st)] + (rows + [err])));
            ReadResult(Stream(packets, s) + suffix, s, pooled, st.p41) == ReadFailed(ServerError(err))
  {
    hide Stream, ReadFrames, PutLengthEncodedInt, LengthEncodedInt, FieldPackets, EofPacket, SeqAfter,
         ReadColumns, ReadRawRows, ParseRows, StreamSeq, Received, NewFields, Fits, IsRow;
    var count, all, eof := PutLengthEncodedInt(|fields|), FieldPackets(fields), EofPacket(st);
    var tail := rows + [err];
    var packets := [count] + (all + ([eof] + tail));
    CountPacket(|fields|);
    StreamRead(packets, s, suffix);
    assert packets[0] == count && packets[1..] == all + ([eof] + tail);
    var t := SeqAfter(|count|, s);
    assert all[0..] == all;
    ColumnsRoundTrip(fields, 0, NewFields(pooled, |fields|), st, tail, t, suffix);
    ErrAmongRows(rows, err, [], st.p41, StreamSeq(all + [eof], t), suffix);
  }

  // Fewer columns than announced are malformed; one too many indexes past the fields.
  lemma {:induction false} WrongCount(fields: seq<Field>, i: nat, cur: seq<Field>, st: Status,
                                      tail: seq<seq<byte>>, s: byte, suffix: seq<byte>)
    requires AllFit(fields) && i <= |fields| && i <= |cur| && |fields| != |cur|
    requires forall k :: 0 <= k < |fields| ==> fields[k].defaultValue == None
    ensures ReadColumns(Stream(FieldPackets(fields)[i..] + ([EofPacket(st)] + tail), s) + suffix, s, cur, i, st.p41)
         == ColumnsFailed(if |fields| < |cur| then Malformed else Panicked)
    decreases |fields| - i
  {
    hide Stream, ReadFrames, Dump, Parse, SeqAfter, EofPacket, Fits;
    var all := FieldPackets(fields);
    var packets := all[i..] + ([EofPacket(st)] + tail);
    StreamRead(packets, s, suffix);
    if i == |fields| {
      assert packets == [EofPacket(st)] + tail;
      EofIsEof(st);
    } else {
      var f := fields[i];
      assert packets[0] == Dump(f);
      FirstByte(f);
      if i < |cur| {
        assert packets[1..] == all[i + 1..] + ([EofPacket(st)] + tail);
        FieldRoundTrip(cur[i], f);
        var cur' := cur[i := f.(defaultValueLength := cur[i].defaultValueLength)];
        WrongCount(fields, i + 1, cur', st, tail, SeqAfter(|packets[0]|, s), suffix);
      }
    }
  }

  // ---- built result sets ----

  lemma BuiltRowIsRow(vs: seq<Value>)
    requires RowInRange(vs) && vs != []
    ensures IsRow(EncodeRow(vs))
  {
    var v := vs[0];
    assert v in vs;
    FormattedFits(v);
    var e := EncodeValue(v);
    assert EncodeRow(vs)[0] == e[0] && |EncodeRow(vs)| >= |e|;
    match FormatTextValue(v)
    case None =>
    case Some(b) => StringFirstByte(b);
  }

  predicate AllRowsFit(fields: seq<Field>, values: seq<seq<Value>>)
    requires Rectangular(values, |fields|)
  {
    forall i :: 0 <= i < |values| ==> FitsAll(fields, values[i])
  }

  function BackRows(fields: seq<Field>, values: seq<seq<Value>>): (r: seq<seq<FieldValue>>)
    requires Rectangular(values, |fields|) && AllRowsFit(fields, values)
  {
    seq(|values|, i requires 0 <= i < |values| => BackAll(fields, values[i]))
  }

  // Built rows parse to their values, or fail when one of them does not fit its column.
  lemma {:induction false} ParseBuilt(fields: seq<Field>, values: seq<seq<Value>>, done: seq<seq<FieldValue>>)
    requires AllInRange(values) && Rectangular(values, |fields|)
    requires forall i :: 0 <= i < |values| ==> SuitsAll(fields, values[i])
    requires |done| <= |values|
    requires forall i :: 0 <= i < |done| ==> FitsAll(fields, values[i]) && done[i] == BackAll(fields, values[i])
    ensures ParseRows(fields, EncodeRows(values), done) ==
            if AllRowsFit(fields, values) then Values(BackRows(fields, values)) else ValuesFailed(SyntaxError)
    decreases |values| - |done|
  {
    hide EncodeRow, ParseFrom, SuitsAll, FitsAll, BackAll, InRange;
    var k := |done|;
    if k < |values| {
      assert RowInRange(values[k]);
      assert fields[0..] == fields;
      RowRoundTrip(fields, values[k], []);
      if FitsAll(fields, values[k]) {
        assert [] + BackAll(fields, values[k]) == BackAll(fields, values[k]);
        ParseBuilt(fields, values, done + [BackAll(fields, values[k])]);
      }
    } else if AllRowsFit(fields, values) {
      assert done == BackRows(fields, values);
    }
  }

  // What a client reads when a server sends built values: the fields, the bytes and the
  // values with every NULL in place, as long as each number is in the range that its
  // column announces, and an error otherwise.
  lemma TextResultRoundTrip(names: seq<seq<byte>>, values: seq<seq<Value>>, st: Status, pooled: seq<Field>,
                            s: byte, suffix: seq<byte>)
    requires AllInRange(values) && Buildable(|names|, values) && StatusFits(st)
    requires 1 <= |names| < TWO_63 && forall j :: 0 <= j < |names| ==> FitsSlice(names[j])
    ensures var fields, rows := FieldsFor(names, values), EncodeRows(values);
            && AllFit(fields)
            && var packets := ResultPackets(fields, rows, st);
               var got := Received(NewFields(pooled, |fields|), fields, 0);
               ReadResult(Stream(packets, s) + suffix, s, pooled, st.p41) ==
               if AllRowsFit(got, values)
               then Result(got, rows, BackRows(got, values), if st.p41 then st.warnings else 0,
                           if st.p41 then st.status else 0, suffix, StreamSeq(packets, s))
               else ReadFailed(SyntaxError)
  {
    hide Stream, StreamSeq, ReadResult, EncodeRow, NewFields, ParseRows, ResultPackets, InRange;
    var fields, rows := FieldsFor(names, values), EncodeRows(values);
    var got := Received(NewFields(pooled, |fields|), fields, 0);
    forall k | 0 <= k < |rows| ensures IsRow(rows[k]) {
      assert RowInRange(values[k]);
      BuiltRowIsRow(values[k]);
    }
    forall i | 0 <= i < |values| ensures SuitsAll(got, values[i]) {
      BuiltSuits(names, values, i);
    }
    ResultRoundTrip(fields, rows, st, pooled, s, suffix);
    ParseBuilt(got, values, []);
  }

  // The received fields are typed as the sent ones, so values fit and come back alike.
  lemma SameTypesSameValues(fields: seq<Field>, got: seq<Field>, vs: seq<Value>)
    requires |fields| == |got| == |vs| && FitsAll(fields, vs)
    requires forall k :: 0 <= k < |fields| ==> got[k].typ == fields[k].typ && got[k].flag == fields[k].flag
    ensures FitsAll(got, vs) && BackAll(got, vs) == BackAll(fields, vs)
  {
    forall k | 0 <= k < |vs| ensures FitsColumn(got[k], vs[k]) && Back(got[k], vs[k]) == Back(fields[k], vs[k]) {
      assert FitsColumn(fields[k], vs[k]);
    }
  }

  // Where every column keeps its values they come back as exactly what they were.
  lemma KeptRoundTrip(names: seq<seq<byte>>, values: seq<seq<Value>>, st: Status, pooled: seq<Field>,
                      s: byte, suffix: seq<byte>)
    requires AllInRange(values) && Buildable(|names|, values) && StatusFits(st)
    requires 1 <= |names| < TWO_63 && forall j :: 0 <= j < |names| ==> FitsSlice(names[j])
    requires forall j :: 0 <= j < |names| ==> Keeps(Column(values, |names|, j))
    ensures var fields := FieldsFor(names, values);
            && AllFit(fields)
            && var r := ReadResult(Stream(ResultPackets(fields, EncodeRows(values), st), s) + suffix,
                                   s, pooled, st.p41);
            && r.Result? && r.rest == suffix
            && |r.fields| == |names| && |r.values| == |values|
            && (forall j :: 0 <= j < |names| ==>
                  r.fields[j].(defaultValueLength := 0) == fields[j] && r.fields[j].name == names[j])
            && (forall i :: 0 <= i < |values| ==> |r.values[i]| == |names|)
            && (forall i, j :: 0 <= i < |values| && 0 <= j < |names| ==>
                  r.values[i][j] == Exact(values[i][j]))
  {
    hide Stream, StreamSeq, ReadResult, EncodeRow, NewFields, ResultPackets, InRange, Keeps,
         FitsAll, BackAll;
    var fields := FieldsFor(names, values);
    var got := Received(NewFields(pooled, |fields|), fields, 0);
    TextResultRoundTrip(names, values, st, pooled, s, suffix);
    forall i | 0 <= i < |values|
      ensures FitsAll(got, values[i])
      ensures BackAll(got, values[i]) == seq(|names|, j requires 0 <= j < |names| => Exact(values[i][j]))
    {
      KeptIsExact(names, values, i);
      SameTypesSameValues(fields, got, values[i]);
    }
  }

  // The client has the values that were built, each as what it was.
  predicate ReadExactly(r: Result, values: seq<seq<Value>>)
  {
    && r.Result? && |r.values| == |values|
    && (forall i :: 0 <= i < |values| ==> |r.values[i]| == |values[i]|)
    && (forall i, j :: 0 <= i < |values| && 0 <= j < |values[i]| ==> r.values[i][j] == Exact(values[i][j]))
  }

  // Every value comes back as what it was if and only if no column mixes signs or holds
  // an empty string without storage.
  lemma ExactIff(names: seq<seq<byte>>, values: seq<seq<Value>>, st: Status, pooled: seq<Field>,
                 s: byte, suffix: seq<byte>)
    requires AllInRange(values) && Buildable(|names|, values) && StatusFits(st)
    requires 1 <= |names| < TWO_63 && forall j :: 0 <= j < |names| ==> FitsSlice(names[j])
    ensures var fields := FieldsFor(names, values);
            && AllFit(fields)
            && var r := ReadResult(Stream(ResultPackets(fields, EncodeRows(values), st), s) + suffix,
                                   s, pooled, st.p41);
            ReadExactly(r, values) <==> forall j :: 0 <= j < |names| ==> Keeps(Column(values, |names|, j))
  {
    hide Stream, StreamSeq, ReadResult, EncodeRow, NewFields, ResultPackets, InRange, Keeps;
    if forall j :: 0 <= j < |names| ==> Keeps(Column(values, |names|, j)) {
      KeptRoundTrip(names, values, st, pooled, s, suffix);
    } else {
      var j :| 0 <= j < |names| && !Keeps(Column(values, |names|, j));
      var i := NotKept(names, values, j);
      TextResultRoundTrip(names, values, st, pooled, s, suffix);
      var fields := FieldsFor(names, values);
      var got := Received(NewFields(pooled, |fields|), fields, 0);
      NotExactThere(fields[j], got[j], values[i][j]);
      assert AllRowsFit(got, values) ==> FitsAll(got, values[i]) && FitsColumn(got[j], values[i][j]);
    }
  }

  lemma NotExactThere(f: Field, g: Field, v: Value)
    requires FitsColumn(f, v) ==> Back(f, v) != Exact(v)
    requires f.typ == g.typ && f.flag == g.flag
    ensures FitsColumn(g, v) ==> Back(g, v) != Exact(v)
  {
  }

  // A negative number below an unsigned one builds without an error, but the client
  // cannot read the result set.
  lemma MixedSigns(st: Status, pooled: seq<Field>, s: byte, suffix: seq<byte>)
    requires StatusFits(st)
    ensures var values := [[Uint(1)], [Int(-1)]];
            && AllInRange(values) && Buildable(1, values)
            && var fields := FieldsFor([[]], values);
            && AllFit(fields)
            && ReadResult(Stream(ResultPackets(fields, EncodeRows(values), st), s) + suffix,
                          s, pooled, st.p41) == ReadFailed(SyntaxError)
  {
    hide Stream, StreamSeq, ReadResult, EncodeRow, NewFields, ResultPackets;
    var values := [[Uint(1)], [Int(-1)]];
    var col := Column(values, 1, 0);
    assert col == [Uint(1), Int(-1)];
    assert FirstTyped(col) == Uint(1);
    assert Buildable(1, values);
    var names: seq<seq<byte>> := [[]];
    TextResultRoundTrip(names, values, st, pooled, s, suffix);
    var fields := FieldsFor(names, values);
    var got := Received(NewFields(pooled, |fields|), fields, 0);
    assert got[0].flag == 161 && IsUnsigned(got[0]);
    assert !FitsColumn(got[0], values[1][0]);
    assert !FitsAll(got, values[1]);
  }

  // An empty string without storage is built without an error and arrives as NULL.
  lemma EmptyStringBecomesNull(st: Status, pooled: seq<Field>, s: byte, suffix: seq<byte>)
    requires StatusFits(st)
    ensures var values := [[NilString]];
            && AllInRange(values) && Buildable(1, values)
            && var fields := FieldsFor([[]], values);
            && AllFit(fields)
            && var r := ReadResult(Stream(ResultPackets(fields, EncodeRows(values), st), s) + suffix,
                                   s, pooled, st.p41);
            r.Result? && r.values == [[FNull]] && Exact(values[0][0]) == FString([])
  {
    hide Stream, StreamSeq, ReadResult, EncodeRow, NewFields, ResultPackets;
    var values := [[NilString]];
    var col := Column(values, 1, 0);
    assert col == [NilString];
    assert FirstTyped(col) == NilString;
    assert Buildable(1, values);
    var names: seq<seq<byte>> := [[]];
    TextResultRoundTrip(names, values, st, pooled, s, suffix);
    var fields := FieldsFor(names, values);
    var got := Received(NewFields(pooled, |fields|), fields, 0);
    assert FitsAll(got, values[0]) && AllRowsFit(got, values);
    assert BackAll(got, values[0]) == [FNull];
    assert BackRows(got, values) == [[FNull]];
  }

  // ---- the server's loops ----

  datatype Wire = Wire(out: seq<byte>, room: nat, sequence: byte)

  function Snap(conn: Conn): (w: Wire)
    reads conn
  {
    Wire(conn.out, conn.room, conn.sequence)
  }

  // Either all packets went out, or the prefix of their bytes that the network took.
  ghost predicate Wrote(a: Wire, b: Wire, ok: bool, packets: seq<seq<byte>>)
  {
    var all := Stream(packets, a.sequence);
    && ok == (|all| <= a.room)
    && (ok ==> b == Wire(a.out + all, a.room - |all|, StreamSeq(packets, a.sequence)))
    && (!ok ==> b.out == a.out + all[..a.room] && b.room == 0)
  }

  lemma WroteThen(a: Wire, b: Wire, c: Wire, p: seq<seq<byte>>, q: seq<seq<byte>>, ok: bool)
    requires Wrote(a, b, true, p) && Wrote(b, c, ok, q)
    ensures Wrote(a, c, ok, p + q)
  {
    hide Stream, StreamSeq;
    StreamConcat(p, q, a.sequence);
    var first, second := Stream(p, a.sequence), Stream(q, b.sequence);
    assert (a.out + first) + second == a.out + (first + second);
    if !ok {
      assert (first + second)[..a.room] == first + second[..b.room];
    }
  }

  lemma WroteNoMore(a: Wire, b: Wire, p: seq<seq<byte>>, q: seq<seq<byte>>)
    requires Wrote(a, b, false, p)
    ensures Wrote(a, b, false, p + q)
  {
    hide Stream, StreamSeq;
    StreamConcat(p, q, a.sequence);
    var first := Stream(p, a.sequence);
    assert (first + Stream(q, StreamSeq(p, a.sequence)))[..a.room] == first[..a.room];
  }

  method WriteOne(conn: Conn, payload: seq<byte>) returns (ok: bool)
    modifies conn
    ensures Wrote(old(Snap(conn)), Snap(conn), ok, [payload])
  {
    var data := new byte[4 + |payload|](_ => 0);
    forall i | 0 <= i < |payload| {
      data[4 + i] := payload[i];
    }
    assert data[4..] == payload;
    ok := conn.WritePacket(data);
    OneStream(payload, old(conn.sequence));
  }

  // The loops over fields and rows: one packet each, until a write fails.
  method WritePackets(conn: Conn, packets: seq<seq<byte>>) returns (ok: bool)
    modifies conn
    ensures Wrote(old(Snap(conn)), Snap(conn), ok, packets)
  {
    hide Wrote;
    ghost var start := Snap(conn);
    assert Wrote(start, Snap(conn), true, packets[..0]) by { NothingWrote(start); }
    ok := true;
    for i := 0 to |packets|
      invariant ok && Wrote(start, Snap(conn), true, packets[..i])
    {
      ghost var before := Snap(conn);
      ok := WriteOne(conn, packets[i]);
      WroteThen(start, before, Snap(conn), packets[..i], [packets[i]], ok);
      assert packets[..i] + [packets[i]] == packets[..i + 1];
      if !ok {
        WroteNoMore(start, Snap(conn), packets[..i + 1], packets[i + 1..]);
        assert packets[..i + 1] + packets[i + 1..] == packets;
        return;
      }
    }
    assert packets[..|packets|] == packets;
  }

  lemma NothingWrote(a: Wire)
    ensures Wrote(a, a, true, [])
  {
    assert a.out + [] == a.out;
  }

  method WriteFieldList(conn: Conn, fields: seq<Field>, st: Status) returns (ok: bool)
    requires AllFit(fields)
    modifies conn
    ensures Wrote(old(Snap(conn)), Snap(conn), ok, FieldPackets(fields) + [EofPacket(st)])
  {
    hide Wrote, FieldPackets, EofPacket;
    ghost var start := Snap(conn);
    ok := WritePackets(conn, FieldPackets(fields));
    ghost var middle := Snap(conn);
    if !ok {
      WroteNoMore(start, middle, FieldPackets(fields), [EofPacket(st)]);
      return;
    }
    ok := WriteOne(conn, EofPacket(st));
    WroteThen(start, middle, Snap(conn), FieldPackets(fields), [EofPacket(st)], ok);
  }

  method WriteResultset(conn: Conn, fields: seq<Field>, rows: seq<seq<byte>>, st: Status) returns (ok: bool)
    requires AllFit(fields) && |fields| < TWO_64
    modifies conn
    ensures Wrote(old(Snap(conn)), Snap(conn), ok, ResultPackets(fields, rows, st))
  {
    hide Wrote, FieldPackets, EofPacket, PutLengthEncodedInt, AllFit;
    ghost var start := Snap(conn);
    ghost var packets := ResultPackets(fields, rows, st);
    var count := [PutLengthEncodedInt(|fields|)];
    ghost var list := count + (FieldPackets(fields) + [EofPacket(st)]);
    ghost var body := list + rows;
    assert packets == body + [EofPacket(st)] && packets == list + (rows + [EofPacket(st)]);
    assert packets == count + packets[1..];
    ok := WriteOne(conn, count[0]);
    ghost var w1 := Snap(conn);
    if !ok {
      WroteNoMore(start, w1, count, packets[1..]);
      return;
    }
    ok := WriteFieldList(conn, fields, st);
    ghost var w2 := Snap(conn);
    WroteThen(start, w1, w2, count, FieldPackets(fields) + [EofPacket(st)], ok);
    if !ok {
      WroteNoMore(start, w2, list, rows + [EofPacket(st)]);
      return;
    }
    ok := WritePackets(conn, rows);
    ghost var w3 := Snap(conn);
    WroteThen(start, w2, w3, list, rows, ok);
    if !ok {
      WroteNoMore(start, w3, body, [EofPacket(st)]);
      return;
    }
    ok := WriteOne(conn, EofPacket(st));
    WroteThen(start, w3, Snap(conn), body, [EofPacket(st)], ok);
  }

  // ---- the client's loops ----

  method ReadResultColumns(conn: Conn, initial: seq<Field>, p41: bool) returns (r: Columns)
    requires conn.Valid()
    modifies conn
    ensures r == ReadColumns(old(conn.input), old(conn.sequence), initial, 0, p41)
    ensures r.Columns? ==> conn.input == r.rest && conn.sequence == r.sequence
  {
    hide ReadFrames, Parse;
    var fields, i, rawPkg: seq<byte> := initial, 0, [];
    while true
      invariant 0 <= i
      invariant ReadColumns(old(conn.input), old(conn.sequence), initial, 0, p41)
             == ReadColumns(conn.input, conn.sequence, fields, i, p41)
      decreases |conn.input|
    {
      var error, raw := conn.ReadPacketTo(rawPkg);
      if error.Some? {
        return ColumnsFailed(Net(error.value));
      }
      var data := raw[|rawPkg|..];
      rawPkg := raw;
      if data == [] {
        return ColumnsFailed(Panicked);
      }
      if IsEof(data) {
        if p41 && |data| < 5 {
          return ColumnsFailed(Panicked);
        }
        if i != |fields| {
          return ColumnsFailed(Malformed);
        }
        return Columns(fields, conn.input, conn.sequence);
      }
      if i >= |fields| {
        return ColumnsFailed(Panicked);
      }
      match Parse(fields[i], data)
      case ParseEof => return ColumnsFailed(UnexpectedEof);
      case ParseMalformed => return ColumnsFailed(Malformed);
      case ParsePanic => return ColumnsFailed(Panicked);
      case Parsed(f) =>
        fields := fields[i := f];
        i := i + 1;
    }
  }

  method ReadRowPackets(conn: Conn, p41: bool) returns (r: RawRows)
    requires conn.Valid()
    modifies conn
    ensures r == ReadRawRows(old(conn.input), old(conn.sequence), [], p41)
    ensures r.RawRows? ==> conn.input == r.rest && conn.sequence == r.sequence
  {
    hide ReadFrames;
    var rows: seq<seq<byte>>, rawPkg: seq<byte> := [], [];
    while true
      invariant ReadRawRows(old(conn.input), old(conn.sequence), [], p41)
             == ReadRawRows(conn.input, conn.sequence, rows, p41)
      decreases |conn.input|
    {
      var error, raw := conn.ReadPacketTo(rawPkg);
      if error.Some? {
        return RawRowsFailed(Net(error.value));
      }
      var data := raw[|rawPkg|..];
      rawPkg := raw;
      if data == [] {
        return RawRowsFailed(Panicked);
      }
      if IsEof(data) {
        if !p41 {
          return RawRows(rows, 0, 0, conn.input, conn.sequence);
        }
        if |data| < 5 {
          return RawRowsFailed(Panicked);
        }
        return RawRows(rows, FromLE(data[1..3]), FromLE(data[3..5]), conn.input, conn.sequence);
      }
      if data[0] == ERR_HEADER {
        return RawRowsFailed(ServerError(data));
      }
      rows := rows + [data];
    }
  }

  method ParseRowValues(fields: seq<Field>, rows: seq<seq<byte>>) returns (r: Values)
    ensures r == ParseRows(fields, rows, [])
  {
    hide ParseFrom;
    var values: seq<seq<FieldValue>> := [];
    for i := 0 to |rows|
      invariant |values| == i && ParseRows(fields, rows, []) == ParseRows(fields, rows, values)
    {
      var row := ParseText(fields, rows[i]);
      match row
      case RowEof => return ValuesFailed(UnexpectedEof);
      case RowSyntax => return ValuesFailed(SyntaxError);
      case RowPanic => return ValuesFailed(Panicked);
      case Row(v) => values := values + [v];
    }
    return Values(values);
  }

  method ReadResultOf(conn: Conn, pooled: seq<Field>, p41: bool) returns (r: Result)
    requires conn.Valid()
    modifies conn
    ensures r == ReadResult(old(conn.input), old(conn.sequence), pooled, p41)
    ensures r.Result? ==> conn.input == r.rest && conn.sequence == r.sequence
  {
    hide ReadFrames, ReadColumns, ReadRawRows, ParseRows;
    var error, data := conn.ReadPacketTo([]);
    if error.Some? {
      return ReadFailed(Net(error.value));
    }
    assert data == ReadFrames(old(conn.input), old(conn.sequence)).payload;
    if data == [] {
      return ReadFailed(Panicked);
    }
    if data[0] == OK_HEADER {
      return OkPacket(data);
    }
    if data[0] == ERR_HEADER {
      return ReadFailed(ServerError(data));
    }
    if data[0] == LOCAL_IN_FILE_HEADER {
      return ReadFailed(Malformed);
    }
    var count := LengthEncodedInt(data);
    if count.IntPanic? {
      return ReadFailed(Panicked);
    }
    if count.n != |data| {
      return ReadFailed(Malformed);
    }
    if count.num >= TWO_63 {
      return ReadFailed(Panicked);
    }
    var columns := ReadResultColumns(conn, NewFields(pooled, count.num), p41);
    if columns.ColumnsFailed? {
      return ReadFailed(columns.e);
    }
    var raw := ReadRowPackets(conn, p41);
    if raw.RawRowsFailed? {
      return ReadFailed(raw.e);
    }
    var values := ParseRowValues(columns.fields, raw.rows);
    if values.ValuesFailed? {
      return ReadFailed(values.e);
    }
    return Result(columns.fields, raw.rows, values.v, raw.warnings, raw.status, conn.input, conn.sequence);
  }
}
