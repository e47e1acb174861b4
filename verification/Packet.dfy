// Packet framing of the MySQL client/server protocol: payloads are cut into
// frames of at most 2^24-1 bytes, each behind a 3-byte length and a sequence id.
module Packet {
  import opened Bytes
  import opened Options

  const MAX_PAYLOAD := 0xff_ffff

  function NextSeq(s: byte): (t: byte) { (s + 1) % 256 }

  function Frame(payload: seq<byte>, s: byte): (f: seq<byte>)
    requires |payload| <= MAX_PAYLOAD
    ensures |f| == |payload| + 4
  {
    LE(|payload|, 3) + [s] + payload
  }

  // The frames of a payload. A payload whose length is a multiple of 2^24-1
  // ends with an empty frame.
  function Frames(payload: seq<byte>, s: byte): (f: seq<byte>)
    ensures |f| > |payload|
    decreases |payload|
  {
    if |payload| < MAX_PAYLOAD then Frame(payload, s)
    else Frame(payload[..MAX_PAYLOAD], s) + Frames(payload[MAX_PAYLOAD..], NextSeq(s))
  }

  // The sequence id after len payload bytes have been written or read.
  function SeqAfter(len: nat, s: byte): (t: byte)
    decreases len
  {
    if len < MAX_PAYLOAD then NextSeq(s) else SeqAfter(len - MAX_PAYLOAD, NextSeq(s))
  }

  lemma OneMoreFrame(s: byte, k: nat)
    ensures (NextSeq(s) + k + 1) % 256 == (s + (k + 1) + 1) % 256
  {
    if s == 255 {
      assert NextSeq(s) == 0 && s + (k + 1) + 1 == 256 + (k + 1);
    } else {
      assert NextSeq(s) == s + 1;
    }
  }

  lemma {:induction false} SeqClosedForm(len: nat, s: byte)
    ensures SeqAfter(len, s) == (s + len / 0xff_ffff + 1) % 256
    decreases len
  {
    if len >= MAX_PAYLOAD {
      SeqClosedForm(len - MAX_PAYLOAD, NextSeq(s));
      var k := (len - 0xff_ffff) / 0xff_ffff;
      assert len / 0xff_ffff == k + 1;
      OneMoreFrame(s, k);
    }
  }

  datatype ConnError = BadConn | InvalidSequence

  // What a read leaves behind: the payload or error, the unread input and the sequence id.
  datatype Read =
    | Done(payload: seq<byte>, rest: seq<byte>, sequence: byte)
    | Failed(error: ConnError, rest: seq<byte>, sequence: byte)

  function ReadFrames(input: seq<byte>, s: byte): (r: Read)
    ensures r.Done? ==> |r.rest| < |input|
    decreases |input|
  {
    if |input| < 4 then Failed(BadConn, [], s)
    else
      var length, body := FromLE(input[..3]), input[4..];
      if input[3] != s then Failed(InvalidSequence, body, s)
      else if |body| < length then Failed(BadConn, [], NextSeq(s))
      else if length < MAX_PAYLOAD then Done(body[..length], body[length..], NextSeq(s))
      else Prepend(body[..length], ReadFrames(body[length..], NextSeq(s)))
  }

  // A chunk in front of what the recursive read returned; every deeper error becomes ErrBadConn.
  function Prepend(chunk: seq<byte>, r: Read): (p: Read)
  {
    match r
    case Done(payload, rest, t) => Done(chunk + payload, rest, t)
    case Failed(_, rest, t) => Failed(BadConn, rest, t)
  }

  lemma FrameParts(payload: seq<byte>, s: byte, rest: seq<byte>)
    requires |payload| <= MAX_PAYLOAD
    ensures var f := Frame(payload, s) + rest;
            && |f| >= 4
            && FromLE(f[..3]) == |payload|
            && f[3] == s
            && f[4..][..|payload|] == payload
            && f[4..][|payload|..] == rest
  {
    Capacities();
    ReadWritten(|payload|, 3);
    var f := Frame(payload, s) + rest;
    assert f[..3] == LE(|payload|, 3);
    assert f[4..] == payload + rest;
  }

  // Whatever is written reads back, with the bytes behind it untouched and both
  // sides at the same sequence id.
  lemma {:induction false} FramesRoundTrip(payload: seq<byte>, s: byte, suffix: seq<byte>)
    ensures ReadFrames(Frames(payload, s) + suffix, s)
         == Done(payload, suffix, SeqAfter(|payload|, s))
    decreases |payload|
  {
    if |payload| < MAX_PAYLOAD {
      FrameParts(payload, s, suffix);
    } else {
      var head, tail := payload[..MAX_PAYLOAD], payload[MAX_PAYLOAD..];
      var more := Frames(tail, NextSeq(s)) + suffix;
      assert Frames(payload, s) + suffix == Frame(head, s) + more;
      FrameParts(head, s, more);
      FramesRoundTrip(tail, NextSeq(s), suffix);
      assert head + tail == payload;
    }
  }

  // Several packets one after the other.
  function Stream(packets: seq<seq<byte>>, s: byte): (f: seq<byte>)
    decreases |packets|
  {
    if packets == [] then []
    else Frames(packets[0], s) + Stream(packets[1..], SeqAfter(|packets[0]|, s))
  }

  function StreamSeq(packets: seq<seq<byte>>, s: byte): (t: byte)
    decreases |packets|
  {
    if packets == [] then s else StreamSeq(packets[1..], SeqAfter(|packets[0]|, s))
  }

  // Reading a stream takes off its first packet.
  lemma StreamRead(packets: seq<seq<byte>>, s: byte, suffix: seq<byte>)
    requires packets != []
    ensures var t := SeqAfter(|packets[0]|, s);
            ReadFrames(Stream(packets, s) + suffix, s) == Done(packets[0], Stream(packets[1..], t) + suffix, t)
  {
    hide Frames, SeqAfter, ReadFrames;
    var more := Stream(packets[1..], SeqAfter(|packets[0]|, s)) + suffix;
    assert Stream(packets, s) + suffix == Frames(packets[0], s) + more;
    FramesRoundTrip(packets[0], s, more);
  }

  lemma {:induction false} StreamConcat(a: seq<seq<byte>>, b: seq<seq<byte>>, s: byte)
    ensures Stream(a + b, s) == Stream(a, s) + Stream(b, StreamSeq(a, s))
    ensures StreamSeq(a + b, s) == StreamSeq(b, StreamSeq(a, s))
    decreases |a|
  {
    hide Frames, SeqAfter;
    if a == [] {
      assert a + b == b;
    } else {
      var t := SeqAfter(|a[0]|, s);
      assert (a + b)[1..] == a[1..] + b;
      StreamConcat(a[1..], b, t);
      assert Stream(a + b, s) == Frames(a[0], s) + (Stream(a[1..], t) + Stream(b, StreamSeq(a[1..], t)));
    }
  }

  lemma FramesCons(chunk: seq<byte>, tail: seq<byte>, s: byte)
    requires |chunk| == MAX_PAYLOAD
    ensures Frames(chunk + tail, s) == Frame(chunk, s) + Frames(tail, NextSeq(s))
    ensures SeqAfter(|chunk + tail|, s) == SeqAfter(|tail|, NextSeq(s))
  {
    assert (chunk + tail)[..MAX_PAYLOAD] == chunk && (chunk + tail)[MAX_PAYLOAD..] == tail;
  }

  // Input that holds a whole frame starts with the frame of its chunk.
  lemma FrameOfInput(input: seq<byte>)
    requires |input| >= 4 && |input[4..]| >= FromLE(input[..3])
    ensures var length, body := FromLE(input[..3]), input[4..];
            length <= MAX_PAYLOAD && input == Frame(body[..length], input[3]) + body[length..]
  {
    Capacities();
    FromLEBound(input[..3]);
    WriteRead(input[..3]);
  }

  // What a successful read finds at the front, and how it goes on.
  lemma ReadDone(input: seq<byte>, s: byte)
    requires ReadFrames(input, s).Done?
    ensures |input| >= 4 && input[3] == s && |input[4..]| >= FromLE(input[..3])
    ensures var length, body := FromLE(input[..3]), input[4..];
            if length < MAX_PAYLOAD
            then ReadFrames(input, s) == Done(body[..length], body[length..], NextSeq(s))
            else
              var more := ReadFrames(body[length..], NextSeq(s));
              more.Done? && ReadFrames(input, s) == Done(body[..length] + more.payload, more.rest, more.sequence)
  {
    hide FromLE;
  }

  lemma ShortFrames(payload: seq<byte>, s: byte)
    requires |payload| < MAX_PAYLOAD
    ensures Frames(payload, s) == Frame(payload, s) && SeqAfter(|payload|, s) == NextSeq(s)
  {
  }

  // Reading succeeds only on bytes that writing produces: the format has no
  // second spelling of a payload.
  lemma {:induction false} ReadIsExact(input: seq<byte>, s: byte)
    ensures var r := ReadFrames(input, s);
            r.Done? ==> input == Frames(r.payload, s) + r.rest && r.sequence == SeqAfter(|r.payload|, s)
    decreases |input|
  {
    hide FromLE, Frame, Frames, ReadFrames, SeqAfter, NextSeq;
    var r := ReadFrames(input, s);
    if r.Done? {
      ReadDone(input, s);
      FrameOfInput(input);
      var length := FromLE(input[..3]);
      var chunk, more := input[4..][..length], input[4..][length..];
      if length < MAX_PAYLOAD {
        ShortFrames(chunk, s);
      } else {
        ReadIsExact(more, NextSeq(s));
        var deeper := ReadFrames(more, NextSeq(s)).payload;
        FramesCons(chunk, deeper, s);
        assert Frame(chunk, s) + (Frames(deeper, NextSeq(s)) + r.rest)
            == (Frame(chunk, s) + Frames(deeper, NextSeq(s))) + r.rest;
      }
    }
  }

  // A network that stops inside frame has carried this prefix of the whole.
  lemma CutInside(before: seq<byte>, sent: seq<byte>, frame: seq<byte>, more: seq<byte>, n: nat)
    requires |sent| <= n <= |sent| + |frame|
    ensures (before + sent) + frame[..n - |sent|] == before + (sent + (frame + more))[..n]
    ensures (before + sent) + frame == before + (sent + frame)
    ensures sent + (frame + more) == (sent + frame) + more
    ensures frame + [] == frame
  {
    assert (sent + (frame + more))[..n] == sent + frame[..n - |sent|];
  }

  // A connection over a network that accepts room more bytes and then fails, and
  // that will deliver exactly input before it closes.
  class Conn {
    var sequence: byte
    var pkgErr: bool
    var out: seq<byte>
    var room: nat
    var input: seq<byte>
    const copyNBuf: nat

    constructor (bufferSize: nat, room: nat, input: seq<byte>)
      requires bufferSize > 0
      ensures Valid() && sequence == 0 && !pkgErr && out == [] && this.room == room && this.input == input
    {
      copyNBuf, sequence, pkgErr, out := bufferSize, 0, false, [];
      this.room, this.input := room, input;
    }

    ghost predicate Valid() { copyNBuf > 0 }

    // net.Conn.Write: all of p, or a shorter prefix and an error.
    method Write(p: seq<byte>) returns (n: nat)
      modifies this`out, this`room
      ensures n == (if |p| <= old(room) then |p| else old(room))
      ensures out == old(out) + p[..n] && room == old(room) - n
    {
      n := if |p| <= room then |p| else room;
      out, room := out + p[..n], room - n;
    }

    // Writes the header of the frame data[off..end] over the four bytes in front of
    // its chunk and sends the frame.
    method SendFrame(data: array<byte>, off: nat, end: nat) returns (ok: bool)
      requires off + 4 <= end <= data.Length && end - off - 4 <= MAX_PAYLOAD
      modifies this`sequence, this`pkgErr, this`out, this`room, data
      ensures data[..off] == old(data[..off]) && data[off + 4..] == old(data[off + 4..])
      ensures var frame := Frame(old(data[off + 4..end]), old(sequence));
              && ok == (|frame| <= old(room))
              && (ok ==> out == old(out) + frame && sequence == NextSeq(old(sequence)) && pkgErr == old(pkgErr))
              && (!ok ==> out == old(out) + frame[..old(room)] && pkgErr && sequence == old(sequence))
              && room == old(room) - (if ok then |frame| else old(room))
    {
      ghost var chunk := data[off + 4..end];
      var length := end - off - 4;
      data[off], data[off + 1], data[off + 2] := length % 256, length / 256 % 256, length / 256 / 256 % 256;
      data[off + 3] := sequence;
      assert data[off + 4..end] == chunk;
      ThreeBytes(length);
      assert data[off..end] == Frame(chunk, sequence);
      var n := Write(data[off..end]);
      ok := n == end - off;
      if ok {
        sequence := NextSeq(sequence);
      } else {
        pkgErr := true;
      }
    }

    // The loop of WritePacket: sends the frames of maximal size and leaves the last,
    // shorter one, which starts at off. Every header is written over payload bytes
    // that have been sent.
    method SendFullFrames(data: array<byte>) returns (ok: bool, off: nat, ghost sent: seq<byte>)
      requires data.Length >= 4
      modifies this`sequence, this`pkgErr, this`out, this`room, data
      ensures off <= data.Length - 4
      ensures var frames := Frames(old(data[4..]), old(sequence));
              && (ok ==> && data.Length - 4 - off < MAX_PAYLOAD
                         && data[off + 4..] == old(data[off + 4..])
                         && frames == sent + Frames(data[off + 4..], sequence)
                         && SeqAfter(data.Length - 4, old(sequence)) == SeqAfter(data.Length - 4 - off, sequence)
                         && out == old(out) + sent && room == old(room) - |sent| && pkgErr == old(pkgErr))
              && (!ok ==> old(room) < |frames| && out == old(out) + frames[..old(room)] && room == 0 && pkgErr)
    {
      hide Frame, Frames, SeqAfter;
      ghost var payload := data[4..];
      ghost var frames := Frames(payload, sequence);
      sent := [];
      off, ok := 0, true;
      while data.Length - 4 - off >= MAX_PAYLOAD
        invariant off <= data.Length - 4 && ok
        invariant data[off + 4..] == payload[off..]
        invariant frames == sent + Frames(payload[off..], sequence)
        invariant out == old(out) + sent && room == old(room) - |sent| && pkgErr == old(pkgErr)
        invariant SeqAfter(|payload|, old(sequence)) == SeqAfter(|payload| - off, sequence)
      {
        ghost var end := off + MAX_PAYLOAD;
        ghost var frame, more := Frame(payload[off..end], sequence), Frames(payload[end..], NextSeq(sequence));
        FramesCons(payload[off..end], payload[end..], sequence);
        assert payload[off..] == payload[off..end] + payload[end..];
        assert data[off + 4..end + 4] == data[off + 4..][..MAX_PAYLOAD];
        assert payload[off..end] == payload[off..][..MAX_PAYLOAD];
        ok := SendFrame(data, off, off + 4 + MAX_PAYLOAD);
        assert data[end + 4..] == data[off + 4..][MAX_PAYLOAD..] && payload[end..] == payload[off..][MAX_PAYLOAD..];
        CutInside(old(out), sent, frame, more, if ok then |sent| else old(room));
        if !ok {
          return;
        }
        sent := sent + frame;
        off := off + MAX_PAYLOAD;
      }
    }

    // data already has 4 bytes of header space in front of the payload. Either all
    // frames of the payload go out, or the prefix the network had room for.
    method WritePacket(data: array<byte>) returns (ok: bool)
      requires data.Length >= 4
      modifies this`sequence, this`pkgErr, this`out, this`room, data
      ensures var frames := Frames(old(data[4..]), old(sequence));
              && ok == (|frames| <= old(room))
              && (ok ==> out == old(out) + frames && sequence == SeqAfter(data.Length - 4, old(sequence))
                         && pkgErr == old(pkgErr) && room == old(room) - |frames|)
              && (!ok ==> out == old(out) + frames[..old(room)] && room == 0 && pkgErr)
    {
      var off;
      ghost var sent;
      ok, off, sent := SendFullFrames(data);
      if ok {
        ghost var tail := data[off + 4..];
        ghost var frame := Frame(tail, sequence);
        assert tail == data[off + 4..data.Length];
        assert Frames(old(data[4..]), old(sequence)) == sent + (frame + []);
        ok := SendFrame(data, off, data.Length);
        CutInside(old(out), sent, frame, [], if ok then |sent| else old(room));
      }
    }

    // io.ReadAtLeast with min equal to the buffer: the whole chunk, or an error
    // with the input used up.
    method ReadFull(n: nat) returns (ok: bool, chunk: seq<byte>)
      modifies this`input
      ensures ok == (n <= |old(input)|)
      ensures ok ==> chunk == old(input)[..n] && input == old(input)[n..]
      ensures !ok ==> input == []
    {
      if n <= |input| {
        ok, chunk, input := true, input[..n], input[n..];
      } else {
        ok, chunk, input := false, [], [];
      }
    }

    // Copies n bytes of input in chunks of the copy buffer. A failing copy may
    // already have delivered some whole chunks.
    method CopyN(n: nat, dst: seq<byte>) returns (ok: bool, dst': seq<byte>)
      requires Valid()
      modifies this`input
      ensures ok == (n <= |old(input)|)
      ensures ok ==> dst' == dst + old(input)[..n] && input == old(input)[n..]
      ensures !ok ==> input == [] && dst <= dst' <= dst + old(input)
    {
      dst' := dst;
      var left := n;
      while left > 0
        invariant 0 <= left <= n
        invariant n - left <= |old(input)| && input == old(input)[n - left..]
        invariant dst' == dst + old(input)[..n - left]
      {
        var bcap := if copyNBuf > left then left else copyNBuf;
        var chunk;
        Chunk(old(input), n - left, bcap);
        ok, chunk := ReadFull(bcap);
        if !ok { return; }
        assert dst' + chunk == dst + (old(input)[..n - left] + chunk);
        dst' := dst' + chunk;
        left := left - bcap;
      }
      ok := true;
    }

    // The payload is appended to dst.
    method ReadPacketTo(dst: seq<byte>) returns (error: Option<ConnError>, dst': seq<byte>)
      requires Valid()
      modifies this`input, this`sequence
      ensures var r := ReadFrames(old(input), old(sequence));
              && input == r.rest && sequence == r.sequence
              && (r.Done? ==> error == None && dst' == dst + r.payload)
              && (r.Failed? ==> error == Some(r.error) && dst <= dst')
      decreases |input|
    {
      hide FromLE;
      ghost var whole := input;
      var ok, header := ReadFull(4);
      if !ok { return Some(BadConn), dst; }
      assert header[..3] == whole[..3] && header[3] == whole[3];
      var length := FromLE(header[..3]);
      if header[3] != sequence { return Some(InvalidSequence), dst; }
      sequence := NextSeq(sequence);
      ghost var body := input;
      ok, dst' := CopyN(length, dst);
      if !ok { return Some(BadConn), dst'; }
      if length < MAX_PAYLOAD { return None, dst'; }
      ghost var deeper := ReadFrames(input, sequence);
      assert ReadFrames(whole, old(sequence)) == Prepend(body[..length], deeper);
      error, dst' := ReadPacketTo(dst');
      if error == None {
        assert (dst + body[..length]) + deeper.payload == dst + (body[..length] + deeper.payload);
      } else {
        error := Some(BadConn);
      }
    }
  }

  // The next k bytes of input behind the first n.
  lemma Chunk(input: seq<byte>, n: nat, k: nat)
    requires n <= |input|
    ensures n + k <= |input| ==>
              input[n..][..k] == input[n..n + k] && input[n..][k..] == input[n + k..]
              && input[..n] + input[n..][..k] == input[..n + k]
  {
  }

  // A payload that arrives under another sequence id is refused.
  lemma WrongSequence(payload: seq<byte>, s: byte, t: byte, suffix: seq<byte>)
    requires s != t
    ensures var r := ReadFrames(Frames(payload, s) + suffix, t);
            r.Failed? && r.error == InvalidSequence && r.sequence == t
  {
    var chunk := if |payload| < MAX_PAYLOAD then payload else payload[..MAX_PAYLOAD];
    var more := if |payload| < MAX_PAYLOAD then suffix else Frames(payload[MAX_PAYLOAD..], NextSeq(s)) + suffix;
    assert Frames(payload, s) + suffix == Frame(chunk, s) + more;
    FrameParts(chunk, s, more);
    hide Frame, Frames, FromLE;
  }

  // Frames that are cut off anywhere read as a lost connection, with nothing left.
  lemma {:induction false} TruncatedFrames(payload: seq<byte>, s: byte, n: nat)
    requires n < |Frames(payload, s)|
    ensures var r := ReadFrames(Frames(payload, s)[..n], s); r.Failed? && r.error == BadConn && r.rest == []
    decreases |payload|
  {
    var short := |payload| < MAX_PAYLOAD;
    var chunk := if short then payload else payload[..MAX_PAYLOAD];
    var more := if short then [] else Frames(payload[MAX_PAYLOAD..], NextSeq(s));
    var frame, p := Frame(chunk, s), Frames(payload, s)[..n];
    assert Frames(payload, s) == frame + more;
    if n >= 4 {
      if n < |frame| {
        CutFrame(chunk, s, n);
        assert p == frame[..n];
      } else {
        var tail := more[..n - |frame|];
        assert p == frame + tail;
        FrameParts(chunk, s, tail);
        TruncatedFrames(payload[MAX_PAYLOAD..], NextSeq(s), n - |frame|);
      }
    }
  }

  lemma CutFrame(chunk: seq<byte>, s: byte, n: nat)
    requires |chunk| <= MAX_PAYLOAD && 4 <= n < |Frame(chunk, s)|
    ensures ReadFrames(Frame(chunk, s)[..n], s) == Failed(BadConn, [], NextSeq(s))
  {
    var p := Frame(chunk, s)[..n];
    FrameParts(chunk, s, []);
    assert Frame(chunk, s) + [] == Frame(chunk, s);
    assert p[..3] == Frame(chunk, s)[..3] && p[3] == s;
  }
}
