// The growable read buffer of the Redis proxy.
module Reader {
  import opened Bytes

  const BUF_STEP_SIZE := 1024

  // The calls a client of the reader makes.
  datatype Call = GetN(n: nat) | End

  datatype Taken = Taken(data: seq<seq<byte>>, ok: bool)

  // The answers the calls should get from a stream, up to the first that asks for more
  // than there is.
  function Take(stream: seq<byte>, calls: seq<Call>): (r: Taken)
    decreases |calls|
  {
    if calls == [] then Taken([], true)
    else
      match calls[0]
      case End => Take(stream, calls[1..])
      case GetN(n) =>
        if n > |stream| then Taken([], false)
        else
          var r := Take(stream[n..], calls[1..]);
          Taken([stream[..n]] + r.data, r.ok)
  }

  // The answers are the stream from its start, cut as asked.
  lemma {:induction false} TakeIsPrefix(stream: seq<byte>, calls: seq<Call>)
    ensures Concat(Take(stream, calls).data) <= stream
    decreases |calls|
  {
    if calls != [] {
      match calls[0]
      case End => TakeIsPrefix(stream, calls[1..]);
      case GetN(n) =>
        if n <= |stream| {
          var rest := Take(stream[n..], calls[1..]).data;
          TakeIsPrefix(stream[n..], calls[1..]);
          assert ([stream[..n]] + rest)[1..] == rest;
          assert stream == stream[..n] + stream[n..];
        }
    }
  }

  // The number of bytes the calls ask for.
  function Asked(calls: seq<Call>): (n: nat)
  {
    if calls == [] then 0 else (if calls[0].GetN? then calls[0].n else 0) + Asked(calls[1..])
  }

  // The calls are answered without an error exactly when the stream has what they ask for,
  // and then with all of it.
  lemma {:induction false} TakeIff(stream: seq<byte>, calls: seq<Call>)
    ensures var r := Take(stream, calls);
            && (r.ok <==> Asked(calls) <= |stream|)
            && (r.ok ==> Concat(r.data) == stream[..Asked(calls)])
    decreases |calls|
  {
    if calls != [] {
      match calls[0]
      case End => TakeIff(stream, calls[1..]);
      case GetN(n) =>
        if n <= |stream| {
          var r := Take(stream[n..], calls[1..]);
          TakeIff(stream[n..], calls[1..]);
          assert ([stream[..n]] + r.data)[1..] == r.data;
          assert r.ok ==> stream[..n] + stream[n..][..Asked(calls[1..])] == stream[..Asked(calls)];
        }
    }
  }

  class Reader {
    var buffer: array<byte>
    var readPosition: nat
    var writePosition: nat
    var source: seq<byte>        // what the underlying reader will still deliver

    constructor (source: seq<byte>)
      ensures Valid() && fresh(buffer) && Remaining() == source
    {
      buffer := new byte[BUF_STEP_SIZE](_ => 0);
      readPosition, writePosition, this.source := 0, 0, source;
    }

    ghost predicate Valid()
      reads this
    {
      readPosition <= writePosition <= buffer.Length
    }

    function Unread(): (s: seq<byte>)
      requires Valid()
      reads this, buffer
    {
      buffer[..writePosition][readPosition..]
    }

    // Everything the client has not been given yet.
    ghost function Remaining(): (s: seq<byte>)
      requires Valid()
      reads this, buffer
    {
      Unread() + source
    }

    method RequestSpace(reqSize: nat)
      requires Valid()
      modifies this`buffer
      ensures Valid() && (buffer == old(buffer) || fresh(buffer))
      ensures buffer.Length >= old(buffer.Length) && writePosition + reqSize <= buffer.Length
      ensures buffer[..writePosition] == old(buffer[..writePosition])
    {
      var ccap := buffer.Length;
      if writePosition + reqSize > ccap {
        var size := if ccap * 2 > ccap + reqSize + BUF_STEP_SIZE then ccap * 2 else ccap + reqSize + BUF_STEP_SIZE;
        var newbuff := new byte[size](_ => 0);
        forall i | 0 <= i < ccap {
          newbuff[i] := buffer[i];
        }
        assert newbuff[..writePosition] == buffer[..writePosition];
        buffer := newbuff;
      }
    }

    // Read of the underlying reader into the buffer from at on: any non-empty part of
    // what is left, or nothing at the end.
    method ReadInto(at: nat) returns (n: nat)
      requires at < buffer.Length && source != []
      modifies this`source, buffer
      ensures 0 < n <= |old(source)| && at + n <= buffer.Length
      ensures source == old(source)[n..]
      ensures buffer[..at + n] == old(buffer[..at]) + old(source)[..n]
    {
      n :| 0 < n <= |source| && at + n <= buffer.Length;
      forall i | 0 <= i < n {
        buffer[at + i] := source[i];
      }
      source := source[n..];
    }

    // io.ReadAtLeast into the free part of the buffer: at least min bytes, or an error
    // with the source used up.
    method ReadAtLeast(min: nat) returns (nr: nat, ok: bool)
      requires Valid() && writePosition + min <= buffer.Length
      modifies this`source, buffer
      ensures ok == (min <= |old(source)|) && (ok ==> min <= nr)
      ensures nr <= |old(source)| && writePosition + nr <= buffer.Length && source == old(source)[nr..]
      ensures buffer[..writePosition + nr] == old(buffer[..writePosition]) + old(source)[..nr]
      ensures !ok ==> source == []
    {
      nr := 0;
      ghost var before, stream := buffer[..writePosition], source;
      while nr < min && source != []
        invariant nr <= |stream| && writePosition + nr <= buffer.Length
        invariant source == stream[nr..]
        invariant buffer[..writePosition + nr] == before + stream[..nr]
        decreases |source|
      {
        var n := ReadInto(writePosition + nr);
        ghost var filled := buffer[..writePosition + nr + n];
        Extended(before, stream, nr, n);
        assert filled == before + stream[..nr + n];
        nr := nr + n;
      }
      ok := nr >= min;
    }

    method ReadSome(min: nat) returns (ok: bool)
      requires Valid()
      modifies this, buffer
      ensures Valid() && (buffer == old(buffer) || fresh(buffer))
      ensures readPosition == old(readPosition)
      ensures ok == (min <= |old(source)|)
      ensures ok ==> Remaining() == old(Remaining()) && |Unread()| >= |old(Unread())| + min
      ensures !ok ==> Unread() == old(Unread()) && source == []
    {
      ghost var before, stream := buffer[..writePosition], source;
      ghost var unread := Unread();
      assert unread == before[readPosition..] && Remaining() == unread + stream;
      RequestSpace(min);
      assert buffer[..writePosition] == before;
      var nr;
      nr, ok := ReadAtLeast(min);
      ghost var w, filled := writePosition, buffer[..writePosition + nr];
      assert filled == before + stream[..nr];
      Split(filled, before, stream, readPosition, nr);
      if ok {
        writePosition := writePosition + nr;
        assert Unread() == filled[readPosition..];
        assert Remaining() == filled[readPosition..] + stream[nr..];
      } else {
        assert buffer[..w] == filled[..w];
        assert Unread() == before[readPosition..];
      }
    }

    method RequireNBytes(num: nat) returns (ok: bool)
      requires Valid()
      modifies this, buffer
      ensures Valid() && (buffer == old(buffer) || fresh(buffer))
      ensures readPosition == old(readPosition)
      ensures ok == (num <= |old(Remaining())|)
      ensures ok ==> Remaining() == old(Remaining()) && |Unread()| >= num
      ensures !ok ==> Unread() == old(Unread()) && source == []
    {
      var a := writePosition - readPosition;
      if a >= num {
        return true;
      }
      ok := ReadSome(num - a);
    }

    // The next num bytes of the stream, or an error when there are fewer.
    method GetNbytes(num: nat) returns (data: seq<byte>, ok: bool)
      requires Valid()
      modifies this, buffer
      ensures Valid() && (buffer == old(buffer) || fresh(buffer))
      ensures ok == (num <= |old(Remaining())|)
      ensures ok ==> data == old(Remaining())[..num] && Remaining() == old(Remaining())[num..]
      ensures !ok ==> Unread() == old(Unread()) && source == []
    {
      ok := RequireNBytes(num);
      if !ok {
        return [], false;
      }
      ghost var unread := Unread();
      data := buffer[readPosition..readPosition + num];
      assert data == unread[..num];
      readPosition := readPosition + num;
      assert Unread() == unread[num..];
      Taking(unread, source, num);
    }

    // Whether everything buffered has been handed out; the positions then start over.
    method IsEnd() returns (ret: bool)
      requires Valid()
      modifies this
      ensures Valid() && buffer == old(buffer)
      ensures ret == (old(Unread()) == []) && Remaining() == old(Remaining())
      ensures ret ==> readPosition == 0 && writePosition == 0
    {
      ret := readPosition >= writePosition;
      if ret {
        Reset();
      }
    }

    method Reset()
      requires Valid()
      modifies this
      ensures Valid() && buffer == old(buffer) && source == old(source)
      ensures readPosition == 0 && writePosition == 0
    {
      writePosition, readPosition := 0, 0;
    }

    // Any sequence of calls, up to the first error, gets the answers the stream has for
    // it, however the source was cut into reads.
    method Serve(calls: seq<Call>) returns (r: Taken)
      requires Valid()
      modifies this, buffer
      ensures r == Take(old(Remaining()), calls)
      decreases |calls|
    {
      if calls == [] {
        return Taken([], true);
      }
      match calls[0]
      case End =>
        var _ := IsEnd();
        r := Serve(calls[1..]);
      case GetN(n) =>
        var data, ok := GetNbytes(n);
        if !ok {
          return Taken([], false);
        }
        r := Serve(calls[1..]);
        r := Taken([data] + r.data, r.ok);
    }
  }

  lemma Extended(before: seq<byte>, stream: seq<byte>, k: nat, n: nat)
    requires k + n <= |stream|
    ensures (before + stream[..k]) + stream[k..][..n] == before + stream[..k + n]
    ensures stream[k..][n..] == stream[k + n..]
  {
  }

  // Reading n bytes of stream behind before moves them in front of the border.
  lemma Split(filled: seq<byte>, before: seq<byte>, stream: seq<byte>, r: nat, n: nat)
    requires r <= |before| && n <= |stream| && filled == before + stream[..n]
    ensures filled[r..] + stream[n..] == before[r..] + stream
    ensures filled[..|before|] == before
  {
    assert filled[r..] == before[r..] + stream[..n];
    assert stream[..n] + stream[n..] == stream;
  }

  lemma Taking(unread: seq<byte>, source: seq<byte>, n: nat)
    requires n <= |unread|
    ensures unread[..n] == (unread + source)[..n] && unread[n..] + source == (unread + source)[n..]
  {
  }
}
