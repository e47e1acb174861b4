// The prepared statements of a server connection: COM_STMT_PREPARE, EXECUTE,
// SEND_LONG_DATA, RESET and CLOSE over one table. What the statement handler answers
// is part of the command.
module StmtTable {
  import opened Bytes
  import opened Options
  import opened StmtCodec

  const TWO_32 := 0x1_0000_0000

  datatype Stmt = Stmt(params: nat, args: seq<Arg>)

  datatype Table = Table(stmts: map<nat, Stmt>, stmtID: nat)

  datatype Command =
    | Prepare(params: Option<int>)             // None: the handler refused the query
    | Exec(data: seq<byte>, ok: bool)
    | SendLongData(data: seq<byte>)
    | Reset(data: seq<byte>)
    | Close(data: seq<byte>, ok: bool)

  datatype Reply =
    | Prepared(id: nat) | Executed(args: seq<Arg>) | Done | NoResponse
    | HandlerError | Panicked | UnknownStmt(id: nat) | BindErr(e: BindError)

  function Nils(n: nat): (args: seq<Arg>)
    ensures |args| == n
  {
    seq(n, _ => Nil)
  }

  // The statement id at the front of a command.
  function IdOf(data: seq<byte>): (id: nat)
    requires |data| >= 4
  {
    FromLE(data[..4])
  }

  function SetArgs(t: Table, id: nat, args: seq<Arg>): (r: Table)
    requires id in t.stmts
  {
    t.(stmts := t.stmts[id := t.stmts[id].(args := args)])
  }

  predicate ArgsMatch(t: Table)
  {
    forall id :: id in t.stmts ==> |t.stmts[id].args| == t.stmts[id].params
  }

  // dispatch, for the five commands.
  function Dispatch(t: Table, cmd: Command): (r: (Table, Reply))
    requires ArgsMatch(t)
    ensures ArgsMatch(r.0)
  {
    match cmd
    case Prepare(answer) =>
      var id := (t.stmtID + 1) % TWO_32;
      (match answer
       case None => (t.(stmtID := id), HandlerError)
       case Some(n) =>
         if n < 0 then (t.(stmtID := id), Panicked)     // make with a negative length
         else (Table(t.stmts[id := Stmt(n, Nils(n))], id), Prepared(id)))
    case Exec(data, ok) =>
      if |data| < 9 then (t, BindErr(Malformed))
      else if IdOf(data) !in t.stmts then (t, UnknownStmt(IdOf(data)))
      else ExecuteStmt(t, IdOf(data), data, ok)
    case SendLongData(data) =>
      if |data| < 6 || IdOf(data) !in t.stmts then (t, NoResponse)
      else (AddLongData(t, IdOf(data), FromLE(data[4..6]), data[6..]), NoResponse)
    case Reset(data) =>
      if |data| < 4 then (t, BindErr(Malformed))
      else if IdOf(data) !in t.stmts then (t, UnknownStmt(IdOf(data)))
      else (SetArgs(t, IdOf(data), Nils(t.stmts[IdOf(data)].params)), Done)
    case Close(data, ok) =>
      if |data| < 4 || IdOf(data) !in t.stmts then (t, NoResponse)
      else if !ok then (t, HandlerError)
      else (t.(stmts := t.stmts - {IdOf(data)}), NoResponse)
  }

  // The arguments stay bound when binding or the handler fails.
  function ExecuteStmt(t: Table, id: nat, data: seq<byte>, ok: bool): (r: (Table, Reply))
    requires ArgsMatch(t) && id in t.stmts
    ensures ArgsMatch(r.0)
  {
    var b := Execute(data, t.stmts[id].args);
    match b
    case BindFailed(e, args) => (SetArgs(t, id, args), BindErr(e))
    case Bound(args) =>
      if ok then (SetArgs(t, id, Nils(t.stmts[id].params)), Executed(args))
      else (SetArgs(t, id, args), HandlerError)
  }

  // The number of parameters is truncated to 16 bits before the comparison.
  function AddLongData(t: Table, id: nat, p: nat, chunk: seq<byte>): (r: Table)
    requires ArgsMatch(t) && id in t.stmts
    ensures ArgsMatch(r)
  {
    var s := t.stmts[id];
    if p >= s.params % 0x1_0000 then t
    else
      match s.args[p]
      case Nil => SetArgs(t, id, s.args[p := Blob(chunk)])
      case Blob(b) => SetArgs(t, id, s.args[p := Blob(b + chunk)])
      case _ => t
  }

  // ---- runs ----

  function Run(t: Table, cmds: seq<Command>): (r: Table)
    requires ArgsMatch(t)
    ensures ArgsMatch(r)
    decreases |cmds|
  {
    if cmds == [] then t else Run(Dispatch(t, cmds[0]).0, cmds[1..])
  }

  function Prepares(cmds: seq<Command>): (n: nat)
    decreases |cmds|
  {
    if cmds == [] then 0 else (if cmds[0].Prepare? then 1 else 0) + Prepares(cmds[1..])
  }

  predicate Inv(t: Table)
  {
    && t.stmtID < TWO_32
    && ArgsMatch(t)
    && (forall id :: id in t.stmts ==> 1 <= id <= t.stmtID)
  }

  lemma DispatchKeeps(t: Table, cmd: Command)
    requires Inv(t) && (cmd.Prepare? ==> t.stmtID + 1 < TWO_32)
    ensures var t' := Dispatch(t, cmd).0;
            && Inv(t') && t'.stmtID == t.stmtID + (if cmd.Prepare? then 1 else 0)
            && (forall id :: id in t'.stmts && id <= t.stmtID ==> id in t.stmts)
  {
  }

  // Before the 32-bit id wraps, every registered statement has as many arguments as
  // parameters and an id that was handed out; an id that is closed, or whose prepare
  // failed, is never registered again.
  lemma {:induction false} RunKeeps(t: Table, cmds: seq<Command>)
    requires Inv(t) && t.stmtID + Prepares(cmds) < TWO_32
    ensures var t' := Run(t, cmds);
            && Inv(t') && t'.stmtID == t.stmtID + Prepares(cmds)
            && (forall id :: id in t'.stmts && id <= t.stmtID ==> id in t.stmts)
    decreases |cmds|
  {
    if cmds != [] {
      hide Dispatch, Inv;
      DispatchKeeps(t, cmds[0]);
      RunKeeps(Dispatch(t, cmds[0]).0, cmds[1..]);
    }
  }

  // Once closed, an id is rejected by execute and reset, and ignored by long data,
  // however the connection goes on.
  lemma ClosedIsRejected(t: Table, data: seq<byte>, later: seq<Command>, again: seq<byte>, ok: bool)
    requires Inv(t) && t.stmtID + Prepares(later) < TWO_32
    requires |data| >= 4 && IdOf(data) in t.stmts && |again| >= 9 && IdOf(again) == IdOf(data)
    ensures var end := Run(Dispatch(t, Close(data, true)).0, later);
            && Dispatch(end, Exec(again, ok)) == (end, UnknownStmt(IdOf(data)))
            && Dispatch(end, Reset(again)) == (end, UnknownStmt(IdOf(data)))
            && Dispatch(end, SendLongData(again)) == (end, NoResponse)
  {
    var id := IdOf(data);
    hide IdOf, Run, Execute;
    var t' := Dispatch(t, Close(data, true)).0;
    RunKeeps(t', later);
  }

  // The invariant survives a prepare exactly when the id does not wrap.
  lemma PrepareKeepsIff(t: Table, n: nat)
    requires Inv(t)
    ensures Inv(Dispatch(t, Prepare(Some(n))).0) <==> t.stmtID + 1 < TWO_32
  {
    var t' := Dispatch(t, Prepare(Some(n))).0;
    assert t'.stmtID in t'.stmts;
  }

  // Whatever happened to a statement before, executing it with the client's command for
  // a list of arguments hands exactly that list to the handler, and leaves the
  // arguments clear for the next execution.
  lemma ExecuteIsExact(t: Table, id: nat, args: seq<Arg>, bm: seq<byte>)
    requires Inv(t) && id in t.stmts && |args| == t.stmts[id].params
    requires AllValid(args) && Other !in args && IsNullBitmap(bm, args)
    ensures Dispatch(t, Exec(Body(id, args, bm), true)) ==
            (SetArgs(t, id, Nils(|args|)), Executed(CanonAll(args)))
  {
    var data := Body(id, args, bm);
    Capacities();
    ReadWritten(id, 4);
    assert data[..4] == LE(id, 4);
    hide Execute, Body;
    ExecuteRoundTrip(id, args, bm, t.stmts[id].args);
  }

  // An execute command that was cut short never reaches the handler.
  lemma TruncatedIsRefused(t: Table, id: nat, args: seq<Arg>, bm: seq<byte>, n: nat, ok: bool)
    requires Inv(t) && id in t.stmts && |args| == t.stmts[id].params
    requires AllValid(args) && Other !in args && IsNullBitmap(bm, args) && n < |Body(id, args, bm)|
    ensures Dispatch(t, Exec(Body(id, args, bm)[..n], ok)).1.BindErr?
  {
    var data := Body(id, args, bm);
    Capacities();
    ReadWritten(id, 4);
    assert data[..4] == LE(id, 4);
    hide Execute, Body, IsNullBitmap, AllValid;
    if n >= 9 {
      assert data[..n][..4] == data[..4];
      StmtCodec.TruncatedIsRefused(id, args, bm, t.stmts[id].args, n);
    }
  }

  // ---- a prepared statement ----

  // The command does not close statement id.
  predicate KeepsOpen(cmd: Command, id: nat)
  {
    cmd.Close? && |cmd.data| >= 4 ==> IdOf(cmd.data) != id
  }

  lemma StepOpen(t: Table, cmd: Command, id: nat)
    requires Inv(t) && (cmd.Prepare? ==> t.stmtID + 1 < TWO_32) && id in t.stmts && KeepsOpen(cmd, id)
    ensures var t' := Dispatch(t, cmd).0; id in t'.stmts && t'.stmts[id].params == t.stmts[id].params
  {
    hide IdOf, Execute;
  }

  lemma {:induction false} StaysOpen(t: Table, cmds: seq<Command>, id: nat)
    requires Inv(t) && t.stmtID + Prepares(cmds) < TWO_32 && id in t.stmts
    requires forall c :: c in cmds ==> KeepsOpen(c, id)
    ensures id in Run(t, cmds).stmts && Run(t, cmds).stmts[id].params == t.stmts[id].params
    decreases |cmds|
  {
    if cmds != [] {
      DispatchKeeps(t, cmds[0]);
      StepOpen(t, cmds[0], id);
      hide Dispatch, KeepsOpen;
      StaysOpen(Dispatch(t, cmds[0]).0, cmds[1..], id);
    }
  }

  // An open statement is reached by its id: executing it binds exactly the client's
  // arguments, resetting it succeeds, and closing it removes it alone.
  lemma UseOpen(t: Table, id: nat, args: seq<Arg>, bm: seq<byte>, more: seq<byte>)
    requires Inv(t) && id in t.stmts && |args| == t.stmts[id].params
    requires AllValid(args) && Other !in args && IsNullBitmap(bm, args)
    ensures Dispatch(t, Exec(Body(id, args, bm), true)).1 == Executed(CanonAll(args))
    ensures Dispatch(t, Reset(LE(id, 4) + more)).1 == Done
    ensures Dispatch(t, Close(LE(id, 4) + more, true)) == (t.(stmts := t.stmts - {id}), NoResponse)
  {
    hide Body, AllValid, IsNullBitmap, CanonAll, Execute;
    ExecuteIsExact(t, id, args, bm);
    assert IdOf(LE(id, 4) + more) == id by {
      Capacities();
      ReadWritten(id, 4);
      assert (LE(id, 4) + more)[..4] == LE(id, 4);
    }
    hide LE, IdOf;
  }

  // A prepare answers with an id that is not in use and leaves the other statements alone.
  lemma PrepareIsFresh(t: Table, n: nat)
    requires Inv(t) && t.stmtID + 1 < TWO_32
    ensures var (t', reply) := Dispatch(t, Prepare(Some(n)));
            && reply.Prepared? && reply.id !in t.stmts
            && t'.stmts.Keys == t.stmts.Keys + {reply.id} && t'.stmts[reply.id].params == n
            && (forall k :: k in t.stmts ==> t'.stmts[k] == t.stmts[k])
  {
  }

  // Until it is closed, the id a prepare answered with names the new statement.
  lemma PrepareThenUse(t: Table, n: nat, later: seq<Command>, args: seq<Arg>, bm: seq<byte>, more: seq<byte>)
    requires Inv(t) && t.stmtID + 1 + Prepares(later) < TWO_32
    requires |args| == n && AllValid(args) && Other !in args && IsNullBitmap(bm, args)
    ensures var (t', reply) := Dispatch(t, Prepare(Some(n)));
            && reply.Prepared?
            && var id, end := reply.id, Run(t', later);
               (forall c :: c in later ==> KeepsOpen(c, id)) ==>
                 && Dispatch(end, Exec(Body(id, args, bm), true)).1 == Executed(CanonAll(args))
                 && Dispatch(end, Reset(LE(id, 4) + more)).1 == Done
                 && Dispatch(end, Close(LE(id, 4) + more, true)).0 == end.(stmts := end.stmts - {id})
  {
    var (t', reply) := Dispatch(t, Prepare(Some(n)));
    PrepareIsFresh(t, n);
    DispatchKeeps(t, Prepare(Some(n)));
    hide *;
    if forall c :: c in later ==> KeepsOpen(c, reply.id) {
      StaysOpen(t', later, reply.id);
      RunKeeps(t', later);
      UseOpen(Run(t', later), reply.id, args, bm, more);
    }
  }

  // A command that names one statement leaves all others as they are.
  lemma OthersUntouched(t: Table, cmd: Command, k: nat)
    requires ArgsMatch(t) && !cmd.Prepare? && (|cmd.data| >= 4 ==> IdOf(cmd.data) != k)
    ensures var t' := Dispatch(t, cmd).0;
            t'.stmtID == t.stmtID && (k in t'.stmts <==> k in t.stmts)
            && (k in t.stmts ==> t'.stmts[k] == t.stmts[k])
  {
    hide IdOf, Execute;
  }

  // What an execution hands to the handler and replies comes from the command alone.
  // In particular nothing sent as long data ever reaches the handler.
  lemma LongDataUnused(t: Table, before: seq<Command>, data: seq<byte>, ok: bool)
    requires Inv(t) && t.stmtID + Prepares(before) < TWO_32
    requires |data| >= 9 && IdOf(data) in t.stmts && forall c :: c in before ==> OnlyLongData(c, IdOf(data))
    ensures Dispatch(Run(t, before), Exec(data, ok)).1 == Dispatch(t, Exec(data, ok)).1
  {
    var id := IdOf(data);
    hide Run, IdOf, OnlyLongData, Execute;
    RunKeeps(t, before);
    StaysRegistered(t, before, id);
    ExecuteForgets(data, t.stmts[id].args, Run(t, before).stmts[id].args);
  }

  lemma {:induction false} StaysRegistered(t: Table, cmds: seq<Command>, id: nat)
    requires Inv(t) && t.stmtID + Prepares(cmds) < TWO_32 && id in t.stmts
    requires forall c :: c in cmds ==> OnlyLongData(c, id)
    ensures id in Run(t, cmds).stmts && Run(t, cmds).stmts[id].params == t.stmts[id].params
    decreases |cmds|
  {
    if cmds != [] {
      DispatchKeeps(t, cmds[0]);
      StepRegistered(t, cmds[0], id);
      hide Dispatch, OnlyLongData;
      StaysRegistered(Dispatch(t, cmds[0]).0, cmds[1..], id);
    }
  }

  lemma StepRegistered(t: Table, cmd: Command, id: nat)
    requires Inv(t) && (cmd.Prepare? ==> t.stmtID + 1 < TWO_32) && id in t.stmts && OnlyLongData(cmd, id)
    ensures var t' := Dispatch(t, cmd).0; id in t'.stmts && t'.stmts[id].params == t.stmts[id].params
  {
    hide IdOf, Execute;
  }

  // ---- long data ----

  // The command leaves statement id alone or sends it long data.
  predicate OnlyLongData(cmd: Command, id: nat)
  {
    match cmd
    case Prepare(_) => true
    case SendLongData(_) => true
    case Exec(data, _) => |data| >= 4 ==> IdOf(data) != id
    case Reset(data) => |data| >= 4 ==> IdOf(data) != id
    case Close(data, _) => |data| >= 4 ==> IdOf(data) != id
  }

  // The chunk a command sends to parameter p of statement id.
  function ChunkOf(cmd: Command, id: nat, p: nat): (r: Option<seq<byte>>)
  {
    if cmd.SendLongData? && |cmd.data| >= 6 && IdOf(cmd.data) == id && FromLE(cmd.data[4..6]) == p
    then Some(cmd.data[6..]) else None
  }

  function Chunks(cmds: seq<Command>, id: nat, p: nat): (r: seq<seq<byte>>)
    decreases |cmds|
  {
    if cmds == [] then []
    else
      (match ChunkOf(cmds[0], id, p) case None => [] case Some(c) => [c]) + Chunks(cmds[1..], id, p)
  }

  // An argument to which chunks have been added.
  function Extended(a: Arg, chunks: seq<seq<byte>>): (r: Arg)
  {
    match a
    case Nil => if chunks == [] then Nil else Blob(Concat(chunks))
    case Blob(b) => Blob(b + Concat(chunks))
    case _ => a
  }

  lemma ExtendedCons(a: Arg, c: seq<byte>, chunks: seq<seq<byte>>)
    ensures Extended(Extended(a, [c]), chunks) == Extended(a, [c] + chunks)
  {
    assert ([c] + chunks)[1..] == chunks;
    assert Concat([c]) == c + Concat([]) == c;
    if a.Blob? {
      assert (a.s + c) + Concat(chunks) == a.s + (c + Concat(chunks));
    }
  }

  lemma LongDataStep(t: Table, cmd: Command, id: nat, p: nat)
    requires Inv(t) && (cmd.Prepare? ==> t.stmtID + 1 < TWO_32)
    requires id in t.stmts && p < t.stmts[id].params && OnlyLongData(cmd, id)
    ensures var t', s := Dispatch(t, cmd).0, t.stmts[id];
            && id in t'.stmts && t'.stmts[id].params == s.params
            && t'.stmts[id].args[p] ==
               match ChunkOf(cmd, id, p)
               case Some(c) => if p < s.params % 0x1_0000 then Extended(s.args[p], [c]) else s.args[p]
               case None => s.args[p]
  {
    hide IdOf, FromLE, Execute;
    match ChunkOf(cmd, id, p)
    case None =>
    case Some(c) => assert Concat([c]) == c + Concat([]) == c;
  }

  // Whatever else the connection does meanwhile, an argument grows by exactly the
  // chunks sent to it, in order.
  lemma {:induction false} LongDataRun(t: Table, cmds: seq<Command>, id: nat, p: nat)
    requires Inv(t) && t.stmtID + Prepares(cmds) < TWO_32
    requires id in t.stmts && p < t.stmts[id].params
    requires forall c :: c in cmds ==> OnlyLongData(c, id)
    ensures var t', s := Run(t, cmds), t.stmts[id];
            && id in t'.stmts && t'.stmts[id].params == s.params
            && t'.stmts[id].args[p] ==
               (if p < s.params % 0x1_0000 then Extended(s.args[p], Chunks(cmds, id, p)) else s.args[p])
    decreases |cmds|
  {
    hide Dispatch, OnlyLongData, ChunkOf;
    if cmds == [] {
      assert Extended(t.stmts[id].args[p], []) == t.stmts[id].args[p];
    } else {
      LongDataStep(t, cmds[0], id, p);
      DispatchKeeps(t, cmds[0]);
      var t' := Dispatch(t, cmds[0]).0;
      LongDataRun(t', cmds[1..], id, p);
      match ChunkOf(cmds[0], id, p)
      case None => assert Chunks(cmds, id, p) == Chunks(cmds[1..], id, p);
      case Some(c) => ExtendedCons(t.stmts[id].args[p], c, Chunks(cmds[1..], id, p));
    }
  }

  // After a reset the arguments are exactly the concatenations of the chunks sent
  // since, and nil where none was sent or where the 16-bit comparison dropped them.
  lemma LongDataAfterReset(t: Table, data: seq<byte>, cmds: seq<Command>, p: nat)
    requires Inv(t) && t.stmtID + Prepares(cmds) < TWO_32
    requires |data| >= 4 && IdOf(data) in t.stmts && p < t.stmts[IdOf(data)].params
    requires forall c :: c in cmds ==> OnlyLongData(c, IdOf(data))
    ensures var id := IdOf(data);
            var n := t.stmts[id].params;
            var end := Run(Dispatch(t, Reset(data)).0, cmds);
            var chunks := Chunks(cmds, id, p);
            && id in end.stmts && |end.stmts[id].args| == n
            && end.stmts[id].args[p] ==
               (if p >= n % 0x1_0000 || chunks == [] then Nil else Blob(Concat(chunks)))
  {
    hide Run, Chunks, IdOf, OnlyLongData;
    DispatchKeeps(t, Reset(data));
    LongDataRun(Dispatch(t, Reset(data)).0, cmds, IdOf(data), p);
  }

  // ---- the connection ----

  // The middle part of handleStmtExecute: cuts the command up and binds it to a
  // statement's arguments.
  method BindCommand(data: seq<byte>, current: seq<Arg>) returns (e: Option<BindError>, args: seq<Arg>)
    requires |data| >= 9
    ensures var r := Execute(data, current);
            args == r.args && e == if r.BindFailed? then Some(r.e) else None
  {
    hide BindFrom;
    args := current;
    if data[4] != 0 {
      return Some(UnsupportedFlag(data[4])), args;
    }
    var n := |current|;
    if n > 0 {
      var pos := 9 + BitmapLen(n);
      if |data| < pos + 1 {
        return Some(Malformed), args;
      }
      var bm := data[9..pos];
      var types: seq<byte>, values: seq<byte> := [], [];
      if data[pos] == 1 {
        pos := pos + 1;
        if |data| < pos + 2 * n {
          return Some(Malformed), args;
        }
        types, values := data[pos..pos + 2 * n], data[pos + 2 * n..];
        ghost var more := data[pos - 1..];
        assert types == more[1..1 + 2 * n] && values == more[1 + 2 * n..];
      }
      var a := new Arg[n](i requires 0 <= i < n => current[i]);
      assert a[..] == current;
      e := BindStmtArgs(a, bm, types, values);
      return e, a[..];
    }
    e := None;
  }

  class Conn {
    var stmts: map<nat, Stmt>
    var stmtID: nat

    constructor ()
      ensures View() == Table(map[], 0) && Inv(View())
    {
      stmts, stmtID := map[], 0;
    }

    function View(): (t: Table)
      reads this
    {
      Table(stmts, stmtID)
    }

    method HandlePrepare(answer: Option<int>) returns (reply: Reply)
      requires ArgsMatch(View())
      modifies this
      ensures (View(), reply) == Dispatch(old(View()), Prepare(answer))
    {
      stmtID := (stmtID + 1) % TWO_32;
      match answer
      case None => return HandlerError;
      case Some(n) =>
        if n < 0 {
          return Panicked;
        }
        stmts := stmts[stmtID := Stmt(n, Nils(n))];
        return Prepared(stmtID);
    }

    method HandleStmtExecute(data: seq<byte>, ok: bool) returns (reply: Reply)
      requires ArgsMatch(View())
      modifies this
      ensures (View(), reply) == Dispatch(old(View()), Exec(data, ok))
    {
      if |data| < 9 {
        return BindErr(Malformed);
      }
      var id := FromLE(data[..4]);
      if id !in stmts {
        return UnknownStmt(id);
      }
      var s := stmts[id];
      ghost var before := View();
      assert SetArgs(before, id, s.args) == before;
      var e, args := BindCommand(data, s.args);
      stmts := stmts[id := s.(args := args)];
      if e.Some? {
        return BindErr(e.value);
      }
      if !ok {
        return HandlerError;
      }
      stmts := stmts[id := s.(args := Nils(s.params))];
      assert stmts == before.stmts[id := s.(args := Nils(s.params))];
      return Executed(args);
    }

    method HandleStmtSendLongData(data: seq<byte>) returns (reply: Reply)
      requires ArgsMatch(View())
      modifies this
      ensures (View(), reply) == Dispatch(old(View()), SendLongData(data))
    {
      if |data| < 6 {
        return NoResponse;
      }
      var id := FromLE(data[..4]);
      if id !in stmts {
        return NoResponse;
      }
      var s := stmts[id];
      var p := FromLE(data[4..6]);
      if p >= s.params % 0x1_0000 {
        return NoResponse;
      }
      match s.args[p] {
        case Nil => stmts := stmts[id := s.(args := s.args[p := Blob(data[6..])])];
        case Blob(b) => stmts := stmts[id := s.(args := s.args[p := Blob(b + data[6..])])];
        case _ =>
      }
      return NoResponse;
    }

    method HandleStmtReset(data: seq<byte>) returns (reply: Reply)
      requires ArgsMatch(View())
      modifies this
      ensures (View(), reply) == Dispatch(old(View()), Reset(data))
    {
      if |data| < 4 {
        return BindErr(Malformed);
      }
      var id := FromLE(data[..4]);
      if id !in stmts {
        return UnknownStmt(id);
      }
      stmts := stmts[id := stmts[id].(args := Nils(stmts[id].params))];
      return Done;
    }

    method HandleStmtClose(data: seq<byte>, ok: bool) returns (reply: Reply)
      requires ArgsMatch(View())
      modifies this
      ensures (View(), reply) == Dispatch(old(View()), Close(data, ok))
    {
      if |data| < 4 {
        return NoResponse;
      }
      var id := FromLE(data[..4]);
      if id !in stmts {
        return NoResponse;
      }
      if !ok {
        return HandlerError;
      }
      stmts := stmts - {id};
      return NoResponse;
    }
  }
}
