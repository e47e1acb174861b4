// Command routing in one Redis proxy: what a client's command broadcasts to the peers
// and runs locally, and what a peer's message runs.
module Network {
  import opened Options
  import opened Chain

  // ---- the operation table ----

  // The flag bits, lowest first.
  predicate IsWrite(flags: nat) { flags % 2 == 1 }

  predicate IsForMaster(flags: nat) { flags / 2 % 2 == 1 }

  predicate MayWrite(flags: nat) { flags / 4 % 2 == 1 }

  predicate IsNotAllowed(flags: nat) { flags / 8 % 2 == 1 }

  // flags & (FlagWrite|FlagMayWrite|FlagMasterOnly) != 0, the three lowest bits
  predicate IsMasterOnly(flags: nat) { flags % 8 != 0 }

  lemma MasterOnlyIff(flags: nat)
    ensures IsMasterOnly(flags) <==> IsWrite(flags) || IsForMaster(flags) || MayWrite(flags)
  {
    var q, r := flags / 8, flags % 8;
    EighthsAndRest(q, r);
    LastBit(4 * q, r);
    LastBit(2 * q, r / 2);
    LastBit(q, r / 4);
    LowThree(r);
  }

  lemma EighthsAndRest(q: nat, r: nat)
    requires r < 8
    ensures (8 * q + r) / 2 == 4 * q + r / 2 && (8 * q + r) / 4 == 2 * q + r / 4
  {
  }

  lemma LastBit(x: nat, k: nat)
    ensures (2 * x + k) % 2 == k % 2
  {
  }

  lemma LowThree(r: nat)
    requires r < 8
    ensures r == 0 <==> r % 2 == 0 && r / 2 % 2 == 0 && r / 4 % 2 == 0
  {
  }

  datatype Verify = Equal(n: nat) | Less(n: nat) | Greater(n: nat) | Modulos(n: nat, m: nat)

  predicate ArgsVerify(v: Verify, len: nat)
  {
    match v
    case Equal(n) => len == n
    case Less(n) => len < n
    case Greater(n) => len >= n
    case Modulos(n, m) => n > 0 && len % n == m
  }

  // The flags are the sum of 1 for write, 2 for master-only, 4 for may-write and 8 for
  // not-allowed; higher bits do not matter.
  lemma FlagBits(w: bool, m: bool, y: bool, n: bool, high: nat)
    ensures var low := (if w then 1 else 0) + (if m then 2 else 0) + (if y then 4 else 0) + (if n then 8 else 0);
            var flags := 16 * high + low;
            IsWrite(flags) == w && IsForMaster(flags) == m && MayWrite(flags) == y && IsNotAllowed(flags) == n
  {
    var low := (if w then 1 else 0) + (if m then 2 else 0) + (if y then 4 else 0) + (if n then 8 else 0);
    LastBit(8 * high, low);
    LastBit(4 * high, low / 2);
    LastBit(2 * high, low / 4);
    LastBit(high, low / 8);
  }

  // The number of arguments, name included, that each verifier lets through: exactly n,
  // fewer than n, n or more, and for MSET an odd number.
  lemma VerifyMeaning(n: nat, len: nat)
    ensures ArgsVerify(Equal(n), len) <==> len == n
    ensures ArgsVerify(Less(n), len) <==> n > len
    ensures ArgsVerify(Greater(n), len) <==> !(len < n)
    ensures ArgsVerify(Modulos(2, 1), len) <==> len / 2 * 2 != len
    ensures ArgsVerify(Modulos(1, 0), len)
  {
  }

  datatype Op = Op(flags: nat, verify: Verify)

  function UpperChar(c: char): (u: char) { if 'a' <= c <= 'z' then (c as int - 32) as char else c }

  function Upper(s: string): (u: string) { seq(|s|, i requires 0 <= i < |s| => UpperChar(s[i])) }

  // The same but for the case of ASCII letters.
  predicate SameLetter(c: char, d: char)
  {
    || c == d || ('a' <= c <= 'z' && c as int == d as int + 32) || ('a' <= d <= 'z' && d as int == c as int + 32)
  }

  lemma UpperIff(a: string, b: string)
    ensures Upper(a) == Upper(b) <==> |a| == |b| && forall i :: 0 <= i < |a| ==> SameLetter(a[i], b[i])
  {
    if Upper(a) == Upper(b) {
      assert |a| == |Upper(a)| == |Upper(b)| == |b|;
      forall i | 0 <= i < |a| ensures SameLetter(a[i], b[i]) {
        assert Upper(a)[i] == UpperChar(a[i]) && Upper(b)[i] == UpperChar(b[i]);
      }
    }
  }

  // Upper changes letters only, and leaves no lower-case one.
  lemma UpperMeaning(s: string)
    ensures |Upper(s)| == |s|
    ensures forall i :: 0 <= i < |s| ==> SameLetter(Upper(s)[i], s[i]) && !('a' <= Upper(s)[i] <= 'z')
  {
  }

  predicate HasNoLower(s: string) { forall i :: 0 <= i < |s| ==> !('a' <= s[i] <= 'z') }

  // Any spelling of an upper-case name becomes that name.
  lemma SpellsIff(s: string, name: string)
    requires HasNoLower(name)
    ensures Upper(s) == name <==> |s| == |name| && forall i :: 0 <= i < |s| ==> SameLetter(s[i], name[i])
  {
    assert Upper(name) == name;
    UpperIff(s, name);
  }

  // ---- handlers ----

  type Args = seq<string>

  datatype Event = Broadcast(args: Args) | Exec(args: Args) | Local(args: Args)

  datatype Handler = IgnoreCMD(enable: bool, list: seq<string>) | PubSub | Command | Ping | Quit | CmdExec

  // A request: the upper-case name, its flags, and whether writing the reply will fail.
  datatype Request = Request(cmd: string, flags: nat, args: Args, fail: bool)

  const PASS: Prog<Event> := CallNext(Return(false), Return(true))

  function Behaviour(h: Handler, q: Request): (p: Prog<Event>)
  {
    match h
    case IgnoreCMD(enable, list) => if enable && |list| > 0 && q.cmd in list then Return(true) else PASS
    case PubSub => if IsMasterOnly(q.flags) then Emit(Broadcast(q.args), PASS) else PASS
    case CmdExec => Emit(Exec(q.args), Return(q.fail))
    case _ => Emit(Local(q.args), Return(q.fail))
  }

  function Behaviours(hs: seq<Handler>, q: Request): (chain: seq<Prog<Event>>)
    ensures |chain| == |hs|
  {
    seq(|hs|, i requires 0 <= i < |hs| => Behaviour(hs[i], q))
  }

  // ---- routes ----

  datatype Config = Config(ops: map<string, Op>, ignore: bool, ignored: seq<string>, p2p: bool)

  function Middlewares(cfg: Config): (hs: seq<Handler>)
  {
    [IgnoreCMD(cfg.ignore, cfg.ignored)] + if cfg.p2p then [PubSub] else []
  }

  function Own(cmd: string): (h: Handler)
  {
    if cmd == "COMMAND" then Command else if cmd == "PING" then Ping else if cmd == "QUIT" then Quit else CmdExec
  }

  // ---- a client's command ----

  predicate Ignored(cfg: Config, cmd: string) { cfg.ignore && cmd in cfg.ignored }

  // The command is in the table, allowed, has the right number of arguments and is
  // not on the ignore list.
  predicate Accepts(cfg: Config, args: Args)
  {
    args != [] &&
    var cmd := Upper(args[0]);
    && cmd in cfg.ops && !IsNotAllowed(cfg.ops[cmd].flags) && ArgsVerify(cfg.ops[cmd].verify, |args|)
    && !Ignored(cfg, cmd)
  }

  // It is also passed on to the peers.
  predicate Replicates(cfg: Config, args: Args)
  {
    cfg.p2p && Accepts(cfg, args) && IsMasterOnly(cfg.ops[Upper(args[0])].flags)
  }

  // How a client spells a command does not matter.
  lemma CaseBlind(cfg: Config, a: string, b: string, rest: Args)
    requires |a| == |b| && forall i :: 0 <= i < |a| ==> SameLetter(a[i], b[i])
    ensures Accepts(cfg, [a] + rest) <==> Accepts(cfg, [b] + rest)
    ensures Replicates(cfg, [a] + rest) <==> Replicates(cfg, [b] + rest)
  {
    UpperIff(a, b);
  }

  // A table keyed by upper-case names has its commands found under any spelling; what
  // is not in it is refused.
  lemma FoundInTable(cfg: Config, name: string, s: string, rest: Args)
    requires HasNoLower(name) && |s| == |name| && forall i :: 0 <= i < |s| ==> SameLetter(s[i], name[i])
    ensures Accepts(cfg, [s] + rest) <==>
            && name in cfg.ops && !IsNotAllowed(cfg.ops[name].flags)
            && ArgsVerify(cfg.ops[name].verify, 1 + |rest|) && !(cfg.ignore && name in cfg.ignored)
  {
    hide Upper;
    SpellsIff(s, name);
  }

  // What the last handler of a command does.
  function Effect(args: Args): (e: Event)
    ensures e.args == args && !e.Broadcast?
  {
    if args != [] && Own(Upper(args[0])) == CmdExec then Exec(args) else Local(args)
  }

  // The chain run by the routes of cfg; the panic of Handle on an empty list is recovered.
  function Handle(cfg: Config, args: Args, fail: bool): (r: seq<Event>)
  {
    if args == [] then []
    else
      var cmd := Upper(args[0]);
      if cmd !in cfg.ops || IsNotAllowed(cfg.ops[cmd].flags) || !ArgsVerify(cfg.ops[cmd].verify, |args|) then []
      else
        var q := Request(cmd, cfg.ops[cmd].flags, args, fail);
        NextFrom(Behaviours(Middlewares(cfg) + [Own(cmd)], q), Start()).0.events
  }

  // Sync runs the last handler by itself, whatever the table and the lists say. It
  // leaves the index at -1, which a last handler does not look at.
  function Sync(cfg: Config, args: Args, fail: bool): (r: seq<Event>)
  {
    if args == [] then []
    else
      var cmd := Upper(args[0]);
      var flags := if cmd in cfg.ops then cfg.ops[cmd].flags else 0;
      var chain := Behaviours(Middlewares(cfg) + [Own(cmd)], Request(cmd, flags, args, fail));
      Run(chain, |chain| - 1, chain[|chain| - 1], State(|chain| - 1, [], [], 0)).0.events
  }

  // A handler that only calls Next is the rest of the chain.
  lemma RunPass(chain: seq<Prog<Event>>, k: nat, s: State<Event>)
    requires k < |chain| < ABORT_INDEX && s.index >= k
    ensures Run(chain, k, PASS, s) == Loop(chain, Bump(s))
  {
  }

  // In front of a handler that passes, the loop emits what the rest emits.
  lemma PassLoop(chain: seq<Prog<Event>>, s: State<Event>, e: seq<Event>)
    requires 0 <= s.index < |chain| < ABORT_INDEX && |e| <= 1
    requires chain[s.index] == if e == [] then PASS else Emit(e[0], PASS)
    ensures var s' := s.(log := s.log + [s.index], events := s.events + e);
            Loop(chain, s).0.events == Loop(chain, Bump(s')).0.events
  {
    hide Run, Bump;
    var i := s.index;
    var s0, s' := s.(log := s.log + [i]), s.(log := s.log + [i], events := s.events + e);
    if e == [] {
      assert s.events + e == s.events;
    } else {
      assert e == [e[0]];
      RunEmit(chain, i, e[0], PASS, s0);
    }
    RunPass(chain, i, s');
    assert Run(chain, i, chain[i], s0) == Loop(chain, Bump(s'));
    OneRound(chain, s, Loop(chain, Bump(s')));
    hide Loop;
    var (t, o) := Loop(chain, Bump(s'));
    if o == Nil {
      StaysOut(chain, t);
    }
  }

  lemma RunEmit(chain: seq<Prog<Event>>, k: nat, e: Event, p: Prog<Event>, s: State<Event>)
    requires k < |chain| < ABORT_INDEX && s.index >= k
    ensures Run(chain, k, Emit(e, p), s) == Run(chain, k, p, s.(events := s.events + [e]))
  {
  }

  // One round of the loop, given what its handler returns.
  lemma OneRound(chain: seq<Prog<Event>>, s: State<Event>, r: (State<Event>, Outcome))
    requires 0 <= s.index < |chain| < ABORT_INDEX
    requires Run(chain, s.index, chain[s.index], s.(log := s.log + [s.index])) == r
    ensures Loop(chain, s) == if r.1 != Nil then r else Loop(chain, Bump(r.0))
  {
    hide Run, Bump;
  }

  lemma StaysOut(chain: seq<Prog<Event>>, t: State<Event>)
    requires |chain| < ABORT_INDEX && t.index >= |chain|
    ensures Loop(chain, Bump(t)).0.events == t.events
  {
  }

  lemma LastLoop(chain: seq<Prog<Event>>, s: State<Event>, e: Event, fail: bool)
    requires 0 <= s.index == |chain| - 1 < ABORT_INDEX - 1
    requires chain[s.index] == Emit(e, Return(fail))
    ensures Loop(chain, s).0.events == s.events + [e]
  {
    var s' := s.(log := s.log + [s.index], events := s.events + [e]);
    assert Run(chain, s.index, Return(fail), s') == (s', if fail then Error else Nil);
    assert Run(chain, s.index, chain[s.index], s.(log := s.log + [s.index])) == (s', if fail then Error else Nil);
    hide Run;
    LeavesLoop(chain, s');
  }

  lemma LeavesLoop(chain: seq<Prog<Event>>, t: State<Event>)
    requires |chain| < ABORT_INDEX && t.index == |chain| - 1
    ensures Loop(chain, Bump(t)) == (Bump(t), Nil)
  {
  }

  lemma RefusedLoop(chain: seq<Prog<Event>>, s: State<Event>)
    requires 0 <= s.index < |chain| < ABORT_INDEX && chain[s.index] == Return(true)
    ensures Loop(chain, s).0.events == s.events
  {
  }

  // The chain of a command, run from the start.
  lemma ChainEvents(cfg: Config, q: Request)
    requires q.args != [] && q.cmd == Upper(q.args[0])
    ensures NextFrom(Behaviours(Middlewares(cfg) + [Own(q.cmd)], q), Start()).0.events ==
            if Ignored(cfg, q.cmd) then []
            else (if cfg.p2p && IsMasterOnly(q.flags) then [Broadcast(q.args)] else []) + [Effect(q.args)]
  {
    hide Loop, Run, Upper, IsMasterOnly;
    var chain := Behaviours(Middlewares(cfg) + [Own(q.cmd)], q);
    var s := Bump(Start<Event>());
    if Ignored(cfg, q.cmd) {
      RefusedLoop(chain, s);
    } else {
      var last := Emit(Effect(q.args), Return(q.fail));
      assert chain[0] == PASS;
      PassLoop(chain, s, []);
      var s1 := Bump(s.(log := s.log + [0], events := s.events + []));
      if cfg.p2p {
        var e := if IsMasterOnly(q.flags) then [Broadcast(q.args)] else [];
        assert |chain| == 3 && chain[1] == (if e == [] then PASS else Emit(e[0], PASS)) && chain[2] == last;
        hide Behaviours, Effect;
        PassLoop(chain, s1, e);
        LastLoop(chain, Bump(s1.(log := s1.log + [1], events := s1.events + e)), Effect(q.args), q.fail);
      } else {
        assert |chain| == 2 && chain[1] == last;
        LastLoop(chain, s1, Effect(q.args), q.fail);
      }
    }
  }

  // A command that is accepted runs once. If it may write and there are peers it is
  // broadcast once, before it runs. Nothing else happens, and nothing at all for a
  // command that is not accepted.
  lemma HandleEvents(cfg: Config, args: Args, fail: bool)
    ensures Handle(cfg, args, fail) ==
            (if Replicates(cfg, args) then [Broadcast(args)] else []) +
            (if Accepts(cfg, args) then [Effect(args)] else [])
  {
    hide NextFrom, Upper, IsMasterOnly, IsNotAllowed, ArgsVerify, Ignored, Behaviours, Effect;
    if args != [] {
      var cmd := Upper(args[0]);
      if cmd in cfg.ops {
        ChainEvents(cfg, Request(cmd, cfg.ops[cmd].flags, args, fail));
      }
    }
  }

  // A peer's message runs the command once and is never broadcast again.
  lemma SyncEvents(cfg: Config, args: Args, fail: bool)
    ensures Sync(cfg, args, fail) == if args == [] then [] else [Effect(args)]
  {
    if args != [] {
      hide Upper;
      var cmd := Upper(args[0]);
      var flags := if cmd in cfg.ops then cfg.ops[cmd].flags else 0;
      var chain := Behaviours(Middlewares(cfg) + [Own(cmd)], Request(cmd, flags, args, fail));
      var k := |chain| - 1;
      var s := State(k, [], [], 0);
      assert chain[k] == Emit(Effect(args), Return(fail));
      assert Run(chain, k, Return(fail), s.(events := s.events + [Effect(args)])).0.events == [Effect(args)];
    }
  }

  lemma ReplicatesAccepts(cfg: Config, args: Args)
    ensures Replicates(cfg, args) ==> Accepts(cfg, args)
    ensures Accepts(cfg, args) ==> args != []
  {
  }

  // Everything but the three commands the proxy answers itself goes to the store.
  lemma EffectIff(args: Args)
    requires args != []
    ensures Effect(args) ==
            if Upper(args[0]) in {"COMMAND", "PING", "QUIT"} then Local(args) else Exec(args)
  {
    hide Upper;
  }

  // The caller of an ignored command gets an error, and so does one whose reply cannot
  // be written; any other gets none.
  lemma HandleOutcome(cfg: Config, q: Request)
    ensures NextFrom(Behaviours(Middlewares(cfg) + [Own(q.cmd)], q), Start()).1 ==
            if Ignored(cfg, q.cmd) || q.fail then Error else Nil
  {
    var chain := Behaviours(Middlewares(cfg) + [Own(q.cmd)], q);
    var last := |chain| - 1;
    hide NextFrom, IsMasterOnly;
    if Ignored(cfg, q.cmd) {
      assert Refuses(chain[0]);
      ErrorComesOut(chain, 0);
    } else {
      assert chain[0] == PASS;
      if q.fail {
        assert Refuses(chain[last]);
        ErrorComesOut(chain, last);
      } else {
        NilComesOut(chain);
      }
    }
  }

  // ---- the router ----

  class Router {
    var middlewares: seq<Handler>
    var cmd: map<string, seq<Handler>>

    constructor ()
      ensures middlewares == [] && cmd == map[]
    {
      middlewares, cmd := [], map[];
    }

    method Use(h: Handler)
      modifies this
      ensures middlewares == old(middlewares) + [h] && cmd == old(cmd)
    {
      middlewares := middlewares + [h];
    }

    // False is the panic on too many handlers.
    method AddCommand(operation: string, h: Handler) returns (ok: bool)
      modifies this
      ensures ok == (|middlewares| + 1 < ABORT_INDEX)
      ensures middlewares == old(middlewares)
      ensures cmd == if ok then old(cmd)[operation := middlewares + [h]] else old(cmd)
    {
      var handlers := CombineHandlers(middlewares, [h]);
      ok := handlers.Some?;
      if ok {
        cmd := cmd[operation := handlers.value];
      }
    }

    // What a router set up for cfg holds.
    predicate Routes(cfg: Config)
      reads this
    {
      var m := Middlewares(cfg);
      && middlewares == m
      && cmd == map["COMMAND" := m + [Command], "PING" := m + [Ping], "QUIT" := m + [Quit],
                    "CMDEXEC" := m + [CmdExec]]
    }

    method Setup(cfg: Config)
      requires middlewares == [] && cmd == map[]
      modifies this
      ensures Routes(cfg)
    {
      Use(IgnoreCMD(cfg.ignore, cfg.ignored));
      if cfg.p2p {
        Use(PubSub);
      }
      assert middlewares == Middlewares(cfg);
      var _ := AddCommand("COMMAND", Command);
      var _ := AddCommand("PING", Ping);
      var _ := AddCommand("QUIT", Quit);
      var _ := AddCommand("CMDEXEC", CmdExec);
    }

    method HandlersFor(cfg: Config, name: string) returns (hs: seq<Handler>)
      requires Routes(cfg)
      ensures hs == Middlewares(cfg) + [Own(name)]
    {
      hs := if name in cmd then cmd[name] else cmd["CMDEXEC"];
    }

    method HandleCommand(cfg: Config, args: Args, fail: bool) returns (events: seq<Event>)
      requires Routes(cfg)
      ensures events == Handle(cfg, args, fail)
    {
      if args == [] {
        return [];
      }
      var name := Upper(args[0]);
      if name !in cfg.ops || IsNotAllowed(cfg.ops[name].flags) {
        return [];
      }
      var op := cfg.ops[name];
      if !ArgsVerify(op.verify, |args|) {
        return [];
      }
      var hs := HandlersFor(cfg, name);
      var c := new Context(Behaviours(hs, Request(name, op.flags, args, fail)));
      var _ := c.Next();
      return c.events;
    }

    method SyncCommand(cfg: Config, args: Args, fail: bool) returns (events: seq<Event>)
      requires Routes(cfg)
      ensures events == if args == [] then [] else [Effect(args)]
    {
      if args == [] {
        return [];
      }
      var name := Upper(args[0]);
      var hs := HandlersFor(cfg, name);
      var flags := if name in cfg.ops then cfg.ops[name].flags else 0;
      var last := Behaviour(hs[|hs| - 1], Request(name, flags, args, fail));
      var c := new Context(Behaviours(hs, Request(name, flags, args, fail)));
      c.index := |hs| - 1;
      ghost var s := c.View();
      assert last == Emit(Effect(args), Return(fail));
      ghost var s' := s.(events := s.events + [Effect(args)]);
      assert Run(c.handlers, |hs| - 1, Return(fail), s').0.events == [Effect(args)];
      var _ := c.Invoke(|hs| - 1, last);
      return c.events;
    }
  }
}
