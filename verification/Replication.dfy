// A network of Redis proxies, each with its own configuration. Every request, from a
// client or from a peer, is in flight: a step is one action of one request's handlers,
// so requests interleave in any way.
module Replication {
  import opened Options
  import opened Chain
  import opened ChainSteps
  import opened Network
  import opened Utf8

  // A message of a client's request, or the arrival of the msg-th message sent.
  datatype Kind = FromClient | FromPeer(msg: nat)

  datatype Req = Req(node: nat, args: Args, fail: bool, kind: Kind, m: Machine<Event>)

  datatype Msg = Msg(origin: nat, args: Args)

  datatype At = At(req: nat, event: Event)

  // All requests there have been, the messages sent, and everything that happened, in order.
  datatype Net = Net(reqs: seq<Req>, sent: seq<Msg>, trace: seq<At>)

  // Messages may be lost, repeated and reordered, and reach any node.
  datatype Step =
    | Arrive(node: nat, args: Args, fail: bool) | Receive(node: nat, msg: nat, fail: bool)
    | Advance(req: nat)

  // ---- one request ----

  // The lookup and the checks at the start of Handle.
  predicate Known(cfg: Config, args: Args)
  {
    args != [] &&
    var cmd := Upper(args[0]);
    cmd in cfg.ops && !IsNotAllowed(cfg.ops[cmd].flags) && ArgsVerify(cfg.ops[cmd].verify, |args|)
  }

  function ChainOf(cfg: Config, args: Args, fail: bool): (chain: seq<Prog<Event>>)
    ensures |chain| <= 3 && (args != [] ==> |chain| >= 1)
  {
    if args == [] then []
    else
      var cmd := Upper(args[0]);
      var flags := if cmd in cfg.ops then cfg.ops[cmd].flags else 0;
      Behaviours(Middlewares(cfg) + [Own(cmd)], Request(cmd, flags, args, fail))
  }

  // Where a request starts: a client's at the loop of Next, a peer's in the last handler.
  function Begin(cfg: Config, args: Args, fail: bool, kind: Kind): (m: Machine<Event>)
    ensures m.s.events == []
  {
    var chain := ChainOf(cfg, args, fail);
    var k := |chain| - 1;
    if kind.FromClient? then
      if Known(cfg, args) then Machine(Bump(Start()), AtLoop(Done), None) else Machine(Start(), Done, Some(Nil))
    else if args == [] then Machine(Start(), Done, Some(Nil))
    else Machine(State(k, [], [], 0), In(k, chain[k], Done), None)
  }

  // All that a request does.
  function Whole(cfg: Config, args: Args, fail: bool, kind: Kind): (events: seq<Event>)
  {
    if kind.FromClient? then Handle(cfg, args, fail) else Sync(cfg, args, fail)
  }

  lemma WholeIsReached(cfg: Config, args: Args, fail: bool, kind: Kind) returns (n: nat)
    ensures var end := Steps(ChainOf(cfg, args, fail), n, Begin(cfg, args, fail, kind));
            end.stack.Done? && end.s.events == Whole(cfg, args, fail, kind)
  {
    hide Loop, Run, Upper, IsNotAllowed, ArgsVerify, Steps, Behaviours;
    var chain, m := ChainOf(cfg, args, fail), Begin(cfg, args, fail, kind);
    if m.stack.Done? {
      n := 0;
      EventsGrow(chain, 0, m);
    } else if kind.FromClient? {
      n := LoopSteps(chain, m.s, Done);
    } else {
      n := HandlerSteps(chain, |chain| - 1, chain[|chain| - 1], m.s, Done);
    }
  }

  predicate Over(q: Req) { q.m.stack.Done? }

  // The request has come this far by its own actions alone.
  ghost predicate Reached(cfg: Config, q: Req)
  {
    exists j: nat :: q.m == Steps(ChainOf(cfg, q.args, q.fail), j, Begin(cfg, q.args, q.fail, q.kind))
  }

  lemma ReachedPrefix(cfg: Config, q: Req)
    requires Reached(cfg, q)
    ensures var whole := Whole(cfg, q.args, q.fail, q.kind);
            q.m.s.events <= whole && (Over(q) ==> q.m.s.events == whole)
  {
    hide Steps, Whole, Begin, ChainOf;
    var chain, m := ChainOf(cfg, q.args, q.fail), Begin(cfg, q.args, q.fail, q.kind);
    var j: nat :| q.m == Steps(chain, j, m);
    var n := WholeIsReached(cfg, q.args, q.fail, q.kind);
    PrefixOfAll(chain, j, n, m);
  }

  lemma ReachedNext(cfg: Config, q: Req)
    requires Reached(cfg, q)
    ensures Reached(cfg, q.(m := Step1(ChainOf(cfg, q.args, q.fail), q.m)))
  {
    hide Step1, Begin, ChainOf;
    var chain, m := ChainOf(cfg, q.args, q.fail), Begin(cfg, q.args, q.fail, q.kind);
    var j: nat :| q.m == Steps(chain, j, m);
    StepsAdd(chain, j, 1, m);
    var m' := Step1(chain, q.m);
    assert Steps(chain, 1, q.m) == Steps(chain, 0, m') == m';
    assert m' == Steps(chain, j + 1, m);
  }

  // ---- the network ----

  // What a peer gets of a message: JSON replaces bytes that are not UTF-8.
  function Arrived(args: Args): (r: Args)
    ensures |r| == |args|
  {
    seq(|args|, i requires 0 <= i < |args| => Sanitize(args[i]))
  }

  // A peer runs exactly the client's command if and only if it is all UTF-8.
  lemma ArrivedIff(args: Args)
    ensures Arrived(args) == args <==> forall i :: 0 <= i < |args| ==> Valid(args[i])
  {
    hide Sanitize, Valid;
    forall i | 0 <= i < |args| ensures Arrived(args)[i] == args[i] <==> Valid(args[i]) {
      SanitizeIff(args[i]);
    }
    if forall i :: 0 <= i < |args| ==> Valid(args[i]) {
      assert forall i :: 0 <= i < |args| ==> Arrived(args)[i] == args[i];
    }
  }

  function MessageOf(a: At): (r: seq<Msg>) { if a.event.Broadcast? then [Msg(a.req, a.event.args)] else [] }

  function Do(cfgs: nat -> Config, n: Net, step: Step): (r: Net)
  {
    match step
    case Arrive(node, args, fail) => Admit(cfgs, n, node, args, fail, FromClient)
    case Receive(node, msg, fail) =>
      if msg >= |n.sent| then n else Admit(cfgs, n, node, Arrived(n.sent[msg].args), fail, FromPeer(msg))
    case Advance(r) => if r >= |n.reqs| then n else Act(cfgs, n, r)
  }

  function Admit(cfgs: nat -> Config, n: Net, node: nat, args: Args, fail: bool, kind: Kind): (r: Net)
  {
    n.(reqs := n.reqs + [Req(node, args, fail, kind, Begin(cfgs(node), args, fail, kind))])
  }

  // The next action of request r.
  function Act(cfgs: nat -> Config, n: Net, r: nat): (n': Net)
    requires r < |n.reqs|
  {
    var q := n.reqs[r];
    var m := Step1(ChainOf(cfgs(q.node), q.args, q.fail), q.m);
    var reqs := n.reqs[r := q.(m := m)];
    if |m.s.events| > |q.m.s.events| then
      var a := At(r, m.s.events[|q.m.s.events|]);
      Net(reqs, n.sent + MessageOf(a), n.trace + [a])
    else n.(reqs := reqs)
  }

  function RunAll(cfgs: nat -> Config, n: Net, steps: seq<Step>): (r: Net)
    decreases |steps|
  {
    if steps == [] then n else RunAll(cfgs, Do(cfgs, n, steps[0]), steps[1..])
  }

  const EMPTY := Net([], [], [])

  // ---- projections ----

  // What request r did.
  function Project(trace: seq<At>, r: nat): (events: seq<Event>)
  {
    if trace == [] then []
    else
      var a := trace[|trace| - 1];
      Project(trace[..|trace| - 1], r) + if a.req == r then [a.event] else []
  }

  function Messages(trace: seq<At>): (r: seq<Msg>)
  {
    if trace == [] then [] else Messages(trace[..|trace| - 1]) + MessageOf(trace[|trace| - 1])
  }

  lemma ProjectPush(trace: seq<At>, a: At, r: nat)
    ensures Project(trace + [a], r) == Project(trace, r) + if a.req == r then [a.event] else []
    ensures Messages(trace + [a]) == Messages(trace) + MessageOf(a)
  {
    assert (trace + [a])[..|trace|] == trace;
  }

  lemma {:induction false} ProjectPrefix(trace: seq<At>, i: nat, r: nat)
    requires i <= |trace|
    ensures Project(trace[..i], r) <= Project(trace, r)
    decreases |trace| - i
  {
    if i == |trace| {
      assert trace[..i] == trace;
    } else {
      ProjectPrefix(trace, i + 1, r);
      assert trace[..i + 1] == trace[..i] + [trace[i]];
      ProjectPush(trace[..i], trace[i], r);
    }
  }

  lemma {:induction false} ProjectFresh(trace: seq<At>, r: nat)
    requires forall a :: a in trace ==> a.req != r
    ensures Project(trace, r) == []
    decreases |trace|
  {
    if trace != [] {
      var front, last := trace[..|trace| - 1], trace[|trace| - 1];
      assert trace == front + [last] && last in trace;
      forall a | a in front ensures a in trace {}
      ProjectFresh(front, r);
    }
  }

  // ---- what holds in every state ----

  // The request is where its own actions brought it, and the trace shows them.
  ghost predicate ReqInv(cfgs: nat -> Config, n: Net, r: nat)
    requires r < |n.reqs|
  {
    var q := n.reqs[r];
    && Reached(cfgs(q.node), q)
    && Project(n.trace, r) == q.m.s.events
    && (q.kind.FromPeer? ==> q.kind.msg < |n.sent| && q.args == Arrived(n.sent[q.kind.msg].args))
  }

  // A message is the command of a client's request that its node replicates.
  predicate MsgInv(cfgs: nat -> Config, n: Net, m: nat)
    requires m < |n.sent|
  {
    var o := n.sent[m].origin;
    && o < |n.reqs| && n.reqs[o].kind.FromClient? && n.sent[m].args == n.reqs[o].args
    && Replicates(cfgs(n.reqs[o].node), n.reqs[o].args)
  }

  ghost predicate Inv(cfgs: nat -> Config, n: Net)
  {
    && (forall a :: a in n.trace ==> a.req < |n.reqs|)
    && n.sent == Messages(n.trace)
    && (forall r :: 0 <= r < |n.reqs| ==> ReqInv(cfgs, n, r))
    && (forall m :: 0 <= m < |n.sent| ==> MsgInv(cfgs, n, m))
  }

  lemma BeginReached(cfg: Config, q: Req)
    requires q.m == Begin(cfg, q.args, q.fail, q.kind)
    ensures Reached(cfg, q)
  {
    hide Begin, ChainOf;
    assert q.m == Steps(ChainOf(cfg, q.args, q.fail), 0, Begin(cfg, q.args, q.fail, q.kind));
  }

  lemma AdmitKeeps(cfgs: nat -> Config, n: Net, node: nat, args: Args, fail: bool, kind: Kind)
    requires Inv(cfgs, n)
    requires kind.FromPeer? ==> kind.msg < |n.sent| && args == Arrived(n.sent[kind.msg].args)
    ensures Inv(cfgs, Admit(cfgs, n, node, args, fail, kind))
  {
    hide Begin, Reached, Replicates, Arrived, Project, Messages;
    var n' := Admit(cfgs, n, node, args, fail, kind);
    var k := |n.reqs|;
    BeginReached(cfgs(node), n'.reqs[k]);
    ProjectFresh(n.trace, k);
    forall r | 0 <= r < |n'.reqs| ensures ReqInv(cfgs, n', r) {
      if r < k { assert ReqInv(cfgs, n, r); }
    }
    forall m | 0 <= m < |n'.sent| ensures MsgInv(cfgs, n', m) {
      assert MsgInv(cfgs, n, m);
    }
  }

  // Only a client's replicated command broadcasts, and what it broadcasts is itself.
  lemma BroadcastIsOwn(cfg: Config, q: Req, events: seq<Event>, e: Event)
    requires events + [e] <= Whole(cfg, q.args, q.fail, q.kind) && e.Broadcast?
    ensures q.kind.FromClient? && e.args == q.args && Replicates(cfg, q.args)
  {
    hide Handle, Sync, Replicates, Accepts, Effect;
    HandleEvents(cfg, q.args, q.fail);
    SyncEvents(cfg, q.args, q.fail);
    var whole := Whole(cfg, q.args, q.fail, q.kind);
    assert whole[|events|] == e;
  }

  lemma ActKeeps(cfgs: nat -> Config, n: Net, r: nat)
    requires Inv(cfgs, n) && r < |n.reqs|
    ensures Inv(cfgs, Act(cfgs, n, r))
  {
    hide Reached, Replicates, Arrived, Project, Messages, Whole, Step1, ChainOf;
    var q, n' := n.reqs[r], Act(cfgs, n, r);
    var q' := n'.reqs[r];
    assert ReqInv(cfgs, n, r);
    ReachedNext(cfgs(q.node), q);
    OneEvent(ChainOf(cfgs(q.node), q.args, q.fail), q.m);
    ReachedPrefix(cfgs(q.node), q');
    if n'.trace != n.trace {
      var a := n'.trace[|n.trace|];
      assert n'.trace == n.trace + [a] && a.req == r;
      assert q'.m.s.events == q.m.s.events + [a.event];
      ProjectPush(n.trace, a, r);
      if a.event.Broadcast? {
        BroadcastIsOwn(cfgs(q.node), q', q.m.s.events, a.event);
      }
      forall k | 0 <= k < |n'.reqs| ensures ReqInv(cfgs, n', k) {
        assert ReqInv(cfgs, n, k);
        ProjectPush(n.trace, a, k);
      }
      forall m | 0 <= m < |n'.sent| ensures MsgInv(cfgs, n', m) {
        if m < |n.sent| { assert MsgInv(cfgs, n, m); }
      }
    } else {
      assert q'.m.s.events == q.m.s.events;
      forall k | 0 <= k < |n'.reqs| ensures ReqInv(cfgs, n', k) { assert ReqInv(cfgs, n, k); }
      forall m | 0 <= m < |n'.sent| ensures MsgInv(cfgs, n', m) { assert MsgInv(cfgs, n, m); }
    }
  }

  lemma StepKeeps(cfgs: nat -> Config, n: Net, step: Step)
    requires Inv(cfgs, n)
    ensures Inv(cfgs, Do(cfgs, n, step))
  {
    hide Inv, Admit, Act, Arrived;
    match step
    case Arrive(node, args, fail) => AdmitKeeps(cfgs, n, node, args, fail, FromClient);
    case Receive(node, msg, fail) =>
      if msg < |n.sent| {
        AdmitKeeps(cfgs, n, node, Arrived(n.sent[msg].args), fail, FromPeer(msg));
      }
    case Advance(r) => if r < |n.reqs| { ActKeeps(cfgs, n, r); }
  }

  lemma {:induction false} RunKeeps(cfgs: nat -> Config, n: Net, steps: seq<Step>)
    requires Inv(cfgs, n)
    ensures Inv(cfgs, RunAll(cfgs, n, steps))
    decreases |steps|
  {
    hide Inv, Do;
    if steps != [] {
      StepKeeps(cfgs, n, steps[0]);
      RunKeeps(cfgs, Do(cfgs, n, steps[0]), steps[1..]);
    }
  }

  ghost predicate Reachable(cfgs: nat -> Config, n: Net)
  {
    exists steps :: n == RunAll(cfgs, EMPTY, steps)
  }

  lemma ReachableInv(cfgs: nat -> Config, n: Net)
    requires Reachable(cfgs, n)
    ensures Inv(cfgs, n)
  {
    hide RunAll;
    var steps :| n == RunAll(cfgs, EMPTY, steps);
    assert Inv(cfgs, EMPTY);
    RunKeeps(cfgs, EMPTY, steps);
  }

  // What a request does in all: a client's that is accepted runs once, after one
  // broadcast if it is to be replicated; a peer's runs once.
  function Due(cfgs: nat -> Config, q: Req): (events: seq<Event>)
  {
    var cfg := cfgs(q.node);
    if q.kind.FromPeer? then [Effect(q.args)]
    else
      (if Replicates(cfg, q.args) then [Broadcast(q.args)] else [])
      + if Accepts(cfg, q.args) then [Effect(q.args)] else []
  }

  // However the requests of the network interleave, the trace of each one is a prefix of
  // what is due, and all of it when the request is over.
  lemma EachRequest(cfgs: nat -> Config, n: Net, r: nat)
    requires Reachable(cfgs, n) && r < |n.reqs|
    ensures var q := n.reqs[r];
            Project(n.trace, r) <= Due(cfgs, q) && (Over(q) ==> Project(n.trace, r) == Due(cfgs, q))
  {
    hide Reachable, Reached, Handle, Sync, Replicates, Accepts, Effect, Project, Messages, Sanitize;
    ReachableInv(cfgs, n);
    assert ReqInv(cfgs, n, r);
    var q := n.reqs[r];
    ReachedPrefix(cfgs(q.node), q);
    HandleEvents(cfgs(q.node), q.args, q.fail);
    SyncEvents(cfgs(q.node), q.args, q.fail);
    if q.kind.FromPeer? {
      var m := q.kind.msg;
      assert MsgInv(cfgs, n, m);
      ReplicatesAccepts(cfgs(n.reqs[n.sent[m].origin].node), n.sent[m].args);
    }
  }

  // All that ever runs was accepted where it came from: a client's command at its own
  // node, a peer's, up to JSON, at the node of the client who sent it. A node does not
  // apply its own table and list to what its peers send.
  lemma RunsAreAccepted(cfgs: nat -> Config, n: Net, i: nat)
    requires Reachable(cfgs, n) && i < |n.trace|
    ensures var a := n.trace[i];
            && a.req < |n.reqs| && a.event.args == n.reqs[a.req].args
            && var q := n.reqs[a.req];
            match q.kind
            case FromClient => Accepts(cfgs(q.node), q.args)
            case FromPeer(m) =>
              && m < |n.sent| && q.args == Arrived(n.sent[m].args)
              && var o := n.sent[m].origin;
              o < |n.reqs| && n.reqs[o].args == n.sent[m].args && Replicates(cfgs(n.reqs[o].node), n.reqs[o].args)
  {
    hide Reachable, Reached, Replicates, Accepts, Project, Messages, Arrived;
    ReachableInv(cfgs, n);
    var a := n.trace[i];
    assert a in n.trace;
    var q := n.reqs[a.req];
    assert ReqInv(cfgs, n, a.req);
    EachRequest(cfgs, n, a.req);
    ProjectPrefix(n.trace, i + 1, a.req);
    assert n.trace[..i + 1] == n.trace[..i] + [a];
    ProjectPush(n.trace[..i], a, a.req);
    var done := Project(n.trace[..i], a.req);
    assert Due(cfgs, q)[|done|] == a.event;
    ReplicatesAccepts(cfgs(q.node), q.args);
    if q.kind.FromPeer? { assert MsgInv(cfgs, n, q.kind.msg); }
  }

  // A replicated command of a client never runs before it has been broadcast, whatever
  // happens in between.
  lemma BroadcastFirst(cfgs: nat -> Config, n: Net, i: nat)
    requires Reachable(cfgs, n) && i < |n.trace| && !n.trace[i].event.Broadcast?
    requires var r := n.trace[i].req;
             r < |n.reqs| && n.reqs[r].kind.FromClient? && Replicates(cfgs(n.reqs[r].node), n.reqs[r].args)
    ensures var r := n.trace[i].req;
            exists j :: 0 <= j < i && n.trace[j] == At(r, Broadcast(n.reqs[r].args))
  {
    hide Reachable, Replicates, Accepts, Effect, Project, Due;
    var a := n.trace[i];
    var r, q := a.req, n.reqs[a.req];
    EachRequest(cfgs, n, r);
    ProjectPrefix(n.trace, i + 1, r);
    assert n.trace[..i + 1] == n.trace[..i] + [a];
    ProjectPush(n.trace[..i], a, r);
    var done := Project(n.trace[..i], r);
    SecondIsEffect(cfgs, q, done, a.event);
    Occurs(n.trace[..i], r, 0);
    var j :| 0 <= j < i && n.trace[..i][j] == At(r, done[0]);
    assert n.trace[j] == At(r, Broadcast(q.args));
  }

  lemma SecondIsEffect(cfgs: nat -> Config, q: Req, done: seq<Event>, e: Event)
    requires q.kind.FromClient? && Replicates(cfgs(q.node), q.args)
    requires done + [e] <= Due(cfgs, q) && !e.Broadcast?
    ensures done == [Broadcast(q.args)]
  {
    hide Replicates, Accepts, Effect;
    ReplicatesAccepts(cfgs(q.node), q.args);
    var due := Due(cfgs, q);
    assert due[0] == Broadcast(q.args) && |due| == 2 && due[|done|] == e;
    assert done == due[..1];
  }

  lemma {:induction false} Occurs(trace: seq<At>, r: nat, k: nat)
    requires k < |Project(trace, r)|
    ensures exists j :: 0 <= j < |trace| && trace[j] == At(r, Project(trace, r)[k])
    decreases |trace|
  {
    var front, last := trace[..|trace| - 1], trace[|trace| - 1];
    assert trace == front + [last];
    ProjectPush(front, last, r);
    if k < |Project(front, r)| {
      Occurs(front, r, k);
      var j :| 0 <= j < |front| && front[j] == At(r, Project(front, r)[k]);
      assert trace[j] == At(r, Project(trace, r)[k]);
    } else {
      assert trace[|trace| - 1] == At(r, Project(trace, r)[k]);
    }
  }

  // ---- messages ----

  function SentBy(sent: seq<Msg>, r: nat): (k: nat)
  {
    if sent == [] then 0
    else SentBy(sent[..|sent| - 1], r) + if sent[|sent| - 1].origin == r then 1 else 0
  }

  function CountBroadcasts(events: seq<Event>): (k: nat)
  {
    if events == [] then 0
    else CountBroadcasts(events[..|events| - 1]) + if events[|events| - 1].Broadcast? then 1 else 0
  }

  lemma SentByPush(sent: seq<Msg>, a: At, r: nat)
    ensures SentBy(sent + MessageOf(a), r) == SentBy(sent, r) + if a.event.Broadcast? && a.req == r then 1 else 0
  {
    if a.event.Broadcast? {
      assert (sent + MessageOf(a))[..|sent|] == sent;
    } else {
      assert sent + MessageOf(a) == sent;
    }
  }

  lemma CountPush(events: seq<Event>, e: Event)
    ensures CountBroadcasts(events + [e]) == CountBroadcasts(events) + if e.Broadcast? then 1 else 0
    ensures CountRuns(events + [e]) == CountRuns(events) + if e.Broadcast? then 0 else 1
  {
    assert (events + [e])[..|events|] == events;
  }

  lemma {:induction false} MessagesBy(trace: seq<At>, r: nat)
    ensures SentBy(Messages(trace), r) == CountBroadcasts(Project(trace, r))
    decreases |trace|
  {
    if trace != [] {
      var front, last := trace[..|trace| - 1], trace[|trace| - 1];
      assert trace == front + [last];
      hide SentBy, CountBroadcasts, Messages, Project, MessageOf;
      MessagesBy(front, r);
      ProjectPush(front, last, r);
      SentByPush(Messages(front), last, r);
      CountPush(Project(front, r), last.event);
      if last.req == r {
        assert Project(trace, r) == Project(front, r) + [last.event];
      } else {
        assert Project(trace, r) == Project(front, r) + [] == Project(front, r);
      }
    }
  }

  lemma CountDue(cfgs: nat -> Config, q: Req, done: seq<Event>)
    requires done <= Due(cfgs, q)
    ensures CountBroadcasts(done) <= 1
    ensures done == Due(cfgs, q) ==>
              CountBroadcasts(done) == if q.kind.FromClient? && Replicates(cfgs(q.node), q.args) then 1 else 0
    ensures CountBroadcasts(done) == 1 ==> q.kind.FromClient? && Replicates(cfgs(q.node), q.args)
  {
    hide Replicates, Accepts, Effect;
    var b, e := Broadcast(q.args), Effect(q.args);
    ReplicatesAccepts(cfgs(q.node), q.args);
    assert CountBroadcasts([]) == 0;
    assert [b][..0] == [] && CountBroadcasts([b]) == 1;
    assert [e][..0] == [] && CountBroadcasts([e]) == 0;
    assert [b, e][..1] == [b] && CountBroadcasts([b, e]) == 1;
    assert done == [] || done == [b] || done == [e] || done == [b, e];
  }

  // The messages sent are, in order, the broadcasts of the trace. A request sends at most
  // one, a client's that is over has sent exactly one if its node replicates it and none
  // otherwise, and a peer's never sends any.
  lemma SentIsReplicated(cfgs: nat -> Config, n: Net, r: nat)
    requires Reachable(cfgs, n) && r < |n.reqs|
    ensures n.sent == Messages(n.trace)
    ensures var q := n.reqs[r];
            && SentBy(n.sent, r) <= 1
            && (SentBy(n.sent, r) == 1 ==> q.kind.FromClient? && Replicates(cfgs(q.node), q.args))
            && (Over(q) ==> SentBy(n.sent, r) ==
                            if q.kind.FromClient? && Replicates(cfgs(q.node), q.args) then 1 else 0)
  {
    hide Reachable, Replicates, Due, CountBroadcasts, SentBy, Project, Messages;
    ReachableInv(cfgs, n);
    EachRequest(cfgs, n, r);
    MessagesBy(n.trace, r);
    CountDue(cfgs, n.reqs[r], Project(n.trace, r));
  }

  // ---- how often a node runs commands ----

  function CountRuns(events: seq<Event>): (k: nat)
  {
    if events == [] then 0
    else CountRuns(events[..|events| - 1]) + if events[|events| - 1].Broadcast? then 0 else 1
  }

  // The commands run at a node.
  function RunsAt(reqs: seq<Req>, trace: seq<At>, node: nat): (k: nat)
    requires forall a :: a in trace ==> a.req < |reqs|
  {
    if trace == [] then 0
    else
      var front, a := trace[..|trace| - 1], trace[|trace| - 1];
      assert a in trace && forall x :: x in front ==> x in trace;
      RunsAt(reqs, front, node) + if reqs[a.req].node == node && !a.event.Broadcast? then 1 else 0
  }

  // The same, request by request, for the first k.
  function RunsBy(reqs: seq<Req>, trace: seq<At>, node: nat, k: nat): (n: nat)
    requires k <= |reqs|
  {
    if k == 0 then 0
    else
      RunsBy(reqs, trace, node, k - 1)
      + if reqs[k - 1].node == node then CountRuns(Project(trace, k - 1)) else 0
  }

  lemma {:induction false} RunsByPush(reqs: seq<Req>, trace: seq<At>, a: At, node: nat, k: nat)
    requires k <= |reqs|
    ensures RunsBy(reqs, trace + [a], node, k) == RunsBy(reqs, trace, node, k)
            + if a.req < k && reqs[a.req].node == node && !a.event.Broadcast? then 1 else 0
    decreases k
  {
    if k > 0 {
      RunsByPush(reqs, trace, a, node, k - 1);
      ProjectPush(trace, a, k - 1);
      hide Project, RunsBy;
      var events := Project(trace, k - 1);
      if a.req == k - 1 {
        CountPush(events, a.event);
      } else {
        assert events + [] == events;
      }
    }
  }

  lemma {:induction false} NothingRuns(reqs: seq<Req>, node: nat, k: nat)
    requires k <= |reqs|
    ensures RunsBy(reqs, [], node, k) == 0
    decreases k
  {
    if k > 0 { NothingRuns(reqs, node, k - 1); }
  }

  lemma {:induction false} RunsAddUp(reqs: seq<Req>, trace: seq<At>, node: nat)
    requires forall a :: a in trace ==> a.req < |reqs|
    ensures RunsAt(reqs, trace, node) == RunsBy(reqs, trace, node, |reqs|)
    decreases |trace|
  {
    if trace == [] {
      NothingRuns(reqs, node, |reqs|);
    } else {
      var front, a := trace[..|trace| - 1], trace[|trace| - 1];
      assert a in trace && trace == front + [a] && forall x :: x in front ==> x in trace;
      RunsAddUp(reqs, front, node);
      RunsByPush(reqs, front, a, node, |reqs|);
    }
  }

  // How many of the first k requests are to run at a node.
  function DueAt(cfgs: nat -> Config, reqs: seq<Req>, node: nat, k: nat): (n: nat)
    requires k <= |reqs|
  {
    if k == 0 then 0
    else
      var q := reqs[k - 1];
      DueAt(cfgs, reqs, node, k - 1)
      + if q.node == node && (q.kind.FromPeer? || Accepts(cfgs(node), q.args)) then 1 else 0
  }

  lemma CountRunsDue(cfgs: nat -> Config, q: Req, done: seq<Event>)
    requires done <= Due(cfgs, q)
    ensures var due := if q.kind.FromPeer? || Accepts(cfgs(q.node), q.args) then 1 else 0;
            CountRuns(done) <= due && (done == Due(cfgs, q) ==> CountRuns(done) == due)
  {
    hide Replicates, Accepts, Effect;
    var b, e := Broadcast(q.args), Effect(q.args);
    ReplicatesAccepts(cfgs(q.node), q.args);
    assert CountRuns([]) == 0;
    assert [b][..0] == [] && CountRuns([b]) == 0;
    assert [e][..0] == [] && CountRuns([e]) == 1;
    assert [b, e][..1] == [b] && CountRuns([b, e]) == 1;
    assert done == [] || done == [b] || done == [e] || done == [b, e];
  }

  lemma {:induction false} RunsByDue(cfgs: nat -> Config, n: Net, node: nat, k: nat)
    requires Reachable(cfgs, n) && k <= |n.reqs|
    ensures RunsBy(n.reqs, n.trace, node, k) <= DueAt(cfgs, n.reqs, node, k)
    ensures (forall r :: 0 <= r < k && n.reqs[r].node == node ==> Over(n.reqs[r])) ==>
              RunsBy(n.reqs, n.trace, node, k) == DueAt(cfgs, n.reqs, node, k)
    decreases k
  {
    hide Reachable, Accepts, Due, CountRuns, Project, Over;
    if k > 0 {
      RunsByDue(cfgs, n, node, k - 1);
      EachRequest(cfgs, n, k - 1);
      CountRunsDue(cfgs, n.reqs[k - 1], Project(n.trace, k - 1));
    }
  }

  // In every state a node has run at most one command for each client's request it
  // accepted and each message that reached it, and exactly one when they are over.
  lemma RunsExactlyOnce(cfgs: nat -> Config, n: Net, node: nat)
    requires Reachable(cfgs, n)
    ensures forall a :: a in n.trace ==> a.req < |n.reqs|
    ensures RunsAt(n.reqs, n.trace, node) <= DueAt(cfgs, n.reqs, node, |n.reqs|)
    ensures (forall r :: 0 <= r < |n.reqs| && n.reqs[r].node == node ==> Over(n.reqs[r])) ==>
              RunsAt(n.reqs, n.trace, node) == DueAt(cfgs, n.reqs, node, |n.reqs|)
  {
    hide Reachable, RunsAt, RunsBy, DueAt, Over;
    ReachableInv(cfgs, n);
    RunsAddUp(n.reqs, n.trace, node);
    RunsByDue(cfgs, n, node, |n.reqs|);
  }

  // ---- every request can finish ----

  function Repeated(step: Step, k: nat): (steps: seq<Step>) { seq(k, _ => step) }

  function Tagged(r: nat, events: seq<Event>): (trace: seq<At>)
    ensures |trace| == |events|
  {
    seq(|events|, i requires 0 <= i < |events| => At(r, events[i]))
  }

  lemma TaggedConcat(r: nat, a: seq<Event>, b: seq<Event>)
    ensures Tagged(r, a + b) == Tagged(r, a) + Tagged(r, b)
  {
  }

  lemma ActTrace(cfgs: nat -> Config, n: Net, r: nat)
    requires r < |n.reqs|
    ensures var q, n' := n.reqs[r], Act(cfgs, n, r);
            var m := Step1(ChainOf(cfgs(q.node), q.args, q.fail), q.m);
            && n'.reqs == n.reqs[r := q.(m := m)]
            && q.m.s.events <= m.s.events
            && n'.trace == n.trace + Tagged(r, m.s.events[|q.m.s.events|..])
  {
    hide ChainOf, Step1;
    var q := n.reqs[r];
    OneEvent(ChainOf(cfgs(q.node), q.args, q.fail), q.m);
  }

  // Advancing one request leaves the others alone and adds its events to the trace.
  lemma {:induction false} AdvanceMany(cfgs: nat -> Config, n: Net, r: nat, k: nat)
    requires r < |n.reqs|
    ensures var q, n' := n.reqs[r], RunAll(cfgs, n, Repeated(Advance(r), k));
            var m := Steps(ChainOf(cfgs(q.node), q.args, q.fail), k, q.m);
            && n'.reqs == n.reqs[r := q.(m := m)]
            && q.m.s.events <= m.s.events
            && n'.trace == n.trace + Tagged(r, m.s.events[|q.m.s.events|..])
    decreases k
  {
    hide ChainOf, Step1, Act, Tagged;
    var q, steps := n.reqs[r], Repeated(Advance(r), k);
    var start := q.m.s.events;
    if k == 0 {
      assert Tagged(r, start[|start|..]) == [];
    } else {
      var n1 := Act(cfgs, n, r);
      ActTrace(cfgs, n, r);
      assert steps[0] == Advance(r) && steps[1..] == Repeated(Advance(r), k - 1);
      AdvanceMany(cfgs, n1, r, k - 1);
      var middle := n1.reqs[r].m.s.events;
      var end := RunAll(cfgs, n, steps).reqs[r].m.s.events;
      assert end[|start|..] == middle[|start|..] + end[|middle|..];
      TaggedConcat(r, middle[|start|..], end[|middle|..]);
    }
  }

  // From every state, some number of a request's own actions finishes it.
  lemma CanFinish(cfgs: nat -> Config, n: Net, r: nat) returns (k: nat)
    requires Reachable(cfgs, n) && r < |n.reqs|
    ensures var n' := RunAll(cfgs, n, Repeated(Advance(r), k));
            r < |n'.reqs| && Over(n'.reqs[r])
  {
    hide Reachable, Steps, ChainOf, Begin, Whole, Project, Messages, RunAll;
    ReachableInv(cfgs, n);
    assert ReqInv(cfgs, n, r);
    var q := n.reqs[r];
    var cfg := cfgs(q.node);
    var chain, m := ChainOf(cfg, q.args, q.fail), Begin(cfg, q.args, q.fail, q.kind);
    var j: nat :| q.m == Steps(chain, j, m);
    k := WholeIsReached(cfg, q.args, q.fail, q.kind);
    StepsAdd(chain, j, k, m);
    StepsAdd(chain, k, j, m);
    EventsGrow(chain, j, Steps(chain, k, m));
    AdvanceMany(cfgs, n, r, k);
  }

  // ---- a broadcast need not be followed at once ----

  // A run of the chain that emits something has a moment when it has emitted one event.
  lemma {:induction false} FirstMoment<E>(chain: seq<Prog<E>>, n: nat, m: Machine<E>) returns (j: nat)
    requires m.s.events == [] && Steps(chain, n, m).s.events != []
    ensures j <= n && |Steps(chain, j, m).s.events| == 1
    decreases n
  {
    hide Step1;
    OneEvent(chain, m);
    var m1 := Step1(chain, m);
    if m1.s.events == [] {
      var i := FirstMoment(chain, n - 1, m1);
      j := 1 + i;
      StepsAdd(chain, 1, i, m);
      assert Steps(chain, 1, m) == Steps(chain, 0, m1) == m1;
    } else {
      j := 1;
      assert Steps(chain, 1, m) == Steps(chain, 0, m1) == m1;
    }
  }

  // The two halves of a replicated client command.
  lemma TwoHalves(cfg: Config, args: Args, fail: bool) returns (j: nat, k: nat)
    requires Replicates(cfg, args)
    ensures var chain, m := ChainOf(cfg, args, fail), Begin(cfg, args, fail, FromClient);
            && Steps(chain, j, m).s.events == [Broadcast(args)]
            && Steps(chain, k, Steps(chain, j, m)).s.events == [Broadcast(args), Effect(args)]
  {
    hide Steps, ChainOf, Handle, Replicates, Accepts, Effect;
    var chain, m := ChainOf(cfg, args, fail), Begin(cfg, args, fail, FromClient);
    var n := WholeIsReached(cfg, args, fail, FromClient);
    HandleEvents(cfg, args, fail);
    ReplicatesAccepts(cfg, args);
    j := FirstMoment(chain, n, m);
    k := n - j;
    StepsAdd(chain, j, k, m);
    EventsGrow(chain, k, Steps(chain, j, m));
    var end := Steps(chain, n, m).s.events;
    assert end == [Broadcast(args), Effect(args)];
    assert Steps(chain, j, m).s.events == end[..1];
  }

  lemma TwoArrive(cfgs: nat -> Config, args: Args, fail: bool)
    ensures var arrive := Arrive(0, args, fail);
            var q := Req(0, args, fail, FromClient, Begin(cfgs(0), args, fail, FromClient));
            RunAll(cfgs, EMPTY, [arrive, arrive]) == Net([q, q], [], [])
  {
    hide Begin;
    var arrive := Arrive(0, args, fail);
    var q := Req(0, args, fail, FromClient, Begin(cfgs(0), args, fail, FromClient));
    assert [arrive, arrive][1..] == [arrive] && [arrive][1..] == [];
    var n1 := Do(cfgs, EMPTY, arrive);
    assert n1 == Net([q], [], []);
    var n2 := Do(cfgs, n1, arrive);
    assert n2.reqs == [q, q];
    assert RunAll(cfgs, n1, [arrive]) == RunAll(cfgs, n2, []) == n2;
  }

  // One request goes from events done to events done + [e].
  lemma AdvanceTo(cfgs: nat -> Config, n: Net, r: nat, k: nat, done: seq<Event>, e: Event) returns (n': Net)
    requires r < |n.reqs| && n.reqs[r].m.s.events == done && Reachable(cfgs, n)
    requires var q := n.reqs[r]; Steps(ChainOf(cfgs(q.node), q.args, q.fail), k, q.m).s.events == done + [e]
    ensures var q := n.reqs[r];
            && n'.reqs == n.reqs[r := q.(m := Steps(ChainOf(cfgs(q.node), q.args, q.fail), k, q.m))]
            && n'.trace == n.trace + [At(r, e)] && Reachable(cfgs, n')
  {
    hide ChainOf, Steps, RunAll;
    var steps := Repeated(Advance(r), k);
    n' := RunAll(cfgs, n, steps);
    AdvanceMany(cfgs, n, r, k);
    assert (done + [e])[|done|..] == [e];
    assert Tagged(r, [e]) == [At(r, e)];
    var before :| n == RunAll(cfgs, EMPTY, before);
    RunConcat(cfgs, EMPTY, before, steps);
  }

  // Two clients send the same replicated command: both may broadcast before either runs.
  lemma BroadcastsInterleave(cfgs: nat -> Config, args: Args, fail: bool) returns (n: Net)
    requires Replicates(cfgs(0), args)
    ensures Reachable(cfgs, n)
    ensures n.trace == [At(0, Broadcast(args)), At(1, Broadcast(args)), At(0, Effect(args)), At(1, Effect(args))]
  {
    hide Steps, ChainOf, Begin, Replicates, Effect, RunAll;
    var j, k := TwoHalves(cfgs(0), args, fail);
    var b, e := Broadcast(args), Effect(args);
    TwoArrive(cfgs, args, fail);
    var arrive := Arrive(0, args, fail);
    var n0 := RunAll(cfgs, EMPTY, [arrive, arrive]);
    hide Reachable;
    assert [] + [b] == [b] && [b] + [e] == [b, e];
    assert Reachable(cfgs, n0) by { IsReachable(cfgs, [arrive, arrive]); }
    var n1 := AdvanceTo(cfgs, n0, 0, j, [], b);
    var n2 := AdvanceTo(cfgs, n1, 1, j, [], b);
    var n3 := AdvanceTo(cfgs, n2, 0, k, [b], e);
    n := AdvanceTo(cfgs, n3, 1, k, [b], e);
  }

  lemma IsReachable(cfgs: nat -> Config, steps: seq<Step>)
    ensures Reachable(cfgs, RunAll(cfgs, EMPTY, steps))
  {
  }

  lemma {:induction false} RunConcat(cfgs: nat -> Config, n: Net, a: seq<Step>, b: seq<Step>)
    ensures RunAll(cfgs, n, a + b) == RunAll(cfgs, RunAll(cfgs, n, a), b)
    decreases |a|
  {
    hide Do;
    if a == [] {
      assert a + b == b;
    } else {
      assert (a + b)[1..] == a[1..] + b;
      RunConcat(cfgs, Do(cfgs, n, a[0]), a[1..], b);
    }
  }

  // ---- where things run ----

  lemma {:induction false} RunsAtSame(reqs: seq<Req>, reqs': seq<Req>, trace: seq<At>, node: nat)
    requires |reqs| <= |reqs'| && forall r :: 0 <= r < |reqs| ==> reqs'[r].node == reqs[r].node
    requires forall a :: a in trace ==> a.req < |reqs|
    ensures RunsAt(reqs', trace, node) == RunsAt(reqs, trace, node)
    decreases |trace|
  {
    if trace != [] {
      var front, a := trace[..|trace| - 1], trace[|trace| - 1];
      assert a in trace && forall x :: x in front ==> x in trace;
      RunsAtSame(reqs, reqs', front, node);
    }
  }

  lemma {:induction false} RunsAtTagged(reqs: seq<Req>, trace: seq<At>, r: nat, events: seq<Event>, node: nat)
    requires r < |reqs| && forall a :: a in trace ==> a.req < |reqs|
    ensures forall a :: a in trace + Tagged(r, events) ==> a.req < |reqs|
    ensures RunsAt(reqs, trace + Tagged(r, events), node) ==
            RunsAt(reqs, trace, node) + if reqs[r].node == node then CountRuns(events) else 0
    decreases |events|
  {
    if events == [] {
      assert trace + Tagged(r, events) == trace;
    } else {
      var front, e := events[..|events| - 1], events[|events| - 1];
      var all := trace + Tagged(r, events);
      assert all[..|all| - 1] == trace + Tagged(r, front);
      assert all[|all| - 1] == At(r, e);
      RunsAtTagged(reqs, trace, r, front, node);
    }
  }

  // A new request at node p and any number of its own actions.
  function AdmitAndAdvance(cfgs: nat -> Config, n: Net, step: Step, k: nat): (r: Net)
  {
    RunAll(cfgs, Do(cfgs, n, step), Repeated(Advance(|n.reqs|), k))
  }

  lemma NewRequest(cfgs: nat -> Config, n: Net, p: nat, args: Args, fail: bool, kind: Kind, k: nat, node: nat)
    requires Reachable(cfgs, n)
    ensures var n' := RunAll(cfgs, Admit(cfgs, n, p, args, fail, kind), Repeated(Advance(|n.reqs|), k));
            && |n'.reqs| == |n.reqs| + 1
            && (forall a :: a in n.trace ==> a.req < |n.reqs|) && (forall a :: a in n'.trace ==> a.req < |n'.reqs|)
            && var q := n'.reqs[|n.reqs|];
            && q.node == p && q.args == args && q.kind == kind
            && n'.trace == n.trace + Tagged(|n.reqs|, q.m.s.events)
            && RunsAt(n'.reqs, n'.trace, node) ==
               RunsAt(n.reqs, n.trace, node) + if node == p then CountRuns(q.m.s.events) else 0
  {
    hide Reachable, RunAll, Begin, ChainOf, Steps, CountRuns, RunsAt;
    ReachableInv(cfgs, n);
    var r := |n.reqs|;
    var n1 := Admit(cfgs, n, p, args, fail, kind);
    AdvanceMany(cfgs, n1, r, k);
    var n' := RunAll(cfgs, n1, Repeated(Advance(r), k));
    var q := n'.reqs[r];
    assert q.m.s.events[0..] == q.m.s.events;
    RunsAtSame(n.reqs, n'.reqs, n.trace, node);
    RunsAtTagged(n'.reqs, n.trace, r, q.m.s.events, node);
  }

  // A message runs where it is received and nowhere else: at that node once when its
  // request is over, whatever the node's own configuration; and it sends nothing.
  lemma ReceiveIsLocal(cfgs: nat -> Config, n: Net, p: nat, msg: nat, fail: bool, k: nat, node: nat)
    requires Reachable(cfgs, n) && msg < |n.sent|
    ensures var n' := AdmitAndAdvance(cfgs, n, Receive(p, msg, fail), k);
            && |n'.reqs| == |n.reqs| + 1 && Reachable(cfgs, n')
            && (forall a :: a in n.trace ==> a.req < |n.reqs|) && (forall a :: a in n'.trace ==> a.req < |n'.reqs|)
            && n'.sent == n.sent
            && var q := n'.reqs[|n.reqs|];
            && q.node == p && q.kind == FromPeer(msg) && q.args == Arrived(n.sent[msg].args)
            && (node != p ==> RunsAt(n'.reqs, n'.trace, node) == RunsAt(n.reqs, n.trace, node))
            && (Over(q) ==>
                  && n'.trace == n.trace + [At(|n.reqs|, Effect(q.args))]
                  && RunsAt(n'.reqs, n'.trace, p) == RunsAt(n.reqs, n.trace, p) + 1)
  {
    var step, r := Receive(p, msg, fail), |n.reqs|;
    var args := Arrived(n.sent[msg].args);
    var n' := AdmitAndAdvance(cfgs, n, step, k);
    ReachesOn(cfgs, n, [step] + Repeated(Advance(r), k));
    RunCons(cfgs, n, step, Repeated(Advance(r), k));
    assert n' == RunAll(cfgs, Admit(cfgs, n, p, args, fail, FromPeer(msg)), Repeated(Advance(r), k));
    hide AdmitAndAdvance, Admit, Do, Reachable, RunAll, Begin, ChainOf, Steps, RunsAt, Effect, Replicates, Accepts,
         Arrived, Due, Inv, Tagged, Repeated;
    NewRequest(cfgs, n, p, args, fail, FromPeer(msg), k, node);
    NewRequest(cfgs, n, p, args, fail, FromPeer(msg), k, p);
    PeerEvents(cfgs, n', r);
    SentSoFar(cfgs, n);
    SentSoFar(cfgs, n');
    NoMessages(n.trace, r, n'.reqs[r].m.s.events);
  }

  lemma SentSoFar(cfgs: nat -> Config, n: Net)
    requires Reachable(cfgs, n)
    ensures n.sent == Messages(n.trace)
  {
    hide Reachable, Messages;
    ReachableInv(cfgs, n);
  }

  // What a request from a peer has emitted.
  lemma PeerEvents(cfgs: nat -> Config, n: Net, r: nat)
    requires Reachable(cfgs, n) && r < |n.reqs| && n.reqs[r].kind.FromPeer?
    ensures var q := n.reqs[r];
            && CountBroadcasts(q.m.s.events) == 0
            && (Over(q) ==>
                  && Tagged(r, q.m.s.events) == [At(r, Effect(q.args))]
                  && CountRuns(q.m.s.events) == 1)
  {
    hide Reachable, Effect, Reached, Project, Messages, Arrived;
    ReachableInv(cfgs, n);
    assert ReqInv(cfgs, n, r);
    EachRequest(cfgs, n, r);
    var q := n.reqs[r];
    hide Inv, ReqInv, MsgInv;
    CountDue(cfgs, q, q.m.s.events);
    CountRunsDue(cfgs, q, q.m.s.events);
  }

  // A client's request runs at its own node and nowhere else: once when it is over, if
  // that node accepts it.
  lemma ArriveIsLocal(cfgs: nat -> Config, n: Net, p: nat, args: Args, fail: bool, k: nat, node: nat)
    requires Reachable(cfgs, n)
    ensures var n' := AdmitAndAdvance(cfgs, n, Arrive(p, args, fail), k);
            && |n'.reqs| == |n.reqs| + 1 && Reachable(cfgs, n')
            && (forall a :: a in n.trace ==> a.req < |n.reqs|) && (forall a :: a in n'.trace ==> a.req < |n'.reqs|)
            && var q := n'.reqs[|n.reqs|];
            && q.node == p && q.kind == FromClient && q.args == args
            && (node != p ==> RunsAt(n'.reqs, n'.trace, node) == RunsAt(n.reqs, n.trace, node))
            && (Over(q) ==>
                  RunsAt(n'.reqs, n'.trace, p) == RunsAt(n.reqs, n.trace, p) + if Accepts(cfgs(p), args) then 1 else 0)
  {
    var step, r := Arrive(p, args, fail), |n.reqs|;
    var n' := AdmitAndAdvance(cfgs, n, step, k);
    ReachesOn(cfgs, n, [step] + Repeated(Advance(r), k));
    RunCons(cfgs, n, step, Repeated(Advance(r), k));
    hide Reachable, RunAll, Begin, ChainOf, Steps, RunsAt, Effect, Replicates, Accepts, Messages, Project;
    NewRequest(cfgs, n, p, args, fail, FromClient, k, node);
    NewRequest(cfgs, n, p, args, fail, FromClient, k, p);
    var q := n'.reqs[r];
    ReachableInv(cfgs, n');
    EachRequest(cfgs, n', r);
    assert ReqInv(cfgs, n', r);
    CountRunsDue(cfgs, q, q.m.s.events);
  }

  lemma ReachesOn(cfgs: nat -> Config, n: Net, steps: seq<Step>)
    requires Reachable(cfgs, n)
    ensures Reachable(cfgs, RunAll(cfgs, n, steps))
  {
    hide RunAll;
    var before :| n == RunAll(cfgs, EMPTY, before);
    RunConcat(cfgs, EMPTY, before, steps);
  }

  lemma RunCons(cfgs: nat -> Config, n: Net, step: Step, steps: seq<Step>)
    ensures RunAll(cfgs, n, [step] + steps) == RunAll(cfgs, Do(cfgs, n, step), steps)
  {
    hide Do;
    assert ([step] + steps)[1..] == steps;
  }

  lemma {:induction false} NoMessages(trace: seq<At>, r: nat, events: seq<Event>)
    requires CountBroadcasts(events) == 0
    ensures Messages(trace + Tagged(r, events)) == Messages(trace)
    decreases |events|
  {
    if events == [] {
      assert trace + Tagged(r, events) == trace;
    } else {
      var front, e := events[..|events| - 1], events[|events| - 1];
      assert trace + Tagged(r, events) == (trace + Tagged(r, front)) + [At(r, e)];
      NoMessages(trace, r, front);
      ProjectPush(trace + Tagged(r, front), At(r, e), r);
    }
  }

  // ---- delivery ----

  // A command that some node replicates can reach and run at every node p, even before
  // it runs at its own.
  lemma Delivered(cfgs: nat -> Config, o: nat, args: Args, fail: bool, p: nat) returns (n: Net, r: nat)
    requires Replicates(cfgs(o), args)
    ensures Reachable(cfgs, n) && r < |n.reqs|
    ensures n.reqs[r].node == p && n.reqs[r].kind.FromPeer? && Over(n.reqs[r])
    ensures At(r, Effect(Arrived(args))) in n.trace
    ensures forall a :: a in n.trace ==> a.req < |n.reqs|
    ensures RunsAt(n.reqs, n.trace, p) == 1
  {
    var j, _ := TwoHalves(cfgs(o), args, fail);
    var arrive := Arrive(o, args, fail);
    var n1 := AdmitAndAdvance(cfgs, EMPTY, arrive, j);
    IsReachable(cfgs, []);
    ReachesOn(cfgs, EMPTY, [arrive] + Repeated(Advance(0), j));
    RunCons(cfgs, EMPTY, arrive, Repeated(Advance(0), j));
    assert EMPTY == RunAll(cfgs, EMPTY, []);
    Sending(cfgs, o, args, fail, j, p);
    hide RunAll, Reachable, Steps, ChainOf, Begin, RunsAt, Effect, Arrived, Replicates;
    assert n1.sent == [Msg(0, args)] && |n1.reqs| == 1;
    var receive := Receive(p, 0, fail);
    ReceiveIsLocal(cfgs, n1, p, 0, fail, 0, p);
    var n2 := AdmitAndAdvance(cfgs, n1, receive, 0);
    var k := CanFinish(cfgs, n2, 1);
    ReceiveIsLocal(cfgs, n1, p, 0, fail, k, p);
    n, r := AdmitAndAdvance(cfgs, n1, receive, k), 1;
    StartThenRun(cfgs, n1, receive, k);
    assert n.trace[|n1.trace|] == At(r, Effect(Arrived(args)));
  }

  lemma StartThenRun(cfgs: nat -> Config, n: Net, step: Step, k: nat)
    ensures AdmitAndAdvance(cfgs, n, step, k) ==
            RunAll(cfgs, AdmitAndAdvance(cfgs, n, step, 0), Repeated(Advance(|n.reqs|), k))
  {
    hide Do;
    assert Repeated(Advance(|n.reqs|), 0) == [];
  }

  // The first half of a replicated client command: one message, nothing run anywhere.
  lemma Sending(cfgs: nat -> Config, o: nat, args: Args, fail: bool, j: nat, p: nat)
    requires Steps(ChainOf(cfgs(o), args, fail), j, Begin(cfgs(o), args, fail, FromClient)).s.events ==
             [Broadcast(args)]
    ensures var n := AdmitAndAdvance(cfgs, EMPTY, Arrive(o, args, fail), j);
            && |n.reqs| == 1 && n.sent == [Msg(0, args)] && n.trace == [At(0, Broadcast(args))]
            && RunsAt(n.reqs, n.trace, p) == 0
  {
    var n0 := Do(cfgs, EMPTY, Arrive(o, args, fail));
    var n := AdmitAndAdvance(cfgs, EMPTY, Arrive(o, args, fail), j);
    assert EMPTY == RunAll(cfgs, EMPTY, []);
    assert Reachable(cfgs, EMPTY);
    ReachesOn(cfgs, EMPTY, [Arrive(o, args, fail)] + Repeated(Advance(0), j));
    RunCons(cfgs, EMPTY, Arrive(o, args, fail), Repeated(Advance(0), j));
    ReachableInv(cfgs, n);
    hide RunAll, Reachable, Steps, ChainOf, Begin, Reached, Replicates;
    AdvanceMany(cfgs, n0, 0, j);
    var b := At(0, Broadcast(args));
    assert [Broadcast(args)][0..] == [Broadcast(args)];
    assert n.trace == [b];
    assert [b][..0] == [] && Messages([]) == [];
    assert Messages([b]) == MessageOf(b);
    assert RunsAt(n.reqs, [], p) == 0;
  }
}
