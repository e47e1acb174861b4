// The middleware chain of the Redis proxy: a context whose Next runs handlers that may
// call Next again, with an 8-bit index shared by all the nested calls.
module Chain {
  import opened Options

  const ABORT_INDEX := 63

  // What a handler does with its context. E is whatever else it does to the world.
  datatype Prog<E> =
    | Return(err: bool)
    | Abort(rest: Prog<E>)
    | Emit(event: E, rest: Prog<E>)
    | CallNext(onNil: Prog<E>, onErr: Prog<E>)

  datatype Outcome = Nil | Error | Panic

  // The context, the handlers started so far, what they emitted, and the largest
  // index there has been.
  datatype State<E> = State(index: int, log: seq<nat>, events: seq<E>, peak: int)

  // combineHandlers: None is its panic. What it accepts is short enough for Next.
  function CombineHandlers<H>(middlewares: seq<H>, handlers: seq<H>): (r: Option<seq<H>>)
    ensures r == None <==> |middlewares| + |handlers| >= ABORT_INDEX
    ensures r.Some? ==> |r.value| < ABORT_INDEX && middlewares <= r.value && r.value[|middlewares|..] == handlers
  {
    if |middlewares| + |handlers| >= ABORT_INDEX then None else Some(middlewares + handlers)
  }

  // Index++ on an int8.
  function Bump<E>(s: State<E>): (r: State<E>)
  {
    var i := if s.index == 127 then -128 else s.index + 1;
    s.(index := i, peak := if i > s.peak then i else s.peak)
  }

  function Left(n: nat, i: int): (r: nat) { if 0 <= i <= n then n - i else 0 }

  // The loop of Next. A negative index is a runtime panic.
  function Loop<E>(chain: seq<Prog<E>>, s: State<E>): (r: (State<E>, Outcome))
    requires |chain| < ABORT_INDEX
    ensures r.1 != Panic ==> 0 <= s.index && (r.0.index >= s.index || r.0.index >= ABORT_INDEX)
    ensures r.1 == Nil ==> r.0.index >= |chain|
    decreases Left(|chain|, s.index), 1
  {
    if s.index >= |chain| then (s, Nil)
    else if s.index < 0 then (s, Panic)
    else
      var (t, o) := Run(chain, s.index, chain[s.index], s.(log := s.log + [s.index]));
      if o != Nil then (t, o) else Loop(chain, Bump(t))
  }

  function NextFrom<E>(chain: seq<Prog<E>>, s: State<E>): (r: (State<E>, Outcome))
    requires |chain| < ABORT_INDEX
  {
    Loop(chain, Bump(s))
  }

  function Aborted<E>(s: State<E>): (r: State<E>)
  {
    s.(index := ABORT_INDEX, peak := if s.peak < ABORT_INDEX then ABORT_INDEX else s.peak)
  }

  // Handler k, or the rest p of it.
  function Run<E>(chain: seq<Prog<E>>, k: nat, p: Prog<E>, s: State<E>): (r: (State<E>, Outcome))
    requires k < |chain| < ABORT_INDEX && s.index >= k
    ensures r.1 != Panic ==> r.0.index >= k
    decreases Left(|chain|, k), 0, p
  {
    match p
    case Return(err) => (s, if err then Error else Nil)
    case Abort(q) => Run(chain, k, q, Aborted(s))
    case Emit(e, q) => Run(chain, k, q, s.(events := s.events + [e]))
    case CallNext(a, b) =>
      var (t, o) := Loop(chain, Bump(s));
      match o
      case Panic => (t, Panic)
      case Nil => Run(chain, k, a, t)
      case Error => Run(chain, k, b, t)
  }

  function Start<E>(): (s: State<E>) { State(-1, [], [], -1) }

  // ---- each handler at most once, in order ----

  function UpTo(n: nat): (r: seq<nat>)
    ensures |r| == n && forall i :: 0 <= i < n ==> r[i] == i
  {
    seq(n, i => i)
  }

  // The handlers started are the first ones, and the index stands at the last of them
  // or past the chain.
  predicate InOrder<E>(n: nat, s: State<E>)
  {
    s.log == UpTo(|s.log|) && |s.log| <= n && (s.index == |s.log| - 1 || s.index >= n)
  }

  // The same in front of the loop condition.
  predicate AtLoop<E>(n: nat, s: State<E>)
  {
    s.log == UpTo(|s.log|) && |s.log| <= n && (s.index == |s.log| || s.index >= n || s.index < 0)
  }

  lemma {:induction false} LoopInOrder<E>(chain: seq<Prog<E>>, s: State<E>)
    requires |chain| < ABORT_INDEX && AtLoop(|chain|, s)
    ensures var (t, o) := Loop(chain, s);
            && t.log == UpTo(|t.log|) && s.log <= t.log && |t.log| <= |chain|
            && (o != Panic ==> InOrder(|chain|, t)) && (o == Nil ==> t.index >= |chain|)
    decreases Left(|chain|, s.index), 1
  {
    if 0 <= s.index < |chain| {
      var i := s.index;
      var s' := s.(log := s.log + [i]);
      assert s'.log == UpTo(i + 1);
      RunInOrder(chain, i, chain[i], s');
      var (t, o) := Run(chain, i, chain[i], s');
      if o == Nil {
        LoopInOrder(chain, Bump(t));
      }
    }
  }

  lemma {:induction false} RunInOrder<E>(chain: seq<Prog<E>>, k: nat, p: Prog<E>, s: State<E>)
    requires k < |chain| < ABORT_INDEX && s.index >= k && InOrder(|chain|, s)
    ensures var (t, o) := Run(chain, k, p, s);
            && t.log == UpTo(|t.log|) && s.log <= t.log && |t.log| <= |chain|
            && (o != Panic ==> InOrder(|chain|, t))
    decreases Left(|chain|, k), 0, p
  {
    match p
    case Return(_) =>
    case Abort(q) => RunInOrder(chain, k, q, Aborted(s));
    case Emit(e, q) => RunInOrder(chain, k, q, s.(events := s.events + [e]));
    case CallNext(a, b) =>
      LoopInOrder(chain, Bump(s));
      var (t, o) := Loop(chain, Bump(s));
      if o == Nil { RunInOrder(chain, k, a, t); }
      if o == Error { RunInOrder(chain, k, b, t); }
  }

  // Whatever the handlers do, they start in index order, each at most once, with none
  // left out in between.
  lemma AtMostOnceInOrder<E>(chain: seq<Prog<E>>)
    requires |chain| < ABORT_INDEX
    ensures var t := NextFrom(chain, Start<E>()).0; t.log == UpTo(|t.log|) && |t.log| <= |chain|
  {
    assert Start<E>().log == UpTo(0);
    LoopInOrder(chain, Bump(Start<E>()));
  }

  // ---- the index stays an int8 ----

  // How often a handler can call Next.
  function Calls<E>(p: Prog<E>): (n: nat)
  {
    match p
    case Return(_) => 0
    case Abort(q) => Calls(q)
    case Emit(_, q) => Calls(q)
    case CallNext(a, b) => 1 + if Calls(a) >= Calls(b) then Calls(a) else Calls(b)
  }

  predicate OnceEach<E>(chain: seq<Prog<E>>)
  {
    forall i :: 0 <= i < |chain| ==> Calls(chain[i]) <= 1
  }

  // The largest index a loop entered at i, or a handler k, can leave behind.
  function Bound(n: nat, i: nat): (b: int) { if i <= n then 64 + n - i else 64 }

  lemma {:induction false} LoopBounded<E>(chain: seq<Prog<E>>, s: State<E>)
    requires |chain| < ABORT_INDEX && OnceEach(chain) && 0 <= s.index <= 64
    ensures var (t, o) := Loop(chain, s);
            && o != Panic && t.index <= Bound(|chain|, s.index)
            && (t.peak <= s.peak || t.peak <= Bound(|chain|, s.index))
    decreases Left(|chain|, s.index), 1
  {
    if s.index < |chain| {
      var i := s.index;
      var s' := s.(log := s.log + [i]);
      RunBounded(chain, i, chain[i], s');
      var (t, o) := Run(chain, i, chain[i], s');
      if o == Nil && t.index < |chain| {
        LoopBounded(chain, Bump(t));
      }
    }
  }

  lemma {:induction false} RunBounded<E>(chain: seq<Prog<E>>, k: nat, p: Prog<E>, s: State<E>)
    requires k < |chain| < ABORT_INDEX && OnceEach(chain)
    requires Calls(p) <= 1 && k <= s.index <= Bound(|chain|, k + 1)
    requires Calls(p) == 1 ==> s.index == k || s.index == ABORT_INDEX
    ensures var (t, o) := Run(chain, k, p, s);
            && o != Panic && t.index <= Bound(|chain|, k + 1)
            && (t.peak <= s.peak || t.peak <= Bound(|chain|, k + 1))
    decreases Left(|chain|, k), 0, p
  {
    match p
    case Return(_) =>
    case Abort(q) => RunBounded(chain, k, q, Aborted(s));
    case Emit(e, q) => RunBounded(chain, k, q, s.(events := s.events + [e]));
    case CallNext(a, b) =>
      LoopBounded(chain, Bump(s));
      var (t, o) := Loop(chain, Bump(s));
      if o == Nil { RunBounded(chain, k, a, t); } else { RunBounded(chain, k, b, t); }
  }

  // With handlers that call Next at most once the index never passes 126, through all
  // the increments of unwinding loops, so nothing panics.
  lemma IndexFits<E>(chain: seq<Prog<E>>)
    requires |chain| < ABORT_INDEX && OnceEach(chain)
    ensures var (t, o) := NextFrom(chain, Start<E>()); o != Panic && t.peak <= 126
  {
    LoopBounded(chain, Bump(Start<E>()));
  }

  // ---- exactly the prefix ----

  // The handler lets the chain go on: it calls Next first, or returns nil without
  // having aborted.
  predicate Passes<E>(p: Prog<E>)
  {
    match p
    case Return(err) => !err
    case Abort(_) => false
    case Emit(_, q) => Passes(q)
    case CallNext(_, _) => true
  }

  predicate Fails<E>(p: Prog<E>)
  {
    match p
    case Return(err) => err
    case Abort(q) => Fails(q)
    case Emit(_, q) => Fails(q)
    case CallNext(a, b) => Fails(a) && Fails(b)
  }

  // Every error of Next is handed on.
  predicate Propagates<E>(p: Prog<E>)
  {
    match p
    case Return(_) => true
    case Abort(q) => Propagates(q)
    case Emit(_, q) => Propagates(q)
    case CallNext(a, b) => Propagates(a) && Fails(b) && Calls(b) == 0
  }

  predicate PropagatesAll<E>(chain: seq<Prog<E>>)
  {
    forall i :: 0 <= i < |chain| ==> Propagates(chain[i])
  }

  // The number of handlers up to the first from i on that does not let the chain go on.
  function Stop<E>(chain: seq<Prog<E>>, i: nat): (k: nat)
    requires i <= |chain|
    ensures i <= k <= |chain| && (i < |chain| ==> i < k)
    ensures forall j :: i <= j < k - 1 ==> Passes(chain[j])
    ensures k < |chain| ==> !Passes(chain[k - 1])
    decreases |chain| - i
  {
    if i == |chain| then i else if !Passes(chain[i]) then i + 1 else Stop(chain, i + 1)
  }

  // Past the end of the chain no handler starts any more.
  lemma {:induction false} PastEnd<E>(chain: seq<Prog<E>>, k: nat, p: Prog<E>, s: State<E>)
    requires k < |chain| < ABORT_INDEX && s.index >= |chain|
    ensures var (t, o) := Run(chain, k, p, s); t.log == s.log && (o != Panic ==> t.index >= |chain|)
    decreases p
  {
    match p
    case Return(_) =>
    case Abort(q) => PastEnd(chain, k, q, Aborted(s));
    case Emit(e, q) => PastEnd(chain, k, q, s.(events := s.events + [e]));
    case CallNext(a, b) =>
      var (t, o) := Loop(chain, Bump(s));
      if o == Nil { PastEnd(chain, k, a, t); }
  }

  lemma {:induction false} FailsWithoutNext<E>(chain: seq<Prog<E>>, k: nat, p: Prog<E>, s: State<E>)
    requires k < |chain| < ABORT_INDEX && s.index >= k && Fails(p) && Calls(p) == 0
    ensures var (t, o) := Run(chain, k, p, s); o == Error && t.log == s.log
    decreases p
  {
    match p
    case Return(_) =>
    case Abort(q) => FailsWithoutNext(chain, k, q, Aborted(s));
    case Emit(e, q) => FailsWithoutNext(chain, k, q, s.(events := s.events + [e]));
  }

  lemma {:induction false} LoopPrefix<E>(chain: seq<Prog<E>>, s: State<E>)
    requires |chain| < ABORT_INDEX && PropagatesAll(chain)
    requires 0 <= s.index <= |chain| && s.log == UpTo(s.index)
    ensures var (t, o) := Loop(chain, s);
            o != Panic ==> t.log == UpTo(Stop(chain, s.index)) && (o == Nil ==> t.index >= |chain|)
    decreases Left(|chain|, s.index), 1
  {
    if s.index < |chain| {
      var i := s.index;
      var s' := s.(log := s.log + [i]);
      assert s'.log == UpTo(i + 1);
      RunPrefix(chain, i, chain[i], s');
      var (t, o) := Run(chain, i, chain[i], s');
      if o == Nil && t.index == i {
        LoopPrefix(chain, Bump(t));
      }
    }
  }

  lemma {:induction false} RunPrefix<E>(chain: seq<Prog<E>>, k: nat, p: Prog<E>, s: State<E>)
    requires k < |chain| < ABORT_INDEX && PropagatesAll(chain) && Propagates(p)
    requires s.index == k && s.log == UpTo(k + 1)
    ensures var (t, o) := Run(chain, k, p, s);
            o != Panic ==>
              if o == Nil && t.index == k then Passes(p) && t.log == s.log
              else && t.log == UpTo(if Passes(p) then Stop(chain, k + 1) else k + 1)
                   && (o == Nil ==> t.index >= |chain|)
    decreases Left(|chain|, k), 0, p
  {
    match p
    case Return(_) =>
    case Abort(q) => PastEnd(chain, k, q, Aborted(s));
    case Emit(e, q) => RunPrefix(chain, k, q, s.(events := s.events + [e]));
    case CallNext(a, b) =>
      LoopPrefix(chain, Bump(s));
      var (t, o) := Loop(chain, Bump(s));
      if o == Nil { PastEnd(chain, k, a, t); }
      if o == Error { FailsWithoutNext(chain, k, b, t); }
  }

  // A chain that hands errors on runs exactly the handlers up to the first that returns
  // an error or aborts before calling Next.
  lemma ExactPrefix<E>(chain: seq<Prog<E>>)
    requires |chain| < ABORT_INDEX && OnceEach(chain) && PropagatesAll(chain)
    ensures NextFrom(chain, Start<E>()).0.log == UpTo(Stop(chain, 0))
  {
    IndexFits(chain);
    assert Start<E>().log == UpTo(0);
    LoopPrefix(chain, Bump(Start<E>()));
  }

  // ---- the bounds are reached ----

  // Handlers that call Next, in front of one that aborts and then calls Next.
  function Nest<E>(n: nat): (chain: seq<Prog<E>>)
    ensures |chain| == n + 1
  {
    seq(n, _ => CallNext(Return(false), Return(true))) + [Abort(CallNext(Return(false), Return(true)))]
  }

  lemma {:induction false} NestUnwinds<E>(n: nat, s: State<E>)
    requires n + 1 < ABORT_INDEX && 0 <= s.index <= n
    ensures var (t, o) := Loop(Nest(n), s); o == Nil && t.index == 64 + (n + 1) - s.index
    decreases n - s.index
  {
    var chain, i := Nest<E>(n), s.index;
    var s' := s.(log := s.log + [i]);
    if i == n {
      var t := Bump(Aborted(s'));
      assert Loop(chain, t) == (t, Nil);
      assert Run(chain, i, CallNext(Return(false), Return(true)), Aborted(s')) == (t, Nil);
    } else {
      assert chain[i] == CallNext(Return(false), Return(true));
      NestUnwinds(n, Bump(s'));
      var t := Loop(chain, Bump(s')).0;
      assert Run(chain, i, chain[i], s') == (t, Nil);
      assert Loop(chain, Bump(t)) == (Bump(t), Nil);
    }
  }

  // The longest such chain leaves the index at 126.
  lemma IndexReaches126<E>()
    ensures NextFrom(Nest<E>(61), Start<E>()).0.index == 126
  {
    NestUnwinds(61, Bump(Start<E>()));
  }

  // A handler that calls Next m times.
  function Repeat<E>(m: nat): (p: Prog<E>)
  {
    if m == 0 then Return(false) else CallNext(Repeat(m - 1), Return(true))
  }

  lemma {:induction false} RepeatCounts<E>(m: nat, chain: seq<Prog<E>>, s: State<E>)
    requires |chain| == 1 && 0 <= s.index <= 127
    ensures var (t, o) := Run(chain, 0, Repeat(m), s);
            if s.index + m <= 127 then o == Nil && t.index == s.index + m else o == Panic
    decreases m
  {
    if m > 0 && s.index < 127 {
      assert Loop(chain, Bump(s)) == (Bump(s), Nil);
      RepeatCounts(m - 1, chain, Bump(s));
    }
  }

  // Without the limit of one call the index overflows: a single handler panics exactly
  // when it calls Next 127 times or more.
  lemma ManyCallsPanic<E>(m: nat)
    ensures NextFrom([Repeat<E>(m)], Start<E>()).1 == Panic <==> m >= 127
  {
    var chain := [Repeat<E>(m)];
    var s := Bump(Start<E>());
    RepeatCounts(m, chain, s.(log := s.log + [0]));
    var (t, o) := Run(chain, 0, Repeat(m), s.(log := s.log + [0]));
    assert NextFrom(chain, Start<E>()) == if o != Nil then (t, o) else Loop(chain, Bump(t));
    assert Bump(t).index == -128 ==> Loop(chain, Bump(t)).1 == Panic;
    assert Bump(t).index >= 1 ==> Loop(chain, Bump(t)).1 == Nil;
  }

  // ---- the context ----

  class Context<E> {
    const handlers: seq<Prog<E>>
    var index: int
    var log: seq<nat>
    var events: seq<E>
    ghost var peak: int

    constructor (handlers: seq<Prog<E>>)
      ensures this.handlers == handlers && View() == Start()
    {
      this.handlers := handlers;
      index, log, events, peak := -1, [], [], -1;
    }

    ghost function View(): (s: State<E>)
      reads this
    {
      State(index, log, events, peak)
    }

    method Increment()
      modifies this
      ensures View() == Bump(old(View()))
    {
      index := if index == 127 then -128 else index + 1;
      if index > peak { peak := index; }
    }

    method Next() returns (o: Outcome)
      requires |handlers| < ABORT_INDEX
      modifies this
      ensures (View(), o) == NextFrom(handlers, old(View()))
      decreases Left(|handlers|, if index == 127 then -128 else index + 1), 1
    {
      Increment();
      while index < |handlers|
        invariant Left(|handlers|, index) <= Left(|handlers|, if old(index) == 127 then -128 else old(index) + 1)
        invariant NextFrom(handlers, old(View())) == Loop(handlers, View())
        decreases Left(|handlers|, index)
      {
        if index < 0 {
          return Panic;
        }
        log := log + [index];
        o := Invoke(index, handlers[index]);
        if o != Nil {
          return o;
        }
        Increment();
      }
      return Nil;
    }

    // Handler k, or the rest p of it.
    method Invoke(k: nat, p: Prog<E>) returns (o: Outcome)
      requires k < |handlers| < ABORT_INDEX && index >= k
      modifies this
      ensures (View(), o) == Run(handlers, k, p, old(View()))
      decreases Left(|handlers|, k), 0, p
    {
      match p
      case Return(err) => return if err then Error else Nil;
      case Abort(q) =>
        index := ABORT_INDEX;
        if peak < ABORT_INDEX { peak := ABORT_INDEX; }
        o := Invoke(k, q);
      case Emit(e, q) =>
        events := events + [e];
        o := Invoke(k, q);
      case CallNext(a, b) =>
        o := Next();
        if o == Nil {
          o := Invoke(k, a);
        } else if o == Error {
          o := Invoke(k, b);
        }
    }
  }

  // ---- what comes out ----

  // The handler returns an error before it calls Next or aborts.
  predicate Refuses<E>(p: Prog<E>)
  {
    match p
    case Return(err) => err
    case Emit(_, q) => Refuses(q)
    case _ => false
  }

  // The handler returns nil, unless Next fails.
  predicate Succeeds<E>(p: Prog<E>)
  {
    match p
    case Return(err) => !err
    case Abort(q) => Succeeds(q)
    case Emit(_, q) => Succeeds(q)
    case CallNext(a, _) => Succeeds(a)
  }

  lemma {:induction false} RefusesNow<E>(chain: seq<Prog<E>>, k: nat, p: Prog<E>, s: State<E>)
    requires k < |chain| < ABORT_INDEX && s.index >= k && Refuses(p)
    ensures Run(chain, k, p, s).1 == Error
    decreases p
  {
    match p
    case Return(_) =>
    case Emit(e, q) => RefusesNow(chain, k, q, s.(events := s.events + [e]));
  }

  lemma {:induction false} LoopError<E>(chain: seq<Prog<E>>, s: State<E>, k: nat)
    requires |chain| < ABORT_INDEX && PropagatesAll(chain) && 0 <= s.index <= k < |chain|
    requires Refuses(chain[k]) && forall j :: 0 <= j < k ==> Passes(chain[j])
    ensures Loop(chain, s).1 == Error
    decreases Left(|chain|, s.index), 1
  {
    var i := s.index;
    var s' := s.(log := s.log + [i]);
    if i == k {
      RefusesNow(chain, k, chain[k], s');
    } else {
      RunError(chain, i, chain[i], s', k);
      var (t, o) := Run(chain, i, chain[i], s');
      if o == Nil {
        LoopError(chain, Bump(t), k);
      }
    }
  }

  lemma {:induction false} RunError<E>(chain: seq<Prog<E>>, i: nat, p: Prog<E>, s: State<E>, k: nat)
    requires i < k < |chain| < ABORT_INDEX && PropagatesAll(chain) && s.index == i && Propagates(p) && Passes(p)
    requires Refuses(chain[k]) && forall j :: 0 <= j < k ==> Passes(chain[j])
    ensures var (t, o) := Run(chain, i, p, s); o == Error || (o == Nil && t.index == i)
    decreases Left(|chain|, i), 0, p
  {
    match p
    case Return(_) =>
    case Emit(e, q) => RunError(chain, i, q, s.(events := s.events + [e]), k);
    case CallNext(a, b) =>
      LoopError(chain, Bump(s), k);
      FailsWithoutNext(chain, i, b, Loop(chain, Bump(s)).0);
  }

  // When handlers let the chain go on up to one that refuses, and hand errors on, the
  // error comes out of Next.
  lemma ErrorComesOut<E>(chain: seq<Prog<E>>, k: nat)
    requires |chain| < ABORT_INDEX && PropagatesAll(chain) && k < |chain|
    requires Refuses(chain[k]) && forall j :: 0 <= j < k ==> Passes(chain[j])
    ensures NextFrom(chain, Start<E>()).1 == Error
  {
    LoopError(chain, Bump(Start<E>()), k);
  }

  lemma {:induction false} LoopNil<E>(chain: seq<Prog<E>>, s: State<E>)
    requires |chain| < ABORT_INDEX && forall j :: 0 <= j < |chain| ==> Succeeds(chain[j])
    ensures Loop(chain, s).1 != Error
    decreases Left(|chain|, s.index), 1
  {
    if 0 <= s.index < |chain| {
      var i := s.index;
      var s' := s.(log := s.log + [i]);
      RunNil(chain, i, chain[i], s');
      var (t, o) := Run(chain, i, chain[i], s');
      if o == Nil { LoopNil(chain, Bump(t)); }
    }
  }

  lemma {:induction false} RunNil<E>(chain: seq<Prog<E>>, k: nat, p: Prog<E>, s: State<E>)
    requires k < |chain| < ABORT_INDEX && s.index >= k && Succeeds(p)
    requires forall j :: 0 <= j < |chain| ==> Succeeds(chain[j])
    ensures Run(chain, k, p, s).1 != Error
    decreases Left(|chain|, k), 0, p
  {
    match p
    case Return(_) =>
    case Abort(q) => RunNil(chain, k, q, Aborted(s));
    case Emit(e, q) => RunNil(chain, k, q, s.(events := s.events + [e]));
    case CallNext(a, b) =>
      LoopNil(chain, Bump(s));
      var (t, o) := Loop(chain, Bump(s));
      if o == Nil { RunNil(chain, k, a, t); }
  }

  // When every handler returns nil unless Next fails, nil comes out.
  lemma NilComesOut<E>(chain: seq<Prog<E>>)
    requires |chain| < ABORT_INDEX && OnceEach(chain) && forall j :: 0 <= j < |chain| ==> Succeeds(chain[j])
    ensures NextFrom(chain, Start<E>()).1 == Nil
  {
    IndexFits(chain);
    LoopNil(chain, Bump(Start<E>()));
  }
}
