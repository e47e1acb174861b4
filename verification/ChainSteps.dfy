// The middleware chain one action at a time, with an explicit stack of loops and
// handlers in place of the nested calls. Runs of several requests can be interleaved
// between any two such actions.
module ChainSteps {
  import opened Options
  import opened Chain

  // What is still to be done, innermost first: a loop of Next, the rest p of handler k,
  // or handler k waiting for the result of its call of Next.
  datatype Stack<E> =
    | Done
    | AtLoop(rest: Stack<E>)
    | In(k: nat, p: Prog<E>, rest: Stack<E>)
    | Await(onNil: Prog<E>, onErr: Prog<E>, k: nat, rest: Stack<E>)

  // ret is the result that the innermost frame has just been handed.
  datatype Machine<E> = Machine(s: State<E>, stack: Stack<E>, ret: Option<Outcome>)

  function Step1<E>(chain: seq<Prog<E>>, m: Machine<E>): (r: Machine<E>)
  {
    match m.stack
    case Done => m
    case AtLoop(rest) => StepLoop(chain, m.s, rest, m.ret)
    case In(k, p, rest) => StepHandler(m.s, k, p, rest)
    case Await(a, b, k, rest) =>
      (match m.ret
       case None => m
       case Some(Panic) => Machine(m.s, rest, m.ret)
       case Some(Nil) => Machine(m.s, In(k, a, rest), None)
       case Some(Error) => Machine(m.s, In(k, b, rest), None))
  }

  function StepLoop<E>(chain: seq<Prog<E>>, s: State<E>, rest: Stack<E>, ret: Option<Outcome>): (r: Machine<E>)
  {
    if ret == Some(Nil) then Machine(Bump(s), AtLoop(rest), None)
    else if ret.Some? then Machine(s, rest, ret)
    else if s.index >= |chain| then Machine(s, rest, Some(Nil))
    else if s.index < 0 then Machine(s, rest, Some(Panic))
    else Machine(s.(log := s.log + [s.index]), In(s.index, chain[s.index], AtLoop(rest)), None)
  }

  function StepHandler<E>(s: State<E>, k: nat, p: Prog<E>, rest: Stack<E>): (r: Machine<E>)
  {
    match p
    case Return(err) => Machine(s, rest, Some(if err then Error else Nil))
    case Abort(q) => Machine(Aborted(s), In(k, q, rest), None)
    case Emit(e, q) => Machine(s.(events := s.events + [e]), In(k, q, rest), None)
    case CallNext(a, b) => Machine(Bump(s), AtLoop(Await(a, b, k, rest)), None)
  }

  function Steps<E>(chain: seq<Prog<E>>, n: nat, m: Machine<E>): (r: Machine<E>)
    decreases n
  {
    if n == 0 then m else Steps(chain, n - 1, Step1(chain, m))
  }

  lemma {:induction false} StepsAdd<E>(chain: seq<Prog<E>>, a: nat, b: nat, m: Machine<E>)
    ensures Steps(chain, a + b, m) == Steps(chain, b, Steps(chain, a, m))
    decreases a
  {
    hide Step1;
    if a > 0 {
      StepsAdd(chain, a - 1, b, Step1(chain, m));
    }
  }

  // ---- the steps add up to the nested calls ----

  lemma {:induction false} LoopSteps<E>(chain: seq<Prog<E>>, s: State<E>, rest: Stack<E>) returns (n: nat)
    requires |chain| < ABORT_INDEX
    ensures var (t, o) := Loop(chain, s);
            Steps(chain, n, Machine(s, AtLoop(rest), None)) == Machine(t, rest, Some(o))
    decreases Left(|chain|, s.index), 1
  {
    var m := Machine(s, AtLoop(rest), None);
    if s.index >= |chain| || s.index < 0 {
      n := 1;
      assert Steps(chain, 1, m) == Steps(chain, 0, Step1(chain, m));
    } else {
      var i, s' := s.index, s.(log := s.log + [s.index]);
      var a := HandlerSteps(chain, i, chain[i], s', AtLoop(rest));
      var (t, o) := Run(chain, i, chain[i], s');
      var m' := Machine(t, AtLoop(rest), Some(o));
      assert Steps(chain, 1 + a, m) == m';
      var b := 0;
      if o == Nil {
        b := LoopSteps(chain, Bump(t), rest);
      }
      assert Steps(chain, 1 + b, m') == Steps(chain, b, Step1(chain, m'));
      n := (1 + a) + (1 + b);
      StepsAdd(chain, 1 + a, 1 + b, m);
    }
  }

  lemma {:induction false} HandlerSteps<E>(chain: seq<Prog<E>>, k: nat, p: Prog<E>, s: State<E>, rest: Stack<E>)
    returns (n: nat)
    requires k < |chain| < ABORT_INDEX && s.index >= k
    ensures var (t, o) := Run(chain, k, p, s);
            Steps(chain, n, Machine(s, In(k, p, rest), None)) == Machine(t, rest, Some(o))
    decreases Left(|chain|, k), 0, p
  {
    var m := Machine(s, In(k, p, rest), None);
    match p
    case Return(_) =>
      n := 1;
      assert Steps(chain, 1, m) == Steps(chain, 0, Step1(chain, m));
    case Abort(q) =>
      var a := HandlerSteps(chain, k, q, Aborted(s), rest);
      n := 1 + a;
    case Emit(e, q) =>
      var a := HandlerSteps(chain, k, q, s.(events := s.events + [e]), rest);
      n := 1 + a;
    case CallNext(x, y) =>
      var a := LoopSteps(chain, Bump(s), Await(x, y, k, rest));
      var (t, o) := Loop(chain, Bump(s));
      var m' := Machine(t, Await(x, y, k, rest), Some(o));
      assert Steps(chain, 1 + a, m) == m';
      var b := 0;
      if o == Nil {
        b := HandlerSteps(chain, k, x, t, rest);
      } else if o == Error {
        b := HandlerSteps(chain, k, y, t, rest);
      }
      assert Steps(chain, 1 + b, m') == Steps(chain, b, Step1(chain, m'));
      n := (1 + a) + (1 + b);
      StepsAdd(chain, 1 + a, 1 + b, m);
  }

  // ---- events along the way ----

  lemma OneEvent<E>(chain: seq<Prog<E>>, m: Machine<E>)
    ensures var m' := Step1(chain, m); m.s.events <= m'.s.events && |m'.s.events| <= |m.s.events| + 1
  {
  }

  lemma {:induction false} EventsGrow<E>(chain: seq<Prog<E>>, n: nat, m: Machine<E>)
    ensures m.s.events <= Steps(chain, n, m).s.events
    ensures m.stack.Done? ==> Steps(chain, n, m) == m
    decreases n
  {
    if n > 0 {
      OneEvent(chain, m);
      EventsGrow(chain, n - 1, Step1(chain, m));
    }
  }

  // At any moment a run has emitted a prefix of what it emits in all, and all of it
  // once it is done.
  lemma PrefixOfAll<E>(chain: seq<Prog<E>>, j: nat, n: nat, m: Machine<E>)
    requires Steps(chain, n, m).stack.Done?
    ensures var now, end := Steps(chain, j, m), Steps(chain, n, m);
            && now.s.events <= end.s.events
            && (now.stack.Done? ==> now == end)
  {
    hide Step1;
    if j <= n {
      StepsAdd(chain, j, n - j, m);
      EventsGrow(chain, n - j, Steps(chain, j, m));
    } else {
      StepsAdd(chain, n, j - n, m);
      EventsGrow(chain, j - n, Steps(chain, n, m));
    }
  }
}
