// Every interleaving of clients, the producer goroutine and the maintenance
// goroutine of a connection pool. One step is one lock section or one hand-off on
// the readyConnection channel.
module PoolRuns {
  import opened Options
  import opened Pool

  // Looking for work; a connection counted but not yet made; a connection to hand out.
  datatype Producer = Looking | Reserved | Offering(x: Connection)

  // Starting: startNewConnections has left attempts to finish; boot when called by NewPool.
  // Stopped: NewPool gave up, so there is no maintenance and no client.
  datatype Maintenance =
    | Starting(left: nat, boot: bool) | Ticking | Rechecking | Deciding | Trimming | Closing | Stopped

  datatype State = State(
    core: Core,
    borrowed: multiset<nat>,         // with clients
    waiting: nat,                    // clients that found no idle connection
    producer: Producer,
    maint: Maintenance,
    hand: Option<Connection>,        // made by startNewConnections, not yet counted
    started: seq<Connection>,        // counted by startNewConnections, not yet put
    recheck: seq<Connection>,        // waiting for their ping
    closing: seq<Connection>,        // cut off the idle list, not yet discounted
    abandoned: seq<Connection>,      // dropped by an early return, still counted
    closed: multiset<nat>)

  datatype ClientStep =
    | GetIdleConn | StartWaiting | StopWaiting | DropConn(id: nat) | PutConn(id: nat, now: int) | PassConn(id: nat)

  datatype ProducerStep = ProduceIdle | Reserve | Produce(now: int) | ProduceFails | HandOver

  datatype MaintStep =
    | StartConn(now: int) | CountStarted | StartFails | FinishStart
    | TakeOld(cutoff: int, kept: seq<Connection>, old_: seq<Connection>)
    | PingFails(i: nat) | PutBack(i: nat) | PassBack(i: nat) | RecheckDone
    | DecideSpawn | Trim | CloseNext | ClosingDone

  datatype Step = Client(c: ClientStep) | Produced(p: ProducerStep) | Maintained(m: MaintStep)

  function Init(c: Config): (s: State)
  {
    State(Core([], 0, 0), multiset{}, 0, Looking,
          if Minimal(c) > 0 then Starting(Minimal(c), true) else Ticking,
          None, [], [], [], [], multiset{})
  }

  // NewPool has returned, so clients hold the pool.
  predicate Open(s: State) { !(s.maint.Starting? && s.maint.boot) && !s.maint.Stopped? }

  function Discount(k: Core): (r: Core) { k.(total := k.total - 1) }

  // The lock section of putConnection for a connection nobody waits for.
  function PutState(s: State, c: Config, x: Connection): (t: State)
  {
    s.(core := PutIdle(s.core, c, x),
       closed := if Full(s.core, c) then s.closed + multiset{x.conn} else s.closed)
  }

  // ---- clients: GetConn, PutConn, DropConn ----

  predicate ClientCan(s: State, step: ClientStep)
  {
    match step
    case GetIdleConn => Open(s) && s.core.idle != []
    case StartWaiting => Open(s) && s.core.idle == []
    case StopWaiting => s.waiting > 0
    case DropConn(id) => id in s.borrowed
    case PutConn(id, _) => id in s.borrowed
    case PassConn(id) => id in s.borrowed && s.waiting > 0
  }

  function ClientDo(s: State, c: Config, step: ClientStep): (t: State)
    requires ClientCan(s, step)
  {
    match step
    case GetIdleConn =>
      var (x, k) := GetIdle(s.core);
      s.(core := k, borrowed := s.borrowed + multiset{x.value.conn})
    case StartWaiting => s.(waiting := s.waiting + 1)
    case StopWaiting => s.(waiting := s.waiting - 1)
    case DropConn(id) =>
      s.(core := Discount(s.core), borrowed := s.borrowed - multiset{id}, closed := s.closed + multiset{id})
    case PutConn(id, now) => PutState(s.(borrowed := s.borrowed - multiset{id}), c, Connection(id, now))
    case PassConn(id) => s.(waiting := s.waiting - 1)
  }

  // ---- the producer goroutine ----

  predicate ProducerCan(s: State, c: Config, step: ProducerStep)
  {
    match step
    case ProduceIdle => s.producer == Looking && s.core.idle != []
    case Reserve => s.producer == Looking && s.core.idle == [] && s.core.total < c.maxAlive
    case Produce(_) => s.producer == Reserved
    case ProduceFails => s.producer == Reserved
    case HandOver => s.producer.Offering? && s.waiting > 0
  }

  function ProducerDo(s: State, c: Config, step: ProducerStep): (t: State)
    requires ProducerCan(s, c, step)
  {
    match step
    case ProduceIdle =>
      var (x, k) := GetIdle(s.core);
      s.(core := k, producer := Offering(x.value))
    case Reserve => s.(core := s.core.(total := s.core.total + 1), producer := Reserved)
    case Produce(now) =>
      s.(core := s.core.(created := s.core.created + 1), producer := Offering(Connection(s.core.created, now)))
    case ProduceFails => s.(core := Discount(s.core), producer := Looking)
    case HandOver =>
      s.(producer := Looking, waiting := s.waiting - 1, borrowed := s.borrowed + multiset{s.producer.x.conn})
  }

  // ---- the maintenance goroutine, and NewPool before it ----

  ghost predicate MaintCan(s: State, step: MaintStep)
  {
    match step
    case StartConn(_) => s.maint.Starting? && s.maint.left > 0 && s.hand == None
    case CountStarted => s.maint.Starting? && s.maint.left > 0 && s.hand.Some?
    case StartFails => s.maint.Starting? && s.maint.left > 0 && s.hand == None
    case FinishStart => s.maint.Starting? && s.maint.left == 0
    case TakeOld(cutoff, kept, old_) => s.maint == Ticking && SplitByAge(s.core.idle, cutoff, kept, old_)
    case PingFails(i) => s.maint == Rechecking && i < |s.recheck|
    case PutBack(i) => s.maint == Rechecking && i < |s.recheck|
    case PassBack(i) => s.maint == Rechecking && i < |s.recheck| && s.waiting > 0
    case RecheckDone => s.maint == Rechecking && s.recheck == []
    case DecideSpawn => s.maint == Deciding
    case Trim => s.maint == Trimming
    case CloseNext => s.maint == Closing && s.closing != []
    case ClosingDone => s.maint == Closing && s.closing == []
  }

  ghost function MaintDo(s: State, c: Config, step: MaintStep): (t: State)
    requires MaintCan(s, step)
  {
    match step
    case StartConn(now) =>
      s.(core := s.core.(created := s.core.created + 1), hand := Some(Connection(s.core.created, now)))
    case CountStarted =>
      s.(core := s.core.(total := s.core.total + 1), hand := None, started := s.started + [s.hand.value],
         maint := s.maint.(left := s.maint.left - 1))
    case StartFails =>
      if c.skipFailures then s.(maint := s.maint.(left := s.maint.left - 1))
      else s.(started := [], abandoned := s.abandoned + s.started,
              maint := if s.maint.boot then Stopped else Ticking)
    case FinishStart =>
      s.(core := PutAll(s.core, c, s.started), started := [], maint := Ticking,
         closed := s.closed + ClosedBy(Overflow(s.core, c, s.started)))
    case TakeOld(_, kept, old_) =>
      s.(core := s.core.(idle := kept), recheck := old_, maint := if old_ == [] then Ticking else Rechecking)
    case PingFails(i) =>
      s.(core := Discount(s.core), recheck := Without(s.recheck, i), closed := s.closed + multiset{s.recheck[i].conn})
    case PutBack(i) => PutState(s.(recheck := Without(s.recheck, i)), c, s.recheck[i])
    case PassBack(i) =>
      s.(recheck := Without(s.recheck, i), waiting := s.waiting - 1,
         borrowed := s.borrowed + multiset{s.recheck[i].conn})
    case RecheckDone => s.(maint := Deciding)
    case DecideSpawn =>
      var n := Shortage(s.core, c);
      s.(maint := if n > 0 then Starting(n, false) else Trimming)
    case Trim =>
      var rest := |s.core.idle| - TrimCount(s.core, c);
      s.(core := s.core.(idle := s.core.idle[..rest]), closing := s.core.idle[rest..], maint := Closing)
    case CloseNext =>
      s.(core := Discount(s.core), closing := s.closing[1..], closed := s.closed + multiset{s.closing[0].conn})
    case ClosingDone => s.(maint := Ticking)
  }

  function ClosedBy(xs: seq<Connection>): (m: multiset<nat>)
    ensures |m| == |xs|
  {
    if xs == [] then multiset{} else multiset{xs[0].conn} + ClosedBy(xs[1..])
  }

  // ---- runs ----

  ghost predicate Can(s: State, c: Config, step: Step)
  {
    match step
    case Client(e) => ClientCan(s, e)
    case Produced(e) => ProducerCan(s, c, e)
    case Maintained(e) => MaintCan(s, e)
  }

  ghost function Do(s: State, c: Config, step: Step): (t: State)
    requires Can(s, c, step)
  {
    match step
    case Client(e) => ClientDo(s, c, e)
    case Produced(e) => ProducerDo(s, c, e)
    case Maintained(e) => MaintDo(s, c, e)
  }

  // steps is a run from s to t.
  ghost predicate Runs(s: State, c: Config, steps: seq<Step>, t: State)
    decreases |steps|
  {
    if steps == [] then s == t else Can(s, c, steps[0]) && Runs(Do(s, c, steps[0]), c, steps[1..], t)
  }

  // ---- conservation: every connection ever made is in exactly one place ----

  function ProducerHolds(p: Producer, id: nat): (n: nat) { if p.Offering? && p.x.conn == id then 1 else 0 }

  function HandHolds(h: Option<Connection>, id: nat): (n: nat) { if h.Some? && h.value.conn == id then 1 else 0 }

  // The places in which the connection id is found.
  function Places(s: State, id: nat): (n: nat)
  {
    Occurs(s.core.idle, id) + s.borrowed[id] + ProducerHolds(s.producer, id) + HandHolds(s.hand, id)
      + Occurs(s.started, id) + Occurs(s.recheck, id) + Occurs(s.closing, id) + Occurs(s.abandoned, id) + s.closed[id]
  }

  ghost predicate EachInOnePlace(s: State)
  {
    forall id: nat :: Places(s, id) == if id < s.core.created then 1 else 0
  }

  // TotalCount: the live connections that were counted, and the producer's reservation.
  function Counted(s: State): (n: nat)
  {
    |s.core.idle| + |s.borrowed| + (if s.producer == Looking then 0 else 1)
      + |s.started| + |s.recheck| + |s.closing| + |s.abandoned|
  }

  function Left(s: State): (n: nat) { if s.maint.Starting? then s.maint.left else 0 }

  // The largest number of connections one round of spawning starts.
  function Burst(c: Config): (n: nat) { Min(MAX_NEW_CONNECTION_AT_ONCE, Minimal(c)) }

  // Lists belong to the phase of maintenance that works on them; nothing is out while NewPool runs.
  predicate Phased(s: State, c: Config)
  {
    && (s.maint.Starting? || (s.hand == None && s.started == []))
    && (s.hand.Some? ==> Left(s) > 0)
    && (s.maint == Rechecking || s.recheck == [])
    && (s.maint == Closing || s.closing == [])
    && (c.skipFailures ==> s.abandoned == [])
    && (s.maint.Starting? && s.maint.boot ==>
          && s.core.idle == [] && s.borrowed == multiset{} && s.waiting == 0 && s.abandoned == []
          && |s.started| + s.maint.left <= Minimal(c) && Minimal(c) > 0)
    && (s.maint.Starting? && !s.maint.boot ==> s.maint.left <= Burst(c))
    && (s.maint.Stopped? ==> s.borrowed == multiset{} && s.waiting == 0)
  }

  // Everything in the invariant but the places.
  predicate Counts(s: State, c: Config)
  {
    && s.core.total == Counted(s)
    && |s.core.idle| <= c.maxIdle
    && s.core.total + Left(s) <= c.maxAlive + Burst(c)
    && Phased(s, c)
  }

  ghost predicate Inv(s: State, c: Config) { Counts(s, c) && EachInOnePlace(s) }

  // ---- every step keeps the invariant ----

  lemma OccursCons(xs: seq<Connection>, id: nat)
    requires xs != []
    ensures Occurs(xs, id) == (if xs[0].conn == id then 1 else 0) + Occurs(xs[1..], id)
  {
    assert xs == [xs[0]] + xs[1..];
    OccursConcat([xs[0]], xs[1..], id);
    OccursPush([], xs[0], id);
    assert [] + [xs[0]] == [xs[0]];
  }

  lemma PutIdlePlaces(k: Core, c: Config, x: Connection, id: nat)
    ensures Occurs(PutIdle(k, c, x).idle, id) + (if Full(k, c) && x.conn == id then 1 else 0)
         == Occurs(k.idle, id) + (if x.conn == id then 1 else 0)
  {
    OccursPush(k.idle, x, id);
  }

  lemma {:induction false} PutAllPlaces(k: Core, c: Config, xs: seq<Connection>, id: nat)
    ensures Occurs(PutAll(k, c, xs).idle, id) + ClosedBy(Overflow(k, c, xs))[id]
         == Occurs(k.idle, id) + Occurs(xs, id)
    decreases |xs|
  {
    if xs == [] {
      assert Occurs(xs, id) == 0;
    } else {
      var x, tail, k' := xs[0], xs[1..], PutIdle(k, c, xs[0]);
      var over := Overflow(k', c, tail);
      assert PutAll(k, c, xs) == PutAll(k', c, tail);
      assert Overflow(k, c, xs) == if Full(k, c) then [x] + over else [] + over;
      hide Occurs, ClosedBy, PutIdle, PutAll, Overflow, Full;
      PutIdlePlaces(k, c, x, id);
      PutAllPlaces(k', c, tail, id);
      OccursCons(xs, id);
      ClosedCons(x, over, id);
      assert [] + over == over;
    }
  }

  lemma ClosedCons(x: Connection, xs: seq<Connection>, id: nat)
    ensures ClosedBy([x] + xs)[id] == ClosedBy(xs)[id] + if x.conn == id then 1 else 0
  {
    assert ([x] + xs)[1..] == xs;
  }

  lemma {:induction false} PutAllCounts(k: Core, c: Config, xs: seq<Connection>)
    ensures var r := PutAll(k, c, xs);
            && r.created == k.created
            && r.total - |r.idle| == k.total - |k.idle| - |xs|
            && |r.idle| <= Max(|k.idle|, c.maxIdle) && r.total <= k.total
    decreases |xs|
  {
    if xs != [] { PutAllCounts(PutIdle(k, c, xs[0]), c, xs[1..]); }
  }

  lemma GetIdlePlaces(k: Core, id: nat)
    requires k.idle != []
    ensures var (x, r) := GetIdle(k);
            x.Some? && Occurs(k.idle, id) == Occurs(r.idle, id) + if x.value.conn == id then 1 else 0
  {
  }

  lemma OneMoreOrLess(m: multiset<nat>, x: nat, id: nat)
    ensures (m + multiset{x})[id] == m[id] + if x == id then 1 else 0
    ensures x in m ==> (m - multiset{x})[id] == m[id] - if x == id then 1 else 0
  {
  }

  lemma PutConnPlaces(s: State, c: Config, x: nat, now: int, id: nat)
    requires x in s.borrowed
    ensures Places(ClientDo(s, c, PutConn(x, now)), id) == Places(s, id)
  {
    hide Occurs, PutIdle, Full;
    PutIdlePlaces(s.core, c, Connection(x, now), id);
    OneMoreOrLess(s.borrowed, x, id);
    OneMoreOrLess(s.closed, x, id);
  }

  lemma ClientPlaces(s: State, c: Config, step: ClientStep, id: nat)
    requires ClientCan(s, step)
    ensures Places(ClientDo(s, c, step), id) == Places(s, id)
  {
    hide Occurs, GetIdle, Open, PutState;
    match step
    case GetIdleConn =>
      GetIdlePlaces(s.core, id);
      OneMoreOrLess(s.borrowed, GetIdle(s.core).0.value.conn, id);
    case DropConn(x) =>
      OneMoreOrLess(s.borrowed, x, id);
      OneMoreOrLess(s.closed, x, id);
    case PutConn(x, now) => PutConnPlaces(s, c, x, now, id);
    case _ =>
  }

  lemma ProducerPlaces(s: State, c: Config, step: ProducerStep, id: nat)
    requires ProducerCan(s, c, step)
    ensures Places(ProducerDo(s, c, step), id)
         == Places(s, id) + if step.Produce? && id == s.core.created then 1 else 0
  {
    hide Occurs;
    if step.ProduceIdle? { GetIdlePlaces(s.core, id); }
  }

  lemma StartPlaces(s: State, c: Config, step: MaintStep, id: nat)
    requires MaintCan(s, step) && Phased(s, c) && s.maint.Starting?
    ensures Places(MaintDo(s, c, step), id)
         == Places(s, id) + if step.StartConn? && id == s.core.created then 1 else 0
  {
    assert Occurs([], id) == 0;
    hide Occurs, PutAll, Overflow, ClosedBy;
    match step
    case CountStarted => OccursPush(s.started, s.hand.value, id);
    case StartFails => OccursConcat(s.abandoned, s.started, id);
    case FinishStart => PutAllPlaces(s.core, c, s.started, id);
    case _ =>
  }

  lemma RecheckPlaces(s: State, c: Config, step: MaintStep, id: nat)
    requires MaintCan(s, step) && s.maint == Rechecking
    ensures Places(MaintDo(s, c, step), id) == Places(s, id)
  {
    hide Occurs, PutIdle, Full, Without;
    if !step.RecheckDone? {
      var x := s.recheck[step.i];
      OccursWithout(s.recheck, step.i, id);
      OneMoreOrLess(s.closed, x.conn, id);
      OneMoreOrLess(s.borrowed, x.conn, id);
      PutIdlePlaces(s.core, c, x, id);
    }
  }

  lemma MaintPlaces(s: State, c: Config, step: MaintStep, id: nat)
    requires MaintCan(s, step) && Phased(s, c)
    ensures Places(MaintDo(s, c, step), id)
         == Places(s, id) + if step.StartConn? && id == s.core.created then 1 else 0
  {
    if s.maint.Starting? {
      StartPlaces(s, c, step, id);
    } else if s.maint == Rechecking {
      RecheckPlaces(s, c, step, id);
    } else {
      assert Occurs([], id) == 0;
      hide Occurs, Shortage;
      match step
      case TakeOld(_, kept, old_) =>
        assert multiset(kept + old_) == multiset(s.core.idle);
        OccursPermuted(s.core.idle, kept + old_, id);
        OccursConcat(kept, old_, id);
      case Trim =>
        var rest := |s.core.idle| - TrimCount(s.core, c);
        assert s.core.idle == s.core.idle[..rest] + s.core.idle[rest..];
        OccursConcat(s.core.idle[..rest], s.core.idle[rest..], id);
      case CloseNext =>
        OccursCons(s.closing, id);
        OneMoreOrLess(s.closed, s.closing[0].conn, id);
      case _ =>
    }
  }

  lemma ClientCounts(s: State, c: Config, step: ClientStep)
    requires Usable(c) && Counts(s, c) && ClientCan(s, step)
    ensures Counts(ClientDo(s, c, step), c)
    ensures ClientDo(s, c, step).core.created == s.core.created
  {
    hide Burst, Minimal;
    match step
    case PutConn(id, now) => hide ClientDo; PutCounts(s, c, id, now);
    case _ => hide PutIdle, Full, PutState;
  }

  lemma PutCounts(s: State, c: Config, id: nat, now: int)
    requires Counts(s, c) && id in s.borrowed
    ensures var t := ClientDo(s, c, PutConn(id, now)); Counts(t, c) && t.core.created == s.core.created
  {
    hide Burst, Minimal, GetIdle;
    var t := ClientDo(s, c, PutConn(id, now));
    assert |s.borrowed - multiset{id}| == |s.borrowed| - 1;
    assert t.borrowed == s.borrowed - multiset{id};
  }

  lemma ClientKeeps(s: State, c: Config, step: ClientStep)
    requires Usable(c) && Inv(s, c) && ClientCan(s, step)
    ensures Inv(ClientDo(s, c, step), c)
  {
    hide Places, Counts, ClientDo, ClientCan;
    var t := ClientDo(s, c, step);
    ClientCounts(s, c, step);
    forall id: nat ensures Places(t, id) == if id < t.core.created then 1 else 0 {
      ClientPlaces(s, c, step, id);
    }
  }

  lemma ProducerKeeps(s: State, c: Config, step: ProducerStep)
    requires Usable(c) && Inv(s, c) && ProducerCan(s, c, step)
    ensures Inv(ProducerDo(s, c, step), c)
  {
    hide Places;
    var t := ProducerDo(s, c, step);
    forall id: nat ensures Places(t, id) == if id < t.core.created then 1 else 0 {
      ProducerPlaces(s, c, step, id);
    }
  }

  lemma StartCounts(s: State, c: Config, step: MaintStep)
    requires Usable(c) && Counts(s, c) && MaintCan(s, step) && s.maint.Starting?
    ensures Counts(MaintDo(s, c, step), c)
  {
    hide PutAll, Overflow, ClosedBy;
    PutAllCounts(s.core, c, s.started);
  }

  lemma OtherCounts(s: State, c: Config, step: MaintStep)
    requires Usable(c) && Counts(s, c) && MaintCan(s, step) && !s.maint.Starting?
    ensures Counts(MaintDo(s, c, step), c)
  {
    if step.TakeOld? { assert |multiset(s.core.idle)| == |step.kept| + |step.old_|; }
  }

  lemma MaintKeeps(s: State, c: Config, step: MaintStep)
    requires Usable(c) && Inv(s, c) && MaintCan(s, step)
    ensures Inv(MaintDo(s, c, step), c)
  {
    var t := MaintDo(s, c, step);
    if s.maint.Starting? { StartCounts(s, c, step); } else { OtherCounts(s, c, step); }
    assert EachInOnePlace(t) by {
      hide Places, MaintCan;
      PutAllCounts(s.core, c, s.started);
      forall id: nat ensures Places(t, id) == if id < t.core.created then 1 else 0 {
        MaintPlaces(s, c, step, id);
      }
    }
  }

  lemma StepKeeps(s: State, c: Config, step: Step)
    requires Usable(c) && Inv(s, c) && Can(s, c, step)
    ensures Inv(Do(s, c, step), c)
  {
    match step
    case Client(e) => ClientKeeps(s, c, e);
    case Produced(e) => ProducerKeeps(s, c, e);
    case Maintained(e) => MaintKeeps(s, c, e);
  }

  lemma InitInv(c: Config)
    requires Usable(c)
    ensures Inv(Init(c), c)
  {
  }

  lemma {:induction false} RunKeeps(s: State, c: Config, steps: seq<Step>, t: State)
    requires Usable(c) && Inv(s, c) && Runs(s, c, steps, t)
    ensures Inv(t, c)
    decreases |steps|
  {
    hide Inv, Do, Can;
    if steps != [] {
      StepKeeps(s, c, steps[0]);
      RunKeeps(Do(s, c, steps[0]), c, steps[1..], t);
    }
  }

  // In every state of every run each connection ever made is in exactly one place,
  // TotalCount is the number of connections in use plus the producer's reservation,
  // the idle list respects its limit, and at most Burst(c) connections exceed maxAlive.
  lemma Conservation(c: Config, steps: seq<Step>, t: State)
    requires Usable(c) && Runs(Init(c), c, steps, t)
    ensures EachInOnePlace(t) && t.core.total == Counted(t)
    ensures |t.core.idle| <= c.maxIdle
    ensures t.core.total + Left(t) <= c.maxAlive + Burst(c)
    ensures c.skipFailures ==> t.abandoned == []
  {
    InitInv(c);
    RunKeeps(Init(c), c, steps, t);
  }

  // ---- the early return of the SQLProxy copy ----

  lemma {:induction false} AbandonedStay(s: State, c: Config, steps: seq<Step>, t: State)
    requires Runs(s, c, steps, t)
    ensures s.abandoned <= t.abandoned
    decreases |steps|
  {
    if steps != [] {
      hide Runs, Places;
      AbandonedStep(s, c, steps[0]);
      assert Runs(Do(s, c, steps[0]), c, steps[1..], t) by { RunTail(s, c, steps, t); }
      AbandonedStay(Do(s, c, steps[0]), c, steps[1..], t);
    }
  }

  lemma AbandonedStep(s: State, c: Config, step: Step)
    requires Can(s, c, step)
    ensures s.abandoned <= Do(s, c, step).abandoned
  {
  }

  lemma RunTail(s: State, c: Config, steps: seq<Step>, t: State)
    requires Runs(s, c, steps, t) && steps != []
    ensures Can(s, c, steps[0]) && Runs(Do(s, c, steps[0]), c, steps[1..], t)
  {
  }

  // What the early return has dropped, and could still drop in the round under way.
  predicate AbandonedFits(s: State, c: Config)
  {
    && |s.abandoned| <= Max(Minimal(c) - 1, 0)
    && (s.maint.Starting? ==> |s.abandoned| + |s.started| + s.maint.left <= Minimal(c))
  }

  lemma MaintAbandons(s: State, c: Config, step: MaintStep)
    requires Counts(s, c) && AbandonedFits(s, c) && MaintCan(s, step)
    ensures AbandonedFits(MaintDo(s, c, step), c)
  {
    hide PutAll, Overflow, ClosedBy, Without, TrimCount, SplitByAge, PutIdle, Full;
    if step.DecideSpawn? {
      assert s.core.total >= |s.abandoned|;
    }
  }

  lemma AbandonedFitsStep(s: State, c: Config, step: Step)
    requires Counts(s, c) && AbandonedFits(s, c) && Can(s, c, step)
    ensures AbandonedFits(Do(s, c, step), c)
  {
    match step
    case Client(_) => hide Counts, MaintDo, MaintCan, ProducerDo, PutIdle, Full;
    case Produced(_) => hide Counts, MaintDo, MaintCan, ClientDo;
    case Maintained(e) =>
      hide MaintDo, MaintCan, ClientDo, ProducerDo;
      MaintAbandons(s, c, e);
  }

  lemma {:induction false} AbandonedFitsRun(s: State, c: Config, steps: seq<Step>, t: State)
    requires Usable(c) && Inv(s, c) && AbandonedFits(s, c) && Runs(s, c, steps, t)
    ensures AbandonedFits(t, c)
    decreases |steps|
  {
    if steps != [] {
      hide Inv, Do, Can, AbandonedFits;
      StepKeeps(s, c, steps[0]);
      AbandonedFitsStep(s, c, steps[0]);
      AbandonedFitsRun(Do(s, c, steps[0]), c, steps[1..], t);
    }
  }

  // No run abandons more than minAlive - 1 connections, because spawning counts the
  // abandoned ones and the failing attempt is not one of them.
  lemma AbandonedBound(c: Config, steps: seq<Step>, t: State)
    requires Usable(c) && Runs(Init(c), c, steps, t)
    ensures |t.abandoned| <= if c.skipFailures then 0 else Max(Minimal(c) - 1, 0)
  {
    hide Runs;
    InitInv(c);
    AbandonedFitsRun(Init(c), c, steps, t);
    Conservation(c, steps, t);
  }

  // The counted connections that are not abandoned, and the producer's reservation.
  function Others(s: State): (n: nat)
  {
    |s.core.idle| + |s.borrowed| + (if s.producer == Looking then 0 else 1)
      + |s.started| + |s.recheck| + |s.closing|
  }

  // Abandoned connections take their share of maxAlive for ever, in every later state,
  // but never all of it: the producer can reserve exactly while the other connections
  // leave some of the rest, which is at least one.
  lemma LostCapacity(c: Config, before: seq<Step>, s: State, after: seq<Step>, t: State)
    requires Usable(c) && Runs(Init(c), c, before, s) && Runs(s, c, after, t)
    ensures ProducerCan(t, c, Reserve) <==>
            t.producer == Looking && t.core.idle == [] && Others(t) < c.maxAlive - |t.abandoned|
    ensures ProducerCan(t, c, Reserve) ==> Others(t) < c.maxAlive - |s.abandoned|
    ensures c.maxAlive > 0 ==> c.maxAlive - |t.abandoned| >= 1
  {
    hide Runs, EachInOnePlace;
    RunsTrans(Init(c), c, before, s, after, t);
    Conservation(c, before + after, t);
    AbandonedBound(c, before + after, t);
    AbandonedStay(s, c, after, t);
  }

  // ---- the bound is exact ----

  ghost predicate Reach(s: State, c: Config, t: State) { exists steps :: Runs(s, c, steps, t) }

  lemma ReachRefl(s: State, c: Config)
    ensures Reach(s, c, s)
  {
    assert Runs(s, c, [], s);
  }

  lemma ReachStep(s: State, c: Config, step: Step, t: State)
    requires Can(s, c, step) && Reach(Do(s, c, step), c, t)
    ensures Reach(s, c, t)
  {
    var steps :| Runs(Do(s, c, step), c, steps, t);
    assert ([step] + steps)[1..] == steps;
    assert Runs(s, c, [step] + steps, t);
  }

  lemma {:induction false} RunsTrans(s: State, c: Config, a: seq<Step>, m: State, b: seq<Step>, t: State)
    requires Runs(s, c, a, m) && Runs(m, c, b, t)
    ensures Runs(s, c, a + b, t)
    decreases |a|
  {
    hide Can, Do;
    if a == [] {
      assert a + b == b;
    } else {
      assert (a + b)[1..] == a[1..] + b;
      RunsTrans(Do(s, c, a[0]), c, a[1..], m, b, t);
    }
  }

  lemma ReachTrans(s: State, c: Config, m: State, t: State)
    requires Reach(s, c, m) && Reach(m, c, t)
    ensures Reach(s, c, t)
  {
    var a :| Runs(s, c, a, m);
    var b :| Runs(m, c, b, t);
    RunsTrans(s, c, a, m, b, t);
  }

  // The next k attempts succeed, at time zero.
  lemma {:induction false} StartMany(s: State, c: Config, k: nat) returns (t: State)
    requires s.maint.Starting? && k <= s.maint.left
    requires s.hand == None && forall x :: x in s.started ==> x.lastUseAt == 0
    ensures Reach(s, c, t)
    ensures t == s.(core := t.core, started := t.started, maint := Starting(s.maint.left - k, s.maint.boot))
    ensures t.core.idle == s.core.idle && t.core.total == s.core.total + k
    ensures |t.started| == |s.started| + k && forall x :: x in t.started ==> x.lastUseAt == 0
    decreases k
  {
    if k == 0 {
      t := s;
      ReachRefl(s, c);
    } else {
      var a := Do(s, c, Maintained(StartConn(0)));
      var b := Do(a, c, Maintained(CountStarted));
      t := StartMany(b, c, k - 1);
      ReachStep(a, c, Maintained(CountStarted), t);
      ReachStep(s, c, Maintained(StartConn(0)), t);
    }
  }

  // A client waits, and the producer makes a connection for it.
  lemma BorrowOne(s: State, c: Config) returns (t: State)
    requires Open(s) && s.producer == Looking && s.core.idle == [] && s.core.total < c.maxAlive
    ensures Reach(s, c, t)
    ensures var id := s.core.created;
            t == s.(core := Core([], s.core.total + 1, id + 1), borrowed := s.borrowed + multiset{id})
  {
    hide Runs, MaintDo, MaintCan;
    var s1 := Do(s, c, Client(StartWaiting));
    var s2 := Do(s1, c, Produced(Reserve));
    var s3 := Do(s2, c, Produced(Produce(0)));
    t := Do(s3, c, Produced(HandOver));
    ReachRefl(t, c);
    ReachStep(s3, c, Produced(HandOver), t);
    ReachStep(s2, c, Produced(Produce(0)), t);
    ReachStep(s1, c, Produced(Reserve), t);
    ReachStep(s, c, Client(StartWaiting), t);
  }

  lemma {:induction false} BorrowMany(s: State, c: Config, n: nat) returns (t: State)
    requires Open(s) && s.producer == Looking && s.core.idle == [] && s.core.total + n <= c.maxAlive
    ensures Reach(s, c, t)
    ensures t == s.(core := t.core, borrowed := t.borrowed)
    ensures t.core.idle == [] && t.core.total == s.core.total + n
    decreases n
  {
    hide Reach;
    if n == 0 {
      t := s;
      ReachRefl(s, c);
    } else {
      var m := BorrowOne(s, c);
      t := BorrowMany(m, c, n - 1);
      ReachTrans(s, c, m, t);
    }
  }

  // Every rechecked connection fails its ping.
  lemma {:induction false} FailAll(s: State, c: Config) returns (t: State)
    requires s.maint == Rechecking
    ensures Reach(s, c, t)
    ensures t == s.(core := s.core.(total := s.core.total - |s.recheck|), recheck := [], closed := t.closed)
    decreases |s.recheck|
  {
    if s.recheck == [] {
      t := s;
      ReachRefl(s, c);
    } else {
      t := FailAll(Do(s, c, Maintained(PingFails(0))), c);
      ReachStep(s, c, Maintained(PingFails(0)), t);
    }
  }

  lemma {:induction false} PutAllWithRoom(k: Core, c: Config, xs: seq<Connection>)
    requires |k.idle| + |xs| <= c.maxIdle
    ensures PutAll(k, c, xs) == k.(idle := k.idle + xs) && Overflow(k, c, xs) == []
    decreases |xs|
  {
    if xs == [] {
      assert k.idle + xs == k.idle;
    } else {
      PutAllWithRoom(PutIdle(k, c, xs[0]), c, xs[1..]);
      assert (k.idle + [xs[0]]) + xs[1..] == k.idle + xs;
    }
  }

  // Every pool can reach the bound: after all idle connections failed their pings,
  // clients fill the pool to maxAlive while the maintenance goroutine, having decided
  // before, still starts its burst. The documented limit of maxAlive + 1 is exceeded
  // as soon as minAlive is at least 2.
  lemma BoundIsReached(c: Config) returns (t: State)
    requires Usable(c)
    ensures Reach(Init(c), c, t) && t.core.total == c.maxAlive + Burst(c)
  {
    var s0 := Init(c);
    if Minimal(c) == 0 {
      t := BorrowMany(s0, c, c.maxAlive);
    } else {
      var s := Dried(c);
      var filled := BorrowMany(s, c, c.maxAlive);
      t := StartMany(filled, c, filled.maint.left);
      ReachTrans(s, c, filled, t);
      ReachTrans(s0, c, s, t);
    }
  }

  // A pool that NewPool has filled with unused connections.
  lemma Booted(c: Config) returns (s: State)
    requires Usable(c) && Minimal(c) > 0
    ensures Reach(Init(c), c, s)
    ensures s == Init(c).(core := s.core, maint := Ticking)
    ensures s.core.total == |s.core.idle| == Minimal(c) && forall x :: x in s.core.idle ==> x.lastUseAt == 0
  {
    hide Runs;
    var s0 := Init(c);
    var s1 := StartMany(s0, c, s0.maint.left);
    PutAllWithRoom(s1.core, c, s1.started);
    assert [] + s1.started == s1.started;
    s := Do(s1, c, Maintained(FinishStart));
    ReachRefl(s, c);
    ReachStep(s1, c, Maintained(FinishStart), s);
    ReachTrans(s0, c, s1, s);
  }

  // A pool whose connections all failed their ping, about to start a burst.
  lemma Dried(c: Config) returns (s: State)
    requires Usable(c) && Minimal(c) > 0
    ensures Reach(Init(c), c, s)
    ensures s.maint == Starting(Burst(c), false) && s.core.total == 0 && s.core.idle == []
    ensures s.producer == Looking && s.hand == None && s.started == []
    ensures s.recheck == [] && s.closing == [] && s.abandoned == [] && s.waiting == 0
  {
    hide Runs;
    var s2 := Booted(c);
    s := DryOut(s2, c);
    ReachTrans(Init(c), c, s2, s);
  }

  // ---- how much can be abandoned ----

  // An open pool with no connection left but the abandoned ones.
  predicate Drained(s: State)
  {
    && s.maint == Ticking && s.producer == Looking && s.waiting == 0 && s.hand == None
    && s.core.idle == [] && s.started == [] && s.recheck == [] && s.closing == []
    && s.core.total == |s.abandoned|
  }

  // A round of spawning whose last attempt fails, in the copy that returns early.
  lemma FailLast(s: State, c: Config) returns (t: State)
    requires !c.skipFailures && s.maint.Starting? && !s.maint.boot && s.maint.left > 0
    requires Drained(s.(maint := Ticking))
    ensures Reach(s, c, t) && Drained(t) && |t.abandoned| == |s.abandoned| + s.maint.left - 1
  {
    hide Runs;
    var m := StartMany(s, c, s.maint.left - 1);
    t := Do(m, c, Maintained(StartFails));
    ReachRefl(t, c);
    ReachStep(m, c, Maintained(StartFails), t);
    ReachTrans(s, c, m, t);
  }

  // A client borrows a connection and puts it back.
  lemma PutOneBack(s: State, c: Config) returns (t: State)
    requires Drained(s) && s.core.total < c.maxAlive && 0 < c.maxIdle
    ensures Reach(s, c, t)
    ensures t == s.(core := t.core, borrowed := t.borrowed) && t.core.total == s.core.total + 1
    ensures |t.core.idle| == 1 && t.core.idle[0].lastUseAt == 0
  {
    hide Runs, MaintDo, MaintCan;
    var m := BorrowOne(s, c);
    var put := Client(PutConn(s.core.created, 0));
    assert s.core.created in m.borrowed;
    t := Do(m, c, put);
    ReachRefl(t, c);
    ReachStep(m, c, put, t);
    ReachTrans(s, c, m, t);
  }

  // The idle connections all fail their ping, and maintenance decides to spawn.
  lemma DryOut(s: State, c: Config) returns (t: State)
    requires s.maint == Ticking && s.recheck == [] && s.core.idle != []
    requires forall x :: x in s.core.idle ==> x.lastUseAt <= 0
    requires s.core.total - |s.core.idle| < c.minAlive
    ensures Reach(s, c, t)
    ensures t == s.(core := t.core, maint := Starting(Shortage(t.core, c), false), closed := t.closed)
    ensures t.core.idle == [] && t.core.total == s.core.total - |s.core.idle| && t.core.created == s.core.created
  {
    hide Runs;
    var take := TakeOld(0, [], s.core.idle);
    assert SplitByAge(s.core.idle, 0, [], s.core.idle);
    var s3 := Do(s, c, Maintained(take));
    var s4 := FailAll(s3, c);
    var s5 := Do(s4, c, Maintained(RecheckDone));
    t := Do(s5, c, Maintained(DecideSpawn));
    ReachRefl(t, c);
    ReachStep(s5, c, Maintained(DecideSpawn), t);
    ReachStep(s4, c, Maintained(RecheckDone), t);
    ReachTrans(s3, c, s4, t);
    ReachStep(s, c, Maintained(take), t);
  }

  // From a drained pool, rounds that fail on their last attempt abandon the most
  // that can be abandoned.
  lemma {:induction false} AbandonMore(s: State, c: Config) returns (t: State)
    requires Usable(c) && !c.skipFailures && Drained(s) && |s.abandoned| <= c.minAlive - 1
    ensures Reach(s, c, t) && Drained(t) && |t.abandoned| == c.minAlive - 1
    decreases c.minAlive - |s.abandoned|
  {
    hide Runs;
    if |s.abandoned| == c.minAlive - 1 {
      t := s;
      ReachRefl(s, c);
    } else {
      var s1 := PutOneBack(s, c);
      var s2 := DryOut(s1, c);
      var s3 := FailLast(s2, c);
      t := AbandonMore(s3, c);
      ReachTrans(s2, c, s3, t);
      ReachTrans(s1, c, s2, t);
      ReachTrans(s, c, s1, t);
    }
  }

  // The bound on abandoned connections is reached in an open pool, for every
  // configuration of the copy that returns early.
  lemma AbandonedBoundIsReached(c: Config) returns (t: State)
    requires Usable(c) && !c.skipFailures
    ensures Reach(Init(c), c, t) && Open(t) && |t.abandoned| == Max(Minimal(c) - 1, 0)
  {
    hide Runs;
    var s0 := Init(c);
    if Minimal(c) == 0 {
      t := s0;
      ReachRefl(s0, c);
    } else {
      var s1 := Dried(c);
      var s2 := FailLast(s1, c);
      t := AbandonMore(s2, c);
      ReachTrans(s1, c, s2, t);
      ReachTrans(s0, c, s1, t);
    }
  }

  // A run abandons a connection if and only if the pool returns early and is to keep
  // at least two connections alive.
  lemma AbandonsIff(c: Config)
    requires Usable(c)
    ensures (exists t :: Reach(Init(c), c, t) && t.abandoned != []) <==> !c.skipFailures && c.minAlive >= 2
  {
    hide Runs;
    forall t | Reach(Init(c), c, t) ensures t.abandoned != [] ==> !c.skipFailures && c.minAlive >= 2 {
      var steps :| Runs(Init(c), c, steps, t);
      AbandonedBound(c, steps, t);
    }
    if !c.skipFailures && c.minAlive >= 2 {
      var t := AbandonedBoundIsReached(c);
      assert Reach(Init(c), c, t) && t.abandoned != [];
    }
  }

  // ---- the idle list is a stack over runs ----

  // The step neither takes from the idle list nor puts into it.
  predicate LeavesIdle(step: Step)
  {
    match step
    case Client(e) => !e.GetIdleConn? && !e.PutConn?
    case Produced(e) => !e.ProduceIdle?
    case Maintained(e) => !e.FinishStart? && !e.TakeOld? && !e.PutBack? && !e.Trim?
  }

  lemma {:induction false} IdleStays(s: State, c: Config, steps: seq<Step>, t: State)
    requires Runs(s, c, steps, t) && forall e :: e in steps ==> LeavesIdle(e)
    ensures t.core.idle == s.core.idle
    decreases |steps|
  {
    if steps != [] {
      IdleStaysOnce(s, c, steps[0]);
      hide Do, Can, LeavesIdle;
      IdleStays(Do(s, c, steps[0]), c, steps[1..], t);
    }
  }

  lemma IdleStaysOnce(s: State, c: Config, step: Step)
    requires Can(s, c, step) && LeavesIdle(step)
    ensures Do(s, c, step).core.idle == s.core.idle
  {
    hide PutAll, Overflow, SplitByAge, TrimCount, Shortage, Without;
  }

  // A connection that a client puts back into a list with room is the next one a client
  // or the producer takes from it, whatever else happens meanwhile, and carries the time
  // it was put back.
  lemma PutThenGet(s: State, c: Config, id: nat, now: int, steps: seq<Step>, t: State)
    requires ClientCan(s, PutConn(id, now)) && !Full(s.core, c)
    requires Runs(ClientDo(s, c, PutConn(id, now)), c, steps, t) && forall e :: e in steps ==> LeavesIdle(e)
    ensures t.core.idle == s.core.idle + [Connection(id, now)]
    ensures ClientCan(t, GetIdleConn) ==>
              var u := ClientDo(t, c, GetIdleConn);
              u.borrowed == t.borrowed + multiset{id} && u.core.idle == s.core.idle
    ensures ProducerCan(t, c, ProduceIdle) ==>
              var u := ProducerDo(t, c, ProduceIdle);
              u.producer == Offering(Connection(id, now)) && u.core.idle == s.core.idle
  {
    hide Runs, LeavesIdle;
    var m := ClientDo(s, c, PutConn(id, now));
    assert m.core.idle == s.core.idle + [Connection(id, now)];
    IdleStays(m, c, steps, t);
  }

  // ---- waiting clients ----

  // The step hands a connection to a waiting client.
  predicate Serves(step: Step)
  {
    match step
    case Client(e) => e.PassConn?
    case Produced(e) => e.HandOver?
    case Maintained(e) => e.PassBack?
  }

  predicate NoClient(steps: seq<Step>) { forall e :: e in steps ==> !e.Client? }

  // Some steps of the pool itself lead to a hand-over.
  ghost predicate Servable(s: State, c: Config)
  {
    exists steps, t, last :: Runs(s, c, steps, t) && Serves(last) && Can(t, c, last) && NoClient(steps)
  }

  lemma ServeNow(s: State, c: Config, last: Step)
    requires Serves(last) && Can(s, c, last)
    ensures Servable(s, c)
  {
    hide Can, Serves;
    var none: seq<Step> := [];
    assert Runs(s, c, none, s);
    assert NoClient(none);
  }

  lemma ServeLater(s: State, c: Config, step: Step)
    requires Can(s, c, step) && !step.Client? && Servable(Do(s, c, step), c)
    ensures Servable(s, c)
  {
    hide Can, Serves, Do;
    var steps, t, last :|
      Runs(Do(s, c, step), c, steps, t) && Serves(last) && Can(t, c, last) && NoClient(steps);
    assert ([step] + steps)[1..] == steps;
    assert Runs(s, c, [step] + steps, t);
  }

  // The steps maintenance has to take until it holds no connection.
  function Rounds(s: State): (n: nat)
  {
    match s.maint
    case Starting(left, _) => 2 * left + (if s.hand == None then 2 else 1)
    case _ => |s.closing|
  }

  // The producer has, finds or makes a connection for a waiting client.
  lemma ProducerServes(s: State, c: Config)
    requires s.waiting > 0 && (s.producer == Looking ==> s.core.idle != [] || s.core.total < c.maxAlive)
    ensures Servable(s, c)
  {
    hide Servable;
    var offer, make := Produced(HandOver), Produced(Produce(0));
    match s.producer
    case Offering(_) => ServeNow(s, c, offer);
    case Reserved =>
      ServeNow(Do(s, c, make), c, offer);
      ServeLater(s, c, make);
    case Looking =>
      var first := Produced(if s.core.idle != [] then ProduceIdle else Reserve);
      var s1 := Do(s, c, first);
      if s1.producer == Reserved {
        ServeNow(Do(s1, c, make), c, offer);
        ServeLater(s1, c, make);
      } else {
        ServeNow(s1, c, offer);
      }
      ServeLater(s, c, first);
  }

  // The next step of a maintenance that holds connections.
  function Onward(s: State): (m: MaintStep)
  {
    if s.closing != [] then CloseNext
    else if s.hand.Some? then CountStarted
    else if s.maint.Starting? && s.maint.left > 0 then StartConn(0)
    else FinishStart
  }

  lemma OnwardGoes(s: State, c: Config)
    requires Counts(s, c) && s.waiting > 0 && (s.closing != [] || s.started != [])
    ensures MaintCan(s, Onward(s))
    ensures var t := MaintDo(s, c, Onward(s)); t.waiting == s.waiting && Rounds(t) < Rounds(s)
  {
    hide PutAll, Overflow, ClosedBy, Counted, Burst, Minimal;
  }

  // In an open pool that may have a connection at all no waiting client is out of reach.
  lemma {:induction false} CanServe(s: State, c: Config)
    requires Usable(c) && c.maxAlive > 0 && Inv(s, c) && AbandonedFits(s, c) && s.waiting > 0
    ensures Servable(s, c)
    decreases Rounds(s)
  {
    hide EachInOnePlace, Servable, ClientDo, MaintDo, ProducerDo;
    if s.producer != Looking || s.core.idle != [] || s.core.total < c.maxAlive {
      ProducerServes(s, c);
    } else if s.borrowed != multiset{} {
      var id :| id in s.borrowed;
      ServeNow(s, c, Client(PassConn(id)));
    } else if s.recheck != [] {
      ServeNow(s, c, Maintained(PassBack(0)));
    } else {
      assert s.core.total == |s.started| + |s.closing| + |s.abandoned|;
      OnwardGoes(s, c);
      var step := Maintained(Onward(s));
      StepKeeps(s, c, step);
      AbandonedFitsStep(s, c, step);
      CanServe(Do(s, c, step), c);
      ServeLater(s, c, step);
    }
  }

  lemma NothingToServe(s: State, c: Config, last: Step)
    requires Usable(c) && c.maxAlive == 0 && Counts(s, c) && Serves(last)
    ensures !Can(s, c, last)
  {
  }

  // In every state of every run the pool can serve a waiting client, with steps of its own
  // and at most one connection that another client puts back, if and only if maxAlive is
  // not zero. In particular it never deadlocks, whatever was dropped by early returns.
  lemma ServedIff(c: Config, steps: seq<Step>, t: State)
    requires Usable(c) && Runs(Init(c), c, steps, t) && t.waiting > 0
    ensures Servable(t, c) <==> c.maxAlive > 0
  {
    InitInv(c);
    hide Runs, Can, Serves;
    RunKeeps(Init(c), c, steps, t);
    if c.maxAlive > 0 {
      AbandonedFitsRun(Init(c), c, steps, t);
      hide Inv, AbandonedFits;
      CanServe(t, c);
    } else {
      forall more, u, last | Runs(t, c, more, u) && Serves(last) ensures !Can(u, c, last) {
        RunKeeps(t, c, more, u);
        NothingToServe(u, c, last);
      }
    }
  }
}
