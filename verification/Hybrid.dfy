// The hybrid store: a database with a read-through cache that writes evict from.
module Hybrid {
  import opened Options

  type ByteString = seq<nat>

  datatype Write = PutOp(key: ByteString, value: ByteString) | DeleteOp(key: ByteString)

  // The cache may hold a nil value, written after a failed read.
  datatype State = State(store: map<ByteString, ByteString>, cache: map<ByteString, Option<ByteString>>)

  function Lookup(store: map<ByteString, ByteString>, key: ByteString): (v: Option<ByteString>)
  {
    if key in store then Some(store[key]) else None
  }

  function Write1(store: map<ByteString, ByteString>, w: Write): (r: map<ByteString, ByteString>)
  {
    match w
    case PutOp(k, v) => store[k := v]
    case DeleteOp(k) => store - {k}
  }

  function Apply(store: map<ByteString, ByteString>, ws: seq<Write>): (r: map<ByteString, ByteString>)
    decreases |ws|
  {
    if ws == [] then store else Apply(Write1(store, ws[0]), ws[1..])
  }

  function Evict(s: State, key: ByteString): (r: State)
  {
    s.(cache := s.cache - {key})
  }

  // Every cached value is the stored one.
  predicate Coherent(s: State)
  {
    forall k :: k in s.cache ==> k in s.store && s.cache[k] == Some(s.store[k])
  }

  // ---- single calls ----

  // Put, Delete, SyncPut and SyncDelete; a failing write changes nothing.
  function DoWrite(s: State, w: Write, ok: bool): (r: State)
  {
    if ok then Evict(s.(store := Write1(s.store, w)), w.key) else s
  }

  // Get when reading the store fails or not. Any error but not-found is dropped and
  // the nil value is cached.
  function DoGet(s: State, key: ByteString, fault: bool): (r: (State, Option<ByteString>))
  {
    if key in s.cache then (s, s.cache[key])
    else if fault then (s.(cache := s.cache[key := None]), None)
    else if key in s.store then (s.(cache := s.cache[key := Some(s.store[key])]), Some(s.store[key]))
    else (s, None)
  }

  // Commit and SyncCommit do not touch the cache.
  function DoCommit(s: State, ws: seq<Write>, ok: bool): (r: State)
  {
    if ok then s.(store := Apply(s.store, ws)) else s
  }

  // The last thing a batch does to a key.
  function LastWrite(ws: seq<Write>, key: ByteString): (w: Option<Write>)
  {
    if ws == [] then None
    else if ws[|ws| - 1].key == key then Some(ws[|ws| - 1])
    else LastWrite(ws[..|ws| - 1], key)
  }

  lemma {:induction false} ApplyPush(store: map<ByteString, ByteString>, ws: seq<Write>, w: Write)
    ensures Apply(store, ws + [w]) == Write1(Apply(store, ws), w)
    decreases |ws|
  {
    if ws == [] {
      assert (ws + [w])[1..] == [];
    } else {
      assert (ws + [w])[1..] == ws[1..] + [w];
      ApplyPush(Write1(store, ws[0]), ws[1..], w);
    }
  }

  // A batch does to each key what its last write of that key says, and nothing to the others.
  lemma {:induction false} ApplyLookup(store: map<ByteString, ByteString>, ws: seq<Write>, key: ByteString)
    ensures Lookup(Apply(store, ws), key) ==
            match LastWrite(ws, key)
            case None => Lookup(store, key)
            case Some(PutOp(_, v)) => Some(v)
            case Some(DeleteOp(_)) => None
    decreases |ws|
  {
    if ws != [] {
      var front, w := ws[..|ws| - 1], ws[|ws| - 1];
      assert ws == front + [w];
      ApplyPush(store, front, w);
      ApplyLookup(store, front, key);
    }
  }

  // A commit keeps a coherent cache coherent if and only if each key of the batch is
  // absent from the cache or cached with the very value the batch writes.
  lemma CommitCoherentIff(s: State, ws: seq<Write>)
    requires Coherent(s)
    ensures Coherent(DoCommit(s, ws, true)) <==>
            forall k :: k in s.cache && LastWrite(ws, k).Some? ==>
              LastWrite(ws, k).value.PutOp? && s.cache[k] == Some(LastWrite(ws, k).value.value)
  {
    var t := DoCommit(s, ws, true);
    forall k | k in s.cache
      ensures (k in t.store && t.cache[k] == Some(t.store[k])) <==>
              (LastWrite(ws, k).Some? ==>
                 LastWrite(ws, k).value.PutOp? && s.cache[k] == Some(LastWrite(ws, k).value.value))
    {
      ApplyLookup(s.store, ws, k);
      assert Lookup(t.store, k) == if k in t.store then Some(t.store[k]) else None;
      assert Lookup(s.store, k) == s.cache[k];
    }
  }

  // A read keeps it coherent exactly when it hits the cache or the store can be read.
  lemma GetCoherentIff(s: State, key: ByteString, fault: bool)
    requires Coherent(s)
    ensures Coherent(DoGet(s, key, fault).0) <==> key in s.cache || !fault
    ensures DoGet(s, key, fault).1 == Lookup(s.store, key) <==> key in s.cache || !fault || key !in s.store
  {
    var t := DoGet(s, key, fault).0;
    assert key !in s.cache && fault ==> key in t.cache && t.cache[key] == None;
  }

  // ---- runs ----

  // done: committed and not yet reset.
  datatype Batch = Batch(writes: seq<Write>, done: bool)

  datatype Sys = Sys(s: State, batches: map<nat, Batch>)

  // Drop is an eviction by the cache itself.
  datatype Call =
    | Direct(w: Write, ok: bool) | Get(key: ByteString, fault: bool) | Drop(key: ByteString)
    | Stage(b: nat, w: Write) | Commit(b: nat, ok: bool) | Rollback(b: nat)

  function BatchOf(batches: map<nat, Batch>, b: nat): (r: Batch)
  {
    if b in batches then batches[b] else Batch([], false)
  }

  function StageIn(batches: map<nat, Batch>, b: nat, w: Write): (r: map<nat, Batch>)
  {
    var old_ := BatchOf(batches, b);
    batches[b := old_.(writes := old_.writes + [w])]
  }

  // A commit leaves the writes in the batch; only a rollback or close resets it.
  function Committed(batches: map<nat, Batch>, b: nat, ok: bool): (r: map<nat, Batch>)
  {
    if ok then batches[b := BatchOf(batches, b).(done := true)] else batches
  }

  function Do(y: Sys, c: Call): (r: (Sys, Option<ByteString>))
  {
    match c
    case Direct(w, ok) => (y.(s := DoWrite(y.s, w, ok)), None)
    case Get(key, fault) =>
      var (t, v) := DoGet(y.s, key, fault);
      (y.(s := t), v)
    case Drop(key) => (y.(s := Evict(y.s, key)), None)
    case Stage(b, w) => (Sys(Evict(y.s, w.key), StageIn(y.batches, b, w)), None)
    case Commit(b, ok) =>
      (Sys(DoCommit(y.s, BatchOf(y.batches, b).writes, ok), Committed(y.batches, b, ok)), None)
    case Rollback(b) => (y.(batches := y.batches[b := Batch([], false)]), None)
  }

  // The same calls on a store without a cache.
  datatype Plain = Plain(store: map<ByteString, ByteString>, batches: map<nat, Batch>)

  function DoPlain(p: Plain, c: Call): (r: (Plain, Option<ByteString>))
  {
    match c
    case Direct(w, ok) => (if ok then p.(store := Write1(p.store, w)) else p, None)
    case Get(key, _) => (p, Lookup(p.store, key))
    case Drop(_) => (p, None)
    case Stage(b, w) => (p.(batches := StageIn(p.batches, b, w)), None)
    case Commit(b, ok) =>
      (Plain(if ok then Apply(p.store, BatchOf(p.batches, b).writes) else p.store, Committed(p.batches, b, ok)), None)
    case Rollback(b) => (p.(batches := p.batches[b := Batch([], false)]), None)
  }

  // What callers have to keep: a key is not read while it is staged in a batch still to
  // be committed, store reads do not fail, and a committed batch is reset before reuse.
  predicate Allowed(y: Sys, c: Call)
  {
    match c
    case Get(key, fault) => !fault && forall b :: b in y.batches && !y.batches[b].done ==>
                                        LastWrite(y.batches[b].writes, key) == None
    case Stage(b, _) => !BatchOf(y.batches, b).done
    case Commit(b, _) => !BatchOf(y.batches, b).done
    case _ => true
  }

  predicate AllAllowed(y: Sys, cs: seq<Call>)
    decreases |cs|
  {
    cs == [] || (Allowed(y, cs[0]) && AllAllowed(Do(y, cs[0]).0, cs[1..]))
  }

  function Results(y: Sys, cs: seq<Call>): (r: seq<Option<ByteString>>)
    decreases |cs|
  {
    if cs == [] then [] else [Do(y, cs[0]).1] + Results(Do(y, cs[0]).0, cs[1..])
  }

  function PlainResults(p: Plain, cs: seq<Call>): (r: seq<Option<ByteString>>)
    decreases |cs|
  {
    if cs == [] then [] else [DoPlain(p, cs[0]).1] + PlainResults(DoPlain(p, cs[0]).0, cs[1..])
  }

  function Final(y: Sys, cs: seq<Call>): (r: Sys)
    decreases |cs|
  {
    if cs == [] then y else Final(Do(y, cs[0]).0, cs[1..])
  }

  // No key of a batch still to be committed is cached.
  predicate StagedNotCached(y: Sys)
  {
    forall b, k :: b in y.batches && !y.batches[b].done && k in y.s.cache ==>
      LastWrite(y.batches[b].writes, k) == None
  }

  predicate Inv(y: Sys) { Coherent(y.s) && StagedNotCached(y) }

  lemma StageKeeps(y: Sys, b: nat, w: Write)
    requires Inv(y) && Allowed(y, Stage(b, w))
    ensures Inv(Do(y, Stage(b, w)).0)
  {
    var old_ := BatchOf(y.batches, b);
    forall k | k in y.s.cache && k != w.key ensures LastWrite(old_.writes + [w], k) == None {
      assert (old_.writes + [w])[..|old_.writes|] == old_.writes;
      assert LastWrite(old_.writes, k) == None;
    }
  }

  lemma CommitKeeps(y: Sys, b: nat)
    requires Inv(y) && Allowed(y, Commit(b, true))
    ensures Inv(Do(y, Commit(b, true)).0)
  {
    var ws := BatchOf(y.batches, b).writes;
    forall k | k in y.s.cache ensures LastWrite(ws, k) == None {}
    CommitCoherentIff(y.s, ws);
  }

  lemma StepRefines(y: Sys, c: Call)
    requires Inv(y) && Allowed(y, c)
    ensures Inv(Do(y, c).0)
    ensures DoPlain(Plain(y.s.store, y.batches), c)
         == (Plain(Do(y, c).0.s.store, Do(y, c).0.batches), Do(y, c).1)
  {
    match c
    case Get(key, fault) => GetCoherentIff(y.s, key, fault);
    case Stage(b, w) => StageKeeps(y, b, w);
    case Commit(b, ok) => if ok { CommitKeeps(y, b); }
    case _ =>
  }

  // Over every such run the cache stays coherent and every answer is the one of a plain
  // map lookup, whatever the cache evicts.
  lemma {:induction false} RunRefines(y: Sys, cs: seq<Call>)
    requires Inv(y) && AllAllowed(y, cs)
    ensures Inv(Final(y, cs))
    ensures Results(y, cs) == PlainResults(Plain(y.s.store, y.batches), cs)
    decreases |cs|
  {
    if cs != [] {
      hide Do, DoPlain, Allowed, Inv;
      StepRefines(y, cs[0]);
      RunRefines(Do(y, cs[0]).0, cs[1..]);
    }
  }

  // ---- batches ----

  function Stages(b: nat, ws: seq<Write>): (cs: seq<Call>)
    ensures |cs| == |ws|
  {
    seq(|ws|, i requires 0 <= i < |ws| => Stage(b, ws[i]))
  }

  function Directs(ws: seq<Write>): (cs: seq<Call>)
    ensures |cs| == |ws|
  {
    seq(|ws|, i requires 0 <= i < |ws| => Direct(ws[i], true))
  }

  lemma {:induction false} FinalAppend(y: Sys, a: seq<Call>, b: seq<Call>)
    ensures Final(y, a + b) == Final(Final(y, a), b)
    decreases |a|
  {
    hide Do;
    if a == [] {
      assert a + b == b;
    } else {
      assert (a + b)[1..] == a[1..] + b;
      FinalAppend(Do(y, a[0]).0, a[1..], b);
    }
  }

  lemma {:induction false} DirectWrites(y: Sys, ws: seq<Write>)
    ensures Final(y, Directs(ws)).s.store == Apply(y.s.store, ws) && Final(y, Directs(ws)).batches == y.batches
    decreases |ws|
  {
    if ws != [] {
      assert Directs(ws)[1..] == Directs(ws[1..]);
      DirectWrites(Do(y, Direct(ws[0], true)).0, ws[1..]);
    }
  }

  lemma {:induction false} StagedWrites(y: Sys, b: nat, ws: seq<Write>)
    ensures var y' := Final(y, Stages(b, ws));
            y'.s.store == y.s.store && BatchOf(y'.batches, b).writes == BatchOf(y.batches, b).writes + ws
    decreases |ws|
  {
    if ws != [] {
      assert Stages(b, ws)[1..] == Stages(b, ws[1..]);
      var y1, old_ := Do(y, Stage(b, ws[0])).0, BatchOf(y.batches, b).writes;
      StagedWrites(y1, b, ws[1..]);
      assert old_ + [ws[0]] + ws[1..] == old_ + ws;
    } else {
      assert BatchOf(y.batches, b).writes + ws == BatchOf(y.batches, b).writes;
    }
  }

  // Staging writes in an empty batch and committing it does to the store what the same
  // writes do one by one; nothing reaches the store before the commit, and a rollback
  // discards them all.
  lemma BatchIsItsWrites(y: Sys, b: nat, ws: seq<Write>)
    requires BatchOf(y.batches, b).writes == []
    ensures Final(y, Stages(b, ws)).s.store == y.s.store
    ensures Final(y, Stages(b, ws) + [Commit(b, true)]).s.store == Final(y, Directs(ws)).s.store
    ensures Final(y, Stages(b, ws) + [Rollback(b), Commit(b, true)]).s.store == y.s.store
  {
    StagedWrites(y, b, ws);
    DirectWrites(y, ws);
    var y', staged := Final(y, Stages(b, ws)), Stages(b, ws);
    FinalAppend(y, staged, [Commit(b, true)]);
    FinalAppend(y, staged, [Rollback(b), Commit(b, true)]);
    assert [] + ws == ws;
    hide Final, Stages, Directs, Apply;
    CommitEffect(y', b);
  }

  lemma CommitEffect(y: Sys, b: nat)
    ensures Final(y, [Commit(b, true)]).s.store == Apply(y.s.store, BatchOf(y.batches, b).writes)
    ensures Final(y, [Rollback(b), Commit(b, true)]).s.store == y.s.store
  {
    var r, c := Rollback(b), Commit(b, true);
    assert Apply(y.s.store, []) == y.s.store;
    hide Apply, Write1, DoGet, DoWrite, StageIn, Committed, Evict;
    assert [r, c][1..] == [c] && [c][1..] == [];
    assert Final(y, [c]) == Do(y, c).0;
    assert Final(y, [r, c]) == Final(Do(y, r).0, [c]) == Do(Do(y, r).0, c).0;
  }

  lemma {:induction false} AllowedAppend(y: Sys, a: seq<Call>, b: seq<Call>)
    ensures AllAllowed(y, a + b) <==> AllAllowed(y, a) && AllAllowed(Final(y, a), b)
    decreases |a|
  {
    hide Do, Allowed;
    if a == [] {
      assert a + b == b;
    } else {
      assert (a + b)[1..] == a[1..] + b;
      AllowedAppend(Do(y, a[0]).0, a[1..], b);
    }
  }

  // Batch b is the only one and may be staged in.
  predicate OnlyOpen(y: Sys, b: nat) { y.batches.Keys <= {b} && !BatchOf(y.batches, b).done }

  lemma {:induction false} StagesAllowed(y: Sys, b: nat, ws: seq<Write>)
    requires OnlyOpen(y, b)
    ensures AllAllowed(y, Stages(b, ws)) && OnlyOpen(Final(y, Stages(b, ws)), b)
    decreases |ws|
  {
    if ws != [] {
      assert Stages(b, ws)[1..] == Stages(b, ws[1..]);
      StagesAllowed(Do(y, Stage(b, ws[0])).0, b, ws[1..]);
    }
  }

  // Filling a batch, committing it, then reading any key, resetting it and using it
  // again is such a run.
  lemma BatchIsAllowed(s: State, b: nat, ws: seq<Write>, key: ByteString, w: Write)
    ensures AllAllowed(Sys(s, map[]), Stages(b, ws) + [Commit(b, true), Get(key, false), Rollback(b), Stage(b, w)])
  {
    var y, calls := Sys(s, map[]), [Commit(b, true), Get(key, false), Rollback(b), Stage(b, w)];
    StagesAllowed(y, b, ws);
    AllowedAppend(y, Stages(b, ws), calls);
    hide Stages, Final, Apply;
    CommittedAllowed(Final(y, Stages(b, ws)), b, key, w);
  }

  lemma CommittedAllowed(y: Sys, b: nat, key: ByteString, w: Write)
    requires OnlyOpen(y, b)
    ensures AllAllowed(y, [Commit(b, true), Get(key, false), Rollback(b), Stage(b, w)])
  {
    hide Apply, Write1, LastWrite, Evict;
    var c0, c1, c2, c3 := Commit(b, true), Get(key, false), Rollback(b), Stage(b, w);
    var y1 := Do(y, c0).0;
    var y2 := Do(y1, c1).0;
    var y3 := Do(y2, c2).0;
    assert y1.batches == y2.batches && Allowed(y, c0) && Allowed(y1, c1) && Allowed(y2, c2) && Allowed(y3, c3);
    hide Do, Allowed;
    assert [c0, c1, c2, c3][1..] == [c1, c2, c3] && [c1, c2, c3][1..] == [c2, c3] && [c2, c3][1..] == [c3];
    assert [c3][1..] == [];
    assert AllAllowed(y3, [c3]);
    assert AllAllowed(y2, [c2, c3]);
    assert AllAllowed(y1, [c1, c2, c3]);
  }

  // The call does not write, stage or evict the key.
  predicate Leaves(c: Call, key: ByteString)
  {
    match c
    case Direct(w, ok) => !ok || w.key != key
    case Drop(k) => k != key
    case Stage(_, w) => w.key != key
    case _ => true
  }

  // The key is stored as v1, which is all a batch will write to it, and cached as v0.
  predicate Stale(y: Sys, key: ByteString, v0: ByteString, v1: ByteString)
  {
    && Lookup(y.s.store, key) == Some(v1)
    && key in y.s.cache && y.s.cache[key] == Some(v0)
    && forall b :: b in y.batches ==>
         var w := LastWrite(y.batches[b].writes, key);
         w == None || w == Some(PutOp(key, v1))
  }

  lemma StaysStale(y: Sys, c: Call, key: ByteString, v0: ByteString, v1: ByteString)
    requires Stale(y, key, v0, v1) && Leaves(c, key)
    ensures Stale(Do(y, c).0, key, v0, v1)
  {
    match c
    case Stage(b, w) =>
      var ws := BatchOf(y.batches, b).writes;
      assert (ws + [w])[..|ws|] == ws;
    case Commit(b, ok) => ApplyLookup(y.s.store, BatchOf(y.batches, b).writes, key);
    case _ =>
  }

  lemma {:induction false} StaleForGood(y: Sys, cs: seq<Call>, key: ByteString, v0: ByteString, v1: ByteString)
    requires Stale(y, key, v0, v1) && forall c :: c in cs ==> Leaves(c, key)
    ensures Stale(Final(y, cs), key, v0, v1)
    decreases |cs|
  {
    if cs != [] {
      hide Do, Stale, Leaves;
      StaysStale(y, cs[0], key, v0, v1);
      StaleForGood(Do(y, cs[0]).0, cs[1..], key, v0, v1);
    }
  }

  // After a read between staging and commit the key is stored with its new value but
  // read with its old one, through any further calls that do not write, stage or evict it.
  lemma StaleRead(key: ByteString, v0: ByteString, v1: ByteString, cs: seq<Call>, fault: bool)
    requires forall c :: c in cs ==> Leaves(c, key)
    ensures var y := Sys(State(map[key := v0], map[]), map[]);
            var y' := Final(Final(y, [Stage(0, PutOp(key, v1)), Get(key, false), Commit(0, true)]), cs);
            && Lookup(y'.s.store, key) == Some(v1)
            && Do(y', Get(key, fault)).1 == Some(v0)
  {
    var w := PutOp(key, v1);
    var c0, c1, c2 := Stage(0, w), Get(key, false), Commit(0, true);
    var y := Sys(State(map[key := v0], map[]), map[]);
    var y1 := Do(y, c0).0;
    assert y1.batches[0].writes == [w];
    var y2 := Do(y1, c1).0;
    assert y2.s.cache[key] == Some(v0);
    var y3 := Do(y2, c2).0;
    assert [c0, c1, c2][1..] == [c1, c2] && [c1, c2][1..] == [c2] && [c2][1..] == [];
    assert Final(y, [c0, c1, c2]) == Final(y1, [c1, c2]) == Final(y2, [c2]) == Final(y3, []) == y3;
    assert LastWrite([w], key) == Some(w);
    ApplyLookup(y2.s.store, [w], key);
    assert Stale(y3, key, v0, v1);
    StaleForGood(y3, cs, key, v0, v1);
  }

  // ---- the objects ----

  class DB {
    var store: map<ByteString, ByteString>
    var cache: map<ByteString, Option<ByteString>>

    constructor ()
      ensures View() == State(map[], map[])
    {
      store, cache := map[], map[];
    }

    function View(): (s: State)
      reads this
    {
      State(store, cache)
    }

    method Put(key: ByteString, value: ByteString, ok: bool)
      modifies this
      ensures View() == DoWrite(old(View()), PutOp(key, value), ok)
      ensures old(Coherent(View())) ==> Coherent(View())
    {
      if ok {
        store := store[key := value];
        cache := cache - {key};
      }
    }

    method Delete(key: ByteString, ok: bool)
      modifies this
      ensures View() == DoWrite(old(View()), DeleteOp(key), ok)
      ensures old(Coherent(View())) ==> Coherent(View())
    {
      if ok {
        store := store - {key};
        cache := cache - {key};
      }
    }

    method Get(key: ByteString, fault: bool) returns (v: Option<ByteString>)
      modifies this
      ensures (View(), v) == DoGet(old(View()), key, fault)
      ensures store == old(store)
      ensures old(Coherent(View())) && !fault ==> Coherent(View()) && v == Lookup(store, key)
    {
      if key in cache {
        return cache[key];
      }
      if !fault && key !in store {
        return None;
      }
      v := if fault then None else Some(store[key]);
      cache := cache[key := v];
    }
  }

  class WriteBatch {
    const db: DB
    var wbatch: seq<Write>

    constructor (db: DB)
      ensures this.db == db && wbatch == []
    {
      this.db := db;
      wbatch := [];
    }

    method Put(key: ByteString, value: ByteString)
      modifies this, db
      ensures wbatch == old(wbatch) + [PutOp(key, value)] && db.View() == Evict(old(db.View()), key)
    {
      wbatch := wbatch + [PutOp(key, value)];
      db.cache := db.cache - {key};
    }

    method Delete(key: ByteString)
      modifies this, db
      ensures wbatch == old(wbatch) + [DeleteOp(key)] && db.View() == Evict(old(db.View()), key)
    {
      wbatch := wbatch + [DeleteOp(key)];
      db.cache := db.cache - {key};
    }

    // The database writes the records in order.
    method Commit(ok: bool)
      modifies db
      ensures db.View() == DoCommit(old(db.View()), wbatch, ok)
    {
      if ok {
        for i := 0 to |wbatch|
          invariant db.cache == old(db.cache)
          invariant Apply(old(db.store), wbatch) == Apply(db.store, wbatch[i..])
        {
          db.store := Write1(db.store, wbatch[i]);
          assert wbatch[i..][1..] == wbatch[i + 1..];
        }
      }
    }

    method Rollback()
      modifies this
      ensures wbatch == []
    {
      wbatch := [];
    }
  }
}
