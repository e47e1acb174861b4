// The lock-protected part of the MySQL connection pool: the idle list and the
// counters, and the lock sections that change them.
module Pool {
  import opened Options

  // conn identifies the network connection; lastUseAt is in seconds.
  datatype Connection = Connection(conn: nat, lastUseAt: int)

  const MAX_NEW_CONNECTION_AT_ONCE := 5

  // skipFailures tells the two copies of the pool apart: when a connection attempt of
  // startNewConnections fails, the SQLite copy goes on with the next attempt and the
  // SQLProxy copy returns at once.
  datatype Config = Config(minAlive: int, maxAlive: int, maxIdle: int, skipFailures: bool)

  function Max(a: int, b: int): (m: int) { if a > b then a else b }

  function Min(a: int, b: int): (m: int) { if a < b then a else b }

  // The adjustments NewPool makes to its arguments. A negative maxIdle makes it panic.
  function Adjust(c: Config): (r: Config)
    ensures r.minAlive <= r.maxIdle <= r.maxAlive == c.maxAlive && r.skipFailures == c.skipFailures
    ensures r.minAlive == c.minAlive || (r.minAlive == c.maxAlive < c.minAlive)
    ensures || r.maxIdle == c.maxIdle || (r.maxIdle == c.maxAlive < c.maxIdle)
            || (c.maxIdle < r.maxIdle == r.minAlive)
    ensures c.minAlive <= c.maxIdle <= c.maxAlive ==> r == c
  {
    var minAlive := Min(c.minAlive, c.maxAlive);
    var capped := Min(c.maxIdle, c.maxAlive);
    c.(minAlive := minAlive, maxIdle := if capped <= minAlive then minAlive else capped)
  }

  predicate Usable(c: Config) { 0 <= c.maxIdle <= c.maxAlive && c.minAlive <= c.maxIdle }

  // The configurations of running pools, and the arguments of NewPool that lead to one.
  lemma UsableIff(c: Config)
    ensures Usable(c) <==> Adjust(c) == c && c.maxIdle >= 0
    ensures Usable(Adjust(c)) <==> c.maxAlive >= 0 && (c.minAlive >= 0 || c.maxIdle >= 0)
  {
  }

  // The number of connections NewPool opens before it returns.
  function Minimal(c: Config): (m: nat) { Max(c.minAlive, 0) }

  // What pool.synchro guards.
  datatype Core = Core(idle: seq<Connection>, total: int, created: nat)

  // getIdleConnectionUnsafe takes the most recently added idle connection.
  function GetIdle(k: Core): (r: (Option<Connection>, Core))
  {
    if k.idle == [] then (None, k)
    else (Some(k.idle[|k.idle| - 1]), k.(idle := k.idle[..|k.idle| - 1]))
  }

  // putConnectionUnsafe closes the connection when the idle list is full.
  predicate Full(k: Core, c: Config) { |k.idle| >= c.maxIdle }

  function PutIdle(k: Core, c: Config, x: Connection): (r: Core)
  {
    if Full(k, c) then k.(total := k.total - 1) else k.(idle := k.idle + [x])
  }

  // The idle list is a stack: what was put last comes out first, with its time of use.
  lemma LastInFirstOut(k: Core, c: Config, x: Connection)
    ensures !Full(k, c) ==> GetIdle(PutIdle(k, c, x)) == (Some(x), k)
    ensures k.idle == [] ==> GetIdle(k) == (None, k)
  {
  }

  function PutAll(k: Core, c: Config, xs: seq<Connection>): (r: Core)
    decreases |xs|
  {
    if xs == [] then k else PutAll(PutIdle(k, c, xs[0]), c, xs[1..])
  }

  // The ones of xs that PutAll closes: those that find the list full.
  function Overflow(k: Core, c: Config, xs: seq<Connection>): (r: seq<Connection>)
    decreases |xs|
  {
    if xs == [] then []
    else (if Full(k, c) then [xs[0]] else []) + Overflow(PutIdle(k, c, xs[0]), c, xs[1..])
  }

  // spawnConnectionsIfNeeded: how many connections to start.
  function Shortage(k: Core, c: Config): (n: nat)
    ensures n <= MAX_NEW_CONNECTION_AT_ONCE && (n > 0 ==> k.total + n <= c.minAlive)
    ensures n == 0 <==> c.minAlive <= k.total
    ensures n == MAX_NEW_CONNECTION_AT_ONCE || n == 0 || k.total + n == c.minAlive
  {
    Max(Min(c.minAlive - k.total, MAX_NEW_CONNECTION_AT_ONCE), 0)
  }

  // closeIdleConnectionsIfCan: how many idle connections to close, taken from the end.
  function TrimCount(k: Core, c: Config): (n: nat)
    ensures n <= |k.idle|
    ensures n > 0 ==> n <= Max(|k.idle| / 10, 1) && k.total - n > c.minAlive
    ensures n == |k.idle| || n == Max(|k.idle| / 10, 1) || k.total - (n + 1) <= c.minAlive
  {
    var allowed := Max(|k.idle| / 10, 1);
    var can := Min(k.total - c.minAlive - 1, allowed);
    if can <= 0 then 0 else |k.idle| - Max(|k.idle| - can, 0)
  }

  // old is what was last used at or before cutoff, kept is the rest; both in any order.
  ghost predicate SplitByAge(idle: seq<Connection>, cutoff: int, kept: seq<Connection>, old_: seq<Connection>)
  {
    && multiset(idle) == multiset(kept) + multiset(old_)
    && (forall x :: x in kept ==> x.lastUseAt > cutoff)
    && (forall x :: x in old_ ==> x.lastUseAt <= cutoff)
  }

  // How often the connection id occurs in a list.
  function Occurs(s: seq<Connection>, id: nat): (n: nat)
  {
    if s == [] then 0 else Occurs(s[..|s| - 1], id) + if s[|s| - 1].conn == id then 1 else 0
  }

  lemma OccursPush(s: seq<Connection>, x: Connection, id: nat)
    ensures Occurs(s + [x], id) == Occurs(s, id) + if x.conn == id then 1 else 0
  {
    assert (s + [x])[..|s|] == s;
  }

  lemma {:induction false} OccursConcat(a: seq<Connection>, b: seq<Connection>, id: nat)
    ensures Occurs(a + b, id) == Occurs(a, id) + Occurs(b, id)
    decreases |b|
  {
    if b == [] {
      assert a + b == a;
    } else {
      var front, last := b[..|b| - 1], b[|b| - 1];
      assert a + b == (a + front) + [last];
      OccursPush(a + front, last, id);
      OccursConcat(a, front, id);
    }
  }

  function Without(s: seq<Connection>, i: nat): (r: seq<Connection>)
    requires i < |s|
    ensures |r| == |s| - 1
  {
    s[..i] + s[i + 1..]
  }

  lemma WithoutElements(s: seq<Connection>, i: nat)
    requires i < |s|
    ensures multiset(Without(s, i)) == multiset(s) - multiset{s[i]}
  {
    assert s == s[..i] + [s[i]] + s[i + 1..];
  }

  lemma OccursWithout(s: seq<Connection>, i: nat, id: nat)
    requires i < |s|
    ensures Occurs(s, id) == Occurs(Without(s, i), id) + if s[i].conn == id then 1 else 0
  {
    var a, b := s[..i], s[i + 1..];
    assert s == (a + [s[i]]) + b;
    OccursConcat(a + [s[i]], b, id);
    OccursPush(a, s[i], id);
    OccursConcat(a, b, id);
  }

  lemma {:induction false} OccursPermuted(s: seq<Connection>, t: seq<Connection>, id: nat)
    requires multiset(s) == multiset(t)
    ensures Occurs(s, id) == Occurs(t, id)
    decreases |s|
  {
    assert |multiset(s)| == |s| && |multiset(t)| == |t|;
    if s != [] {
      var front, last := s[..|s| - 1], s[|s| - 1];
      assert s == front + [last];
      assert last in multiset(t);
      var i :| 0 <= i < |t| && t[i] == last;
      assert multiset(Without(t, i)) == multiset(front) by {
        WithoutElements(t, i);
        assert multiset(front) == multiset(s) - multiset{last};
      }
      OccursPermuted(front, Without(t, i), id);
      OccursWithout(t, i, id);
    }
  }

  // The pool object, with one method per lock section.
  class Pool {
    const cfg: Config
    var idleConnections: seq<Connection>
    var totalCount: int
    var createdCount: nat

    constructor (c: Config)
      requires Adjust(c).maxIdle >= 0
      ensures cfg == Adjust(c) && Usable(cfg) && View() == Core([], 0, 0)
    {
      cfg := Adjust(c);
      idleConnections, totalCount, createdCount := [], 0, 0;
    }

    function View(): (k: Core)
      reads this
    {
      Core(idleConnections, totalCount, createdCount)
    }

    method GetIdleConnectionUnsafe() returns (x: Option<Connection>)
      modifies this
      ensures (x, View()) == GetIdle(old(View()))
    {
      var cnt := |idleConnections|;
      if cnt == 0 { return None; }
      x := Some(idleConnections[cnt - 1]);
      idleConnections := idleConnections[..cnt - 1];
    }

    // closed tells whether the connection was closed instead of kept.
    method PutConnectionUnsafe(x: Connection) returns (closed: bool)
      modifies this
      ensures View() == PutIdle(old(View()), cfg, x) && closed == Full(old(View()), cfg)
    {
      closed := |idleConnections| >= cfg.maxIdle;
      if closed {
        totalCount := totalCount - 1;
      } else {
        idleConnections := idleConnections + [x];
      }
    }

    // The first lock section of newConnectionProducer: an idle connection, or a
    // reservation if the limit allows one.
    method TakeOrReserve() returns (x: Option<Connection>, reserved: bool)
      modifies this
      ensures old(idleConnections) != [] ==> !reserved && (x, View()) == GetIdle(old(View()))
      ensures old(idleConnections) == [] ==>
              && x == None && reserved == (old(totalCount) < cfg.maxAlive)
              && View() == old(View()).(total := old(totalCount) + if reserved then 1 else 0)
    {
      reserved := false;
      x := GetIdleConnectionUnsafe();
      if x == None && totalCount < cfg.maxAlive {
        reserved := true;
        totalCount := totalCount + 1;
      }
    }

    // The lock section at the end of startNewConnections.
    method PutStarted(xs: seq<Connection>) returns (closed: seq<Connection>)
      modifies this
      ensures View() == PutAll(old(View()), cfg, xs) && closed == Overflow(old(View()), cfg, xs)
    {
      closed := [];
      for i := 0 to |xs|
        invariant PutAll(old(View()), cfg, xs) == PutAll(View(), cfg, xs[i..])
        invariant Overflow(old(View()), cfg, xs) == closed + Overflow(View(), cfg, xs[i..])
      {
        assert xs[i..][1..] == xs[i + 1..];
        var full := PutConnectionUnsafe(xs[i]);
        if full { closed := closed + [xs[i]]; }
      }
    }

    // getOldIdleConnections
    method GetOldIdleConnections(cutoff: int) returns (dst: seq<Connection>)
      modifies this`idleConnections
      ensures SplitByAge(old(idleConnections), cutoff, idleConnections, dst)
    {
      idleConnections, dst := SplitOld(idleConnections, cutoff);
    }

    // The lock section of closeIdleConnectionsIfCan.
    method CloseIdleConnectionsIfCan() returns (toClose: seq<Connection>)
      modifies this`idleConnections
      ensures var n := TrimCount(old(View()), cfg);
              old(idleConnections) == idleConnections + toClose && |toClose| == n
    {
      var canCloseCnt := totalCount - cfg.minAlive - 1;
      var idleCnt := |idleConnections|;
      var idleCanCloseCnt := idleCnt / 10;
      if idleCanCloseCnt == 0 { idleCanCloseCnt := 1; }
      if canCloseCnt > idleCanCloseCnt { canCloseCnt := idleCanCloseCnt; }
      if canCloseCnt <= 0 { return []; }
      var closeFromIdx := Max(idleCnt - canCloseCnt, 0);
      toClose := idleConnections[closeFromIdx..];
      idleConnections := idleConnections[..closeFromIdx];
    }
  }

  // The loop of getOldIdleConnections: from the end towards the front, every old
  // connection is swapped with the last one and cut off.
  method SplitOld(idle: seq<Connection>, cutoff: int) returns (kept: seq<Connection>, dst: seq<Connection>)
    ensures SplitByAge(idle, cutoff, kept, dst)
  {
    kept, dst := idle, [];
    var i := |idle|;
    while i > 0
      invariant 0 <= i <= |kept|
      invariant multiset(kept) + multiset(dst) == multiset(idle)
      invariant forall k :: i <= k < |kept| ==> kept[k].lastUseAt > cutoff
      invariant forall x :: x in dst ==> x.lastUseAt <= cutoff
    {
      i := i - 1;
      if kept[i].lastUseAt <= cutoff {
        MoveOne(kept, i, dst);
        AboveStay(kept, i, cutoff);
        var last := |kept| - 1;
        dst := dst + [kept[i]];
        kept := kept[i := kept[last]][..last];
      }
    }
  }

  lemma AboveStay(s: seq<Connection>, i: nat, cutoff: int)
    requires i < |s| && forall k :: i + 1 <= k < |s| ==> s[k].lastUseAt > cutoff
    ensures var r := s[i := s[|s| - 1]][..|s| - 1];
            forall k :: i <= k < |r| ==> r[k].lastUseAt > cutoff
  {
  }

  lemma Exchanged(a: seq<Connection>, x: Connection, b: seq<Connection>, y: Connection)
    ensures multiset(a + [x] + b + [y]) == multiset(a + [y] + b) + multiset{x}
  {
    assert multiset(a + [x] + b + [y]) == multiset(a) + multiset{x} + multiset(b) + multiset{y};
    assert multiset(a + [y] + b) == multiset(a) + multiset{y} + multiset(b);
  }

  lemma AroundTwo(s: seq<Connection>, i: nat)
    requires i < |s| - 1
    ensures var last := |s| - 1;
            s == s[..i] + [s[i]] + s[i + 1..last] + [s[last]]
  {
  }

  lemma LastMoved(s: seq<Connection>, i: nat)
    requires i < |s| - 1
    ensures var last := |s| - 1;
            s[i := s[last]][..last] == s[..i] + [s[last]] + s[i + 1..last]
  {
  }

  lemma CutOff(s: seq<Connection>, i: nat)
    requires i < |s|
    ensures multiset(s) == multiset(s[i := s[|s| - 1]][..|s| - 1]) + multiset{s[i]}
  {
    var last := |s| - 1;
    if i == last {
      assert s[i := s[last]] == s;
      assert s == s[..last] + [s[i]];
    } else {
      AroundTwo(s, i);
      LastMoved(s, i);
      Exchanged(s[..i], s[i], s[i + 1..last], s[last]);
    }
  }

  lemma MoveOne(s: seq<Connection>, i: nat, dst: seq<Connection>)
    requires i < |s|
    ensures multiset(s[i := s[|s| - 1]][..|s| - 1]) + multiset(dst + [s[i]]) == multiset(s) + multiset(dst)
  {
    CutOff(s, i);
    var r := multiset(s[i := s[|s| - 1]][..|s| - 1]);
    assert r + (multiset(dst) + multiset{s[i]}) == (r + multiset{s[i]}) + multiset(dst);
  }

  // Putting a list and taking it back gives it in reverse.
  lemma {:induction false} PutAllThenTake(k: Core, c: Config, xs: seq<Connection>)
    requires xs != [] && |k.idle| + |xs| <= c.maxIdle
    ensures var last := |xs| - 1;
            GetIdle(PutAll(k, c, xs)) == (Some(xs[last]), PutAll(k, c, xs[..last]))
    decreases |xs|
  {
    if |xs| == 1 {
      LastInFirstOut(k, c, xs[0]);
      assert xs[1..] == [] && xs[..0] == [];
    } else {
      var k', tail := PutIdle(k, c, xs[0]), xs[1..];
      PutAllThenTake(k', c, tail);
      assert xs[..|xs| - 1][1..] == tail[..|tail| - 1];
    }
  }

  // Trimming takes the connections used last.
  lemma TrimTakesTheEnd(k: Core, c: Config, x: Connection)
    requires !Full(k, c) && TrimCount(PutIdle(k, c, x), c) > 0
    ensures var r := PutIdle(k, c, x).idle; x in r[|r| - TrimCount(PutIdle(k, c, x), c)..]
  {
    var r := PutIdle(k, c, x).idle;
    assert r[|r| - 1] == x;
    assert r[|r| - TrimCount(PutIdle(k, c, x), c)..][TrimCount(PutIdle(k, c, x), c) - 1] == x;
  }
}
