/** Connecting a client to a backend server: the primary server first, then the
    other servers of its level until one accepts. The level's cursor is shared with
    the processes of the other clients, who move it between the attempts. */
module Failover {
  import opened Wrappers
  import opened Balancer
  import opened Backends

  /** How connecting ends: with a connection after so many attempts, with no server to
      try, given up after so many attempts, or not within the attempts allowed. */
  datatype Outcome =
    | Connected(server: nat, attempts: nat, cursor: nat)
    | NoServer(cursor: nat)
    | GivenUp(attempts: nat, cursor: nat)
    | StillTrying

  ghost predicate Places(servers: seq<Server>, list: seq<nat>) {
    forall k :: 0 <= k < |list| ==> list[k] < |servers|
  }

  /** The server to try first, and the level's cursor after the choice; None where
      the choice has no end. `conns` are the connections seen at each choice. */
  function Primary(servers: seq<Server>, list: seq<nat>, s: nat, pos: nat, conns: (nat, nat) -> uint)
      : (r: Option<(Option<nat>, nat)>)
    requires s < |servers| && Places(servers, list)
    ensures r.Some? && r.value.0.Some? ==>
              r.value.0.value < |servers| && servers[r.value.0.value].level == servers[s].level
  {
    var server := servers[s];
    if server.policy.Backup? && Full(server, conns(0, s)) then Next(servers, list, server.level, pos, conns, 0)
    else if server.policy.Balance? then Next(servers, list, server.level, pos, conns, 0)
    else Some((Some(s), pos))
  }

  /** The attempts behind the `a` that failed, the last of them at `current`; `up` says
      which server accepts at which attempt, and `others` where the other processes
      have moved the cursor when the next server is chosen. */
  function Chase(servers: seq<Server>, list: seq<nat>, current: nat, pos: nat, conns: (nat, nat) -> uint,
      up: (nat, nat) -> bool, others: (nat, nat) -> nat, a: nat, limit: nat): Outcome
    requires current < |servers| && Places(servers, list)
    decreases limit - a
  {
    if servers[current].policy.Single? then GivenUp(a, pos)
    else if a >= limit then StillTrying
    else
      match Next(servers, list, servers[current].level, others(a, pos), conns, a)
      case None => StillTrying
      case Some((None, p)) => GivenUp(a, p)
      case Some((Some(s), p)) =>
        if up(a, s) then Connected(s, a + 1, p)
        else Chase(servers, list, s, p, conns, up, others, a + 1, limit)
  }

  /** Connecting to the server `s` of a group, within `limit` attempts. */
  function Connect(servers: seq<Server>, list: seq<nat>, s: nat, pos: nat, conns: (nat, nat) -> uint,
      up: (nat, nat) -> bool, others: (nat, nat) -> nat, limit: nat): Outcome
    requires s < |servers| && Places(servers, list)
  {
    match Primary(servers, list, s, pos, conns)
    case None => StillTrying
    case Some((None, p)) => NoServer(p)
    case Some((Some(first), p)) =>
      if up(0, first) then Connected(first, 1, p)
      else Chase(servers, list, first, p, conns, up, others, 1, limit)
  }

  // ----- the levels and their surroundings

  /** A loaded table, and a level with servers. */
  ghost predicate Listed(servers: seq<Server>, list: seq<nat>, def: nat, lv: nat) {
    && def < |servers| && ByLevel(servers, list)
    && multiset(list) == multiset(Others(|servers|, def))
    && OnLevel(servers, list, lv) != []
  }

  /** Such a level that does not hold the default server. */
  ghost predicate Shared(servers: seq<Server>, list: seq<nat>, def: nat, lv: nat) {
    Listed(servers, list, def, lv) && servers[def].level != lv
  }

  /** Nobody but perhaps the server at place `g` has the policy single. */
  ghost predicate PooledBut(servers: seq<Server>, on: seq<nat>, g: nat)
    requires Places(servers, on)
  {
    forall k :: 0 <= k < |on| && k != g ==> !servers[on[k]].policy.Single?
  }

  ghost predicate HasSingle(servers: seq<Server>, lv: nat) {
    exists i :: 0 <= i < |servers| && servers[i].level == lv && servers[i].policy.Single?
  }

  ghost predicate NeverFull(servers: seq<Server>, on: seq<nat>, conns: (nat, nat) -> uint)
    requires Places(servers, on)
  {
    forall a: nat, k :: 0 <= k < |on| ==> !Full(servers[on[k]], conns(a, on[k]))
  }

  ghost predicate AlwaysRoom(servers: seq<Server>, on: seq<nat>, conns: (nat, nat) -> uint)
    requires Places(servers, on)
  {
    forall a: nat :: HasRoom(FullOn(servers, on, conns, a))
  }

  /** A server that always has room and always accepts. */
  ghost predicate Good(servers: seq<Server>, s: nat, conns: (nat, nat) -> uint, up: (nat, nat) -> bool)
    requires s < |servers|
  {
    forall a: nat :: !Full(servers[s], conns(a, s)) && up(a, s)
  }

  /** The other processes make `times(a)` choices on the level before choice `a`. */
  ghost predicate OthersChoose(max: nat, n: nat, free: set<nat>, others: (nat, nat) -> nat, times: nat -> nat)
    requires max == n || max == n + 1
  {
    forall a: nat, p: nat :: p < max ==> ByChoices(max, n, free, p, others(a, p), times(a))
  }

  /** How many choices others make before the choices `a` to `b` (exclusive). */
  function Between(times: nat -> nat, a: nat, b: nat): nat
    decreases b - a
  {
    if a >= b then 0 else times(a) + Between(times, a + 1, b)
  }

  /** A level without the default server always finds its next server, in cyclic order
      from the cursor. */
  lemma {:induction false} SharedNext(servers: seq<Server>, list: seq<nat>, def: nat, lv: nat, pos: nat,
      conns: (nat, nat) -> uint, a: nat)
    requires Shared(servers, list, def, lv)
    requires var on := OnLevel(servers, list, lv);
             pos < |on| && HasRoom(FullOn(servers, on, conns, a))
    ensures CountLevel(servers, lv) == |OnLevel(servers, list, lv)|
    ensures var on := OnLevel(servers, list, lv);
            var i := FirstRound(FullOn(servers, on, conns, a), pos);
            i < |on| && Roll(i, |on|) < |on|
            && Next(servers, list, lv, pos, conns, a) == Some((Some(on[i]), Roll(i, |on|)))
  {
    hide OnLevel, CountLevel, Pick, HasRoom, FirstRound, Full, Roll;
    CountsListed(servers, list, def, lv);
    PickIsFirst(FullOn(servers, OnLevel(servers, list, lv), conns, a), pos);
  }

  /** A level with it: the next server of the list, until the list ends. */
  lemma {:induction false} HeldNext(servers: seq<Server>, list: seq<nat>, def: nat, lv: nat, pos: nat,
      conns: (nat, nat) -> uint, a: nat)
    requires Listed(servers, list, def, lv) && servers[def].level == lv
    requires pos <= |OnLevel(servers, list, lv)|
    ensures var on := OnLevel(servers, list, lv);
            var i := FirstFrom(FullOn(servers, on, conns, a), pos);
            && CountLevel(servers, lv) == |on| + 1
            && Next(servers, list, lv, pos, conns, a)
            == Some(if i < |on| then (Some(on[i]), i + 1) else (None, |on|))
  {
    hide OnLevel, CountLevel, Pick, FirstFrom, Full;
    CountsListed(servers, list, def, lv);
    PickRunsOff(FullOn(servers, OnLevel(servers, list, lv), conns, a), pos);
  }

  // ----- a level with a good server

  /** Attempt `a` and those behind it: the good server, `Distance` steps from the
      cursor, is reached at the latest after as many failures, and `n - 1` more for
      every choice of another process. */
  lemma {:induction false} ChaseFinds(servers: seq<Server>, list: seq<nat>, def: nat, lv: nat, current: nat, pos: nat,
      conns: (nat, nat) -> uint, up: (nat, nat) -> bool, others: (nat, nat) -> nat, times: nat -> nat,
      g: nat, a: nat, limit: nat)
    requires Shared(servers, list, def, lv) && current < |servers| && servers[current].level == lv
    requires !servers[current].policy.Single? && PooledBut(servers, OnLevel(servers, list, lv), g)
    requires var on := OnLevel(servers, list, lv);
             && pos < |on| && g < |on| && Good(servers, on[g], conns, up)
             && OthersChoose(|on|, |on|, {g}, others, times)
             && a + Distance(pos, g, |on|) + Between(times, a, limit) * (|on| - 1) < limit
    ensures var r := Chase(servers, list, current, pos, conns, up, others, a, limit);
            var n := |OnLevel(servers, list, lv)|;
            r.Connected? && r.attempts <= a + Distance(pos, g, n) + Between(times, a, limit) * (n - 1) + 1
    decreases limit - a
  {
    hide OnLevel, Next, HasRoom, FirstRound, Distance, Roll, Full;
    var on := OnLevel(servers, list, lv);
    var n := |on|;
    AtLeastZero(Between(times, a, limit), n - 1);
    var p := others(a, pos);
    ChoicesInRange(n, {g}, pos, p, times(a));
    ChoicesNear(n, {g}, g, pos, p, times(a));
    var full := FullOn(servers, on, conns, a);
    CursorApproaches(full, p, g);
    SharedNext(servers, list, def, lv, p, conns, a);
    var f := FirstRound(full, p);
    Splits(times(a), Between(times, a + 1, limit), n - 1);
    AtLeastZero(Between(times, a + 1, limit), n - 1);
    if f != g && !up(a, on[f]) {
      ChaseFinds(servers, list, def, lv, on[f], Roll(f, n), conns, up, others, times, g, a + 1, limit);
    }
  }

  lemma {:induction false} AtLeastZero(x: nat, y: nat)
    ensures x * y >= 0
  {
  }

  lemma {:induction false} Splits(x: nat, y: nat, z: nat)
    ensures (x + y) * z == x * z + y * z
  {
  }

  lemma {:induction false} Bounded(x: nat, m: nat, z: nat)
    requires x <= m
    ensures x * z <= m * z
  {
    Splits(x, m - x, z);
    AtLeastZero(m - x, z);
  }

  lemma {:induction false} DistanceWithin(pos: nat, g: nat, n: nat)
    requires pos < n && g < n
    ensures Distance(pos, g, n) < n
  {
  }

  /** A good server on a level of which nobody else has the policy single, and at most
      `m` choices of other processes on it meanwhile: the client is connected after at
      most `n + 1 + m * (n - 1)` attempts, whatever the other servers do. */
  lemma {:induction false} GoodServerFound(servers: seq<Server>, list: seq<nat>, def: nat, s: nat, pos: nat,
      conns: (nat, nat) -> uint, up: (nat, nat) -> bool, others: (nat, nat) -> nat, times: nat -> nat,
      g: nat, m: nat, limit: nat)
    requires s < |servers| && Shared(servers, list, def, servers[s].level)
    requires PooledBut(servers, OnLevel(servers, list, servers[s].level), g)
    requires var on := OnLevel(servers, list, servers[s].level);
             && pos < |on| && g < |on| && Good(servers, on[g], conns, up)
             && OthersChoose(|on|, |on|, {g}, others, times)
             && Between(times, 1, limit) <= m && limit > |on| + m * (|on| - 1)
    ensures var r := Connect(servers, list, s, pos, conns, up, others, limit);
            var n := |OnLevel(servers, list, servers[s].level)|;
            r.Connected? && r.attempts <= n + 1 + m * (n - 1)
  {
    hide OnLevel, Next, HasRoom, FirstRound, Distance, Roll, Full, Chase, OthersChoose, Between, Others, Primary;
    var lv := servers[s].level;
    var on := OnLevel(servers, list, lv);
    CursorApproaches(FullOn(servers, on, conns, 0), pos, g);
    FirstChoice(servers, list, def, s, pos, conns);
    var place := IsListed(servers, list, def, s);
    var (first, cursor) := Primary(servers, list, s, pos, conns).value;
    DistanceWithin(cursor, g, |on|);
    Bounded(Between(times, 1, limit), m, |on| - 1);
    if !up(0, first.value) {
      var k :| 0 <= k < |on| && on[k] == first.value;
      ChaseFinds(servers, list, def, lv, first.value, cursor, conns, up, others, times, g, 1, limit);
    }
  }

  /** The first server tried stands on the level's list, and the cursor in range. */
  lemma {:induction false} FirstChoice(servers: seq<Server>, list: seq<nat>, def: nat, s: nat, pos: nat,
      conns: (nat, nat) -> uint)
    requires s < |servers| && Shared(servers, list, def, servers[s].level)
    requires var on := OnLevel(servers, list, servers[s].level);
             pos < |on| && HasRoom(FullOn(servers, on, conns, 0))
    ensures var r := Primary(servers, list, s, pos, conns);
            var on := OnLevel(servers, list, servers[s].level);
            r.Some? && r.value.0.Some? && r.value.0.value in on && r.value.1 < |on|
  {
    hide OnLevel, Next, HasRoom, FirstRound, Roll, Full, Others;
    SharedNext(servers, list, def, servers[s].level, pos, conns, 0);
    var place := IsListed(servers, list, def, s);
  }

  /** With the default server on the level the cursor can stand behind the last
      server, and then a balanced level has no server for anybody, and a primary server
      of policy backup no substitute. */
  lemma {:induction false} CursorStuck(servers: seq<Server>, list: seq<nat>, def: nat, s: nat,
      conns: (nat, nat) -> uint, up: (nat, nat) -> bool, others: (nat, nat) -> nat, times: nat -> nat, limit: nat)
    requires s < |servers| && Listed(servers, list, def, servers[s].level)
    requires servers[def].level == servers[s].level
    requires var n := |OnLevel(servers, list, servers[s].level)|;
             OthersChoose(n + 1, n, {}, others, times)
    ensures var lv := servers[s].level;
            var n := |OnLevel(servers, list, lv)|;
            var r := Connect(servers, list, s, n, conns, up, others, limit);
            && n < CountLevel(servers, lv)
            && if servers[s].policy.Balance? || (servers[s].policy.Backup? && Full(servers[s], conns(0, s)))
               then r == NoServer(n)
               else if up(0, s) then r == Connected(s, 1, n)
               else r == GivenUp(1, n) || (r == StillTrying && limit <= 1)
  {
    hide OnLevel, CountLevel, Full, Next;
    var lv := servers[s].level;
    var n := |OnLevel(servers, list, lv)|;
    HeldNext(servers, list, def, lv, n, conns, 0);
    var p := others(1, n);
    ChoicesAdvance(n, {}, n, p, times(1));
    HeldNext(servers, list, def, lv, p, conns, 1);
  }

  /** The server asked for is tried, and is not full where that counts. */
  predicate TriesItself(servers: seq<Server>, s: nat, conns: (nat, nat) -> uint)
    requires s < |servers|
  {
    servers[s].policy.Single? || (servers[s].policy.Backup? && !Full(servers[s], conns(0, s)))
  }

  /** From every cursor in range a level with a good server, and of which nobody else has
      the policy single, connects if and only if it does not hold the default server, or
      the server asked for is tried first and accepts. */
  lemma {:induction false} GoodServerFoundExactly(servers: seq<Server>, list: seq<nat>, def: nat, s: nat,
      conns: (nat, nat) -> uint, up: (nat, nat) -> bool, others: (nat, nat) -> nat, times: nat -> nat,
      g: nat, m: nat, limit: nat)
    requires s < |servers| && Listed(servers, list, def, servers[s].level)
    requires PooledBut(servers, OnLevel(servers, list, servers[s].level), g)
    requires var lv := servers[s].level;
             var on := OnLevel(servers, list, lv);
             && g < |on| && Good(servers, on[g], conns, up)
             && OthersChoose(|on| + (if servers[def].level == lv then 1 else 0), |on|, {g}, others, times)
             && Between(times, 1, limit) <= m && limit > |on| + m * (|on| - 1)
    ensures var lv := servers[s].level;
            (forall pos: nat :: pos < CountLevel(servers, lv) ==>
               Connect(servers, list, s, pos, conns, up, others, limit).Connected?) <==>
            servers[def].level != lv || (TriesItself(servers, s, conns) && up(0, s))
  {
    hide OnLevel, CountLevel, Connect, Full, PooledBut;
    var lv := servers[s].level;
    var on := OnLevel(servers, list, lv);
    CountsListed(servers, list, def, lv);
    if servers[def].level == lv {
      FewerFree(|on| + 1, |on|, g, others, times);
      CursorStuck(servers, list, def, s, conns, up, others, times, limit);
      if TriesItself(servers, s, conns) && up(0, s) {
        forall pos: nat ensures Connect(servers, list, s, pos, conns, up, others, limit).Connected? {
          PrimaryConnects(servers, list, s, pos, conns, up, others, limit);
        }
      }
    } else {
      forall pos: nat | pos < CountLevel(servers, lv)
        ensures Connect(servers, list, s, pos, conns, up, others, limit).Connected?
      {
        GoodServerFound(servers, list, def, s, pos, conns, up, others, times, g, m, limit);
      }
    }
  }

  /** The server at place `g` is good and others make at most `m` choices meanwhile. */
  ghost predicate Fortunate(servers: seq<Server>, list: seq<nat>, lv: nat, pos: nat, conns: (nat, nat) -> uint,
      up: (nat, nat) -> bool, others: (nat, nat) -> nat, times: nat -> nat, g: nat, m: nat, limit: nat)
    requires Places(servers, list) && g < |OnLevel(servers, list, lv)|
  {
    var on := OnLevel(servers, list, lv);
    var max := CountLevel(servers, lv);
    && pos < max && Good(servers, on[g], conns, up)
    && |on| <= max <= |on| + 1 && OthersChoose(max, |on|, {g}, others, times)
    && Between(times, 1, limit) <= m && limit > |on| + m * (|on| - 1)
  }

  /** A client that asks for `s` is connected then, whatever the other servers do. */
  ghost predicate AlwaysConnects(servers: seq<Server>, list: seq<nat>, s: nat, g: nat, m: nat)
    requires s < |servers| && Places(servers, list) && g < |OnLevel(servers, list, servers[s].level)|
  {
    forall pos: nat, conns: (nat, nat) -> uint, up: (nat, nat) -> bool, others: (nat, nat) -> nat,
      times: nat -> nat, limit: nat ::
      Fortunate(servers, list, servers[s].level, pos, conns, up, others, times, g, m, limit) ==>
        Connect(servers, list, s, pos, conns, up, others, limit).Connected?
  }

  /** The other servers can keep a client off the good one if and only if the level
      holds the default server, or somebody else on it has the policy single; a client
      that asks for the good server itself, and not of policy balance, is safe. */
  lemma {:induction false} ConnectsExactly(servers: seq<Server>, list: seq<nat>, def: nat, s: nat, g: nat, m: nat)
    requires s < |servers| && Listed(servers, list, def, servers[s].level)
    requires g < |OnLevel(servers, list, servers[s].level)|
    ensures var lv := servers[s].level;
            var on := OnLevel(servers, list, lv);
            AlwaysConnects(servers, list, s, g, m) <==>
            || (servers[def].level != lv && PooledBut(servers, on, g))
            || (s == on[g] && !servers[s].policy.Balance?)
  {
    hide OnLevel, CountLevel, Connect, Full, Others, Good, OthersChoose, Between;
    var lv := servers[s].level;
    var on := OnLevel(servers, list, lv);
    CountsListed(servers, list, def, lv);
    if (servers[def].level != lv && PooledBut(servers, on, g)) || (s == on[g] && !servers[s].policy.Balance?) {
      forall pos: nat, conns: (nat, nat) -> uint, up: (nat, nat) -> bool, others: (nat, nat) -> nat,
        times: nat -> nat, limit: nat
        | Fortunate(servers, list, lv, pos, conns, up, others, times, g, m, limit)
        ensures Connect(servers, list, s, pos, conns, up, others, limit).Connected?
      {
        if s == on[g] && !servers[s].policy.Balance? {
          GoodTriesItself(servers, s, conns, up);
          PrimaryConnects(servers, list, s, pos, conns, up, others, limit);
        } else {
          GoodServerFound(servers, list, def, s, pos, conns, up, others, times, g, m, limit);
        }
      }
    } else {
      var pos := KeptOff(servers, list, def, s, g, m);
    }
  }

  lemma {:induction false} GoodTriesItself(servers: seq<Server>, s: nat, conns: (nat, nat) -> uint,
      up: (nat, nat) -> bool)
    requires s < |servers| && Good(servers, s, conns, up) && !servers[s].policy.Balance?
    ensures TriesItself(servers, s, conns) && up(0, s)
  {
    hide Full;
  }

  function Idle(): (nat, nat) -> nat {
    (a, p) => p
  }

  function OnlyUp(g: nat): (nat, nat) -> bool {
    (a, i) => i == g
  }

  lemma {:induction false} IdleChooses(max: nat, n: nat, free: set<nat>, limit: nat)
    requires max == n || max == n + 1
    ensures OthersChoose(max, n, free, Idle(), a => 0)
    ensures Between(a => 0, 1, limit) == 0
  {
    NothingBetween(1, limit);
  }

  lemma {:induction false} NothingBetween(a: nat, b: nat)
    ensures Between(c => 0, a, b) == 0
    decreases b - a
  {
    if a < b {
      NothingBetween(a + 1, b);
    }
  }

  lemma {:induction false} NobodyFull(servers: seq<Server>, on: seq<nat>, a: nat)
    requires Places(servers, on)
    ensures forall i :: 0 <= i < |servers| ==> !Full(servers[i], Unconnected(a, i))
    ensures NeverFull(servers, on, Unconnected)
    ensures FullOn(servers, on, Unconnected, a) == AllFree(|on|)
  {
  }

  lemma {:induction false} FirstOfFree(n: nat, k: nat)
    requires k < n
    ensures HasRoom(AllFree(n)) && FirstRound(AllFree(n), k) == k && FirstFrom(AllFree(n), k) == k
  {
    assert !AllFree(n)[k];
  }

  /** While nobody is full and the others are idle, the server under the cursor is
      chosen. */
  lemma {:induction false} UnderCursor(servers: seq<Server>, list: seq<nat>, def: nat, lv: nat, k: nat,
      conns: (nat, nat) -> uint, a: nat)
    requires Shared(servers, list, def, lv) && NeverFull(servers, OnLevel(servers, list, lv), conns)
    requires k < |OnLevel(servers, list, lv)|
    ensures var on := OnLevel(servers, list, lv);
            && CountLevel(servers, lv) == |on| && Roll(k, |on|) < |on|
            && Next(servers, list, lv, k, conns, a) == Some((Some(on[k]), Roll(k, |on|)))
  {
    hide OnLevel, CountLevel, Next, Full, Others, Roll;
    var on := OnLevel(servers, list, lv);
    assert FullOn(servers, on, conns, a) == AllFree(|on|);
    FirstOfFree(|on|, k);
    SharedNext(servers, list, def, lv, k, conns, a);
  }

  /** The run that is kept off: from a cursor on a server of policy single that is down,
      or behind the last server. */
  lemma {:induction false} KeptOff(servers: seq<Server>, list: seq<nat>, def: nat, s: nat, g: nat, m: nat)
    returns (pos: nat)
    requires s < |servers| && Listed(servers, list, def, servers[s].level)
    requires g < |OnLevel(servers, list, servers[s].level)|
    requires var lv := servers[s].level;
             var on := OnLevel(servers, list, lv);
             && !(servers[def].level != lv && PooledBut(servers, on, g))
             && !(s == on[g] && !servers[s].policy.Balance?)
    ensures !AlwaysConnects(servers, list, s, g, m)
  {
    hide OnLevel, CountLevel, Connect, Full, Others, Good, OthersChoose, Between, Next;
    var lv := servers[s].level;
    var on := OnLevel(servers, list, lv);
    var n := |on|;
    var up := OnlyUp(on[g]);
    var limit := n + m * (n - 1) + 1;
    AtLeastZero(m, n - 1);
    CountsListed(servers, list, def, lv);
    var max := CountLevel(servers, lv);
    IdleChooses(max, n, {g}, limit);
    IdleChooses(max, n, {}, limit);
    NobodyFull(servers, on, 0);
    UnconnectedGood(servers, on[g]);
    if servers[def].level == lv {
      pos := n;
      CursorStuck(servers, list, def, s, Unconnected, up, Idle(), a => 0, limit);
    } else if servers[s].policy.Single? {
      pos := 0;
      SingleGivesUp(servers, list, s, pos, Unconnected, up, Idle(), limit);
    } else {
      pos :| 0 <= pos < n && pos != g && servers[on[pos]].policy.Single?;
      ListedOnce(servers, list, def, lv);
      SingleStops(servers, list, def, s, pos, Unconnected, up, limit);
    }
    assert Fortunate(servers, list, lv, pos, Unconnected, up, Idle(), a => 0, g, m, limit);
  }

  lemma {:induction false} UnconnectedGood(servers: seq<Server>, s: nat)
    requires s < |servers|
    ensures Good(servers, s, Unconnected, OnlyUp(s))
  {
  }

  /** A server of policy single has no substitute, ... */
  lemma {:induction false} SingleGivesUp(servers: seq<Server>, list: seq<nat>, s: nat, pos: nat,
      conns: (nat, nat) -> uint, up: (nat, nat) -> bool, others: (nat, nat) -> nat, limit: nat)
    requires s < |servers| && Places(servers, list) && servers[s].policy.Single? && !up(0, s)
    ensures Connect(servers, list, s, pos, conns, up, others, limit) == GivenUp(1, pos)
  {
  }

  /** ... not even where it is itself the substitute of another. */
  lemma {:induction false} SingleStops(servers: seq<Server>, list: seq<nat>, def: nat, s: nat, k: nat,
      conns: (nat, nat) -> uint, up: (nat, nat) -> bool, limit: nat)
    requires s < |servers| && Shared(servers, list, def, servers[s].level) && !servers[s].policy.Single?
    requires var on := OnLevel(servers, list, servers[s].level);
             && k < |on| && servers[on[k]].policy.Single? && NeverFull(servers, on, conns)
             && (forall a :: !up(a, on[k])) && (servers[s].policy.Backup? ==> !up(0, s)) && limit > 1
    ensures var r := Connect(servers, list, s, k, conns, up, Idle(), limit);
            r.GivenUp? && r.attempts <= 2
  {
    hide OnLevel, CountLevel, Next, Full, Others;
    var lv := servers[s].level;
    var on := OnLevel(servers, list, lv);
    UnderCursor(servers, list, def, lv, k, conns, 0);
    UnderCursor(servers, list, def, lv, k, conns, 1);
    var place := IsListed(servers, list, def, s);
    var p := Roll(k, |on|);
    assert !up(0, on[k]) && !up(1, on[k]) && Idle()(1, k) == k;
    assert Chase(servers, list, on[k], p, conns, up, Idle(), 1, limit) == GivenUp(1, p);
    assert Chase(servers, list, on[k], p, conns, up, Idle(), 2, limit) == GivenUp(2, p);
  }

  lemma {:induction false} PrimaryConnects(servers: seq<Server>, list: seq<nat>, s: nat, pos: nat,
      conns: (nat, nat) -> uint, up: (nat, nat) -> bool, others: (nat, nat) -> nat, limit: nat)
    requires s < |servers| && Places(servers, list)
    requires TriesItself(servers, s, conns) && up(0, s)
    ensures Connect(servers, list, s, pos, conns, up, others, limit) == Connected(s, 1, pos)
  {
    hide Full;
  }

  /** Choices that always leave room for `g` always leave room. */
  lemma {:induction false} FewerFreeChoices(max: nat, n: nat, g: nat, p: nat, q: nat, m: nat)
    requires (max == n || max == n + 1) && ByChoices(max, n, {g}, p, q, m)
    ensures ByChoices(max, n, {}, p, q, m)
    decreases m
  {
    if m > 0 {
      var full :| MaySee(full, n, {g}) && ByChoices(max, n, {g}, Pick(full, max, p).1, q, m - 1);
      assert MaySee(full, n, {});
      FewerFreeChoices(max, n, g, Pick(full, max, p).1, q, m - 1);
    }
  }

  lemma {:induction false} FewerFree(max: nat, n: nat, g: nat, others: (nat, nat) -> nat, times: nat -> nat)
    requires (max == n || max == n + 1) && OthersChoose(max, n, {g}, others, times)
    ensures OthersChoose(max, n, {}, others, times)
  {
    hide ByChoices;
    forall a: nat, p: nat | p < max ensures ByChoices(max, n, {}, p, others(a, p), times(a)) {
      FewerFreeChoices(max, n, g, p, others(a, p), times(a));
    }
  }

  /** A configuration that puts the default server on the level of two others: they have
      no groups line of their own. */
  function SharingEntries(groups: string): seq<Entry> {
    [Entry(DEFAULT, [groups], Some(Balance), None), Entry("a", [], None, None), Entry("b", [], None, None)]
  }

  function SharingServers(groups: string): seq<Server> {
    [Server(DEFAULT, groups, 1, Balance, 0), Server("a", groups, 1, Balance, 0), Server("b", groups, 1, Balance, 0)]
  }

  /** A block without a groups line, behind the default server. */
  lemma {:induction false} InheritingBlock(entries: seq<Entry>, i: nat, servers: seq<Server>)
    requires 0 < i < |entries| && Parsed(entries[..i]) == Some(servers)
    requires servers != [] && servers[0].name == DEFAULT && entries[i].groups == []
    requires forall k :: 0 <= k < |servers| ==> servers[k].name != entries[i].name
    ensures Parsed(entries[..i + 1]) == Some(servers + [Fill(servers[0], entries[i], Reading("", 0))])
  {
    hide Parsed, ReadAll, Find;
    DefaultFirst(servers);
    FindLast(servers, entries[i].name);
    ReadStep(entries, i);
  }

  lemma {:induction false} SharingFirst(groups: string)
    requires groups != ""
    ensures Parsed(SharingEntries(groups)[..1]) == Some(SharingServers(groups)[..1])
  {
    hide Parsed, ReadAll, Find, ReadGroups;
    var e := SharingEntries(groups);
    NothingRead(e);
    NothingFound();
    OneLine(groups);
    ReadStep(e, 0);
    assert [] + [Fill(BLANK, e[0], ReadAll(e[..1]))] == SharingServers(groups)[..1];
  }

  lemma {:induction false} SharingParsed(groups: string)
    requires groups != ""
    ensures Parsed(SharingEntries(groups)) == Some(SharingServers(groups))
  {
    hide Parsed;
    var e, s := SharingEntries(groups), SharingServers(groups);
    SharingFirst(groups);
    Names();
    InheritingBlock(e, 1, s[..1]);
    assert s[..1] + [Fill(s[0], e[1], Reading("", 0))] == s[..2];
    InheritingBlock(e, 2, s[..2]);
    assert s[..2] + [Fill(s[0], e[2], Reading("", 0))] == s;
    assert e[..3] == e;
  }

  lemma {:induction false} Names()
    ensures DEFAULT != "a" && DEFAULT != "b" && "a" != "b"
  {
    assert |DEFAULT| == 7 && |"a"| == 1;
    assert "a"[0] != "b"[0];
  }

  lemma {:induction false} OneLine(groups: string)
    requires groups != ""
    ensures ReadGroups(Reading("", 0), [groups]) == Reading(groups, 1)
  {
    assert [groups][..0] == [];
  }

  /** A name that no server has is not found. */
  lemma {:induction false} FindLast(servers: seq<Server>, name: string)
    requires forall k :: 0 <= k < |servers| ==> servers[k].name != name
    ensures Find(servers, name) == |servers|
  {
  }

  /** It is read, its level holds the default server, and it passes the start-up check:
      so the cursor of a running program can be stuck. */
  lemma {:induction false} SharingConfiguration(groups: string, list: seq<nat>)
    requires groups != ""
    requires ByLevel(SharingServers(groups), list) && multiset(list) == multiset(Others(3, 0))
    ensures Parsed(SharingEntries(groups)) == Some(SharingServers(groups))
    ensures var servers := SharingServers(groups);
            && Listed(servers, list, 0, 1) && servers[0].level == servers[1].level == 1
            && |OnLevel(servers, list, 1)| == 2 && CountLevel(servers, 1) == 3 && HasSubstitute(2, 3, 0)
  {
    hide OnLevel, CountLevel, Parsed, HasSubstitute, Others;
    var servers := SharingServers(groups);
    SharingParsed(groups);
    CountsListed(servers, list, 0, 1);
    CountThree(servers);
    HasSubstituteExactly(2, 3, 0);
  }

  lemma {:induction false} CountThree(servers: seq<Server>)
    requires |servers| == 3 && forall s :: s in servers ==> s.level == 1
    ensures CountLevel(servers, 1) == 3
  {
    assert servers[..2][..1] == servers[..1] && servers[..1][..0] == [];
    assert servers[2] in servers && servers[1] in servers && servers[0] in servers;
    assert CountLevel(servers[..1], 1) == 1;
    assert CountLevel(servers[..2], 1) == 2;
  }

  // ----- a level where nobody accepts

  lemma {:induction false} ChaseNeverGivesUp(servers: seq<Server>, list: seq<nat>, def: nat, lv: nat, current: nat,
      pos: nat, conns: (nat, nat) -> uint, up: (nat, nat) -> bool, others: (nat, nat) -> nat, times: nat -> nat,
      a: nat, limit: nat)
    requires Shared(servers, list, def, lv) && current < |servers| && servers[current].level == lv
    requires !HasSingle(servers, lv)
    requires var on := OnLevel(servers, list, lv);
             pos < |on| && AlwaysRoom(servers, on, conns) && OthersChoose(|on|, |on|, {}, others, times)
    ensures var r := Chase(servers, list, current, pos, conns, up, others, a, limit);
            r.Connected? || r.StillTrying?
    ensures (forall k: nat, i: nat :: !up(k, i)) ==>
              Chase(servers, list, current, pos, conns, up, others, a, limit).StillTrying?
    decreases limit - a
  {
    hide OnLevel, Next, HasRoom, FirstRound, Roll;
    var on := OnLevel(servers, list, lv);
    var p := others(a, pos);
    ChoicesInRange(|on|, {}, pos, p, times(a));
    SharedNext(servers, list, def, lv, p, conns, a);
    var f := FirstRound(FullOn(servers, on, conns, a), p);
    if a < limit && !up(a, on[f]) {
      ChaseNeverGivesUp(servers, list, def, lv, on[f], Roll(f, |on|), conns, up, others, times, a + 1, limit);
    }
  }

  /** Without the default server and without policy single on the level, the loop has no
      way out but a connection: neither error is ever returned, and while every server is down it goes on for
      ever. */
  lemma {:induction false} NeverGivesUp(servers: seq<Server>, list: seq<nat>, def: nat, s: nat, pos: nat,
      conns: (nat, nat) -> uint, up: (nat, nat) -> bool, others: (nat, nat) -> nat, times: nat -> nat, limit: nat)
    requires s < |servers| && Shared(servers, list, def, servers[s].level) && !HasSingle(servers, servers[s].level)
    requires var on := OnLevel(servers, list, servers[s].level);
             pos < |on| && AlwaysRoom(servers, on, conns) && OthersChoose(|on|, |on|, {}, others, times)
    ensures var r := Connect(servers, list, s, pos, conns, up, others, limit);
            r.Connected? || r.StillTrying?
    ensures (forall k: nat, i: nat :: !up(k, i)) ==>
              Connect(servers, list, s, pos, conns, up, others, limit).StillTrying?
  {
    hide OnLevel, Next, HasRoom, FirstRound, Roll, Chase, Full, OthersChoose;
    var lv := servers[s].level;
    SharedNext(servers, list, def, lv, pos, conns, 0);
    var (first, cursor) := Primary(servers, list, s, pos, conns).value;
    ChaseNeverGivesUp(servers, list, def, lv, first.value, cursor, conns, up, others, times, 1, limit);
  }

  /** With it the list comes to an end, and so does the loop. */
  lemma {:induction false} ChaseEnds(servers: seq<Server>, list: seq<nat>, def: nat, lv: nat, current: nat, pos: nat,
      conns: (nat, nat) -> uint, up: (nat, nat) -> bool, others: (nat, nat) -> nat, times: nat -> nat,
      a: nat, limit: nat)
    requires Listed(servers, list, def, lv) && servers[def].level == lv
    requires current < |servers| && servers[current].level == lv
    requires var n := |OnLevel(servers, list, lv)|;
             pos <= n && OthersChoose(n + 1, n, {}, others, times) && a + (n - pos) < limit
    ensures !Chase(servers, list, current, pos, conns, up, others, a, limit).StillTrying?
    decreases limit - a
  {
    hide OnLevel, Next, HasRoom, FirstFrom, Full, ByChoices, CountLevel, Others;
    var on := OnLevel(servers, list, lv);
    var p := others(a, pos);
    ChoicesAdvance(|on|, {}, pos, p, times(a));
    HeldNext(servers, list, def, lv, p, conns, a);
    var f := FirstFrom(FullOn(servers, on, conns, a), p);
    if f < |on| {
      ChaseEnds(servers, list, def, lv, on[f], f + 1, conns, up, others, times, a + 1, limit);
    }
  }

  lemma {:induction false} ConnectEnds(servers: seq<Server>, list: seq<nat>, def: nat, s: nat, pos: nat,
      conns: (nat, nat) -> uint, up: (nat, nat) -> bool, others: (nat, nat) -> nat, times: nat -> nat, limit: nat)
    requires s < |servers| && Listed(servers, list, def, servers[s].level) && servers[def].level == servers[s].level
    requires var n := |OnLevel(servers, list, servers[s].level)|;
             pos <= n && OthersChoose(n + 1, n, {}, others, times) && limit > n + 1
    ensures !Connect(servers, list, s, pos, conns, up, others, limit).StillTrying?
  {
    hide OnLevel, Next, HasRoom, FirstFrom, Chase, Full, OthersChoose;
    var lv := servers[s].level;
    HeldNext(servers, list, def, lv, pos, conns, 0);
    assert servers[s] in servers;
    var (first, cursor) := Primary(servers, list, s, pos, conns).value;
    if first.Some? {
      ChaseEnds(servers, list, def, lv, first.value, cursor, conns, up, others, times, 1, limit);
    }
  }

  /** While the others are idle and nobody is full, it comes to an end at a server of
      policy single, too. */
  lemma {:induction false} ChaseMeetsSingle(servers: seq<Server>, list: seq<nat>, def: nat, lv: nat, current: nat,
      pos: nat, conns: (nat, nat) -> uint, up: (nat, nat) -> bool, k: nat, a: nat, limit: nat)
    requires Shared(servers, list, def, lv) && current < |servers| && servers[current].level == lv
    requires var on := OnLevel(servers, list, lv);
             && pos < |on| && k < |on| && servers[on[k]].policy.Single? && NeverFull(servers, on, conns)
             && a + Distance(pos, k, |on|) + 1 < limit
    ensures !Chase(servers, list, current, pos, conns, up, Idle(), a, limit).StillTrying?
    decreases limit - a
  {
    hide OnLevel, CountLevel, Next, Full, Others, NeverFull;
    var on := OnLevel(servers, list, lv);
    UnderCursor(servers, list, def, lv, pos, conns, a);
    assert Idle()(a, pos) == pos;
    if pos != k && !up(a, on[pos]) {
      ChaseMeetsSingle(servers, list, def, lv, on[pos], Roll(pos, |on|), conns, up, k, a + 1, limit);
    }
  }

  lemma {:induction false} ConnectMeetsSingle(servers: seq<Server>, list: seq<nat>, def: nat, s: nat, pos: nat,
      conns: (nat, nat) -> uint, up: (nat, nat) -> bool, k: nat, limit: nat)
    requires s < |servers| && Shared(servers, list, def, servers[s].level)
    requires var on := OnLevel(servers, list, servers[s].level);
             && pos < |on| && k < |on| && servers[on[k]].policy.Single? && NeverFull(servers, on, conns)
             && |on| + 2 < limit
    ensures !Connect(servers, list, s, pos, conns, up, Idle(), limit).StillTrying?
  {
    hide OnLevel, CountLevel, Next, Full, Others, NeverFull, Chase, Distance;
    var lv := servers[s].level;
    var on := OnLevel(servers, list, lv);
    UnderCursor(servers, list, def, lv, pos, conns, 0);
    var (first, cursor) := Primary(servers, list, s, pos, conns).value;
    DistanceWithin(cursor, k, |on|);
    ChaseMeetsSingle(servers, list, def, lv, first.value, cursor, conns, up, k, 1, limit);
  }

  /** On a level where nobody accepts, connecting ends at all if and only if the level
      holds the default server or one of policy single. Where there is one of policy
      single, that is said of a level left alone, and nobody full; `DeadLevelEndsAlways`
      is about the others. */
  lemma {:induction false} DeadLevelEndsExactly(servers: seq<Server>, list: seq<nat>, def: nat, s: nat, pos: nat,
      conns: (nat, nat) -> uint, up: (nat, nat) -> bool, others: (nat, nat) -> nat, times: nat -> nat)
    requires s < |servers| && Listed(servers, list, def, servers[s].level)
    requires pos < CountLevel(servers, servers[s].level) && forall k: nat, i: nat :: !up(k, i)
    requires var lv := servers[s].level;
             var on := OnLevel(servers, list, lv);
             && AlwaysRoom(servers, on, conns)
             && OthersChoose(|on| + (if servers[def].level == lv then 1 else 0), |on|, {}, others, times)
             && (HasSingle(servers, lv) ==> NeverFull(servers, on, conns) && others == Idle())
    ensures (exists limit :: !Connect(servers, list, s, pos, conns, up, others, limit).StillTrying?)
       <==> servers[def].level == servers[s].level || HasSingle(servers, servers[s].level)
  {
    hide OnLevel, CountLevel, Connect, Full, OthersChoose, AlwaysRoom, NeverFull, Others, Idle;
    var lv := servers[s].level;
    CountsListed(servers, list, def, lv);
    if servers[def].level == lv {
      var limit := |OnLevel(servers, list, lv)| + 2;
      ConnectEnds(servers, list, def, s, pos, conns, up, others, times, limit);
    } else if HasSingle(servers, lv) {
      var limit := |OnLevel(servers, list, lv)| + 3;
      var i :| 0 <= i < |servers| && servers[i].level == lv && servers[i].policy.Single?;
      var k := IsListed(servers, list, def, i);
      ConnectMeetsSingle(servers, list, def, s, pos, conns, up, k, limit);
    } else {
      forall limit: nat ensures Connect(servers, list, s, pos, conns, up, others, limit).StillTrying? {
        NeverGivesUp(servers, list, def, s, pos, conns, up, others, times, limit);
      }
    }
  }

  // ----- a level where the others choose without end

  /** The cursor after `n - 1` choices of others while nobody is full: one place back. */
  function OneBack(n: nat): (nat, nat) -> nat
    requires n > 0
  {
    (a, p) => (p + (n - 1)) % n
  }

  lemma {:induction false} OneBackByChoices(n: nat, free: set<nat>)
    requires n > 0
    ensures OthersChoose(n, n, free, OneBack(n), a => n - 1)
  {
    hide ByChoices;
    forall a: nat, p: nat | p < n ensures ByChoices(n, n, free, p, OneBack(n)(a, p), n - 1) {
      FreeChoices(n, free, p, n - 1);
    }
  }

  /** Behind the choice of `d` it comes back to `d`. */
  lemma {:induction false} BackAgain(n: nat, d: nat, a: nat)
    requires d < n
    ensures OneBack(n)(a, Roll(d, n)) == d
  {
    if d + 1 < n {
      ModUnique(d + n, n, 1, d);
    } else {
      ModUnique(n - 1, n, 0, n - 1);
    }
  }

  lemma {:induction false} ChaseStarved(servers: seq<Server>, list: seq<nat>, def: nat, lv: nat, current: nat, d: nat,
      conns: (nat, nat) -> uint, up: (nat, nat) -> bool, a: nat, limit: nat)
    requires Shared(servers, list, def, lv) && current < |servers| && servers[current].level == lv
    requires !servers[current].policy.Single?
    requires var on := OnLevel(servers, list, lv);
             && d < |on| && NeverFull(servers, on, conns) && !servers[on[d]].policy.Single?
             && forall k :: !up(k, on[d])
    ensures var n := |OnLevel(servers, list, lv)|;
            Chase(servers, list, current, Roll(d, n), conns, up, OneBack(n), a, limit).StillTrying?
    decreases limit - a
  {
    hide OnLevel, CountLevel, Next, Roll, OneBack, Full, NeverFull;
    var on := OnLevel(servers, list, lv);
    BackAgain(|on|, d, a);
    UnderCursor(servers, list, def, lv, d, conns, a);
    if a < limit {
      ChaseStarved(servers, list, def, lv, on[d], d, conns, up, a + 1, limit);
    }
  }

  /** A server is down, and the client is sent to it every time, when the others make
      `n - 1` choices between its own: no bound holds without a bound on the choices of
      others. */
  lemma {:induction false} Starved(servers: seq<Server>, list: seq<nat>, def: nat, s: nat, d: nat,
      conns: (nat, nat) -> uint, up: (nat, nat) -> bool, free: set<nat>, limit: nat)
    requires s < |servers| && Shared(servers, list, def, servers[s].level) && !servers[s].policy.Single?
    requires servers[s].policy.Backup? ==> !up(0, s)
    requires var on := OnLevel(servers, list, servers[s].level);
             && d < |on| && NeverFull(servers, on, conns) && !servers[on[d]].policy.Single?
             && forall k :: !up(k, on[d])
    ensures var n := |OnLevel(servers, list, servers[s].level)|;
            && n > 0 && OthersChoose(n, n, free, OneBack(n), a => n - 1)
            && var pos := if servers[s].policy.Balance? then d else Roll(d, n);
            pos < n && Connect(servers, list, s, pos, conns, up, OneBack(n), limit).StillTrying?
  {
    hide OnLevel, CountLevel, Next, OneBack, Full, Chase, OthersChoose, Others;
    var lv := servers[s].level;
    var on := OnLevel(servers, list, lv);
    OneBackByChoices(|on|, free);
    UnderCursor(servers, list, def, lv, d, conns, 0);
    var place := IsListed(servers, list, def, s);
    ChaseStarved(servers, list, def, lv, if servers[s].policy.Balance? then on[d] else s, d, conns, up, 1, limit);
  }

  function Down(): (nat, nat) -> bool {
    (a, i) => false
  }

  /** What the others do to a level with room. */
  ghost predicate Choosing(servers: seq<Server>, list: seq<nat>, lv: nat, pos: nat, conns: (nat, nat) -> uint,
      others: (nat, nat) -> nat, times: nat -> nat)
    requires Places(servers, list)
  {
    var on := OnLevel(servers, list, lv);
    var max := CountLevel(servers, lv);
    && pos < max && AlwaysRoom(servers, on, conns)
    && |on| <= max <= |on| + 1 && OthersChoose(max, |on|, {}, others, times)
  }

  ghost predicate EndsAtLast(servers: seq<Server>, list: seq<nat>, s: nat, pos: nat, conns: (nat, nat) -> uint,
      others: (nat, nat) -> nat)
    requires s < |servers| && Places(servers, list)
  {
    exists limit :: !Connect(servers, list, s, pos, conns, Down(), others, limit).StillTrying?
  }

  /** A run against a level where nobody accepts ends, whoever is full and whatever the
      others choose. */
  ghost predicate AlwaysEnds(servers: seq<Server>, list: seq<nat>, s: nat)
    requires s < |servers| && Places(servers, list)
  {
    forall pos: nat, conns: (nat, nat) -> uint, others: (nat, nat) -> nat, times: nat -> nat ::
      Choosing(servers, list, servers[s].level, pos, conns, others, times) ==>
        EndsAtLast(servers, list, s, pos, conns, others)
  }

  /** Every such run ends if and only if the level holds the default server, or the
      server asked for has the policy single. */
  lemma {:induction false} DeadLevelEndsAlways(servers: seq<Server>, list: seq<nat>, def: nat, s: nat)
    requires s < |servers| && Listed(servers, list, def, servers[s].level)
    ensures AlwaysEnds(servers, list, s)
       <==> servers[def].level == servers[s].level || servers[s].policy.Single?
  {
    hide OnLevel, CountLevel, Connect, Full, OthersChoose, AlwaysRoom, NeverFull, Others, Roll, Down;
    var lv := servers[s].level;
    var on := OnLevel(servers, list, lv);
    var n := |on|;
    CountsListed(servers, list, def, lv);
    if servers[def].level == lv || servers[s].policy.Single? {
      forall pos: nat, conns: (nat, nat) -> uint, others: (nat, nat) -> nat, times: nat -> nat
        | Choosing(servers, list, lv, pos, conns, others, times)
        ensures EndsAtLast(servers, list, s, pos, conns, others)
      {
        NobodyAccepts();
        if servers[s].policy.Single? {
          SingleGivesUp(servers, list, s, pos, conns, Down(), others, 1);
        } else {
          ConnectEnds(servers, list, def, s, pos, conns, Down(), others, times, n + 2);
        }
      }
    } else {
      var d := IsListed(servers, list, def, s);
      var pos := if servers[s].policy.Balance? then d else Roll(d, n);
      NobodyFull(servers, on, 0);
      NobodyAccepts();
      RoomWhereNobodyFull(servers, on);
      Starved(servers, list, def, s, d, Unconnected, Down(), {}, 0);
      assert Choosing(servers, list, lv, pos, Unconnected, OneBack(n), a => n - 1);
      forall limit: nat ensures Connect(servers, list, s, pos, Unconnected, Down(), OneBack(n), limit).StillTrying? {
        Starved(servers, list, def, s, d, Unconnected, Down(), {}, limit);
      }
    }
  }

  lemma {:induction false} NobodyAccepts()
    ensures forall a: nat, i: nat :: !Down()(a, i)
  {
  }

  lemma {:induction false} RoomWhereNobodyFull(servers: seq<Server>, on: seq<nat>)
    requires Places(servers, on) && on != []
    ensures AlwaysRoom(servers, on, Unconnected)
  {
    forall a: nat ensures HasRoom(FullOn(servers, on, Unconnected, a)) {
      assert !FullOn(servers, on, Unconnected, a)[0];
    }
  }

  // ----- the cursor between two statements of another process

  /** The cursor is moved without a lock, and stands behind the last server between the
      increment and the roll of another process. A client that looks then has no server
      on a healthy level: an error if it is its first choice, and given up otherwise. */
  lemma {:induction false} SeenBehind(servers: seq<Server>, list: seq<nat>, def: nat, s: nat, pos: nat,
      conns: (nat, nat) -> uint, up: (nat, nat) -> bool, others: (nat, nat) -> nat, a: nat, limit: nat)
    requires s < |servers| && Shared(servers, list, def, servers[s].level)
    requires var on := OnLevel(servers, list, servers[s].level);
             AlwaysRoom(servers, on, conns) && others(a, pos) == |on|
    requires !servers[s].policy.Single? && a < limit
    ensures var n := |OnLevel(servers, list, servers[s].level)|;
            && (servers[s].policy.Balance? ==> Connect(servers, list, s, n, conns, up, others, limit) == NoServer(n))
            && Chase(servers, list, s, pos, conns, up, others, a, limit) == GivenUp(a, n)
  {
    hide OnLevel, CountLevel, Full, Others, Next;
    var lv := servers[s].level;
    BehindLast(servers, list, def, lv, conns, 0);
    BehindLast(servers, list, def, lv, conns, a);
  }

  lemma {:induction false} BehindLast(servers: seq<Server>, list: seq<nat>, def: nat, lv: nat,
      conns: (nat, nat) -> uint, a: nat)
    requires Shared(servers, list, def, lv) && HasRoom(FullOn(servers, OnLevel(servers, list, lv), conns, a))
    ensures var n := |OnLevel(servers, list, lv)|;
            Next(servers, list, lv, n, conns, a) == Some((None, n))
  {
    hide OnLevel, CountLevel, Full, Others;
    CountsListed(servers, list, def, lv);
  }

  // ----- the code

  lemma {:induction false} ValidPlaces(t: ServerTable)
    requires t.Valid()
    ensures t.balancePos.Length == MAX_LEVEL
    ensures forall i :: 0 <= i < |t.servers| ==> t.servers[i].level < MAX_LEVEL
    ensures Places(t.servers, t.lservers)
  {
  }

  /** One pass of the loop, told without its recursion. */
  lemma {:induction false} ChaseStep(servers: seq<Server>, list: seq<nat>, current: nat, pos: nat,
      conns: (nat, nat) -> uint, up: (nat, nat) -> bool, others: (nat, nat) -> nat, a: nat, limit: nat)
    requires current < |servers| && Places(servers, list)
    requires Chase(servers, list, current, pos, conns, up, others, a, limit) != StillTrying
    ensures var r := Chase(servers, list, current, pos, conns, up, others, a, limit);
            var next := Next(servers, list, servers[current].level, others(a, pos), conns, a);
            if servers[current].policy.Single? then r == GivenUp(a, pos)
            else
              a < limit && next.Some?
              && if next.value.0 == None then r == GivenUp(a, next.value.1)
                 else if up(a, next.value.0.value) then r == Connected(next.value.0.value, a + 1, next.value.1)
                 else r == Chase(servers, list, next.value.0.value, next.value.1, conns, up, others, a + 1, limit)
  {
    hide Next;
  }

  datatype Code = CONNECT_OK | CONNECT_ERR | CONNECT_DOWN

  /** What the caller and the client's fields say of an outcome. */
  ghost predicate Reports(o: Outcome, code: Code, attempts: nat, connected: bool, groupserver: Option<nat>,
        cursor: nat) {
    match o
    case Connected(s, n, p) => code == CONNECT_OK && attempts == n && connected && groupserver == Some(s) && cursor == p
    case NoServer(p) => code == CONNECT_ERR && attempts == 0 && !connected && cursor == p
    case GivenUp(n, p) => code == CONNECT_DOWN && attempts == n && !connected && groupserver == None && cursor == p
    case StillTrying => false
  }

  /** Where a cursor of a loaded table may stand. */
  predicate CursorRange(servers: seq<Server>, lv: nat, p: nat) {
    p < CountLevel(servers, lv) || p == 0
  }

  ghost predicate OthersInRange(servers: seq<Server>, lv: nat, others: (nat, nat) -> nat) {
    forall a: nat, p: nat :: CursorRange(servers, lv, p) ==> CursorRange(servers, lv, others(a, p))
  }

  /** The client's side of its backend connection. */
  class Client {
    var connected: bool
    var groupserver: Option<nat>

    constructor ()
      ensures !connected && groupserver == None
    {
      connected, groupserver := false, None;
    }

    /** The attempt itself, `accepts` being what the network answers. */
    method ConnectServer(accepts: bool)
      requires !connected
      modifies `connected
      ensures connected == accepts
    {
      connected := accepts;
    }

    method DisconnectServer()
      modifies this
      ensures !connected && (old(connected) ==> groupserver == None)
      ensures !old(connected) ==> groupserver == old(groupserver)
    {
      if !connected {
        return;
      }
      groupserver := None;
      connected := false;
    }

    method SelectPrimary(t: ServerTable, s: nat, conns: (nat, nat) -> uint) returns (r: Option<nat>)
      requires t.Valid() && s < |t.servers|
      requires Primary(t.servers, t.lservers, s, t.balancePos[t.servers[s].level], conns).Some?
      modifies t.balancePos
      ensures t.Valid()
      ensures Primary(t.servers, t.lservers, s, old(t.balancePos[t.servers[s].level]), conns)
           == Some((r, t.balancePos[t.servers[s].level]))
    {
      var server := t.servers[s];
      if server.policy == Backup && server.maxConnections != 0 && conns(0, s) >= server.maxConnections {
        r := t.GetNextServer(server.level, conns, 0);
        return;
      }
      if server.policy == Single || server.policy == Backup {
        return Some(s);
      }
      r := t.GetNextServer(server.level, conns, 0);
    }

    /** The next server of the primary's level, chosen from where the other processes
        have moved the cursor meanwhile. */
    method SelectBackup(t: ServerTable, current: nat, primary: nat, conns: (nat, nat) -> uint,
        others: (nat, nat) -> nat, a: nat) returns (r: Option<nat>)
      requires t.Valid() && current < |t.servers| && primary < |t.servers|
      requires OthersInRange(t.servers, t.servers[primary].level, others)
      requires var lv := t.servers[primary].level;
               t.servers[current].policy.Single?
               || Next(t.servers, t.lservers, lv, others(a, t.balancePos[lv]), conns, a).Some?
      modifies t.balancePos
      ensures t.Valid()
      ensures t.servers[current].policy.Single? ==> r == None && t.balancePos[..] == old(t.balancePos[..])
      ensures var lv := t.servers[primary].level;
              t.servers[current].policy.Single?
              || Next(t.servers, t.lservers, lv, others(a, old(t.balancePos[t.servers[primary].level])), conns, a)
              == Some((r, t.balancePos[lv]))
    {
      hide Next;
      if t.servers[current].policy == Single {
        return None;
      }
      var lv := t.servers[primary].level;
      assert CursorRange(t.servers, lv, t.balancePos[lv]);
      t.MoveCursor(lv, others(a, t.balancePos[lv]));
      r := t.GetNextServer(lv, conns, a);
    }

    /** The server `s` first, then its substitutes while the client is not connected. */
    method TryServers(t: ServerTable, s: nat, conns: (nat, nat) -> uint, up: (nat, nat) -> bool,
        others: (nat, nat) -> nat, ghost limit: nat)
      returns (code: Code, attempts: nat)
      requires t.Valid() && s < |t.servers| && !connected
      requires OthersInRange(t.servers, t.servers[s].level, others)
      requires Connect(t.servers, t.lservers, s, t.balancePos[t.servers[s].level], conns, up, others, limit)
            != StillTrying
      modifies this, t.balancePos
      ensures t.Valid()
      ensures Reports(Connect(t.servers, t.lservers, s, old(t.balancePos[t.servers[s].level]), conns, up, others,
                              limit),
                      code, attempts, connected, groupserver, t.balancePos[t.servers[s].level])
      ensures connected <==> code == CONNECT_OK
      ensures code == CONNECT_ERR <==> attempts == 0
      ensures code == CONNECT_DOWN ==> groupserver == None
      ensures connected ==> groupserver.Some? && groupserver.value < |t.servers|
                            && t.servers[groupserver.value].level == t.servers[s].level
                            && up(attempts - 1, groupserver.value)
    {
      hide Next, Primary, Chase, ServerTable.Valid, OthersInRange;
      ValidPlaces(t);
      ghost var lv := t.servers[s].level;
      ghost var result := Connect(t.servers, t.lservers, s, t.balancePos[lv], conns, up, others, limit);
      var first := SelectPrimary(t, s, conns);
      if first == None {
        return CONNECT_ERR, 0;
      }
      var primary := first.value;
      groupserver := first;
      ConnectServer(up(0, primary));
      attempts := 1;
      while !connected
        invariant t.Valid() && groupserver.Some? && groupserver.value < |t.servers|
        invariant t.servers[groupserver.value].level == lv
        invariant attempts > 0 && (connected ==> up(attempts - 1, groupserver.value))
        invariant result == if connected then Connected(groupserver.value, attempts, t.balancePos[lv])
                            else Chase(t.servers, t.lservers, groupserver.value, t.balancePos[lv], conns, up, others,
                                       attempts, limit)
        decreases limit - attempts, !connected
      {
        ChaseStep(t.servers, t.lservers, groupserver.value, t.balancePos[lv], conns, up, others, attempts, limit);
        var next := SelectBackup(t, groupserver.value, primary, conns, others, attempts);
        if next == None {
          break;
        }
        groupserver := next;
        ConnectServer(up(attempts, next.value));
        attempts := attempts + 1;
      }
      if !connected {
        groupserver := None;
        return CONNECT_DOWN, attempts;
      }
      return CONNECT_OK, attempts;
    }

    /** Connecting for a group of the server `name`. A client already connected to a
        server of the same groups stays; otherwise the outcome is that of `Connect`,
        for any number of attempts within which it ends. */
    method ConnectGroupserver(t: ServerTable, name: string, conns: (nat, nat) -> uint, up: (nat, nat) -> bool,
        others: (nat, nat) -> nat, ghost limit: nat)
      returns (code: Code, attempts: nat)
      requires t.Valid() && Find(t.servers, name) < |t.servers|
      requires connected ==> groupserver.Some? && groupserver.value < |t.servers|
      requires var s := Find(t.servers, name);
               && OthersInRange(t.servers, t.servers[s].level, others)
               && Connect(t.servers, t.lservers, s, t.balancePos[t.servers[s].level], conns, up, others, limit)
               != StillTrying
      modifies this, t.balancePos
      ensures t.Valid()
      ensures var s := Find(t.servers, name);
              var lv := t.servers[s].level;
              if old(connected) && t.servers[old(groupserver.value)].groups == t.servers[s].groups
              then code == CONNECT_OK && attempts == 0 && connected && groupserver == old(groupserver)
                && t.balancePos[..] == old(t.balancePos[..])
              else Reports(Connect(t.servers, t.lservers, s,
                                   old(t.balancePos[t.servers[Find(t.servers, name)].level]), conns, up, others, limit),
                           code, attempts, connected, groupserver, t.balancePos[lv])
      ensures connected <==> code == CONNECT_OK
      ensures code == CONNECT_ERR ==> attempts == 0
      ensures code == CONNECT_DOWN ==> attempts > 0 && groupserver == None
    {
      hide Connect, Reports, OnLevel, CountLevel, Others, OthersInRange;
      code, attempts := CONNECT_OK, 0;
      var found := t.GetServer(name);
      var s := found.value;
      if connected && t.servers[groupserver.value].groups == t.servers[s].groups {
        return;
      }
      if connected && t.servers[groupserver.value].name != name {
        DisconnectServer();
      }
      if !connected {
        code, attempts := TryServers(t, s, conns, up, others, limit);
      }
    }
  }
}
