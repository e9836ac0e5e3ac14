/** The choice among backend servers of one level: a cursor per level that moves
    on at every choice and skips servers that are full. */
module Balancer {
  import opened Wrappers

  type uint = x: int | 0 <= x < 0x1_0000_0000

  datatype Policy = Single | Backup | Balance

  datatype Server = Server(name: string, groups: string, level: nat, policy: Policy, maxConnections: uint)

  /** The servers of a level, in the order of the list. */
  function OnLevel(servers: seq<Server>, list: seq<nat>, lv: nat): (r: seq<nat>)
    requires forall i :: 0 <= i < |list| ==> list[i] < |servers|
    ensures forall i :: 0 <= i < |r| ==> r[i] < |servers| && servers[r[i]].level == lv && r[i] in list
  {
    if list == [] then []
    else
      var n := |list| - 1;
      OnLevel(servers, list[..n], lv) + (if servers[list[n]].level == lv then [list[n]] else [])
  }

  function CountLevel(servers: seq<Server>, lv: nat): nat {
    if servers == [] then 0
    else CountLevel(servers[..|servers| - 1], lv) + (if servers[|servers| - 1].level == lv then 1 else 0)
  }

  /** A server at its limit, given the connections it has now. */
  predicate Full(s: Server, connections: uint) {
    s.maxConnections != 0 && connections >= s.maxConnections
  }

  // ----- the cursor

  /** The cursor after a choice; `max` is the number of servers counted. */
  function Roll(pos: nat, max: nat): nat {
    if pos + 1 >= max then 0 else pos + 1
  }

  /** The first server with room at or behind `pos`; `full` says who has none. */
  function FirstFrom(full: seq<bool>, pos: nat): (i: nat)
    requires pos <= |full|
    ensures pos <= i <= |full|
    ensures i < |full| ==> !full[i]
    ensures forall k :: pos <= k < i ==> full[k]
    decreases |full| - pos
  {
    if pos == |full| || !full[pos] then pos else FirstFrom(full, pos + 1)
  }

  predicate HasRoom(full: seq<bool>) {
    exists i :: 0 <= i < |full| && !full[i]
  }

  /** Steps from `pos` round to `g`. */
  function Distance(pos: nat, g: nat, n: nat): nat
    requires pos < n && g < n
  {
    if pos <= g then g - pos else g + n - pos
  }

  /** The first server with room in cyclic order from `pos`. */
  function FirstRound(full: seq<bool>, pos: nat): (i: nat)
    requires HasRoom(full) && pos <= |full|
    ensures i < |full| && !full[i]
  {
    if FirstFrom(full, pos) < |full| then FirstFrom(full, pos) else FirstFrom(full, 0)
  }

  /** The cursor counts the level's servers (`max == n`), or one more when the
      default server has the same level. */
  predicate Counts(full: seq<bool>, max: nat) {
    max == |full| || max == |full| + 1
  }

  predicate Ends(full: seq<bool>, max: nat) {
    HasRoom(full) || max > |full| || full == []
  }

  /** How far the search has to go. */
  function Ahead(full: seq<bool>, max: nat, pos: nat): nat
    requires Counts(full, max) && Ends(full, max)
  {
    if pos >= |full| then 0
    else if max > |full| then |full| - pos
    else Distance(pos, FirstRound(full, pos), |full|)
  }

  /** `get_next_server`, on the positions of a level: the position chosen, None
      when the cursor stands behind the last, and the new cursor. */
  function Pick(full: seq<bool>, max: nat, pos: nat): (r: (Option<nat>, nat))
    requires Counts(full, max) && Ends(full, max)
    ensures r.0.Some? ==> r.0.value < |full| && !full[r.0.value]
    decreases Ahead(full, max, pos)
  {
    if pos >= |full| then (None, pos)
    else if full[pos] then Pick(full, max, Roll(pos, max))
    else (Some(pos), Roll(pos, max))
  }

  /** With the level's servers counted, the first one with room in cyclic order is
      chosen, and the cursor is left just behind it. */
  lemma {:induction false} PickIsFirst(full: seq<bool>, pos: nat)
    requires HasRoom(full) && pos < |full|
    ensures Pick(full, |full|, pos) == (Some(FirstRound(full, pos)), Roll(FirstRound(full, pos), |full|))
    ensures Pick(full, |full|, pos).1 < |full|
    decreases Ahead(full, |full|, pos)
  {
    if full[pos] {
      PickIsFirst(full, Roll(pos, |full|));
    }
  }

  /** With the default server counted too, the cursor runs off the end, and stays
      there. */
  lemma {:induction false} PickRunsOff(full: seq<bool>, pos: nat)
    requires pos <= |full|
    ensures Pick(full, |full| + 1, pos) ==
              if FirstFrom(full, pos) < |full|
              then (Some(FirstFrom(full, pos)), FirstFrom(full, pos) + 1)
              else (None, |full|)
    decreases |full| - pos
  {
    if pos < |full| && full[pos] {
      PickRunsOff(full, pos + 1);
    }
  }

  /** The recursion of the source, cut off after `fuel` calls. */
  function Attempt(full: seq<bool>, max: nat, pos: nat, fuel: nat): Option<(Option<nat>, nat)>
    decreases fuel
  {
    if fuel == 0 then None
    else if pos >= |full| then Some((None, pos))
    else if full[pos] then Attempt(full, max, Roll(pos, max), fuel - 1)
    else Some((Some(pos), Roll(pos, max)))
  }

  lemma {:induction false} AttemptIsPick(full: seq<bool>, max: nat, pos: nat, fuel: nat)
    requires Counts(full, max) && Ends(full, max) && fuel > Ahead(full, max, pos)
    ensures Attempt(full, max, pos, fuel) == Some(Pick(full, max, pos))
    decreases fuel
  {
    if pos < |full| && full[pos] {
      AttemptIsPick(full, max, Roll(pos, max), fuel - 1);
    }
  }

  lemma {:induction false} AttemptNeverEnds(full: seq<bool>, pos: nat, fuel: nat)
    requires !HasRoom(full) && pos < |full|
    ensures Attempt(full, |full|, pos, fuel) == None
    decreases fuel
  {
    if fuel > 0 {
      assert full[pos];
      AttemptNeverEnds(full, Roll(pos, |full|), fuel - 1);
    }
  }

  /** The recursion ends if and only if the level has a server with room, or no
      server, or shares its level with the default server. */
  lemma {:induction false} PickEndsExactly(full: seq<bool>, max: nat, pos: nat)
    requires Counts(full, max) && (pos < max || full == [])
    ensures (exists fuel :: Attempt(full, max, pos, fuel).Some?) <==> Ends(full, max)
  {
    if Ends(full, max) {
      AttemptIsPick(full, max, pos, Ahead(full, max, pos) + 1);
    } else {
      forall fuel: nat ensures Attempt(full, max, pos, fuel) == None {
        AttemptNeverEnds(full, pos, fuel);
      }
    }
  }

  // ----- fairness

  /** The cursor after `k` choices while nobody is full. */
  function CursorAfter(n: nat, max: nat, pos: nat, k: nat): nat {
    if k == 0 then pos
    else
      var p := CursorAfter(n, max, pos, k - 1);
      if p < n then Roll(p, max) else p
  }

  /** The `k`-th choice (from 0), None for no server. */
  function Choice(n: nat, max: nat, pos: nat, k: nat): Option<nat> {
    var p := CursorAfter(n, max, pos, k);
    if p < n then Some(p) else None
  }

  function AllFree(n: nat): (s: seq<bool>)
    ensures |s| == n && forall i :: 0 <= i < n ==> !s[i]
  {
    seq(n, i => false)
  }

  /** These are the choices of `Pick`. */
  lemma {:induction false} ChoiceIsPick(n: nat, max: nat, pos: nat, k: nat)
    requires Counts(AllFree(n), max)
    ensures Ends(AllFree(n), max)
    ensures Pick(AllFree(n), max, CursorAfter(n, max, pos, k))
         == (Choice(n, max, pos, k), CursorAfter(n, max, pos, k + 1))
  {
    if n > 0 {
      assert !AllFree(n)[0];
    }
  }

  lemma {:induction false} CursorIsModular(n: nat, pos: nat, k: nat)
    requires pos < n
    ensures CursorAfter(n, n, pos, k) == (pos + k) % n
  {
    if k > 0 {
      CursorIsModular(n, pos, k - 1);
      ModStep(pos + k - 1, n);
    }
  }

  lemma {:induction false} ModStep(a: nat, n: nat)
    requires n > 0
    ensures (a + 1) % n == if a % n + 1 >= n then 0 else a % n + 1
  {
    var q, r := a / n, a % n;
    assert a == n * q + r;
    if r + 1 < n {
      ModUnique(a + 1, n, q, r + 1);
    } else {
      assert a + 1 == n * (q + 1) + 0;
      ModUnique(a + 1, n, q + 1, 0);
    }
  }

  lemma {:induction false} MulGap(n: nat, a: int, b: int)
    ensures a < b ==> n * a + n <= n * b
  {
    if a < b {
      assert n * (a + 1) <= n * b;
    }
  }

  lemma {:induction false} ModUnique(a: nat, n: nat, q: nat, r: nat)
    requires n > 0 && r < n && a == n * q + r
    ensures a % n == r && a / n == q
  {
    MulGap(n, q, a / n);
    MulGap(n, a / n, q);
  }

  function TimesChosen(n: nat, max: nat, pos: nat, k: nat, j: nat): nat {
    if k == 0 then 0
    else TimesChosen(n, max, pos, k - 1, j) + (if Choice(n, max, pos, k - 1) == Some(j) then 1 else 0)
  }

  /** The server `r` steps from the cursor. */
  function StepsFrom(n: nat, pos: nat, r: nat): (j: nat)
    requires pos < n && r < n
    ensures j < n && Distance(pos, j, n) == r
  {
    if pos + r < n then pos + r else pos + r - n
  }

  lemma {:induction false} ChoiceIsAhead(n: nat, pos: nat, q: nat, r: nat, k: nat)
    requires pos < n && r < n && k == n * q + r
    ensures Choice(n, n, pos, k) == Some(StepsFrom(n, pos, r))
  {
    CursorIsModular(n, pos, k);
    if pos + r < n {
      ModUnique(pos + k, n, q, pos + r);
    } else {
      assert n * (q + 1) == n * q + n;
      ModUnique(pos + k, n, q + 1, pos + r - n);
    }
  }

  lemma {:induction false} ChosenOnce(n: nat, pos: nat, q: nat, r: nat, k: nat, j: nat)
    requires pos < n && j < n && r < n && k == n * q + r
    ensures TimesChosen(n, n, pos, k + 1, j)
         == TimesChosen(n, n, pos, k, j) + (if Distance(pos, j, n) == r then 1 else 0)
  {
    hide Choice, CursorAfter;
    ChoiceIsAhead(n, pos, q, r, k);
  }

  /** `q` full rounds and `r` choices more: every server `q` times, and the first
      `r` from the cursor on once more. */
  lemma {:induction false} ChosenInRounds(n: nat, pos: nat, q: nat, r: nat, k: nat, j: nat)
    requires pos < n && j < n && r < n && k == n * q + r
    ensures TimesChosen(n, n, pos, k, j) == q + (if Distance(pos, j, n) < r then 1 else 0)
    decreases q, r
  {
    hide Choice, CursorAfter;
    if r > 0 {
      ChosenInRounds(n, pos, q, r - 1, k - 1, j);
      ChosenOnce(n, pos, q, r - 1, k - 1, j);
    } else if q > 0 {
      assert n * q == n * (q - 1) + n;
      ChosenInRounds(n, pos, q - 1, n - 1, k - 1, j);
      ChosenOnce(n, pos, q - 1, n - 1, k - 1, j);
    }
  }

  /** Over any `k` choices each of the `n` servers is chosen `k / n` times, and the
      `k % n` servers from the cursor on once more. */
  lemma {:induction false} ChosenEvenly(n: nat, pos: nat, k: nat, j: nat)
    requires pos < n && j < n
    ensures TimesChosen(n, n, pos, k, j) == k / n + (if Distance(pos, j, n) < k % n then 1 else 0)
  {
    hide *;
    ChosenInRounds(n, pos, k / n, k % n, k, j);
  }

  /** Every choice of a level with servers finds one if and only if the default
      server has another level. */
  lemma {:induction false} ChoosesForeverExactly(n: nat, max: nat, pos: nat)
    requires 0 < n && Counts(AllFree(n), max) && pos < max
    ensures (forall k: nat :: Choice(n, max, pos, k).Some?) <==> max == n
  {
    if max == n {
      forall k: nat ensures Choice(n, max, pos, k).Some? {
        CursorIsModular(n, pos, k);
      }
    } else {
      CursorRunsOff(n, pos, n - pos);
      assert Choice(n, max, pos, n - pos) == None;
    }
  }

  lemma {:induction false} CursorRunsOff(n: nat, pos: nat, k: nat)
    requires pos + k <= n
    ensures CursorAfter(n, n + 1, pos, k) == pos + k
  {
    if k > 0 {
      CursorRunsOff(n, pos, k - 1);
    }
  }

  // ----- the choices of other processes

  /** What a choice may find: some server has room, and the ones in `free` have. */
  ghost predicate MaySee(full: seq<bool>, n: nat, free: set<nat>) {
    && |full| == n && HasRoom(full)
    && forall g :: g in free && g < n ==> !full[g]
  }

  /** `m` choices lead the cursor of a level of `n` servers from `p` to `q`. */
  ghost predicate ByChoices(max: nat, n: nat, free: set<nat>, p: nat, q: nat, m: nat)
    requires max == n || max == n + 1
    decreases m
  {
    if m == 0 then p == q
    else exists full :: MaySee(full, n, free) && ByChoices(max, n, free, Pick(full, max, p).1, q, m - 1)
  }

  /** With the level's servers counted the cursor stays in range, ... */
  lemma {:induction false} ChoicesInRange(n: nat, free: set<nat>, p: nat, q: nat, m: nat)
    requires p < n && ByChoices(n, n, free, p, q, m)
    ensures q < n
    decreases m
  {
    if m > 0 {
      var full :| MaySee(full, n, free) && ByChoices(n, n, free, Pick(full, n, p).1, q, m - 1);
      PickIsFirst(full, p);
      ChoicesInRange(n, free, Pick(full, n, p).1, q, m - 1);
    }
  }

  /** ... with the default server counted too it only goes forward. */
  lemma {:induction false} ChoicesAdvance(n: nat, free: set<nat>, p: nat, q: nat, m: nat)
    requires p <= n && ByChoices(n + 1, n, free, p, q, m)
    ensures p <= q <= n
    decreases m
  {
    if m > 0 {
      var full :| MaySee(full, n, free) && ByChoices(n + 1, n, free, Pick(full, n + 1, p).1, q, m - 1);
      PickRunsOff(full, p);
      ChoicesAdvance(n, free, Pick(full, n + 1, p).1, q, m - 1);
    }
  }

  /** Choosing anyone but a server with room brings the cursor closer to that one, and
      choosing it leaves the cursor just behind it. */
  lemma {:induction false} CursorApproaches(full: seq<bool>, pos: nat, g: nat)
    requires pos < |full| && g < |full| && !full[g]
    ensures HasRoom(full)
    ensures var n := |full|;
            var f := FirstRound(full, pos);
            Roll(f, n) < n &&
            if f == g then Distance(Roll(f, n), g, n) == n - 1 else Distance(Roll(f, n), g, n) < Distance(pos, g, n)
  {
  }

  /** Each choice of another process takes the cursor at most `n - 1` away. */
  lemma {:induction false} ChoicesNear(n: nat, free: set<nat>, g: nat, p: nat, q: nat, m: nat)
    requires g < n && g in free && p < n && q < n && ByChoices(n, n, free, p, q, m)
    ensures Distance(q, g, n) <= Distance(p, g, n) + m * (n - 1)
    decreases m
  {
    if m > 0 {
      hide FirstRound, Distance, HasRoom, Roll;
      var full :| MaySee(full, n, free) && ByChoices(n, n, free, Pick(full, n, p).1, q, m - 1);
      PickIsFirst(full, p);
      CursorApproaches(full, p, g);
      ChoicesNear(n, free, g, Pick(full, n, p).1, q, m - 1);
      assert m * (n - 1) == (m - 1) * (n - 1) + (n - 1);
    }
  }

  lemma {:induction false} RollModular(n: nat, p: nat, k: nat)
    requires p < n
    ensures (p + (k + 1)) % n == (Roll(p, n) + k) % n
  {
    if p + 1 >= n {
      var q, r := k / n, k % n;
      assert n * (q + 1) == n * q + n;
      ModUnique(k + n, n, q + 1, r);
    }
  }

  lemma {:induction false} SmallMod(p: nat, n: nat)
    requires p < n
    ensures p % n == p
  {
    ModUnique(p, n, 0, p);
  }

  /** While nobody is full, `k` choices move the cursor `k` places round. */
  lemma {:induction false} FreeChoices(n: nat, free: set<nat>, p: nat, k: nat)
    requires p < n
    ensures ByChoices(n, n, free, p, (p + k) % n, k)
    decreases k
  {
    if k == 0 {
      SmallMod(p, n);
    } else {
      var full := AllFree(n);
      assert !full[p];
      assert HasRoom(full);
      assert MaySee(full, n, free);
      RollModular(n, p, k - 1);
      FreeChoices(n, free, Roll(p, n), k - 1);
      assert Pick(full, n, p).1 == Roll(p, n);
    }
  }

  // ----- the start-up check

  /** What the start-up check asks of a level whose cursor is cleared, when it comes to
      the server at place `j`: that the choice behind the first server finds another
      one. */
  predicate HasSubstitute(n: nat, max: nat, j: nat)
    requires Counts(AllFree(n), max) && j < n
  {
    Ends(AllFree(n), max) && Pick(AllFree(n), max, Roll(0, max)).0 !in {None, Some(j)}
  }

  /** It passes exactly where the level has two servers and the one asked for is not
      the second: levels that hold the default server pass. */
  lemma {:induction false} HasSubstituteExactly(n: nat, max: nat, j: nat)
    requires j < n && Counts(AllFree(n), max)
    ensures HasSubstitute(n, max, j) <==> n >= 2 && j != 1
  {
    assert !AllFree(n)[0];
    if n >= 2 {
      assert !AllFree(n)[1];
    }
  }
}
