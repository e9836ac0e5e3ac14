/** How many users there are: the counters, and why a connecting client always
    finds a user slot. */
module SessionUsers {
  import opened Wrappers
  import opened Sums
  import opened SessionTables
  import opened SessionProtocol
  import opened SessionInvariants

  const WORD := 0x1_0000_0000

  function OccupiedWeight(users: seq<User>): nat -> int {
    (k: nat) => if k < |users| && users[k].key != "" then 1 else 0
  }

  function NumWeight(profiles: seq<Profile>): nat -> int {
    (k: nat) => if k < |profiles| then profiles[k].numusers else 0
  }

  /** `master.numusers` is the number of occupied user slots, and the profiles'
      counters add up to it (as C unsigned integers do, modulo 2^32). */
  ghost predicate UserCountOk(t: Tables) {
    && t.numusers == Sum(|t.users|, OccupiedWeight(t.users))
    && Sum(|t.profiles|, NumWeight(t.profiles)) % WORD == t.numusers % WORD
  }

  lemma {:induction false} NumChange(p: seq<Profile>, p': seq<Profile>, i: nat)
    requires |p'| == |p| && i < |p| && forall k :: 0 <= k < |p| && k != i ==> p'[k].numusers == p[k].numusers
    ensures Sum(|p|, NumWeight(p')) == Sum(|p|, NumWeight(p)) + p'[i].numusers - p[i].numusers
  {
    SumChange(|p|, NumWeight(p), NumWeight(p'), i);
  }

  lemma {:induction false} OccupiedChange(u: seq<User>, u': seq<User>, i: nat)
    requires |u'| == |u| && i < |u| && forall k :: 0 <= k < |u| && k != i ==> u'[k].key == u[k].key
    ensures Sum(|u|, OccupiedWeight(u')) == Sum(|u|, OccupiedWeight(u))
              + (if u'[i].key != "" then 1 else 0) - (if u[i].key != "" then 1 else 0)
  {
    SumChange(|u|, OccupiedWeight(u), OccupiedWeight(u'), i);
  }

  lemma {:induction false} AddUserCount(t: Tables, key: string, prf: nat)
    requires UserCountOk(t) && key != "" && UserSlot(t.users, key).Some? && prf < |t.profiles|
    ensures UserCountOk(AddUser(t, key, prf))
  {
    hide Sum, OccupiedWeight, NumWeight;
    var t' := AddUser(t, key, prf);
    OccupiedChange(t.users, t'.users, UserSlot(t.users, key).value);
    NumChange(t.profiles, t'.profiles, prf);
  }

  lemma {:induction false} DropUserCount(t: Tables, id: nat, prf: nat)
    requires UserCountOk(t) && KeysOk(t.users) && id < |t.users| && prf < |t.profiles|
    requires t.users[id].connections > 0
    ensures UserCountOk(DropUser(t, id, prf))
  {
    hide Sum, OccupiedWeight, NumWeight;
    var t' := DropUser(t, id, prf);
    OccupiedChange(t.users, t'.users, id);
    NumChange(t.profiles, t'.profiles, prf);
  }

  /** Connection counters and slots do not matter to the user counts. */
  lemma {:induction false} SameUsersCount(t: Tables, t': Tables)
    requires UserCountOk(t) && t'.users == t.users && t'.numusers == t.numusers
    requires |t'.profiles| == |t.profiles|
    requires forall k :: 0 <= k < |t.profiles| ==> t'.profiles[k].numusers == t.profiles[k].numusers
    ensures UserCountOk(t')
  {
    if |t.profiles| > 0 {
      NumChange(t.profiles, t'.profiles, 0);
    }
  }

  lemma {:induction false} CountedCount(t: Tables, c: nat, hostname: string)
    requires UserCountOk(t) && hostname != ""
    requires c < |t.slots| && t.slots[c].profile.Some? && t.slots[c].profile.value < |t.profiles|
    ensures UserCountOk(CountedTables(t, c, hostname))
  {
    hide UserCountOk, UserSlot, AddUser, WithUser;
    var prf := t.slots[c].profile.value;
    var t1 := AddConnection(t, prf);
    SameUsersCount(t, t1);
    if UserSlot(t.users, hostname).Some? {
      AddUserCount(t1, hostname, prf);
      SameUsersCount(AddUser(t1, hostname, prf), CountedTables(t, c, hostname));
    } else {
      SameUsersCount(t1, CountedTables(t, c, hostname));
    }
  }

  lemma {:induction false} ClosedCount(t: Tables, c: nat)
    requires UserCountOk(t) && KeysOk(t.users)
    requires c < |t.slots| && t.slots[c].profile.Some? && t.slots[c].profile.value < |t.profiles|
    requires t.slots[c].user.Some? ==> t.slots[c].user.value < |t.users|
                                       && t.users[t.slots[c].user.value].connections > 0
    ensures UserCountOk(ClosedTables(t, c))
  {
    hide UserCountOk, KeysOk, DropUser, WithoutUser;
    var prf := t.slots[c].profile.value;
    var t1 := DropConnection(t, prf);
    SameUsersCount(t, t1);
    if t.slots[c].user.Some? {
      DropUserCount(t1, t.slots[c].user.value, prf);
      SameUsersCount(DropUser(t1, t.slots[c].user.value, prf), ClosedTables(t, c));
    } else {
      SameUsersCount(t1, ClosedTables(t, c));
    }
  }

  lemma {:induction false} MovedCount(t: Tables, c: nat, newuser: nat, newprf: nat)
    requires UserCountOk(t) && KeysOk(t.users)
    requires c < |t.slots| && t.slots[c].profile.Some? && t.slots[c].profile.value < |t.profiles|
    requires t.slots[c].user.Some? && t.slots[c].user.value < |t.users|
    requires t.users[t.slots[c].user.value].connections > 0
    requires newuser < |t.users| && newprf < |t.profiles|
    ensures UserCountOk(MovedTables(t, c, newuser, newprf))
  {
    hide UserCountOk, KeysOk, DropUser, WithoutUser;
    var u, prf := t.slots[c].user.value, t.slots[c].profile.value;
    var t1 := MovedProfile(t, c, newprf);
    SameUsersCount(t, t1);
    DropUserCount(t1, u, prf);
    SameUsersCount(DropUser(t1, u, prf), MovedTables(t, c, newuser, newprf));
  }

  lemma {:induction false} UserCountKept(s: State, step: Step)
    requires ProcsOk(s) && UsersOk(s) && UserCountOk(s.t) && Enabled(s, step)
    ensures UserCountOk(After(s, step).t)
  {
    hide UserCountOk, KeysOk, UserSlot, AddUser, DropUser, CountedTables, ClosedTables, MovedTables, UsersOk,
      WithUser, WithoutUser, CountIp, FirstFree;
    if ChangesUsers(step) {
      var c := Actor(s, step);
      assert ProcOk(s.t, s.t.slots[c], s.procs[c]);
      CountBounds(s, if s.t.slots[c].user.Some? then s.t.slots[c].user.value else 0, c);
      if InFlight(s.procs[c].pc) {
        CountBounds(s, s.procs[c].newuser, c);
      }
      match step
      case ConnCount(_, hostname) => CountedCount(s.t, c, hostname);
      case AuthFind(_, username, newprf) => AddUserCount(s.t, username, newprf);
      case AuthCommit(_) => MovedCount(s.t, c, s.procs[c].newuser, s.procs[c].newprf);
      case CloseBody(_) => ClosedCount(s.t, c);
      case AuthRefuse(_, _) => DropUserCount(s.t, s.procs[c].newuser, s.procs[c].newprf);
      case AuthFail(_) => DropUserCount(s.t, s.procs[c].newuser, s.procs[c].newprf);
    } else {
      SameUsersCount(s.t, After(s, step).t);
    }
  }

  // ----- counts per profile

  /** The number of users that belong to a profile if a key determines it. */
  function BelongWeight(users: seq<User>, prof: string -> nat, prf: nat): nat -> int {
    (k: nat) => if k < |users| && users[k].key != "" && prof(users[k].key) == prf then 1 else 0
  }

  ghost predicate PerProfileOk(t: Tables, prof: string -> nat) {
    forall prf :: 0 <= prf < |t.profiles| ==>
      t.profiles[prf].numusers == Sum(|t.users|, BelongWeight(t.users, prof, prf))
  }

  lemma {:induction false} BelongChange(u: seq<User>, u': seq<User>, prof: string -> nat, prf: nat, i: nat)
    requires |u'| == |u| && i < |u| && forall k :: 0 <= k < |u| && k != i ==> u'[k].key == u[k].key
    ensures Sum(|u|, BelongWeight(u', prof, prf)) == Sum(|u|, BelongWeight(u, prof, prf))
              + BelongWeight(u', prof, prf)(i) - BelongWeight(u, prof, prf)(i)
  {
    SumChange(|u|, BelongWeight(u, prof, prf), BelongWeight(u', prof, prf), i);
  }

  lemma {:induction false} BelongBounds(u: seq<User>, prof: string -> nat, prf: nat, i: nat)
    requires i < |u|
    ensures BelongWeight(u, prof, prf)(i) <= Sum(|u|, BelongWeight(u, prof, prf)) <= |u|
  {
    SumTerm(|u|, BelongWeight(u, prof, prf), i);
    SumBounds(|u|, BelongWeight(u, prof, prf), 0, 1);
  }

  /** A user that is created under the profile of its key keeps the counts. */
  lemma {:induction false} AddUserPerProfile(t: Tables, key: string, prof: string -> nat)
    requires PerProfileOk(t, prof) && KeysOk(t.users) && |t.users| < 0xFFFF_FFFF
    requires key != "" && UserSlot(t.users, key).Some? && prof(key) < |t.profiles|
    ensures PerProfileOk(AddUser(t, key, prof(key)), prof)
  {
    hide Sum;
    var t', id := AddUser(t, key, prof(key)), UserSlot(t.users, key).value;
    forall prf | 0 <= prf < |t.profiles|
      ensures t'.profiles[prf].numusers == Sum(|t'.users|, BelongWeight(t'.users, prof, prf))
    {
      BelongChange(t.users, t'.users, prof, prf, id);
      BelongBounds(t.users, prof, prf, id);
    }
  }

  /** So does one that is dropped under it. */
  lemma {:induction false} DropUserPerProfile(t: Tables, id: nat, prof: string -> nat)
    requires PerProfileOk(t, prof) && KeysOk(t.users)
    requires id < |t.users| && t.users[id].connections > 0 && prof(t.users[id].key) < |t.profiles|
    ensures PerProfileOk(DropUser(t, id, prof(t.users[id].key)), prof)
  {
    hide Sum;
    var t' := DropUser(t, id, prof(t.users[id].key));
    forall prf | 0 <= prf < |t.profiles|
      ensures t'.profiles[prf].numusers == Sum(|t'.users|, BelongWeight(t'.users, prof, prf))
    {
      BelongChange(t.users, t'.users, prof, prf, id);
      BelongBounds(t.users, prof, prf, id);
    }
  }

  /** Every client and every authentication goes by the profile of its key. */
  ghost predicate FollowsKeys(s: State, prof: string -> nat) {
    && Shape(s)
    && forall k :: 0 <= k < MAX_PROC ==>
         && (s.t.slots[k].user.Some? ==> s.t.slots[k].profile == Some(prof(s.procs[k].key)))
         && (InFlight(s.procs[k].pc) ==> s.procs[k].newprf == prof(s.procs[k].newkey))
  }

  /** The profile a step chooses is the one of the key. */
  ghost predicate ChoosesByKey(s: State, step: Step, prof: string -> nat)
    requires ProcsOk(s) && Enabled(s, step)
  {
    && (step.ConnCount? ==> s.t.slots[step.c].profile == Some(prof(step.hostname)))
    && (step.AuthFind? ==> step.newprf == prof(step.username))
  }

  lemma {:induction false} SamePerProfile(t: Tables, t': Tables, prof: string -> nat)
    requires PerProfileOk(t, prof) && t'.users == t.users && |t'.profiles| == |t.profiles|
    requires forall k :: 0 <= k < |t.profiles| ==> t'.profiles[k].numusers == t.profiles[k].numusers
    ensures PerProfileOk(t', prof)
  {
    hide Sum, BelongWeight;
  }

  lemma {:induction false} CountedPerProfile(t: Tables, c: nat, hostname: string, prof: string -> nat)
    requires PerProfileOk(t, prof) && KeysOk(t.users) && |t.users| < 0xFFFF_FFFF && hostname != ""
    requires c < |t.slots| && t.slots[c].profile == Some(prof(hostname)) && prof(hostname) < |t.profiles|
    ensures PerProfileOk(CountedTables(t, c, hostname), prof)
  {
    hide PerProfileOk, KeysOk, UserSlot, AddUser, WithUser;
    var t1 := AddConnection(t, prof(hostname));
    SamePerProfile(t, t1, prof);
    if UserSlot(t.users, hostname).Some? {
      AddUserPerProfile(t1, hostname, prof);
      SamePerProfile(AddUser(t1, hostname, prof(hostname)), CountedTables(t, c, hostname), prof);
    } else {
      SamePerProfile(t1, CountedTables(t, c, hostname), prof);
    }
  }

  lemma {:induction false} ClosedPerProfile(t: Tables, c: nat, prof: string -> nat)
    requires PerProfileOk(t, prof) && KeysOk(t.users)
    requires c < |t.slots| && t.slots[c].profile.Some? && t.slots[c].profile.value < |t.profiles|
    requires t.slots[c].user.Some? ==>
               && t.slots[c].user.value < |t.users|
               && t.users[t.slots[c].user.value].connections > 0
               && t.slots[c].profile == Some(prof(t.users[t.slots[c].user.value].key))
    ensures PerProfileOk(ClosedTables(t, c), prof)
  {
    hide PerProfileOk, KeysOk, DropUser, WithoutUser;
    var prf := t.slots[c].profile.value;
    var t1 := DropConnection(t, prf);
    SamePerProfile(t, t1, prof);
    if t.slots[c].user.Some? {
      DropUserPerProfile(t1, t.slots[c].user.value, prof);
      SamePerProfile(DropUser(t1, t.slots[c].user.value, prf), ClosedTables(t, c), prof);
    } else {
      SamePerProfile(t1, ClosedTables(t, c), prof);
    }
  }

  lemma {:induction false} MovedPerProfile(t: Tables, c: nat, newuser: nat, newprf: nat, prof: string -> nat)
    requires PerProfileOk(t, prof) && KeysOk(t.users)
    requires c < |t.slots| && t.slots[c].profile.Some? && t.slots[c].profile.value < |t.profiles|
    requires t.slots[c].user.Some? && t.slots[c].user.value < |t.users|
    requires t.users[t.slots[c].user.value].connections > 0
    requires t.slots[c].profile == Some(prof(t.users[t.slots[c].user.value].key))
    requires newuser < |t.users| && newprf < |t.profiles|
    ensures PerProfileOk(MovedTables(t, c, newuser, newprf), prof)
  {
    hide PerProfileOk, KeysOk, DropUser, WithoutUser;
    var u, prf := t.slots[c].user.value, t.slots[c].profile.value;
    var t1 := MovedProfile(t, c, newprf);
    SamePerProfile(t, t1, prof);
    DropUserPerProfile(t1, u, prof);
    SamePerProfile(DropUser(t1, u, prf), MovedTables(t, c, newuser, newprf), prof);
  }

  /** If profiles are chosen by key, every profile counts exactly its users. */
  lemma {:induction false} PerProfileKept(s: State, step: Step, prof: string -> nat)
    requires ProcsOk(s) && UsersOk(s) && Enabled(s, step)
    requires PerProfileOk(s.t, prof) && FollowsKeys(s, prof) && ChoosesByKey(s, step, prof)
    ensures PerProfileOk(After(s, step).t, prof)
  {
    hide PerProfileOk, KeysOk, UserSlot, AddUser, DropUser, CountedTables, ClosedTables, MovedTables, UsersOk,
      WithUser, WithoutUser, CountIp, FirstFree;
    if ChangesUsers(step) {
      var c := Actor(s, step);
      assert ProcOk(s.t, s.t.slots[c], s.procs[c]);
      CountBounds(s, if s.t.slots[c].user.Some? then s.t.slots[c].user.value else 0, c);
      if InFlight(s.procs[c].pc) {
        CountBounds(s, s.procs[c].newuser, c);
      }
      match step
      case ConnCount(_, hostname) => CountedPerProfile(s.t, c, hostname, prof);
      case AuthFind(_, username, newprf) => AddUserPerProfile(s.t, username, prof);
      case AuthCommit(_) => MovedPerProfile(s.t, c, s.procs[c].newuser, s.procs[c].newprf, prof);
      case CloseBody(_) => ClosedPerProfile(s.t, c, prof);
      case AuthRefuse(_, _) => DropUserPerProfile(s.t, s.procs[c].newuser, prof);
      case AuthFail(_) => DropUserPerProfile(s.t, s.procs[c].newuser, prof);
    } else {
      SamePerProfile(s.t, After(s, step).t, prof);
    }
  }

  lemma {:induction false} FollowsKeysKept(s: State, step: Step, prof: string -> nat)
    requires ProcsOk(s) && UsersOk(s) && Enabled(s, step)
    requires FollowsKeys(s, prof) && ChoosesByKey(s, step, prof)
    ensures FollowsKeys(After(s, step), prof)
  {
    hide KeysOk, UserSlot, AddUser, DropUser, CountedTables, ClosedTables, MovedTables, UsersOk,
      WithUser, WithoutUser, CountIp, FirstFree, PointersOk;
    var c := Actor(s, step);
    StepLocal(s, step);
    assert ProcOk(s.t, s.t.slots[c], s.procs[c]);
  }

  // ----- there is always room for a connecting client

  function IsAt(u: nat): nat -> int {
    (k: nat) => if k == u then 1 else 0
  }

  lemma {:induction false} SumIsAt(n: nat, u: nat)
    ensures Sum(n, IsAt(u)) == if u < n then 1 else 0
  {
    if n > 0 {
      SumIsAt(n - 1, u);
    }
  }

  /** All references process `k` holds. */
  function HeldBy(slot: Slot, p: Proc): int {
    (if slot.user.Some? then 1 else 0) + (if InFlight(p.pc) then 1 else 0)
  }

  function HeldWeight(s: State): nat -> int {
    (k: nat) => if k < |s.procs| && k < |s.t.slots| then HeldBy(s.t.slots[k], s.procs[k]) else 0
  }

  /** References of the first `n` processes to slot `u`. */
  function PartialRefs(s: State, n: nat): nat -> int {
    (u: nat) => Sum(n, RefWeight(s, u))
  }

  function RefsOf(s: State, k: nat): nat -> int {
    (u: nat) => RefWeight(s, u)(k)
  }

  /** One process, all user slots. */
  lemma {:induction false} RefsOfProc(slot: Slot, p: Proc, n: nat, f: nat -> int)
    requires slot.user.Some? ==> slot.user.value < n
    requires InFlight(p.pc) ==> p.newuser < n
    requires forall u: nat :: u < n ==> f(u) == RefsAt(slot, p, u)
    ensures Sum(n, f) == HeldBy(slot, p)
  {
    var a := if slot.user.Some? then slot.user.value else n;
    var b := if InFlight(p.pc) then p.newuser else n;
    SumIsAt(n, a);
    SumIsAt(n, b);
    SumAdd(n, IsAt(a), IsAt(b), f);
  }

  lemma {:induction false} RefsOfOne(s: State, k: nat)
    requires ProcsOk(s) && k < |s.procs|
    ensures Sum(|s.t.users|, RefsOf(s, k)) == HeldWeight(s)(k)
  {
    assert ProcOk(s.t, s.t.slots[k], s.procs[k]);
    hide ProcsOk, Sum, RefsAt, HeldBy, PhaseOk;
    forall u: nat | u < |s.t.users| ensures RefsOf(s, k)(u) == RefsAt(s.t.slots[k], s.procs[k], u) {
      assert RefsOf(s, k)(u) == RefWeight(s, u)(k);
    }
    RefsOfProc(s.t.slots[k], s.procs[k], |s.t.users|, RefsOf(s, k));
  }

  lemma {:induction false} PartialStep(s: State, n: nat, u: nat)
    requires 0 < n
    ensures PartialRefs(s, n)(u) == PartialRefs(s, n - 1)(u) + RefsOf(s, n - 1)(u)
  {
    assert Sum(n, RefWeight(s, u)) == Sum(n - 1, RefWeight(s, u)) + RefWeight(s, u)(n - 1);
  }

  lemma {:induction false} NoneOfNone(s: State)
    ensures Sum(|s.t.users|, PartialRefs(s, 0)) == Sum(0, HeldWeight(s))
  {
    SumBounds(|s.t.users|, PartialRefs(s, 0), 0, 0);
  }

  lemma {:induction false} SumStep(n: nat, f: nat -> int)
    requires 0 < n
    ensures Sum(n, f) == Sum(n - 1, f) + f(n - 1)
  {
  }

  /** Counting references by user slot or by process is the same. */
  lemma {:induction false} CountTwice(s: State, n: nat)
    requires ProcsOk(s) && n <= |s.procs|
    ensures Sum(|s.t.users|, PartialRefs(s, n)) == Sum(n, HeldWeight(s))
  {
    hide *;
    if n == 0 {
      NoneOfNone(s);
    } else {
      CountTwice(s, n - 1);
      RefsOfOne(s, n - 1);
      forall u: nat | u < |s.t.users|
        ensures PartialRefs(s, n)(u) == PartialRefs(s, n - 1)(u) + RefsOf(s, n - 1)(u)
      {
        PartialStep(s, n, u);
      }
      SumAdd(|s.t.users|, PartialRefs(s, n - 1), RefsOf(s, n - 1), PartialRefs(s, n));
      SumStep(n, HeldWeight(s));
    }
  }

  /** Occupied user slots never outnumber the references held. */
  lemma {:induction false} OccupiedAtMostHeld(s: State)
    requires ProcsOk(s) && UsersOk(s)
    ensures Sum(|s.t.users|, OccupiedWeight(s.t.users)) <= Sum(|s.procs|, HeldWeight(s))
  {
    var n := |s.procs|;
    assert forall u :: 0 <= u < MAX_USERS ==> s.t.users[u].connections == Refs(s, u) == PartialRefs(s, n)(u);
    SumLeq(|s.t.users|, OccupiedWeight(s.t.users), PartialRefs(s, n));
    CountTwice(s, n);
  }

  /** The processes without a user, and the authentications in flight. */
  function UserlessWeight(s: State): nat -> int {
    (k: nat) => if k < |s.t.slots| && s.t.slots[k].user.None? then 1 else 0
  }

  function InFlightWeight(s: State): nat -> int {
    (k: nat) => if k < |s.procs| && InFlight(s.procs[k].pc) then 1 else 0
  }

  /** References held are processes, less those without a user, plus those in flight. */
  lemma {:induction false} HeldBalance(s: State)
    requires Shape(s)
    ensures Sum(|s.procs|, HeldWeight(s)) + Sum(|s.procs|, UserlessWeight(s))
         == |s.procs| + Sum(|s.procs|, InFlightWeight(s))
  {
    hide Sum;
    var n := |s.procs|;
    var one: nat -> int := (k: nat) => 1;
    var both: nat -> int := (k: nat) => HeldWeight(s)(k) + UserlessWeight(s)(k);
    SumAdd(n, HeldWeight(s), UserlessWeight(s), both);
    SumAdd(n, one, InFlightWeight(s), both);
    SumBounds(n, one, 1, 1);
  }

  lemma {:induction false} NoSlotMeansAllOccupied(users: seq<User>, key: string)
    requires UserSlot(users, key).None?
    ensures Sum(|users|, OccupiedWeight(users)) == |users|
  {
    SumBounds(|users|, OccupiedWeight(users), 1, 1);
  }

  /** Pigeonhole. A client that is being counted finds a user slot unless as many
      authentications are in flight as processes have no user. */
  lemma {:induction false} ConnectFindsUser(s: State, c: nat, hostname: string)
    requires ProcsOk(s) && UsersOk(s) && At(s, c, ConnLocked)
    requires Sum(|s.procs|, InFlightWeight(s)) < Sum(|s.procs|, UserlessWeight(s))
    ensures UserSlot(s.t.users, hostname).Some?
  {
    hide Sum, UsersOk;
    OccupiedAtMostHeld(s);
    HeldBalance(s);
    if UserSlot(s.t.users, hostname).None? {
      NoSlotMeansAllOccupied(s.t.users, hostname);
    }
  }

  /** The client itself has no user, so nothing in flight is enough. */
  lemma {:induction false} QuietConnectFindsUser(s: State, c: nat, hostname: string)
    requires ProcsOk(s) && UsersOk(s) && At(s, c, ConnLocked)
    requires forall k :: 0 <= k < MAX_PROC ==> !InFlight(s.procs[k].pc)
    ensures UserSlot(s.t.users, hostname).Some?
  {
    assert ProcOk(s.t, s.t.slots[c], s.procs[c]);
    hide Sum, UsersOk, ProcsOk;
    SumBounds(|s.procs|, InFlightWeight(s), 0, 0);
    SumTerm(|s.procs|, UserlessWeight(s), c);
    ConnectFindsUser(s, c, hostname);
  }
}
