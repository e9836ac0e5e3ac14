/** When the user counters of the profiles are exact: exactly when the profile of a
    user is a function of the name. */
module SessionDrift {
  import opened Wrappers
  import opened Sums
  import opened SessionTables
  import opened SessionProtocol
  import opened SessionInvariants
  import opened SessionCounts
  import opened SessionUsers
  import opened SessionLimits

  // ----- on the tables

  /** A key that takes an empty slot is found there. */
  lemma {:induction false} NewUserFound(users: seq<User>, key: string)
    requires KeysOk(users) && key != "" && !IsKnown(users, key) && UserSlot(users, key).Some?
    ensures var id := UserSlot(users, key).value;
            && users[id] == ZERO_USER
            && WithUser(users, key) == users[id := User(key, 1)]
            && IsKnown(WithUser(users, key), key) && UserSlot(WithUser(users, key), key) == Some(id)
  {
    var id := UserSlot(users, key).value;
    assert users[id].key == "";
    var now := WithUser(users, key);
    assert now[id].key == key && forall k :: 0 <= k < id ==> now[k].key != key;
  }

  /** Two clients of one user come with profiles `p` and `q` and leave again. The user
      table is as it was; the counters are if and only if the profiles are the same. */
  lemma {:induction false} PerProfileDriftsExactly(t: Tables, key: string, p: nat, q: nat)
    requires KeysOk(t.users) && key != "" && !IsKnown(t.users, key) && UserSlot(t.users, key).Some?
    requires p < |t.profiles| && q < |t.profiles|
    ensures UserSlot(WithUser(t.users, key), key) == UserSlot(t.users, key)
    ensures var id := UserSlot(t.users, key).value;
            var both := AddUser(AddUser(t, key, p), key, q);
            var none := DropUser(DropUser(both, id, p), id, q);
            none.users == t.users && none.numusers == t.numusers && (none.profiles == t.profiles <==> p == q)
  {
    NewUserFound(t.users, key);
    hide UserSlot, IsKnown;
    var id := UserSlot(t.users, key).value;
    var one := AddUser(t, key, p);
    var both := AddUser(one, key, q);
    assert both.users == t.users[id := User(key, 2)];
    var left := DropUser(both, id, p);
    assert left.users == t.users[id := User(key, 1)];
    var none := DropUser(left, id, q);
    assert none.users == t.users;
    assert left.profiles[p].numusers == Plus1(t.profiles[p].numusers);
    if p == q {
      assert none.profiles == t.profiles;
    } else {
      assert none.profiles[p].numusers == Plus1(t.profiles[p].numusers);
    }
  }

  // ----- runs that attach users to profiles within a relation

  type Relation = (string, nat) -> bool

  /** A step that attaches a user attaches it to a profile the relation allows. */
  ghost predicate Within(s: State, step: Step, allowed: Relation)
    requires ProcsOk(s) && Enabled(s, step)
  {
    && (step.ConnCount? ==> s.t.slots[step.c].profile.Some? && allowed(step.hostname, s.t.slots[step.c].profile.value))
    && (step.AuthFind? ==> allowed(step.username, step.newprf))
  }

  ghost predicate RunWithin(s: State, steps: seq<Step>, s': State, allowed: Relation)
    requires Inv(s) && Runs(s, steps, s')
    decreases |steps|
  {
    steps != [] ==>
      && Within(s, steps[0], allowed)
      && (InvKept(s, steps[0]); RunWithin(After(s, steps[0]), steps[1..], s', allowed))
  }

  /** A run within the relation leads from `s` to `s'`. */
  ghost predicate Reaches(s: State, s': State, allowed: Relation)
    requires Inv(s)
  {
    exists steps :: Runs(s, steps, s') && RunWithin(s, steps, s', allowed)
  }

  ghost predicate Functional(allowed: Relation, profiles: nat) {
    forall key, p: nat, q: nat ::
      key != "" && p < profiles && q < profiles && allowed(key, p) && allowed(key, q) ==> p == q
  }

  ghost predicate NobodyLeft(s: State) {
    forall u :: 0 <= u < |s.t.users| ==> s.t.users[u].key == ""
  }

  ghost predicate CountersClear(s: State) {
    forall k :: 0 <= k < |s.t.profiles| ==> s.t.profiles[k].numusers == 0
  }

  // ----- a function of the name

  /** The profile the relation gives a name. */
  ghost function ProfileOf(allowed: Relation, profiles: nat, key: string): nat {
    if exists p: nat :: p < profiles && allowed(key, p) then
      var p: nat :| p < profiles && allowed(key, p);
      p
    else 0
  }

  ghost function ByName(allowed: Relation, profiles: nat): string -> nat {
    key => ProfileOf(allowed, profiles, key)
  }

  lemma {:induction false} WithinByKey(s: State, step: Step, allowed: Relation)
    requires ProcsOk(s) && Enabled(s, step) && Within(s, step, allowed) && Functional(allowed, |s.t.profiles|)
    ensures ChoosesByKey(s, step, ByName(allowed, |s.t.profiles|))
  {
    if step.ConnCount? {
      assert ProcOk(s.t, s.t.slots[step.c], s.procs[step.c]);
    }
  }

  lemma {:induction false} RunByKey(s: State, steps: seq<Step>, s': State, allowed: Relation)
    requires Inv(s) && Runs(s, steps, s') && RunWithin(s, steps, s', allowed)
    requires Functional(allowed, |s.t.profiles|)
    ensures RunChoosesByKey(s, steps, s', ByName(allowed, |s.t.profiles|))
    ensures |s'.t.profiles| == |s.t.profiles| && Inv(s')
    decreases |steps|
  {
    hide Enabled, After, Within, ChoosesByKey, ByName, ProfileOf, Functional, Actor;
    if steps != [] {
      InvKept(s, steps[0]);
      InvParts(s);
      StepLocal(s, steps[0]);
      WithinByKey(s, steps[0], allowed);
      RunByKey(After(s, steps[0]), steps[1..], s', allowed);
    }
  }

  lemma {:induction false} InvParts(s: State)
    requires Inv(s)
    ensures ProcsOk(s) && UsersOk(s)
  {
  }

  lemma {:induction false} InitialByKey(profiles: nat, prof: string -> nat)
    ensures PerProfileOk(Initial(profiles).t, prof) && FollowsKeys(Initial(profiles), prof)
  {
    var t := Initial(profiles).t;
    hide Sum;
    forall prf | 0 <= prf < profiles
      ensures t.profiles[prf].numusers == Sum(|t.users|, BelongWeight(t.users, prof, prf))
    {
      SumBounds(|t.users|, BelongWeight(t.users, prof, prf), 0, 0);
    }
  }

  lemma {:induction false} NobodyCounted(t: Tables, prof: string -> nat)
    requires PerProfileOk(t, prof) && forall u :: 0 <= u < |t.users| ==> t.users[u].key == ""
    ensures forall k :: 0 <= k < |t.profiles| ==> t.profiles[k].numusers == 0
  {
    hide Sum;
    forall k | 0 <= k < |t.profiles| ensures t.profiles[k].numusers == 0 {
      SumBounds(|t.users|, BelongWeight(t.users, prof, k), 0, 0);
    }
  }

  /** Within a function every run that leaves nobody leaves no count. */
  lemma {:induction false} FunctionalClears(profiles: nat, allowed: Relation, s: State)
    requires Inv(Initial(profiles)) && Reaches(Initial(profiles), s, allowed)
    requires Functional(allowed, profiles) && NobodyLeft(s)
    ensures CountersClear(s)
  {
    hide Runs, RunWithin, Inv, PerProfileOk, FollowsKeys, RunChoosesByKey, ByName;
    var start := Initial(profiles);
    var prof := ByName(allowed, profiles);
    var steps :| Runs(start, steps, s) && RunWithin(start, steps, s, allowed);
    RunByKey(start, steps, s, allowed);
    InitialByKey(profiles, prof);
    RunPerProfile(start, steps, s, prof);
    NobodyCounted(s.t, prof);
  }

  // ----- no function: two clients are enough

  lemma {:induction false} RunSnoc(s: State, steps: seq<Step>, b: State, step: Step, allowed: Relation)
    requires Inv(s) && Runs(s, steps, b) && RunWithin(s, steps, b, allowed)
    requires Inv(b) && Enabled(b, step) && Within(b, step, allowed)
    ensures Inv(After(b, step))
    ensures Runs(s, steps + [step], After(b, step)) && RunWithin(s, steps + [step], After(b, step), allowed)
    decreases |steps|
  {
    hide Enabled, After, Within, ProcsOk, UsersOk, LockOk, ProfilesOk, UserCountOk, LimitsOk, AdmittedPassed;
    InvKept(b, step);
    if steps == [] {
      assert steps + [step] == [step];
      assert [step][1..] == [];
    } else {
      InvKept(s, steps[0]);
      RunSnoc(After(s, steps[0]), steps[1..], b, step, allowed);
      assert (steps + [step])[1..] == steps[1..] + [step];
    }
  }

  /** One more step. */
  lemma {:induction false} ReachesOn(s: State, b: State, step: Step, allowed: Relation)
    requires Inv(s) && Reaches(s, b, allowed)
    requires Inv(b) && Enabled(b, step) && Within(b, step, allowed)
    ensures Inv(After(b, step)) && Reaches(s, After(b, step), allowed)
  {
    hide Enabled, After, Within, Inv, Runs, RunWithin;
    var steps :| Runs(s, steps, b) && RunWithin(s, steps, b, allowed);
    RunSnoc(s, steps, b, step, allowed);
  }

  /** Nobody is inside the lock. */
  predicate Idle(s: State) {
    s.sem == 0 && !s.daemon
  }

  /** Process `c` of `s` stands at `pc` with this slot. */
  predicate Stands(s: State, c: nat, pc: Pc, prf: nat, user: Option<nat>) {
    && c < |s.procs| && c < |s.t.slots|
    && s.procs[c].pc == pc
    && s.t.slots[c].inuse && s.t.slots[c].profile == Some(prf) && s.t.slots[c].user == user
  }

  ghost predicate SameNums(a: seq<Profile>, b: seq<Profile>) {
    |a| == |b| && forall k :: 0 <= k < |a| ==> a[k].numusers == b[k].numusers
  }

  ghost predicate OtherProcs(s: State, s': State, c: nat) {
    && |s.procs| == |s'.procs| && |s.t.slots| == |s'.t.slots|
    && forall k :: 0 <= k < |s.procs| && k < |s.t.slots| && k != c ==>
         s.procs[k] == s'.procs[k] && s.t.slots[k] == s'.t.slots[k]
  }

  /** The daemon gives the first free slot to a new client. */
  lemma {:induction false} SlotTaken(start: State, s: State, c: nat, allowed: Relation) returns (b: State)
    requires Inv(start) && Inv(s) && Reaches(start, s, allowed) && Idle(s)
    requires c < MAX_PROC && FirstFree(s.t.slots, 0) == c
    ensures Inv(b) && Reaches(start, b, allowed) && Idle(b)
    ensures At(b, c, Taken) && c < |b.t.slots| && b.t.slots[c].inuse && OtherProcs(s, b, c)
    ensures b.t.users == s.t.users && b.t.profiles == s.t.profiles
  {
    hide Inv, Reaches, ProcsOk, FirstFree, CountIp;
    InvParts(s);
    var a := After(s, DaemonLock);
    ReachesOn(start, s, DaemonLock, allowed);
    InvParts(a);
    var step := DaemonAlloc(1, 0, false);
    ReachesOn(start, a, step, allowed);
    b := After(a, step);
  }

  lemma {:induction false} CountedNums(t: Tables, c: nat, hostname: string)
    requires c < |t.slots| && t.slots[c].profile.Some? && t.slots[c].profile.value < |t.profiles|
    requires UserSlot(t.users, hostname).Some?
    ensures SameNums(CountedTables(t, c, hostname).profiles, AddUser(t, hostname, t.slots[c].profile.value).profiles)
  {
    hide UserSlot, WithUser, IsKnown;
  }

  lemma {:induction false} ClosedNums(t: Tables, c: nat)
    requires c < |t.slots| && t.slots[c].profile.Some? && t.slots[c].profile.value < |t.profiles|
    requires t.slots[c].user.Some? && t.slots[c].user.value < |t.users|
    ensures SameNums(ClosedTables(t, c).profiles, DropUser(t, t.slots[c].user.value, t.slots[c].profile.value).profiles)
  {
    hide WithoutUser;
  }

  /** The client's process counts it on a profile and takes its user. */
  lemma {:induction false} ClientCounted(start: State, s: State, c: nat, prf: nat, key: string, allowed: Relation)
    returns (b: State)
    requires Inv(start) && Inv(s) && Reaches(start, s, allowed) && Idle(s)
    requires At(s, c, Taken) && c < |s.t.slots| && s.t.slots[c].inuse
    requires prf < |s.t.profiles| && key != "" && UserSlot(s.t.users, key).Some? && allowed(key, prf)
    ensures Inv(b) && Reaches(start, b, allowed) && Idle(b)
    ensures Stands(b, c, Checking, prf, UserSlot(s.t.users, key)) && OtherProcs(s, b, c)
    ensures b.t.users == WithUser(s.t.users, key)
    ensures SameNums(b.t.profiles, AddUser(s.t, key, prf).profiles)
  {
    hide Inv, Reaches, ProcsOk, UserSlot, WithUser, AddUser, CountedTables;
    InvParts(s);
    ReachesOn(start, s, ConnLock(c, prf), allowed);
    var s1 := After(s, ConnLock(c, prf));
    InvParts(s1);
    CountedNums(s1.t, c, key);
    AddUserNums(s.t, s1.t, key, prf);
    ReachesOn(start, s1, ConnCount(c, key), allowed);
    var s2 := After(s1, ConnCount(c, key));
    InvParts(s2);
    ReachesOn(start, s2, ConnUnlock(c), allowed);
    b := After(s2, ConnUnlock(c));
  }

  lemma {:induction false} AddUserNums(t: Tables, t': Tables, key: string, prf: nat)
    requires UserSlot(t.users, key).Some? && prf < |t.profiles|
    requires t.users == t'.users && t.profiles == t'.profiles
    ensures AddUser(t, key, prf).profiles == AddUser(t', key, prf).profiles
  {
    hide UserSlot, WithUser, IsKnown;
  }

  lemma {:induction false} ClosingLocked(start: State, s: State, c: nat, prf: nat, u: nat, allowed: Relation)
    returns (b: State)
    requires Inv(start) && Inv(s) && Reaches(start, s, allowed) && Idle(s)
    requires Stands(s, c, Checking, prf, Some(u))
    ensures Inv(b) && Reaches(start, b, allowed) && b.sem == 1 && !b.daemon && b.t == s.t
    ensures Stands(b, c, CloseLocked, prf, Some(u)) && OtherProcs(s, b, c)
  {
    hide Inv, Reaches, ProcsOk;
    InvParts(s);
    ReachesOn(start, s, CloseLock(c), allowed);
    b := After(s, CloseLock(c));
  }

  /** It closes again. */
  lemma {:induction false} ClientClosed(start: State, s: State, c: nat, prf: nat, u: nat, allowed: Relation)
    returns (b: State)
    requires Inv(start) && Inv(s) && Reaches(start, s, allowed) && Idle(s)
    requires Stands(s, c, Checking, prf, Some(u)) && u < |s.t.users| && prf < |s.t.profiles|
    ensures Inv(b) && Reaches(start, b, allowed) && Idle(b) && OtherProcs(s, b, c)
    ensures b.t.users == WithoutUser(s.t.users, u)
    ensures SameNums(b.t.profiles, DropUser(s.t, u, prf).profiles)
  {
    hide Inv, Reaches, ProcsOk, WithoutUser, DropUser, ClosedTables;
    var a := ClosingLocked(start, s, c, prf, u, allowed);
    InvParts(a);
    ClosedNums(a.t, c);
    ReachesOn(start, a, CloseBody(c), allowed);
    b := After(a, CloseBody(c));
  }

  lemma {:induction false} EmptyReach(s: State, allowed: Relation)
    requires Inv(s)
    ensures Reaches(s, s, allowed)
  {
    hide Inv;
    assert Runs(s, [], s) && RunWithin(s, [], s, allowed);
  }

  lemma {:induction false} NumsChain(a: Tables, b: Tables, key: string, p: nat, id: nat)
    requires SameNums(a.profiles, b.profiles) && a.users == b.users && p < |a.profiles| && id < |a.users|
    ensures UserSlot(a.users, key).Some? ==> SameNums(AddUser(a, key, p).profiles, AddUser(b, key, p).profiles)
    ensures SameNums(DropUser(a, id, p).profiles, DropUser(b, id, p).profiles)
  {
    hide UserSlot, WithUser, IsKnown, WithoutUser;
  }

  lemma {:induction false} FirstFreeAt(slots: seq<Slot>, c: nat)
    requires c < |slots| && !slots[c].inuse && forall k :: 0 <= k < c ==> slots[k].inuse
    ensures FirstFree(slots, 0) == c
  {
  }

  /** What is left in the end: one more on the first profile, one less on the second. */
  lemma {:induction false} TwoProfilesLeft(t: Tables, key: string, p: nat, q: nat, last: seq<Profile>)
    requires KeysOk(t.users) && key != "" && !IsKnown(t.users, key) && UserSlot(t.users, key).Some?
    requires p < |t.profiles| && q < |t.profiles| && p != q && t.profiles[p].numusers == 0
    requires UserSlot(WithUser(t.users, key), key) == UserSlot(t.users, key)
    requires var id := UserSlot(t.users, key).value;
             SameNums(last, DropUser(DropUser(AddUser(AddUser(t, key, p), key, q), id, p), id, q).profiles)
    ensures last[p].numusers == 1
  {
    NewUserFound(t.users, key);
    hide UserSlot, IsKnown;
  }

  lemma {:induction false} EmptyTables(profiles: nat, key: string)
    requires key != ""
    ensures var t := Initial(profiles).t;
            && KeysOk(t.users) && !IsKnown(t.users, key) && UserSlot(t.users, key).Some?
            && |t.profiles| == profiles && |t.slots| == MAX_PROC && |t.users| == MAX_USERS
            && (forall u :: 0 <= u < |t.users| ==> t.users[u].key == "")
            && (forall k :: 0 <= k < profiles ==> t.profiles[k].numusers == 0)
            && (forall k :: 0 <= k < MAX_PROC ==> !t.slots[k].inuse)
    ensures Idle(Initial(profiles))
  {
    var t := Initial(profiles).t;
    assert t.users[0].key == "";
  }

  /** A client connects in the first free slot. */
  lemma {:induction false} OneConnects(start: State, s: State, c: nat, prf: nat, key: string, allowed: Relation)
    returns (b: State)
    requires Inv(start) && Inv(s) && Reaches(start, s, allowed) && Idle(s)
    requires c < MAX_PROC == |s.t.slots| == |s.procs| && !s.t.slots[c].inuse
    requires forall k :: 0 <= k < c ==> s.t.slots[k].inuse
    requires prf < |s.t.profiles| && key != "" && UserSlot(s.t.users, key).Some? && allowed(key, prf)
    ensures Inv(b) && Reaches(start, b, allowed) && Idle(b)
    ensures Stands(b, c, Checking, prf, UserSlot(s.t.users, key)) && OtherProcs(s, b, c)
    ensures b.t.users == WithUser(s.t.users, key)
    ensures SameNums(b.t.profiles, AddUser(s.t, key, prf).profiles)
  {
    hide Inv, Reaches, UserSlot, WithUser, AddUser, FirstFree;
    FirstFreeAt(s.t.slots, c);
    var a := SlotTaken(start, s, c, allowed);
    b := ClientCounted(start, a, c, prf, key, allowed);
    AddUserNums(s.t, a.t, key, prf);
  }

  /** Both clients connect. */
  lemma {:induction false} TwoConnect(profiles: nat, key: string, p: nat, q: nat, allowed: Relation) returns (b: State)
    requires Inv(Initial(profiles)) && key != "" && p < profiles && q < profiles && allowed(key, p) && allowed(key, q)
    ensures var t := Initial(profiles).t;
            var start := Initial(profiles);
            && UserSlot(t.users, key).Some? && UserSlot(WithUser(t.users, key), key).Some?
            && Inv(b) && Reaches(start, b, allowed) && Idle(b)
            && Stands(b, 0, Checking, p, UserSlot(t.users, key)) && Stands(b, 1, Checking, q, UserSlot(t.users, key))
            && b.t.users == WithUser(WithUser(t.users, key), key)
            && SameNums(b.t.profiles, AddUser(AddUser(t, key, p), key, q).profiles)
  {
    hide Inv, Reaches, UserSlot, WithUser, AddUser, KeysOk, IsKnown, Initial;
    var start := Initial(profiles);
    EmptyTables(profiles, key);
    EmptyReach(start, allowed);
    NewUserFound(start.t.users, key);
    InvShape(start);
    var one := OneConnects(start, start, 0, p, key, allowed);
    InvShape(one);
    b := OneConnects(start, one, 1, q, key, allowed);
    NumsChain(one.t, AddUser(start.t, key, p), key, q, 0);
  }

  lemma {:induction false} InvShape(s: State)
    requires Inv(s)
    ensures Shape(s)
  {
  }

  /** Both leave again, and somebody is still counted. */
  lemma {:induction false} TwoLeave(profiles: nat, key: string, p: nat, q: nat, allowed: Relation) returns (b: State)
    requires Inv(Initial(profiles)) && key != "" && p < profiles && q < profiles && p != q
    requires allowed(key, p) && allowed(key, q)
    ensures Inv(b) && Reaches(Initial(profiles), b, allowed) && NobodyLeft(b) && !CountersClear(b)
  {
    hide Inv, Reaches, UserSlot, WithUser, AddUser, KeysOk, IsKnown, Initial, WithoutUser, DropUser;
    var start := Initial(profiles);
    EmptyTables(profiles, key);
    PerProfileDriftsExactly(start.t, key, p, q);
    NewUserFound(start.t.users, key);
    var id := UserSlot(start.t.users, key).value;
    var both := AddUser(AddUser(start.t, key, p), key, q);
    var two := TwoConnect(profiles, key, p, q, allowed);
    var left := ClientClosed(start, two, 0, p, id, allowed);
    NumsChain(two.t, both, key, p, id);
    b := ClientClosed(start, left, 1, q, id, allowed);
    NumsChain(left.t, DropUser(both, id, p), key, q, id);
    TwoProfilesLeft(start.t, key, p, q, b.t.profiles);
  }

  /** Every run within the relation that leaves nobody leaves all counters at 0 if and
      only if the relation gives every name one profile at most. */
  lemma {:induction false} CountersClearExactly(profiles: nat, allowed: Relation)
    ensures Inv(Initial(profiles))
    ensures (forall s :: Reaches(Initial(profiles), s, allowed) && NobodyLeft(s) ==> CountersClear(s))
       <==> Functional(allowed, profiles)
  {
    InitialInv(profiles);
    hide Inv, Reaches, NobodyLeft, CountersClear, Initial;
    if Functional(allowed, profiles) {
      forall s | Reaches(Initial(profiles), s, allowed) && NobodyLeft(s) ensures CountersClear(s) {
        FunctionalClears(profiles, allowed, s);
      }
    } else {
      var key, p: nat, q: nat :|
        key != "" && p < profiles && q < profiles && allowed(key, p) && allowed(key, q) && p != q;
      var s := TwoLeave(profiles, key, p, q, allowed);
    }
  }

  // ----- known users keep the profile of their holders

  /** Everyone who holds the key, or is about to, has this profile. */
  ghost predicate HoldersOn(s: State, key: string, prf: nat)
    requires Shape(s)
  {
    forall k :: 0 <= k < MAX_PROC ==>
      && (s.t.slots[k].user.Some? && s.procs[k].key == key ==> s.t.slots[k].profile == Some(prf))
      && (InFlight(s.procs[k].pc) && s.procs[k].newkey == key ==> s.procs[k].newprf == prf)
  }

  /** A step that attaches a user takes the profile of its holders. */
  ghost predicate Sticky(s: State, step: Step)
    requires ProcsOk(s) && Enabled(s, step)
  {
    && (step.ConnCount? ==>
          s.t.slots[step.c].profile.Some? && HoldersOn(s, step.hostname, s.t.slots[step.c].profile.value))
    && (step.AuthFind? ==> HoldersOn(s, step.username, step.newprf))
  }

  lemma {:induction false} SumPositive(n: nat, f: nat -> int) returns (k: nat)
    requires Sum(n, f) > 0
    ensures k < n && f(k) > 0
  {
    if f(n - 1) > 0 {
      k := n - 1;
    } else {
      k := SumPositive(n - 1, f);
    }
  }

  /** A known user has a holder. */
  lemma {:induction false} KnownIsHeld(s: State, key: string) returns (k: nat)
    requires ProcsOk(s) && UsersOk(s) && key != "" && IsKnown(s.t.users, key)
    ensures k < MAX_PROC
    ensures (s.t.slots[k].user.Some? && s.procs[k].key == key) || (InFlight(s.procs[k].pc) && s.procs[k].newkey == key)
  {
    hide Sum;
    var u := FindKey(s.t.users, key, 0);
    k := SumPositive(|s.procs|, RefWeight(s, u));
    assert ProcOk(s.t, s.t.slots[k], s.procs[k]);
  }

  /** An unknown key has none. */
  lemma {:induction false} UnknownNotHeld(s: State, key: string, k: nat)
    requires ProcsOk(s) && key != "" && !IsKnown(s.t.users, key) && k < MAX_PROC
    ensures s.t.slots[k].user.Some? ==> s.procs[k].key != key
    ensures InFlight(s.procs[k].pc) ==> s.procs[k].newkey != key
  {
    assert ProcOk(s.t, s.t.slots[k], s.procs[k]);
  }

  ghost function Instead(prof: string -> nat, key: string, prf: nat): string -> nat {
    x => if x == key then prf else prof(x)
  }

  lemma {:induction false} InsteadExact(t: Tables, prof: string -> nat, key: string, prf: nat)
    requires PerProfileOk(t, prof) && key != "" && !IsKnown(t.users, key)
    ensures PerProfileOk(t, Instead(prof, key, prf))
  {
    hide Sum;
    var prof' := Instead(prof, key, prf);
    forall k | 0 <= k < |t.profiles| ensures t.profiles[k].numusers == Sum(|t.users|, BelongWeight(t.users, prof', k)) {
      SumLeq(|t.users|, BelongWeight(t.users, prof, k), BelongWeight(t.users, prof', k));
      SumLeq(|t.users|, BelongWeight(t.users, prof', k), BelongWeight(t.users, prof, k));
    }
  }

  /** The profile by name after an attachment: as it was for a known user, the one chosen
      for a new one. */
  lemma {:induction false} AttachedBy(s: State, key: string, prf: nat, prof: string -> nat)
    returns (prof': string -> nat)
    requires ProcsOk(s) && UsersOk(s) && key != "" && HoldersOn(s, key, prf)
    requires PerProfileOk(s.t, prof) && FollowsKeys(s, prof)
    ensures PerProfileOk(s.t, prof') && FollowsKeys(s, prof') && prof'(key) == prf
  {
    hide PerProfileOk, IsKnown, UsersOk, Refs;
    if IsKnown(s.t.users, key) {
      var k := KnownIsHeld(s, key);
      prof' := prof;
    } else {
      prof' := Instead(prof, key, prf);
      InsteadExact(s.t, prof, key, prf);
      forall k: nat | k < MAX_PROC
        ensures s.t.slots[k].user.Some? ==> s.procs[k].key != key
        ensures InFlight(s.procs[k].pc) ==> s.procs[k].newkey != key
      {
        UnknownNotHeld(s, key, k);
      }
    }
  }

  lemma {:induction false} StickyKept(s: State, step: Step, prof: string -> nat) returns (prof': string -> nat)
    requires ProcsOk(s) && UsersOk(s) && Enabled(s, step) && Sticky(s, step)
    requires PerProfileOk(s.t, prof) && FollowsKeys(s, prof)
    ensures PerProfileOk(After(s, step).t, prof') && FollowsKeys(After(s, step), prof')
  {
    hide PerProfileOk, FollowsKeys, UsersOk, HoldersOn, After, PhaseOk, PointersOk;
    prof' := prof;
    if step.ConnCount? {
      prof' := AttachedBy(s, step.hostname, s.t.slots[step.c].profile.value, prof);
    } else if step.AuthFind? {
      prof' := AttachedBy(s, step.username, step.newprf, prof);
    }
    PerProfileKept(s, step, prof');
    FollowsKeysKept(s, step, prof');
  }

  ghost predicate RunSticky(s: State, steps: seq<Step>, s': State)
    requires Inv(s) && Runs(s, steps, s')
    decreases |steps|
  {
    steps != [] ==>
      && Sticky(s, steps[0])
      && (InvKept(s, steps[0]); RunSticky(After(s, steps[0]), steps[1..], s'))
  }

  /** Over every run that gives known users the profile of their holders, each profile
      counts exactly the users whose holders are on it. */
  lemma {:induction false} StickyRunExact(s: State, steps: seq<Step>, s': State, prof: string -> nat)
    returns (prof': string -> nat)
    requires Inv(s) && Runs(s, steps, s') && RunSticky(s, steps, s')
    requires PerProfileOk(s.t, prof) && FollowsKeys(s, prof)
    ensures PerProfileOk(s'.t, prof') && FollowsKeys(s', prof')
    decreases |steps|
  {
    hide PerProfileOk, FollowsKeys, UsersOk, Sticky, After, ProcsOk, Enabled, LockOk, ProfilesOk, UserCountOk, LimitsOk,
      AdmittedPassed;
    prof' := prof;
    if steps != [] {
      InvKept(s, steps[0]);
      prof' := StickyKept(s, steps[0], prof);
      prof' := StickyRunExact(After(s, steps[0]), steps[1..], s', prof');
    }
  }
}
