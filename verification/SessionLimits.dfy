/** What the limits guarantee over every run: connections per user, slots per
    address, and all the invariants together. */
module SessionLimits {
  import opened Wrappers
  import opened Sums
  import opened SessionTables
  import opened SessionProtocol
  import opened SessionInvariants
  import opened SessionCounts
  import opened SessionUsers

  // ----- clients per user

  /** The process has passed a check against a limit of at most `L` for user slot
      `u`: as the user it has, or as the one it is about to move to. */
  predicate PassedAt(slot: Slot, p: Proc, u: nat, L: nat) {
    || (p.checked && p.limit <= L && slot.user == Some(u))
    || ((p.pc.Sharing? || p.pc.AuthPassed?) && p.newlimit <= L && p.newuser == u && slot.user != Some(u))
  }

  function PassedWeight(s: State, u: nat, L: nat): nat -> int {
    (k: nat) =>
      if k < |s.procs| && k < |s.t.slots| && PassedAt(s.t.slots[k], s.procs[k], u, L) then 1 else 0
  }

  ghost predicate LimitOk(s: State, u: nat, L: nat) {
    Sum(|s.procs|, PassedWeight(s, u, L)) <= L
  }

  /** For every user and every number: at most that many clients were let in to
      the user under limits up to it. */
  ghost predicate LimitsOk(s: State) {
    forall u: nat, L: nat :: u < MAX_USERS ==> LimitOk(s, u, L)
  }

  /** Whoever has passed holds a reference. */
  lemma {:induction false} PassedAtMostRefs(s: State, u: nat, L: nat)
    requires Shape(s)
    ensures Sum(|s.procs|, PassedWeight(s, u, L)) <= Refs(s, u)
  {
    SumLeq(|s.procs|, PassedWeight(s, u, L), RefWeight(s, u));
  }

  /** `step` lets its process in to `u` under a limit of at most `L`. */
  predicate Grants(s: State, step: Step, u: nat, L: nat) {
    match step
    case Admit(c, limit) => c < |s.t.slots| && s.t.slots[c].user == Some(u) && limit <= L
    case AuthAccept(c, limit, _) =>
      c < |s.procs| && c < |s.t.slots| && s.procs[c].newuser == u && s.t.slots[c].user != Some(u) && limit <= L
    case _ => false
  }

  /** The process that steps is no more entitled than it was. */
  ghost predicate NotGranted(s: State, s': State, c: nat, u: nat, L: nat) {
    c < |s'.procs| && c < |s'.t.slots| && c < |s.procs| && c < |s.t.slots| &&
    (PassedAt(s'.t.slots[c], s'.procs[c], u, L) ==> PassedAt(s.t.slots[c], s.procs[c], u, L))
  }

  lemma {:induction false} BusyGranted(s: State, step: Step, u: nat, L: nat)
    requires ProcsOk(s) && Enabled(s, step) && ChangesUsers(step)
    ensures NotGranted(s, After(s, step), Actor(s, step), u, L)
  {
    hide PointersOk, UserSlot, AddUser, DropUser, CountIp, FirstFree, WithUser, WithoutUser, KeysOk;
    var c := Actor(s, step);
    assert ProcOk(s.t, s.t.slots[c], s.procs[c]);
  }

  lemma {:induction false} QuietGranted(s: State, step: Step, u: nat, L: nat)
    requires ProcsOk(s) && Enabled(s, step) && !ChangesUsers(step) && !Grants(s, step, u, L)
    ensures NotGranted(s, After(s, step), Actor(s, step), u, L)
  {
    hide PointersOk, UserSlot, CountIp, FirstFree, Counted, Closed, Moved, Found, GivenUp, KeysOk;
    var c := Actor(s, step);
    assert ProcOk(s.t, s.t.slots[c], s.procs[c]);
  }

  /** Any other step leaves the process no more entitled than it was. */
  lemma {:induction false} NothingGranted(s: State, step: Step, u: nat, L: nat)
    requires ProcsOk(s) && Enabled(s, step) && !Grants(s, step, u, L)
    ensures NotGranted(s, After(s, step), Actor(s, step), u, L)
  {
    hide *;
    if ChangesUsers(step) {
      BusyGranted(s, step, u, L);
    } else {
      QuietGranted(s, step, u, L);
    }
  }

  /** A grant was checked: the user's count is within the limit, or the client is
      exempt and not counted. */
  lemma {:induction false} GrantWasChecked(s: State, step: Step, u: nat, L: nat)
    requires ProcsOk(s) && Enabled(s, step) && Grants(s, step, u, L)
    ensures u < MAX_USERS && After(s, step).t == s.t
    ensures s.t.users[u].connections <= L
         || (var s', c := After(s, step), Actor(s, step);
             c < |s'.procs| && !PassedAt(s'.t.slots[c], s'.procs[c], u, L))
  {
    var c := Actor(s, step);
    assert ProcOk(s.t, s.t.slots[c], s.procs[c]);
    hide PhaseOk;
  }

  lemma {:induction false} LimitKept(s: State, step: Step, u: nat, L: nat)
    requires ProcsOk(s) && UsersOk(s) && Enabled(s, step) && u < MAX_USERS
    requires LimitOk(s, u, L)
    ensures LimitOk(After(s, step), u, L)
  {
    hide After, Enabled, ProcsOk, Actor, PassedAt, Sum, Grants, KeysOk, Refs;
    var s', c := After(s, step), Actor(s, step);
    StepLocal(s, step);
    if Grants(s, step, u, L) {
      GrantWasChecked(s, step, u, L);
      if s.t.users[u].connections <= L {
        UsersOkKept(s, step);
        PassedAtMostRefs(s', u, L);
      } else {
        PassedLeq(s, s', c, u, L);
      }
    } else {
      NothingGranted(s, step, u, L);
      PassedLeq(s, s', c, u, L);
    }
  }

  lemma {:induction false} PassedLeq(s: State, s': State, c: nat, u: nat, L: nat)
    requires OthersSame(s, s', c) && c < MAX_PROC
    requires PassedAt(s'.t.slots[c], s'.procs[c], u, L) ==> PassedAt(s.t.slots[c], s.procs[c], u, L)
    ensures Sum(|s'.procs|, PassedWeight(s', u, L)) <= Sum(|s.procs|, PassedWeight(s, u, L))
  {
    SumLeq(|s.procs|, PassedWeight(s', u, L), PassedWeight(s, u, L));
  }

  /** Every admitted client that is not exempt has passed a check. */
  ghost predicate AdmittedPassed(s: State) {
    && Shape(s)
    && forall k :: 0 <= k < MAX_PROC && Admitted(s.procs[k].pc) && !s.procs[k].unlimit ==> s.procs[k].checked
  }

  lemma {:induction false} ActorPassed(s: State, step: Step)
    requires ProcsOk(s) && AdmittedPassed(s) && Enabled(s, step)
    ensures var s', c := After(s, step), Actor(s, step);
            c < |s'.procs| && (Admitted(s'.procs[c].pc) && !s'.procs[c].unlimit ==> s'.procs[c].checked)
  {
    hide PointersOk, UserSlot, AddUser, DropUser, CountedTables, ClosedTables, MovedTables, CountIp, FirstFree,
      PhaseOk;
  }

  lemma {:induction false} AdmittedPassedKept(s: State, step: Step)
    requires ProcsOk(s) && UsersOk(s) && AdmittedPassed(s) && Enabled(s, step)
    ensures AdmittedPassed(After(s, step))
  {
    StepLocal(s, step);
    ActorPassed(s, step);
    hide After, Enabled, ProcsOk, UsersOk, Admitted, Actor;
  }

  /** The admitted clients of user `u` that were checked against a limit of `L` or
      less, exempt ones that an authentication checked later among them. */
  function AdmittedWeight(s: State, u: nat, L: nat): nat -> int {
    (k: nat) =>
      if k < |s.procs| && k < |s.t.slots| && Admitted(s.procs[k].pc) && s.procs[k].checked
         && s.t.slots[k].user == Some(u) && s.procs[k].limit <= L
      then 1 else 0
  }

  /** Never more of them than the limit, whatever the interleaving. */
  lemma {:induction false} AdmittedWithinLimit(s: State, u: nat, L: nat)
    requires LimitsOk(s) && u < MAX_USERS
    ensures Sum(|s.procs|, AdmittedWeight(s, u, L)) <= L
  {
    SumLeq(|s.procs|, AdmittedWeight(s, u, L), PassedWeight(s, u, L));
    assert LimitOk(s, u, L);
  }

  // ----- slots per address

  lemma {:induction false} CountIpUpdate(slots: seq<Slot>, i: nat, x: Slot, ip: nat)
    requires i < |slots|
    ensures CountIp(slots[i := x], ip)
         == CountIp(slots, ip) - (if slots[i].ip == ip then 1 else 0) + (if x.ip == ip then 1 else 0)
    decreases |slots|
  {
    var n := |slots| - 1;
    if i < n {
      assert slots[i := x][..n] == slots[..n][i := x];
      CountIpUpdate(slots[..n], i, x, ip);
    } else {
      assert slots[i := x][..n] == slots[..n];
    }
  }

  /** Only the daemon gives a slot an address. */
  lemma {:induction false} ActorAddress(s: State, step: Step, ip: nat)
    requires ProcsOk(s) && Enabled(s, step) && !step.DaemonAlloc? && ip != 0
    ensures var s', c := After(s, step), Actor(s, step);
            c < |s'.t.slots| && c < |s.t.slots| && (s'.t.slots[c].ip == ip ==> s.t.slots[c].ip == ip)
  {
    hide PointersOk, UserSlot, AddUser, DropUser, CountedTables, ClosedTables, MovedTables, PhaseOk;
  }

  /** The daemon asks for no more than `L` slots of this address. */
  predicate AsksWithin(step: Step, ip: nat, L: nat) {
    step.DaemonAlloc? && step.ip == ip ==> 0 < step.maxcon <= L
  }

  lemma {:induction false} SlotsWithinLimitKept(s: State, step: Step, ip: nat, L: nat)
    requires ProcsOk(s) && UsersOk(s) && Enabled(s, step) && ip != 0 && AsksWithin(step, ip, L)
    requires CountIp(s.t.slots, ip) <= L
    ensures CountIp(After(s, step).t.slots, ip) <= L
  {
    hide CountIp, UsersOk, FirstFree;
    var s', c := After(s, step), Actor(s, step);
    StepLocal(s, step);
    if step.DaemonAlloc? {
      var i := SlotFor(s.t.slots, step.ip, step.maxcon);
      if i.Some? {
        assert ProcOk(s.t, s.t.slots[i.value], s.procs[i.value]);
        CountIpUpdate(s.t.slots, i.value, s'.t.slots[i.value], ip);
      }
    } else {
      ActorAddress(s, step, ip);
      assert s'.t.slots == s.t.slots[c := s'.t.slots[c]];
      CountIpUpdate(s.t.slots, c, s'.t.slots[c], ip);
    }
  }

  // ----- runs

  /** Everything that holds between any two steps. */
  ghost predicate Inv(s: State) {
    && ProcsOk(s) && UsersOk(s) && LockOk(s) && ProfilesOk(s) && UserCountOk(s.t)
    && LimitsOk(s) && AdmittedPassed(s)
  }

  lemma {:induction false} InvKept(s: State, step: Step)
    requires Inv(s) && Enabled(s, step)
    ensures Inv(After(s, step))
  {
    hide After, Enabled, ProcsOk, UsersOk, LockOk, ProfilesOk, UserCountOk, AdmittedPassed, LimitOk;
    ProcsOkKept(s, step);
    UsersOkKept(s, step);
    LockOkKept(s, step);
    ProfilesOkKept(s, step);
    UserCountKept(s, step);
    AdmittedPassedKept(s, step);
    forall u: nat, L: nat | u < MAX_USERS ensures LimitOk(After(s, step), u, L) {
      LimitKept(s, step, u, L);
    }
  }

  lemma {:induction false} InitialInv(profiles: nat)
    ensures Inv(Initial(profiles))
  {
    var s := Initial(profiles);
    var n := |s.procs|;
    hide Sum;
    forall u | 0 <= u < MAX_USERS ensures Refs(s, u) == 0 {
      SumBounds(n, RefWeight(s, u), 0, 0);
    }
    SumBounds(n, LockWeight(s), 0, 0);
    forall prf | 0 <= prf < profiles ensures Sum(n, OnWeight(s, prf)) == 0 {
      SumBounds(n, OnWeight(s, prf), 0, 0);
    }
    SumBounds(|s.t.users|, OccupiedWeight(s.t.users), 0, 0);
    SumBounds(|s.t.profiles|, NumWeight(s.t.profiles), 0, 0);
    forall u: nat, L: nat | u < MAX_USERS ensures LimitOk(s, u, L) {
      SumBounds(n, PassedWeight(s, u, L), 0, 0);
    }
  }

  /** A run: every step is taken where it may be. */
  ghost predicate Runs(s: State, steps: seq<Step>, s': State)
    requires Inv(s)
    decreases |steps|
  {
    if steps == [] then s == s'
    else Enabled(s, steps[0]) && (InvKept(s, steps[0]); Runs(After(s, steps[0]), steps[1..], s'))
  }

  lemma {:induction false} RunInv(s: State, steps: seq<Step>, s': State)
    requires Inv(s) && Runs(s, steps, s')
    ensures Inv(s')
    decreases |steps|
  {
    hide Enabled, After, ProcsOk, UsersOk, LockOk, ProfilesOk, UserCountOk, LimitsOk, AdmittedPassed;
    if steps != [] {
      InvKept(s, steps[0]);
      RunInv(After(s, steps[0]), steps[1..], s');
    }
  }

  /** Safety of every run, from the empty tables or any state they lead to: at its
      end each user slot counts the clients that point at it and the
      authentications in flight to it, and is empty when there are none; every admitted
      client that is not exempt was checked, and for any limit no more clients are
      admitted to the user under it than that; and the lock has at most one holder. */
  lemma {:induction false} EveryRunIsSafe(start: State, steps: seq<Step>, s: State, u: nat, limit: nat)
    requires Inv(start) && Runs(start, steps, s)
    requires u < |s.t.users|
    ensures s.t.users[u].connections == Refs(s, u)
    ensures s.t.users[u].key == "" <==> Refs(s, u) == 0
    ensures forall k :: 0 <= k < |s.procs| && Admitted(s.procs[k].pc) && !s.procs[k].unlimit ==> s.procs[k].checked
    ensures Sum(|s.procs|, AdmittedWeight(s, u, limit)) <= limit
    ensures forall i, j :: 0 <= i < j < |s.procs| ==> !(Critical(s.procs[i].pc) && Critical(s.procs[j].pc))
  {
    hide Runs, Sum, Refs, LockOk, ProfilesOk, UserCountOk;
    RunInv(start, steps, s);
    AdmittedWithinLimit(s, u, limit);
    forall i, j | 0 <= i < j < |s.procs| ensures !(Critical(s.procs[i].pc) && Critical(s.procs[j].pc)) {
      MutualExclusion(s, i, j);
    }
  }

  /** An address with a fixed limit never holds more slots than that. */
  lemma {:induction false} RunSlotsWithinLimit(s: State, steps: seq<Step>, s': State, ip: nat, L: nat)
    requires Inv(s) && Runs(s, steps, s') && ip != 0
    requires forall i :: 0 <= i < |steps| ==> AsksWithin(steps[i], ip, L)
    requires CountIp(s.t.slots, ip) <= L
    ensures CountIp(s'.t.slots, ip) <= L
    decreases |steps|
  {
    hide Enabled, After, CountIp, AsksWithin, ProcsOk, UsersOk, LockOk, ProfilesOk, UserCountOk, LimitsOk,
      AdmittedPassed;
    if steps != [] {
      InvKept(s, steps[0]);
      SlotsWithinLimitKept(s, steps[0], ip, L);
      RunSlotsWithinLimit(After(s, steps[0]), steps[1..], s', ip, L);
    }
  }

  /** Every step of the run chooses profiles by key. */
  ghost predicate RunChoosesByKey(s: State, steps: seq<Step>, s': State, prof: string -> nat)
    requires Inv(s) && Runs(s, steps, s')
    decreases |steps|
  {
    steps != [] ==>
      && ChoosesByKey(s, steps[0], prof)
      && (InvKept(s, steps[0]); RunChoosesByKey(After(s, steps[0]), steps[1..], s', prof))
  }

  /** If profiles are chosen by key, each counts exactly its users at the end of
      every run. */
  lemma {:induction false} RunPerProfile(s: State, steps: seq<Step>, s': State, prof: string -> nat)
    requires Inv(s) && Runs(s, steps, s') && RunChoosesByKey(s, steps, s', prof)
    requires PerProfileOk(s.t, prof) && FollowsKeys(s, prof)
    ensures PerProfileOk(s'.t, prof)
    decreases |steps|
  {
    hide Enabled, After, ProcsOk, UsersOk, LockOk, ProfilesOk, UserCountOk, LimitsOk, AdmittedPassed, PerProfileOk,
      FollowsKeys, ChoosesByKey;
    if steps != [] {
      InvKept(s, steps[0]);
      PerProfileKept(s, steps[0], prof);
      FollowsKeysKept(s, steps[0], prof);
      RunPerProfile(After(s, steps[0]), steps[1..], s', prof);
    }
  }
}
