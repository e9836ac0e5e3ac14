/** The lock, the profile counts and the user counts of the session protocol. */
module SessionCounts {
  import opened Wrappers
  import opened Sums
  import opened SessionTables
  import opened SessionProtocol
  import opened SessionInvariants

  // ----- the lock

  function HoldsLock(p: Proc): int {
    if Critical(p.pc) then 1 else 0
  }

  function LockWeight(s: State): nat -> int {
    (k: nat) => if k < |s.procs| then HoldsLock(s.procs[k]) else 0
  }

  /** The semaphore counts the holders of the lock, and there is at most one. */
  ghost predicate LockOk(s: State) {
    && s.sem == Sum(|s.procs|, LockWeight(s)) + (if s.daemon then 1 else 0)
    && s.sem <= 1
  }

  /** A step moves the semaphore with its own hold on the lock. */
  ghost predicate LockMove(s: State, s': State, c: nat) {
    && c < |s.procs| && c < |s'.procs|
    && s'.sem - s.sem == HoldsLock(s'.procs[c]) - HoldsLock(s.procs[c])
                         + (if s'.daemon then 1 else 0) - (if s.daemon then 1 else 0)
    && (s'.sem > s.sem ==> s.sem == 0 && s'.sem == 1)
  }

  lemma {:induction false} QuietLock(s: State, step: Step)
    requires ProcsOk(s) && Enabled(s, step) && !ChangesUsers(step)
    requires HoldsLock(s.procs[Actor(s, step)]) == 1 || s.daemon ==> s.sem > 0
    ensures LockMove(s, After(s, step), Actor(s, step))
  {
    hide PointersOk, CountIp, FirstFree, OnCount, InFlight, Admitted;
    var c := Actor(s, step);
    assert ProcOk(s.t, s.t.slots[c], s.procs[c]);
  }

  lemma {:induction false} BusyLock(s: State, step: Step)
    requires ProcsOk(s) && Enabled(s, step) && ChangesUsers(step)
    requires HoldsLock(s.procs[Actor(s, step)]) == 1 ==> s.sem > 0
    ensures LockMove(s, After(s, step), Actor(s, step))
  {
    hide PointersOk, PhaseOk, UserSlot, AddUser, DropUser, CountedTables, ClosedTables, MovedTables;
  }

  lemma {:induction false} LockHeld(s: State, c: nat)
    requires LockOk(s) && c < |s.procs|
    ensures HoldsLock(s.procs[c]) == 1 || s.daemon ==> s.sem > 0
  {
    SumTerm(|s.procs|, LockWeight(s), c);
    SumBounds(|s.procs|, LockWeight(s), 0, 1);
  }

  lemma {:induction false} LockOkKept(s: State, step: Step)
    requires ProcsOk(s) && UsersOk(s) && LockOk(s) && Enabled(s, step)
    ensures LockOk(After(s, step))
  {
    hide After, Enabled, ProcsOk, UsersOk, Sum, HoldsLock, Actor;
    var s', c := After(s, step), Actor(s, step);
    StepLocal(s, step);
    LockHeld(s, c);
    if ChangesUsers(step) {
      BusyLock(s, step);
    } else {
      QuietLock(s, step);
    }
    SumChange(|s.procs|, LockWeight(s), LockWeight(s'), c);
  }

  /** Mutual exclusion: two processes are never inside the lock together, nor is
      one while the daemon is. */
  lemma {:induction false} MutualExclusion(s: State, i: nat, j: nat)
    requires LockOk(s) && i < j < |s.procs|
    ensures !(Critical(s.procs[i].pc) && Critical(s.procs[j].pc))
    ensures s.daemon ==> !Critical(s.procs[i].pc)
  {
    var w := LockWeight(s);
    SumTerm(|s.procs|, w, i);
    if Critical(s.procs[i].pc) && Critical(s.procs[j].pc) {
      var v: nat -> int := (k: nat) => if k == i then 0 else w(k);
      SumChange(|s.procs|, w, v, i);
      SumTerm(|s.procs|, v, j);
    }
  }

  // ----- connections per profile

  function OnAt(slot: Slot, p: Proc, prf: nat): int {
    if OnCount(p.pc) && slot.profile == Some(prf) then 1 else 0
  }

  function OnWeight(s: State, prf: nat): nat -> int {
    (k: nat) => if k < |s.procs| && k < |s.t.slots| then OnAt(s.t.slots[k], s.procs[k], prf) else 0
  }

  /** The count of a profile is the number of counted clients on it. */
  ghost predicate ProfilesOk(s: State) {
    forall prf :: 0 <= prf < |s.t.profiles| ==>
      s.t.profiles[prf].connections == Sum(|s.procs|, OnWeight(s, prf))
  }

  lemma {:induction false} OnAtLeast(s: State, prf: nat, c: nat)
    requires Shape(s) && ProfilesOk(s) && prf < |s.t.profiles| && c < MAX_PROC
    ensures OnAt(s.t.slots[c], s.procs[c], prf) <= s.t.profiles[prf].connections <= MAX_PROC
  {
    SumTerm(|s.procs|, OnWeight(s, prf), c);
    SumBounds(|s.procs|, OnWeight(s, prf), 0, 1);
  }

  /** A client that is about to leave its profile is still counted on it, so
      neither complaint about a count of 0 is ever made. */
  lemma {:induction false} NeverDropsZero(s: State, c: nat)
    requires ProcsOk(s) && ProfilesOk(s)
    requires At(s, c, CloseLocked) || At(s, c, AuthPassed)
    ensures HasProfile(s, c) && s.t.profiles[s.t.slots[c].profile.value].connections > 0
  {
    assert ProcOk(s.t, s.t.slots[c], s.procs[c]);
    OnAtLeast(s, s.t.slots[c].profile.value, c);
  }

  function Conns(t: Tables, prf: nat): int
    requires prf < |t.profiles|
  {
    t.profiles[prf].connections
  }

  lemma {:induction false} AddUserConns(t: Tables, key: string, prf: nat, q: nat)
    requires UserSlot(t.users, key).Some? && prf < |t.profiles| && q < |t.profiles|
    ensures Conns(AddUser(t, key, prf), q) == Conns(t, q)
  {
    hide UserSlot, IsKnown, WithUser;
  }

  lemma {:induction false} DropUserConns(t: Tables, id: nat, prf: nat, q: nat)
    requires id < |t.users| && prf < |t.profiles| && q < |t.profiles|
    ensures Conns(DropUser(t, id, prf), q) == Conns(t, q)
  {
    hide WithoutUser;
  }

  lemma {:induction false} CountedConns(t: Tables, c: nat, hostname: string, q: nat)
    requires c < |t.slots| && t.slots[c].profile.Some? && t.slots[c].profile.value < |t.profiles|
    requires q < |t.profiles|
    ensures Conns(CountedTables(t, c, hostname), q) ==
              if t.slots[c].profile == Some(q) then Plus1(Conns(t, q)) else Conns(t, q)
  {
    var t1 := AddConnection(t, t.slots[c].profile.value);
    if UserSlot(t1.users, hostname).Some? {
      AddUserConns(t1, hostname, t.slots[c].profile.value, q);
    }
    hide AddUser, UserSlot, WithUser;
  }

  lemma {:induction false} ClosedConns(t: Tables, c: nat, q: nat)
    requires c < |t.slots| && t.slots[c].profile.Some? && t.slots[c].profile.value < |t.profiles|
    requires t.slots[c].user.Some? ==> t.slots[c].user.value < |t.users|
    requires q < |t.profiles|
    ensures Conns(ClosedTables(t, c), q) ==
              if t.slots[c].profile == Some(q) && Conns(t, q) > 0 then Conns(t, q) - 1 else Conns(t, q)
  {
    var t1 := DropConnection(t, t.slots[c].profile.value);
    if t.slots[c].user.Some? {
      DropUserConns(t1, t.slots[c].user.value, t.slots[c].profile.value, q);
    }
    hide DropUser, WithoutUser;
  }

  lemma {:induction false} MovedConns(t: Tables, c: nat, newuser: nat, newprf: nat, q: nat)
    requires c < |t.slots| && t.slots[c].profile.Some? && t.slots[c].profile.value < |t.profiles|
    requires t.slots[c].user.Some? && t.slots[c].user.value < |t.users|
    requires newuser < |t.users| && newprf < |t.profiles| && q < |t.profiles|
    requires Conns(t, t.slots[c].profile.value) > 0
    ensures var was := t.slots[c].profile.value;
            Conns(MovedTables(t, c, newuser, newprf), q) ==
              if was == newprf then Conns(t, q)
              else if q == was then Conns(t, q) - 1
              else if q == newprf then Plus1(Conns(t, q))
              else Conns(t, q)
  {
    DropUserConns(MovedProfile(t, c, newprf), t.slots[c].user.value, t.slots[c].profile.value, q);
    hide DropUser, WithoutUser;
  }

  ghost predicate ConnsMove(s: State, s': State, c: nat, q: nat) {
    && Shape(s) && Shape(s') && c < MAX_PROC && |s'.t.profiles| == |s.t.profiles| && q < |s.t.profiles|
    && Conns(s'.t, q) == Conns(s.t, q) - OnAt(s.t.slots[c], s.procs[c], q) + OnAt(s'.t.slots[c], s'.procs[c], q)
  }

  lemma {:induction false} QuietConns(s: State, step: Step, q: nat)
    requires ProcsOk(s) && Enabled(s, step) && !ChangesUsers(step) && q < |s.t.profiles|
    ensures ConnsMove(s, After(s, step), Actor(s, step), q)
  {
    hide HoldsKey, CountIp, FirstFree, PointersOk, Counted, Closed, Moved, UserSlot, WithUser, WithoutUser, KeysOk;
    var c := Actor(s, step);
    assert ProcOk(s.t, s.t.slots[c], s.procs[c]);
  }

  lemma {:induction false} CountConns(s: State, c: nat, hostname: string, q: nat)
    requires Shape(s) && ProfilesOk(s) && HasProfile(s, c) && q < |s.t.profiles| && At(s, c, ConnLocked)
    ensures ConnsMove(s, Counted(s, c, hostname), c, q)
  {
    hide ProfilesOk, CountedTables, UserSlot, WithUser;
    OnAtLeast(s, q, c);
    CountedConns(s.t, c, hostname, q);
  }

  lemma {:induction false} CommitConns(s: State, c: nat, q: nat)
    requires ProcsOk(s) && ProfilesOk(s) && HasProfile(s, c) && HasUser(s, c) && q < |s.t.profiles|
    requires At(s, c, AuthPassed) && s.procs[c].newuser < MAX_USERS && s.procs[c].newprf < |s.t.profiles|
    ensures ConnsMove(s, Moved(s, c), c, q)
  {
    hide ProfilesOk, MovedTables, WithoutUser;
    NeverDropsZero(s, c);
    OnAtLeast(s, q, c);
    MovedConns(s.t, c, s.procs[c].newuser, s.procs[c].newprf, q);
  }

  lemma {:induction false} CloseConns(s: State, c: nat, q: nat)
    requires Shape(s) && ProfilesOk(s) && HasProfile(s, c) && q < |s.t.profiles| && At(s, c, CloseLocked)
    requires s.t.slots[c].user.Some? ==> HasUser(s, c)
    ensures ConnsMove(s, Unlock(Closed(s, c)), c, q)
  {
    hide ProfilesOk, ClosedTables, WithoutUser;
    OnAtLeast(s, q, c);
    ClosedConns(s.t, c, q);
  }

  lemma {:induction false} BusyConns(s: State, step: Step, q: nat)
    requires ProcsOk(s) && ProfilesOk(s) && Enabled(s, step) && ChangesUsers(step) && q < |s.t.profiles|
    ensures ConnsMove(s, After(s, step), Actor(s, step), q)
  {
    hide UserSlot, AddUser, DropUser, CountedTables, ClosedTables, MovedTables, ProfilesOk, Conns;
    var c := Actor(s, step);
    assert ProcOk(s.t, s.t.slots[c], s.procs[c]);
    match step
    case ConnCount(_, hostname) => CountConns(s, c, hostname, q);
    case AuthFind(_, username, newprf) => AddUserConns(s.t, username, newprf, q);
    case AuthCommit(_) => CommitConns(s, c, q);
    case CloseBody(_) => CloseConns(s, c, q);
    case AuthRefuse(_, _) => DropUserConns(s.t, s.procs[c].newuser, s.procs[c].newprf, q);
    case AuthFail(_) => DropUserConns(s.t, s.procs[c].newuser, s.procs[c].newprf, q);
  }

  lemma {:induction false} ProfilesOkKept(s: State, step: Step)
    requires ProcsOk(s) && UsersOk(s) && ProfilesOk(s) && Enabled(s, step)
    ensures ProfilesOk(After(s, step))
  {
    hide After, Enabled, UsersOk, ProcsOk, Sum, OnAt, Actor;
    var s', c := After(s, step), Actor(s, step);
    StepLocal(s, step);
    forall q | 0 <= q < |s'.t.profiles|
      ensures s'.t.profiles[q].connections == Sum(|s'.procs|, OnWeight(s', q))
    {
      if ChangesUsers(step) {
        BusyConns(s, step, q);
      } else {
        QuietConns(s, step, q);
      }
      SumChange(|s.procs|, OnWeight(s, q), OnWeight(s', q), c);
    }
  }
}
