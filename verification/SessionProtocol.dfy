/** The life of a client process against the shared tables, as a transition
    system: one step is what happens between two points where another process
    may run. The semaphore is held from a lock step to the matching unlock;
    checks made without it are steps of their own. */
module SessionProtocol {
  import opened Wrappers
  import opened SessionTables

  const MAX_PROC: nat := 8192
  const MAX_USERS: nat := MAX_PROC

  /** Where a client process stands. */
  datatype Pc =
    | Free          // no process
    | Taken         // slot reserved by the daemon
    | ConnLocked    // run_child holds the lock
    | ConnFound     // counted, still locked
    | Checking      // unlocked, limits not yet checked
    | Serving       // admitted, reading commands
    | AuthLocked    // authinfo holds the lock
    | AuthFound     // has a reference to its new user
    | Sharing       // lock released for the account sharing request
    | AuthPassed    // locked, will move to the new user
    | AuthFailed    // locked, will give the new user up
    | AuthUndone    // locked, new user given up
    | AuthDone      // locked, moved
    | CloseLocked   // close_child holds the lock

  /** The local variables of a process. `checked` and `limit` record the limit its
      current user was last checked against, `key` the key it took that user by. */
  datatype Proc = Proc(pc: Pc, unlimit: bool, authenticated: bool, key: string,
                       checked: bool, limit: nat,
                       newuser: nat, newprf: nat, newkey: string, newlimit: nat)

  const NO_PROC := Proc(Free, false, false, "", false, 0, 0, 0, "", 0)

  datatype State = State(t: Tables, procs: seq<Proc>, sem: nat, daemon: bool)

  datatype Step =
    | DaemonLock
    | DaemonAlloc(ip: nat, maxcon: int, unlimit: bool)
    | ConnLock(c: nat, prf: nat)
    | ConnCount(c: nat, hostname: string)
    | ConnUnlock(c: nat)
    | Admit(c: nat, maxUserConcurrent: nat)
    | AuthLock(c: nat)
    | AuthReject(c: nat)
    | AuthFind(c: nat, username: string, newprf: nat)
    | AuthRefuse(c: nat, maxUserConcurrent: nat)
    | AuthAccept(c: nat, maxUserConcurrent: nat, sharing: bool)
    | ShareLock(c: nat, ok: bool)
    | AuthFail(c: nat)
    | AuthCommit(c: nat)
    | AuthUnlock(c: nat)
    | CloseLock(c: nat)
    | CloseBody(c: nat)

  predicate Critical(pc: Pc) {
    || pc.ConnLocked? || pc.ConnFound? || pc.AuthLocked? || pc.AuthFound? || pc.AuthPassed? || pc.AuthFailed?
    || pc.AuthUndone? || pc.AuthDone? || pc.CloseLocked?
  }

  /** The process holds a reference to `newuser` besides its own user. */
  predicate InFlight(pc: Pc) {
    pc.AuthFound? || pc.Sharing? || pc.AuthPassed? || pc.AuthFailed?
  }

  /** The process was let in and has not begun to close. */
  predicate Admitted(pc: Pc) {
    || pc.Serving? || pc.AuthLocked? || pc.AuthFound? || pc.Sharing? || pc.AuthPassed? || pc.AuthFailed?
    || pc.AuthUndone? || pc.AuthDone?
  }

  /** The process is on the count of its profile. */
  predicate OnCount(pc: Pc) {
    !pc.Free? && !pc.Taken? && !pc.ConnLocked?
  }

  // ----- invariants that make the steps well defined

  ghost predicate Shape(s: State) {
    && |s.t.slots| == MAX_PROC
    && |s.t.users| == MAX_USERS
    && |s.procs| == MAX_PROC
  }

  /** A process and its slot agree. */
  ghost predicate ProcOk(t: Tables, slot: Slot, p: Proc) {
    PhaseOk(|t.profiles|, slot, p) && PointersOk(t, slot, p)
  }

  ghost predicate PhaseOk(profiles: nat, slot: Slot, p: Proc) {
    && (p.pc.Free? ==> slot == ZERO_SLOT && p == NO_PROC)
    && (!p.pc.Free? ==> slot.inuse)
    && (p.pc.Taken? ==> slot.profile == None)
    && (!p.pc.Free? && !p.pc.Taken? ==> slot.profile.Some? && slot.profile.value < profiles)
    && (!OnCount(p.pc) ==> slot.user == None)
    && (Admitted(p.pc) ==> slot.user.Some?)
    && (InFlight(p.pc) ==> p.newprf < profiles)
    && (p.checked ==> slot.user.Some?)
  }

  /** Its user and the user it authenticates as are the ones it asked for. */
  ghost predicate PointersOk(t: Tables, slot: Slot, p: Proc) {
    && (slot.user.Some? ==> HoldsKey(t, slot.user.value, p.key))
    && (InFlight(p.pc) ==> HoldsKey(t, p.newuser, p.newkey))
  }

  /** User slot `u` is occupied, and by the user with this key. */
  ghost predicate HoldsKey(t: Tables, u: nat, key: string) {
    u < |t.users| && key != "" && t.users[u].key == key
  }

  ghost predicate ProcsOk(s: State) {
    && Shape(s)
    && forall k :: 0 <= k < MAX_PROC ==> ProcOk(s.t, s.t.slots[k], s.procs[k])
  }

  // ----- steps

  /** `step` may be taken: the process stands at the right point, the lock is free
      if it wants it, and the check that lets it go on succeeds. A `find_user`
      that finds no slot during authentication is not a step: the source goes on
      with a null pointer. */
  ghost predicate Enabled(s: State, step: Step)
    requires ProcsOk(s)
  {
    match step
    case DaemonLock => !s.daemon && s.sem == 0
    case DaemonAlloc(ip, maxcon, unlimit) => s.daemon
    case ConnLock(c, prf) => At(s, c, Taken) && s.sem == 0 && prf < |s.t.profiles|
    case ConnCount(c, hostname) => At(s, c, ConnLocked) && hostname != ""
    case ConnUnlock(c) => At(s, c, ConnFound)
    case Admit(c, limit) =>
      && At(s, c, Checking)
      && s.t.slots[c].user.Some?
      && (s.procs[c].unlimit || s.t.users[s.t.slots[c].user.value].connections <= limit)
    case AuthLock(c) => At(s, c, Serving) && !s.procs[c].authenticated && s.sem == 0
    case AuthReject(c) => At(s, c, AuthLocked)
    case AuthFind(c, username, newprf) =>
      && At(s, c, AuthLocked)
      && username != "" && newprf < |s.t.profiles|
      && UserSlot(s.t.users, username).Some?
    case AuthRefuse(c, limit) => At(s, c, AuthFound) && !MayMove(s, c, limit)
    case AuthAccept(c, limit, sharing) => At(s, c, AuthFound) && MayMove(s, c, limit)
    case ShareLock(c, ok) => At(s, c, Sharing) && s.sem == 0
    case AuthFail(c) => At(s, c, AuthFailed)
    case AuthCommit(c) => At(s, c, AuthPassed)
    case AuthUnlock(c) => (At(s, c, AuthUndone) || At(s, c, AuthDone))
    case CloseLock(c) => (At(s, c, Checking) || At(s, c, Serving)) && s.sem == 0
    case CloseBody(c) => At(s, c, CloseLocked)
  }

  predicate At(s: State, c: nat, pc: Pc) {
    c < |s.procs| && s.procs[c].pc == pc
  }

  /** The check of an authenticated client against the limit of its new profile; a
      client that already has the user passes. */
  ghost predicate MayMove(s: State, c: nat, limit: nat)
    requires ProcsOk(s) && At(s, c, AuthFound)
  {
    || s.t.slots[c].user == Some(s.procs[c].newuser)
    || s.t.users[s.procs[c].newuser].connections <= limit
  }

  function SetPc(s: State, c: nat, pc: Pc): State
    requires c < |s.procs|
  {
    s.(procs := s.procs[c := s.procs[c].(pc := pc)])
  }

  function Unlock(s: State): State {
    s.(sem := if s.sem > 0 then s.sem - 1 else 0)
  }

  function Lock(s: State): State {
    s.(sem := s.sem + 1)
  }

  // The states after the steps that change the tables.

  function Allocated(s: State, ip: nat, maxcon: int, unlimit: bool): State {
    var i := SlotFor(s.t.slots, ip, maxcon);
    var s1 := s.(t := TakeSlot(s.t, ip, maxcon));
    if i.Some? && i.value < |s.procs| then
      s1.(procs := s.procs[i.value := NO_PROC.(pc := Taken, unlimit := unlimit)])
    else s1
  }

  function Counted(s: State, c: nat, hostname: string): State
    requires HasProfile(s, c)
  {
    var found := UserSlot(s.t.users, hostname).Some?;
    s.(t := CountedTables(s.t, c, hostname),
       procs := s.procs[c := s.procs[c].(pc := ConnFound, key := if found then hostname else "")])
  }

  function Found(s: State, c: nat, username: string, newprf: nat): State
    requires c < |s.procs| && newprf < |s.t.profiles| && UserSlot(s.t.users, username).Some?
  {
    s.(t := AddUser(s.t, username, newprf),
       procs := s.procs[c := s.procs[c].(pc := AuthFound, newuser := UserSlot(s.t.users, username).value,
                                         newprf := newprf, newkey := username)])
  }

  function GivenUp(s: State, c: nat): State
    requires c < |s.procs| && s.procs[c].newuser < |s.t.users| && s.procs[c].newprf < |s.t.profiles|
  {
    SetPc(s, c, AuthUndone).(t := DropUser(s.t, s.procs[c].newuser, s.procs[c].newprf))
  }

  function Moved(s: State, c: nat): State
    requires HasProfile(s, c) && HasUser(s, c)
    requires s.procs[c].newuser < |s.t.users| && s.procs[c].newprf < |s.t.profiles|
  {
    var p := s.procs[c];
    var same := s.t.slots[c].user == Some(p.newuser);
    s.(t := MovedTables(s.t, c, p.newuser, p.newprf),
       procs := s.procs[c := p.(pc := AuthDone, authenticated := true, key := p.newkey,
                                checked := if same then p.checked else true,
                                limit := if same then p.limit else p.newlimit)])
  }

  function Closed(s: State, c: nat): State
    requires HasProfile(s, c) && (s.t.slots[c].user.Some? ==> HasUser(s, c))
  {
    s.(t := ClosedTables(s.t, c), procs := s.procs[c := NO_PROC])
  }

  predicate HasProfile(s: State, c: nat) {
    && c < |s.procs| && c < |s.t.slots|
    && s.t.slots[c].profile.Some? && s.t.slots[c].profile.value < |s.t.profiles|
  }

  predicate HasUser(s: State, c: nat) {
    && c < |s.t.slots|
    && s.t.slots[c].user.Some? && s.t.slots[c].user.value < |s.t.users|
  }

  /** The state after `step`. */
  ghost function After(s: State, step: Step): State
    requires ProcsOk(s) && Enabled(s, step)
  {
    match step
    case DaemonLock => Lock(s).(daemon := true)
    case DaemonAlloc(ip, maxcon, unlimit) => Unlock(Allocated(s, ip, maxcon, unlimit)).(daemon := false)
    case ConnLock(c, prf) =>
      Lock(SetPc(s, c, ConnLocked)).(t := s.t.(slots := s.t.slots[c := s.t.slots[c].(profile := Some(prf))]))
    case ConnCount(c, hostname) => Counted(s, c, hostname)
    case ConnUnlock(c) => Unlock(SetPc(s, c, Checking))
    case Admit(c, limit) =>
      s.(procs := s.procs[c := s.procs[c].(pc := Serving, checked := !s.procs[c].unlimit, limit := limit)])
    case AuthLock(c) => Lock(SetPc(s, c, AuthLocked))
    case AuthReject(c) => Unlock(SetPc(s, c, Serving))
    case AuthFind(c, username, newprf) => Found(s, c, username, newprf)
    case AuthRefuse(c, limit) => GivenUp(s, c)
    case AuthAccept(c, limit, sharing) =>
      var s1 := s.(procs := s.procs[c := s.procs[c].(newlimit := limit)]);
      if sharing then Unlock(SetPc(s1, c, Sharing)) else SetPc(s1, c, AuthPassed)
    case ShareLock(c, ok) => Lock(SetPc(s, c, if ok then AuthPassed else AuthFailed))
    case AuthFail(c) => GivenUp(s, c)
    case AuthCommit(c) => Moved(s, c)
    case AuthUnlock(c) => Unlock(SetPc(s, c, Serving))
    case CloseLock(c) => Lock(SetPc(s, c, CloseLocked))
    case CloseBody(c) => Unlock(Closed(s, c))
  }

  /** Nobody connected. */
  function Initial(profiles: nat): State {
    State(Tables(seq(MAX_PROC, i => ZERO_SLOT), seq(MAX_USERS, i => ZERO_USER),
                 seq(profiles, i => Profile(0, 0)), 0),
          seq(MAX_PROC, i => NO_PROC), 0, false)
  }
}
