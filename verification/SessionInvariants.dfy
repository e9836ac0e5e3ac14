/** What every step of the session protocol keeps, first part: the reference counts and
    keys of the user slots, and the phases and pointers of the processes. */
module SessionInvariants {
  import opened Wrappers
  import opened Sums
  import opened SessionTables
  import opened SessionProtocol

  // ----- references to users

  /** References of one process to user slot `u`. */
  function RefsAt(slot: Slot, p: Proc, u: nat): int {
    (if slot.user == Some(u) then 1 else 0) + (if InFlight(p.pc) && p.newuser == u then 1 else 0)
  }

  function RefWeight(s: State, u: nat): nat -> int {
    (k: nat) => if k < |s.t.slots| && k < |s.procs| then RefsAt(s.t.slots[k], s.procs[k], u) else 0
  }

  /** Clients that point at user slot `u` plus authentications in flight to it. */
  function Refs(s: State, u: nat): int {
    Sum(|s.procs|, RefWeight(s, u))
  }

  /** Empty keys go with zero counts, and other keys are unique. */
  ghost predicate KeysOk(users: seq<User>) {
    && (forall u :: 0 <= u < |users| ==> (users[u].key == "" <==> users[u].connections == 0))
    && (forall u, v :: 0 <= u < |users| && 0 <= v < |users| && users[u].key == users[v].key != "" ==> u == v)
  }

  ghost predicate UsersOk(s: State) {
    && Shape(s)
    && KeysOk(s.t.users)
    && forall u :: 0 <= u < MAX_USERS ==> s.t.users[u].connections == Refs(s, u)
  }

  /** Only process and slot `c` may differ. */
  ghost predicate OthersSame(s: State, s': State, c: nat) {
    && Shape(s) && Shape(s')
    && |s'.t.profiles| == |s.t.profiles|
    && forall k :: 0 <= k < MAX_PROC && k != c ==> s'.t.slots[k] == s.t.slots[k] && s'.procs[k] == s.procs[k]
  }

  /** The slot a step is about. */
  ghost function Actor(s: State, step: Step): (c: nat)
  {
    match step
    case DaemonLock => 0
    case DaemonAlloc(ip, maxcon, _) =>
      var i := SlotFor(s.t.slots, ip, maxcon); if i.Some? then i.value else 0
    case ConnLock(c, _) => c
    case ConnCount(c, _) => c
    case ConnUnlock(c) => c
    case Admit(c, _) => c
    case AuthLock(c) => c
    case AuthReject(c) => c
    case AuthFind(c, _, _) => c
    case AuthRefuse(c, _) => c
    case AuthAccept(c, _, _) => c
    case ShareLock(c, _) => c
    case AuthFail(c) => c
    case AuthCommit(c) => c
    case AuthUnlock(c) => c
    case CloseLock(c) => c
    case CloseBody(c) => c
  }

  lemma {:induction false} RefsChange(s: State, s': State, c: nat, u: nat)
    requires OthersSame(s, s', c) && c < MAX_PROC
    ensures Refs(s', u) == Refs(s, u) - RefsAt(s.t.slots[c], s.procs[c], u)
                                      + RefsAt(s'.t.slots[c], s'.procs[c], u)
  {
    SumChange(|s.procs|, RefWeight(s, u), RefWeight(s', u), c);
  }

  lemma {:induction false} RefsAtLeast(s: State, u: nat, c: nat)
    requires Shape(s) && c < MAX_PROC
    ensures RefsAt(s.t.slots[c], s.procs[c], u) <= Refs(s, u) <= 2 * MAX_PROC
  {
    SumTerm(|s.procs|, RefWeight(s, u), c);
    SumBounds(|s.procs|, RefWeight(s, u), 0, 2);
  }

  /** What a step does to the user table: process `c`'s references, and nothing
      else, account for the change, and an occupied slot keeps its key. */
  ghost predicate UsersMove(s: State, s': State, c: nat) {
    && OthersSame(s, s', c) && c < MAX_PROC
    && KeysOk(s'.t.users)
    && (forall u :: 0 <= u < MAX_USERS ==>
          && s'.t.users[u].connections
             == s.t.users[u].connections - RefsAt(s.t.slots[c], s.procs[c], u)
                                         + RefsAt(s'.t.slots[c], s'.procs[c], u)
          && (s.t.users[u].key != "" && s'.t.users[u].key != "" ==> s'.t.users[u].key == s.t.users[u].key))
  }

  /** Taking a reference. */
  lemma {:induction false} WithUserKeys(users: seq<User>, key: string)
    requires KeysOk(users) && key != "" && UserSlot(users, key).Some?
    requires users[UserSlot(users, key).value].connections < 0xFFFF_FFFF
    ensures var id, users' := UserSlot(users, key).value, WithUser(users, key);
            && |users'| == |users| && KeysOk(users')
            && users'[id] == User(key, users[id].connections + 1)
            && users[id].key in {"", key}
            && forall u :: 0 <= u < |users| && u != id ==> users'[u] == users[u]
  {
  }

  /** Giving a reference back. */
  lemma {:induction false} WithoutUserKeys(users: seq<User>, id: nat)
    requires KeysOk(users) && id < |users| && users[id].connections > 0
    ensures var users' := WithoutUser(users, id);
            && |users'| == |users| && KeysOk(users')
            && users'[id].connections == users[id].connections - 1
            && users'[id].key in {"", users[id].key}
            && forall u :: 0 <= u < |users| && u != id ==> users'[u] == users[u]
  {
  }

  /** Steps that only move one process on. */
  lemma {:induction false} QuietMoves(s: State, s': State, c: nat)
    requires OthersSame(s, s', c) && c < MAX_PROC
    requires KeysOk(s.t.users) && s'.t.users == s.t.users
    requires s'.t.slots[c].user == s.t.slots[c].user
    requires InFlight(s.procs[c].pc) == InFlight(s'.procs[c].pc)
    requires InFlight(s.procs[c].pc) ==> s'.procs[c].newuser == s.procs[c].newuser
    ensures UsersMove(s, s', c)
  {
  }

  /** Process `c` takes a reference for `key` into one of its two pointers. */
  lemma {:induction false} TakeMoves(s: State, s': State, c: nat, key: string)
    requires KeysOk(s.t.users) && OthersSame(s, s', c) && c < MAX_PROC
    requires key != "" && UserSlot(s.t.users, key).Some?
    requires s.t.users[UserSlot(s.t.users, key).value].connections < 0xFFFF_FFFF
    requires s'.t.users == WithUser(s.t.users, key)
    requires var id := UserSlot(s.t.users, key).value;
             forall u :: RefsAt(s'.t.slots[c], s'.procs[c], u)
                         == RefsAt(s.t.slots[c], s.procs[c], u) + (if u == id then 1 else 0)
    ensures UsersMove(s, s', c)
  {
    hide WithUser, RefsAt, KeysOk;
    WithUserKeys(s.t.users, key);
  }

  /** Process `c` gives a reference to `id` back. */
  lemma {:induction false} GiveBackMoves(s: State, s': State, c: nat, id: nat)
    requires KeysOk(s.t.users) && OthersSame(s, s', c) && c < MAX_PROC
    requires id < MAX_USERS && s.t.users[id].connections > 0
    requires s'.t.users == WithoutUser(s.t.users, id)
    requires forall u :: RefsAt(s'.t.slots[c], s'.procs[c], u)
                         == RefsAt(s.t.slots[c], s.procs[c], u) - (if u == id then 1 else 0)
    ensures UsersMove(s, s', c)
  {
    hide WithoutUser, RefsAt, KeysOk;
    WithoutUserKeys(s.t.users, id);
  }

  /** Counts lie between the references of one process and twice the processes. */
  lemma {:induction false} CountBounds(s: State, u: nat, c: nat)
    requires UsersOk(s) && u < MAX_USERS && c < MAX_PROC
    ensures Shape(s) && KeysOk(s.t.users)
    ensures RefsAt(s.t.slots[c], s.procs[c], u) <= s.t.users[u].connections <= 2 * MAX_PROC
  {
    hide RefsAt, KeysOk, Refs;
    RefsAtLeast(s, u, c);
  }

  lemma {:induction false} CountMoves(s: State, c: nat, hostname: string)
    requires Shape(s) && UsersOk(s) && c < MAX_PROC && HasProfile(s, c) && hostname != ""
    requires s.t.slots[c].user == None && !InFlight(s.procs[c].pc)
    ensures UsersMove(s, Counted(s, c, hostname), c)
  {
    hide Refs, KeysOk, WithUser, UsersOk, AddUser, CountedTables;
    var s' := Counted(s, c, hostname);
    var id := UserSlot(s.t.users, hostname);
    CountBounds(s, if id.Some? then id.value else 0, c);
    if UserSlot(s.t.users, hostname).Some? {
      TakeMoves(s, s', c, hostname);
    } else {
      QuietMoves(s, s', c);
    }
  }

  lemma {:induction false} FindMoves(s: State, c: nat, username: string, newprf: nat)
    requires Shape(s) && UsersOk(s) && c < MAX_PROC && username != "" && newprf < |s.t.profiles|
    requires UserSlot(s.t.users, username).Some?
    requires !InFlight(s.procs[c].pc)
    ensures UsersMove(s, Found(s, c, username, newprf), c)
  {
    hide Refs, KeysOk, WithUser, UsersOk, AddUser, CountedTables;
    CountBounds(s, UserSlot(s.t.users, username).value, c);
    TakeMoves(s, Found(s, c, username, newprf), c, username);
  }

  lemma {:induction false} GiveUpMoves(s: State, c: nat)
    requires Shape(s) && UsersOk(s) && c < MAX_PROC && InFlight(s.procs[c].pc)
    requires s.procs[c].newuser < MAX_USERS && s.procs[c].newprf < |s.t.profiles|
    ensures UsersMove(s, GivenUp(s, c), c)
  {
    hide Refs, KeysOk, WithoutUser, UsersOk, DropUser, ClosedTables, MovedTables;
    CountBounds(s, s.procs[c].newuser, c);
    GiveBackMoves(s, GivenUp(s, c), c, s.procs[c].newuser);
  }

  lemma {:induction false} MoveMoves(s: State, c: nat)
    requires Shape(s) && UsersOk(s) && c < MAX_PROC && InFlight(s.procs[c].pc)
    requires HasProfile(s, c) && HasUser(s, c)
    requires s.procs[c].newuser < MAX_USERS && s.procs[c].newprf < |s.t.profiles|
    ensures UsersMove(s, Moved(s, c), c)
  {
    hide Refs, KeysOk, WithoutUser, UsersOk, DropUser, ClosedTables, MovedTables;
    CountBounds(s, s.t.slots[c].user.value, c);
    GiveBackMoves(s, Moved(s, c), c, s.t.slots[c].user.value);
  }

  lemma {:induction false} CloseMoves(s: State, c: nat)
    requires Shape(s) && UsersOk(s) && c < MAX_PROC && !InFlight(s.procs[c].pc)
    requires HasProfile(s, c) && (s.t.slots[c].user.Some? ==> HasUser(s, c))
    ensures UsersMove(s, Closed(s, c), c)
  {
    hide Refs, KeysOk, WithoutUser, UsersOk, DropUser, ClosedTables, MovedTables;
    CountBounds(s, if s.t.slots[c].user.Some? then s.t.slots[c].user.value else 0, c);
    if s.t.slots[c].user.Some? {
      GiveBackMoves(s, Closed(s, c), c, s.t.slots[c].user.value);
    } else {
      QuietMoves(s, Closed(s, c), c);
    }
  }

  predicate ChangesUsers(step: Step) {
    step.ConnCount? || step.AuthFind? || step.AuthRefuse? || step.AuthFail? || step.AuthCommit? || step.CloseBody?
  }

  lemma {:induction false} AllocMoves(s: State, ip: nat, maxcon: int, unlimit: bool)
    requires ProcsOk(s) && KeysOk(s.t.users)
    ensures UsersMove(s, Unlock(Allocated(s, ip, maxcon, unlimit)).(daemon := false),
                      Actor(s, DaemonAlloc(ip, maxcon, unlimit)))
  {
    hide KeysOk, HoldsKey, CountIp, FirstFree;
    var step := DaemonAlloc(ip, maxcon, unlimit);
    var c := Actor(s, step);
    assert ProcOk(s.t, s.t.slots[c], s.procs[c]);
    QuietMoves(s, Unlock(Allocated(s, ip, maxcon, unlimit)).(daemon := false), c);
  }

  lemma {:induction false} QuietStepMoves(s: State, step: Step)
    requires ProcsOk(s) && KeysOk(s.t.users) && Enabled(s, step) && !ChangesUsers(step)
    ensures UsersMove(s, After(s, step), Actor(s, step))
  {
    var c, s' := Actor(s, step), After(s, step);
    if step.DaemonAlloc? {
      hide KeysOk, UsersMove, Allocated, ProcsOk;
      AllocMoves(s, step.ip, step.maxcon, step.unlimit);
    } else {
      hide KeysOk, HoldsKey, UsersMove, Allocated, Counted, Found, GivenUp, Moved, Closed;
      assert ProcOk(s.t, s.t.slots[c], s.procs[c]);
      QuietMoves(s, s', c);
    }
  }

  /** Giving the lock back does not matter to the tables. */
  lemma {:induction false} CloseStepMoves(s: State, c: nat)
    requires Shape(s) && UsersOk(s) && c < MAX_PROC && !InFlight(s.procs[c].pc)
    requires HasProfile(s, c) && (s.t.slots[c].user.Some? ==> HasUser(s, c))
    ensures UsersMove(s, Unlock(Closed(s, c)), c)
  {
    CloseMoves(s, c);
    hide Closed, KeysOk, RefsAt;
  }

  lemma {:induction false} CountStep(s: State, c: nat, hostname: string)
    requires ProcsOk(s) && UsersOk(s) && Enabled(s, ConnCount(c, hostname))
    ensures UsersMove(s, After(s, ConnCount(c, hostname)), c)
  {
    assert ProcOk(s.t, s.t.slots[c], s.procs[c]);
    hide Counted, Found, GivenUp, Moved, Closed, UsersOk, RefsAt, UsersMove, HoldsKey, WithUser, AddUser, DropUser;
    CountMoves(s, c, hostname);
  }

  lemma {:induction false} FindStep(s: State, c: nat, username: string, newprf: nat)
    requires ProcsOk(s) && UsersOk(s) && Enabled(s, AuthFind(c, username, newprf))
    ensures UsersMove(s, After(s, AuthFind(c, username, newprf)), c)
  {
    hide Counted, Found, GivenUp, Moved, Closed, UsersOk, RefsAt, UsersMove, HoldsKey, WithUser, AddUser, DropUser,
      UserSlot, KeysOk;
    assert ProcOk(s.t, s.t.slots[c], s.procs[c]);
    FindMoves(s, c, username, newprf);
  }

  lemma {:induction false} RefuseStep(s: State, c: nat, limit: nat)
    requires ProcsOk(s) && UsersOk(s) && Enabled(s, AuthRefuse(c, limit))
    ensures UsersMove(s, After(s, AuthRefuse(c, limit)), c)
  {
    assert ProcOk(s.t, s.t.slots[c], s.procs[c]);
    hide Counted, Found, GivenUp, Moved, Closed, UsersOk, RefsAt, UsersMove, HoldsKey, WithUser, AddUser, DropUser;
    GiveUpMoves(s, c);
  }

  lemma {:induction false} FailStep(s: State, c: nat)
    requires ProcsOk(s) && UsersOk(s) && Enabled(s, AuthFail(c))
    ensures UsersMove(s, After(s, AuthFail(c)), c)
  {
    assert ProcOk(s.t, s.t.slots[c], s.procs[c]);
    hide Counted, Found, GivenUp, Moved, Closed, UsersOk, RefsAt, UsersMove, HoldsKey, WithUser, AddUser, DropUser;
    GiveUpMoves(s, c);
  }

  lemma {:induction false} CommitStep(s: State, c: nat)
    requires ProcsOk(s) && UsersOk(s) && Enabled(s, AuthCommit(c))
    ensures UsersMove(s, After(s, AuthCommit(c)), c)
  {
    assert ProcOk(s.t, s.t.slots[c], s.procs[c]);
    hide Counted, Found, GivenUp, Moved, Closed, UsersOk, RefsAt, UsersMove, HoldsKey, WithUser, AddUser, DropUser;
    MoveMoves(s, c);
  }

  lemma {:induction false} CloseStep(s: State, c: nat)
    requires ProcsOk(s) && UsersOk(s) && Enabled(s, CloseBody(c))
    ensures UsersMove(s, After(s, CloseBody(c)), c)
  {
    assert ProcOk(s.t, s.t.slots[c], s.procs[c]);
    hide Counted, Found, GivenUp, Moved, Closed, UsersOk, RefsAt, UsersMove, HoldsKey, WithUser, AddUser, DropUser;
    CloseStepMoves(s, c);
  }

  lemma {:induction false} StepMoves(s: State, step: Step)
    requires ProcsOk(s) && UsersOk(s) && Enabled(s, step)
    ensures UsersMove(s, After(s, step), Actor(s, step))
  {
    hide After, Enabled, ProcsOk, UsersMove, KeysOk, Refs;
    match step
    case ConnCount(c, hostname) => CountStep(s, c, hostname);
    case AuthFind(c, username, newprf) => FindStep(s, c, username, newprf);
    case AuthRefuse(c, limit) => RefuseStep(s, c, limit);
    case AuthFail(c) => FailStep(s, c);
    case AuthCommit(c) => CommitStep(s, c);
    case CloseBody(c) => CloseStep(s, c);
    case _ => QuietStepMoves(s, step);
  }

  lemma {:induction false} StepLocal(s: State, step: Step)
    requires ProcsOk(s) && UsersOk(s) && Enabled(s, step)
    ensures Actor(s, step) < MAX_PROC && OthersSame(s, After(s, step), Actor(s, step))
  {
    hide After, Enabled, ProcsOk, UsersOk;
    StepMoves(s, step);
  }

  lemma {:induction false} UsersOkKept(s: State, step: Step)
    requires ProcsOk(s) && UsersOk(s) && Enabled(s, step)
    ensures UsersOk(After(s, step))
  {
    var s', c := After(s, step), Actor(s, step);
    StepMoves(s, step);
    hide After, Enabled, Actor, Refs;
    forall u | 0 <= u < MAX_USERS ensures s'.t.users[u].connections == Refs(s', u) {
      RefsChange(s, s', c, u);
    }
  }

  // ----- processes stay consistent

  /** A user somebody still refers to keeps its key. */
  lemma {:induction false} HoldsKept(s: State, s': State, c: nat, k: nat, u: nat, key: string)
    requires UsersMove(s, s', c) && UsersOk(s') && k < MAX_PROC
    requires HoldsKey(s.t, u, key)
    requires RefsAt(s'.t.slots[k], s'.procs[k], u) > 0
    ensures HoldsKey(s'.t, u, key)
  {
    CountBounds(s', u, k);
    hide Refs, RefsAt;
  }

  lemma {:induction false} PointersKept(s: State, s': State, c: nat, k: nat)
    requires UsersMove(s, s', c) && UsersOk(s') && k < MAX_PROC && k != c
    requires PointersOk(s.t, s.t.slots[k], s.procs[k])
    ensures PointersOk(s'.t, s'.t.slots[k], s'.procs[k])
  {
    var slot, p := s.t.slots[k], s.procs[k];
    assert s'.t.slots[k] == slot && s'.procs[k] == p;
    hide KeysOk, UsersOk, HoldsKey;
    if slot.user.Some? {
      HoldsKept(s, s', c, k, slot.user.value, p.key);
    }
    if InFlight(p.pc) {
      HoldsKept(s, s', c, k, p.newuser, p.newkey);
    }
  }

  // The acting process: the phase it enters.

  lemma {:induction false} QuietPhase(s: State, step: Step)
    requires ProcsOk(s) && Enabled(s, step) && !ChangesUsers(step)
    ensures var s', c := After(s, step), Actor(s, step);
            c < MAX_PROC && PhaseOk(|s'.t.profiles|, s'.t.slots[c], s'.procs[c])
  {
    var c := Actor(s, step);
    assert ProcOk(s.t, s.t.slots[c], s.procs[c]);
    hide KeysOk, HoldsKey, CountIp, FirstFree, WithUser, WithoutUser, AddUser, DropUser, CountedTables,
      ClosedTables, MovedTables;
  }

  lemma {:induction false} BusyPhase(s: State, step: Step)
    requires ProcsOk(s) && Enabled(s, step) && ChangesUsers(step)
    ensures var s', c := After(s, step), Actor(s, step);
            c < MAX_PROC && PhaseOk(|s'.t.profiles|, s'.t.slots[c], s'.procs[c])
  {
    var c := Actor(s, step);
    assert ProcOk(s.t, s.t.slots[c], s.procs[c]);
    hide KeysOk, HoldsKey, CountIp, FirstFree, WithUser, WithoutUser, AddUser, DropUser, CountedTables,
      ClosedTables, MovedTables;
  }

  /** The pointers an acting process has after its step are pointers it had, or
      the one it just took. */
  ghost predicate PointersCome(s: State, s': State, c: nat, step: Step) {
    && Shape(s) && Shape(s') && c < MAX_PROC
    && var slot, p, slot', p' := s.t.slots[c], s.procs[c], s'.t.slots[c], s'.procs[c];
       && (slot'.user.Some? ==>
             || (slot.user == slot'.user && p'.key == p.key)
             || (InFlight(p.pc) && p.newuser == slot'.user.value && p'.key == p.newkey)
             || (step.ConnCount? && slot'.user == UserSlot(s.t.users, step.hostname) && p'.key == step.hostname))
       && (InFlight(p'.pc) ==>
             || (InFlight(p.pc) && p'.newuser == p.newuser && p'.newkey == p.newkey)
             || (step.AuthFind? && Some(p'.newuser) == UserSlot(s.t.users, step.username)
                  && p'.newkey == step.username))
  }

  lemma {:induction false} QuietPointers(s: State, step: Step)
    requires ProcsOk(s) && Enabled(s, step) && !ChangesUsers(step)
    ensures PointersCome(s, After(s, step), Actor(s, step), step)
  {
    hide KeysOk, HoldsKey, PointersOk, UserSlot, CountIp, FirstFree, WithUser, WithoutUser, AddUser, DropUser,
      CountedTables, ClosedTables, MovedTables;
    var c := Actor(s, step);
    assert ProcOk(s.t, s.t.slots[c], s.procs[c]);
  }

  lemma {:induction false} BusyPointers(s: State, step: Step)
    requires ProcsOk(s) && Enabled(s, step) && ChangesUsers(step)
    ensures PointersCome(s, After(s, step), Actor(s, step), step)
  {
    hide KeysOk, HoldsKey, PointersOk, UserSlot, CountIp, FirstFree, WithUser, WithoutUser, AddUser, DropUser,
      CountedTables, ClosedTables, MovedTables;
    var c := Actor(s, step);
    assert ProcOk(s.t, s.t.slots[c], s.procs[c]);
  }

  /** The key a step asks for, if it asks for one. */
  ghost predicate AskedKeyHeld(s: State, s': State, step: Step) {
    && (step.ConnCount? && UserSlot(s.t.users, step.hostname).Some? ==>
          HoldsKey(s'.t, UserSlot(s.t.users, step.hostname).value, step.hostname))
    && (step.AuthFind? && UserSlot(s.t.users, step.username).Some? ==>
          HoldsKey(s'.t, UserSlot(s.t.users, step.username).value, step.username))
  }

  lemma {:induction false} ActorPointersOk(s: State, s': State, c: nat, step: Step)
    requires UsersMove(s, s', c) && UsersOk(s') && PointersCome(s, s', c, step) && AskedKeyHeld(s, s', step)
    requires PointersOk(s.t, s.t.slots[c], s.procs[c])
    ensures PointersOk(s'.t, s'.t.slots[c], s'.procs[c])
  {
    var slot, p, slot', p' := s.t.slots[c], s.procs[c], s'.t.slots[c], s'.procs[c];
    hide KeysOk, UsersOk, HoldsKey, UserSlot;
    if slot'.user.Some? && slot.user == slot'.user {
      HoldsKept(s, s', c, c, slot.user.value, p.key);
    }
    if InFlight(p.pc) && RefsAt(slot', p', p.newuser) > 0 {
      HoldsKept(s, s', c, c, p.newuser, p.newkey);
    }
  }

  lemma {:induction false} ActorOk(s: State, step: Step)
    requires ProcsOk(s) && UsersOk(s) && Enabled(s, step)
    requires UsersOk(After(s, step)) && UsersMove(s, After(s, step), Actor(s, step))
    ensures var s', c := After(s, step), Actor(s, step);
            ProcOk(s'.t, s'.t.slots[c], s'.procs[c])
  {
    var s', c := After(s, step), Actor(s, step);
    hide UsersOk, UsersMove, After, Enabled, PhaseOk, UserSlot, HoldsKey;
    if ChangesUsers(step) {
      BusyPhase(s, step);
      BusyPointers(s, step);
    } else {
      QuietPhase(s, step);
      QuietPointers(s, step);
    }
    if step.ConnCount? || step.AuthFind? {
      TakenKey(s, step);
    }
    assert ProcOk(s.t, s.t.slots[c], s.procs[c]);
    ActorPointersOk(s, s', c, step);
  }

  /** A reference that is taken is to a user with the key it was asked for. */
  lemma {:induction false} TakenKey(s: State, step: Step)
    requires ProcsOk(s) && UsersOk(s) && Enabled(s, step)
    requires step.ConnCount? || step.AuthFind?
    ensures var key := if step.ConnCount? then step.hostname else step.username;
            var id := UserSlot(s.t.users, key);
            id.Some? ==> HoldsKey(After(s, step).t, id.value, key)
  {
    var key := if step.ConnCount? then step.hostname else step.username;
    if UserSlot(s.t.users, key).Some? {
      CountBounds(s, UserSlot(s.t.users, key).value, step.c);
      WithUserKeys(s.t.users, key);
      hide KeysOk, UsersOk, WithUser;
    }
  }

  lemma {:induction false} ProcsOkKept(s: State, step: Step)
    requires ProcsOk(s) && UsersOk(s) && Enabled(s, step)
    ensures ProcsOk(After(s, step))
  {
    var s', c := After(s, step), Actor(s, step);
    StepMoves(s, step);
    UsersOkKept(s, step);
    hide After, Actor, Enabled, KeysOk, UsersOk, PhaseOk, PointersOk;
    forall k | 0 <= k < MAX_PROC ensures ProcOk(s'.t, s'.t.slots[k], s'.procs[k]) {
      if k == c {
        ActorOk(s, step);
      } else {
        assert ProcOk(s.t, s.t.slots[k], s.procs[k]);
        PointersKept(s, s', c, k);
      }
    }
  }
}
