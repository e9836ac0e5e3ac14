/** What the steps do for the client that takes them: who is let in, who is turned away
    and left as he was, and that the lock is always given back. */
module SessionSteps {
  import opened Wrappers
  import opened Sums
  import opened SessionTables
  import opened SessionProtocol
  import opened SessionInvariants
  import opened SessionCounts
  import opened SessionUsers
  import opened SessionLimits

  // ----- who is let in

  /** A connecting client is let in if and only if it is exempt or the references to
      its user, its own included, are within the limit; otherwise it can only close. */
  lemma {:induction false} AdmitExactly(s: State, c: nat, limit: nat)
    requires ProcsOk(s) && UsersOk(s) && At(s, c, Checking)
    ensures Enabled(s, Admit(c, limit)) <==>
            var user := s.t.slots[c].user;
            user.Some? && (s.procs[c].unlimit || Refs(s, user.value) <= limit)
    ensures var user := s.t.slots[c].user;
            user.Some? ==> Refs(s, user.value) >= 1
  {
    hide Refs, PhaseOk;
    assert ProcOk(s.t, s.t.slots[c], s.procs[c]);
    if s.t.slots[c].user.Some? {
      RefsAtLeast(s, s.t.slots[c].user.value, c);
    }
  }

  /** An authenticated client may move to its new user if and only if that is the one it
      has, or the references to it, its own included, are within the limit; otherwise it
      is refused. */
  lemma {:induction false} MoveExactly(s: State, c: nat, limit: nat, sharing: bool)
    requires ProcsOk(s) && UsersOk(s) && At(s, c, AuthFound)
    ensures var u := s.procs[c].newuser;
            && (Enabled(s, AuthAccept(c, limit, sharing)) <==> s.t.slots[c].user == Some(u) || Refs(s, u) <= limit)
            && (Enabled(s, AuthRefuse(c, limit)) <==> s.t.slots[c].user != Some(u) && Refs(s, u) > limit)
            && Refs(s, u) >= 1
  {
    hide Refs, PhaseOk;
    assert ProcOk(s.t, s.t.slots[c], s.procs[c]);
    RefsAtLeast(s, s.procs[c].newuser, c);
  }

  /** So a client who authenticates as a user nobody has is let in under any limit but
      0. */
  lemma {:induction false} FirstOfUserMoves(s: State, c: nat, limit: nat, sharing: bool)
    requires ProcsOk(s) && UsersOk(s) && At(s, c, AuthFound) && limit >= 1
    requires forall k :: 0 <= k < |s.procs| && k != c ==> RefsAt(s.t.slots[k], s.procs[k], s.procs[c].newuser) == 0
    ensures Enabled(s, AuthAccept(c, limit, sharing))
  {
    hide Sum, Enabled, RefsAt, UsersOk;
    var u := s.procs[c].newuser;
    MoveExactly(s, c, limit, sharing);
    SumOnly(|s.procs|, RefWeight(s, u), c);
    RefsOfOne(s.t.slots[c], s.procs[c], u);
  }

  lemma {:induction false} RefsOfOne(slot: Slot, p: Proc, u: nat)
    ensures RefsAt(slot, p, u) <= 1 || slot.user == Some(u)
  {
  }

  lemma {:induction false} SumOnly(n: nat, f: nat -> int, c: nat)
    requires c < n && forall k: nat :: k < n && k != c ==> f(k) == 0
    ensures Sum(n, f) == f(c)
  {
    if n - 1 == c {
      SumBounds(c, f, 0, 0);
    } else {
      SumOnly(n - 1, f, c);
    }
  }

  // ----- what a client has then

  /** The profile `c` is on, and the counts of two states over the same tables. */
  predicate SameSizes(s: State, s': State, c: nat) {
    && HasProfile(s, c) && c < |s'.t.slots| && c < |s'.procs|
    && |s'.t.profiles| == |s.t.profiles| && |s'.t.users| == |s.t.users|
  }

  predicate OneMore(s: State, s': State, prf: nat) {
    && prf < |s.t.profiles| == |s'.t.profiles|
    && s'.t.profiles[prf].connections == s.t.profiles[prf].connections + 1
  }

  predicate OneLess(s: State, s': State, prf: nat) {
    && prf < |s.t.profiles| == |s'.t.profiles|
    && s'.t.profiles[prf].connections == s.t.profiles[prf].connections - 1
  }

  /** User slot `u` belongs to the key, and counts one more. */
  predicate TakenBy(s: State, s': State, u: nat, key: string) {
    && u < |s.t.users| == |s'.t.users| && s'.t.users[u].key == key
    && s'.t.users[u].connections == s.t.users[u].connections + 1
  }

  /** User slot `u` counts one less, and is empty if nobody is left. */
  predicate GivenBack(s: State, s': State, u: nat) {
    && u < |s.t.users| == |s'.t.users|
    && s'.t.users[u].connections == s.t.users[u].connections - 1
    && s'.t.users[u].key == if s'.t.users[u].connections == 0 then "" else s.t.users[u].key
  }

  /** The profile has one client more, and the client, if it has a user, has the one with
      the name of its host, which counts one more. */
  predicate Connected(s: State, s': State, c: nat, hostname: string) {
    && SameSizes(s, s', c)
    && s'.t.slots[c].profile == s.t.slots[c].profile
    && OneMore(s, s', s.t.slots[c].profile.value)
    && (s'.t.slots[c].user.Some? ==> TakenBy(s, s', s'.t.slots[c].user.value, hostname))
  }

  lemma {:induction false} CountMeans(s: State, c: nat, hostname: string)
    requires ProcsOk(s) && UsersOk(s) && ProfilesOk(s) && Enabled(s, ConnCount(c, hostname))
    ensures Connected(s, After(s, ConnCount(c, hostname)), c, hostname)
  {
    hide After, Enabled, UsersOk, ProfilesOk, KeysOk;
    var step := ConnCount(c, hostname);
    var s' := After(s, step);
    CountedFacts(s, c, hostname);
    StepMoves(s, step);
    BusyConns(s, step, s.t.slots[c].profile.value);
    ProcsOkKept(s, step);
    assert ProcOk(s.t, s.t.slots[c], s.procs[c]);
    assert ProcOk(s'.t, s'.t.slots[c], s'.procs[c]);
  }

  lemma {:induction false} CountedFacts(s: State, c: nat, hostname: string)
    requires ProcsOk(s) && Enabled(s, ConnCount(c, hostname))
    ensures var s', was := After(s, ConnCount(c, hostname)), s.t.slots[c];
            && At(s, c, ConnLocked) && was.profile.Some? && was.profile.value < |s.t.profiles|
            && c < |s'.t.slots| && c < |s'.procs|
            && s'.t.slots[c].profile == was.profile && s'.procs[c].pc.ConnFound?
            && (s'.t.slots[c].user.Some? ==> s'.procs[c].key == hostname)
  {
    hide CountedTables, PointersOk, UserSlot;
    assert ProcOk(s.t, s.t.slots[c], s.procs[c]);
  }
  /** The search for the new user: the one of the name given, counted once more, and the
      client itself as it was. */
  lemma {:induction false} FindMeans(s: State, c: nat, username: string, newprf: nat)
    requires ProcsOk(s) && UsersOk(s) && Enabled(s, AuthFind(c, username, newprf))
    ensures var s' := After(s, AuthFind(c, username, newprf));
            && c < |s'.procs| && s'.procs[c].newprf == newprf && s'.t.slots == s.t.slots
            && TakenBy(s, s', s'.procs[c].newuser, username)
  {
    hide After, Enabled, UsersOk, KeysOk;
    var step := AuthFind(c, username, newprf);
    var s' := After(s, step);
    FoundFacts(s, c, username, newprf);
    StepMoves(s, step);
    ProcsOkKept(s, step);
    assert ProcOk(s'.t, s'.t.slots[c], s'.procs[c]);
  }

  lemma {:induction false} FoundFacts(s: State, c: nat, username: string, newprf: nat)
    requires ProcsOk(s) && Enabled(s, AuthFind(c, username, newprf))
    ensures var s' := After(s, AuthFind(c, username, newprf));
            && c < |s.procs| && s.procs[c].pc.AuthLocked? && c < |s'.procs| && c < |s.t.slots| && c < |s'.t.slots|
            && s'.t.slots == s.t.slots && s'.procs[c].pc.AuthFound?
            && s'.procs[c].newprf == newprf && s'.procs[c].newkey == username
  {
    hide WithUser, PointersOk, UserSlot;
  }

  /** A client that is let in is served, and has been checked against the limit unless it
      is exempt; nothing else changes. */
  lemma {:induction false} AdmitMeans(s: State, c: nat, limit: nat)
    requires ProcsOk(s) && Enabled(s, Admit(c, limit))
    ensures var s' := After(s, Admit(c, limit));
            && At(s', c, Serving) && s'.procs[c].limit == limit && (s'.procs[c].checked <==> !s.procs[c].unlimit)
            && s'.t == s.t && s'.sem == s.sem
  {
    hide ProcOk;
  }

  /** A client that is let on to its new user has the limit noted, and gives the lock back
      exactly if the sharing request is made. */
  lemma {:induction false} AcceptMeans(s: State, c: nat, limit: nat, sharing: bool)
    requires ProcsOk(s) && Enabled(s, AuthAccept(c, limit, sharing))
    ensures var s' := After(s, AuthAccept(c, limit, sharing));
            && At(s', c, if sharing then Sharing else AuthPassed) && s'.procs[c].newlimit == limit
            && s'.t == s.t && s'.sem == if sharing && s.sem > 0 then s.sem - 1 else s.sem
  {
    hide ProcOk;
  }

  /** A client that moves has the user and the profile it asked for, is off its old
      profile and on the new one, and has given its old user back; a user that is new to
      it was checked against the limit noted. */
  ghost predicate HasMoved(s: State, s': State, c: nat) {
    && SameSizes(s, s', c) && HasUser(s, c)
    && s'.procs[c].authenticated
    && s'.t.slots[c].user == Some(s.procs[c].newuser) && s'.t.slots[c].profile == Some(s.procs[c].newprf)
    && HoldsKey(s'.t, s.procs[c].newuser, s.procs[c].newkey)
    && GivenBack(s, s', s.t.slots[c].user.value)
    && (s.t.slots[c].user != Some(s.procs[c].newuser) ==>
          s'.procs[c].checked && s'.procs[c].limit == s.procs[c].newlimit)
    && var was, now := s.t.slots[c].profile.value, s.procs[c].newprf;
       if was == now then s'.t.profiles[was].connections == s.t.profiles[was].connections
       else OneLess(s, s', was) && OneMore(s, s', now)
  }

  lemma {:induction false} CommitMeans(s: State, c: nat)
    requires ProcsOk(s) && UsersOk(s) && ProfilesOk(s) && Enabled(s, AuthCommit(c))
    ensures HasMoved(s, After(s, AuthCommit(c)), c)
  {
    hide After, Enabled, UsersOk, ProfilesOk;
    var step := AuthCommit(c);
    var s' := After(s, step);
    MovedFacts(s, c);
    StepMoves(s, step);
    BusyConns(s, step, s.t.slots[c].profile.value);
    BusyConns(s, step, s.procs[c].newprf);
    ProcsOkKept(s, step);
    assert ProcOk(s.t, s.t.slots[c], s.procs[c]);
    assert ProcOk(s'.t, s'.t.slots[c], s'.procs[c]);
  }

  lemma {:induction false} MovedFacts(s: State, c: nat)
    requires ProcsOk(s) && Enabled(s, AuthCommit(c))
    ensures var s', was := After(s, AuthCommit(c)), s.t.slots[c];
            && HasProfile(s, c) && HasUser(s, c) && c < |s'.t.slots| && c < |s'.procs|
            && s.procs[c].pc.AuthPassed? && s.procs[c].newprf < |s.t.profiles|
            && (was.user != Some(s.procs[c].newuser) ==>
                  s'.procs[c].checked && s'.procs[c].limit == s.procs[c].newlimit)
            && s'.procs[c].pc.AuthDone? && s'.procs[c].authenticated && s'.procs[c].key == s.procs[c].newkey
            && s'.t.slots[c] == was.(user := Some(s.procs[c].newuser), profile := Some(s.procs[c].newprf))
  {
    hide MovedTables;
    assert ProcOk(s.t, s.t.slots[c], s.procs[c]);
  }

  /** A client that closes leaves its slot, its profile and its user. */
  predicate HasClosed(s: State, s': State, c: nat) {
    && SameSizes(s, s', c)
    && s'.t.slots[c] == ZERO_SLOT && s'.procs[c].pc.Free?
    && OneLess(s, s', s.t.slots[c].profile.value)
    && (s.t.slots[c].user.Some? ==> GivenBack(s, s', s.t.slots[c].user.value))
  }

  lemma {:induction false} CloseMeans(s: State, c: nat)
    requires ProcsOk(s) && UsersOk(s) && ProfilesOk(s) && Enabled(s, CloseBody(c))
    ensures HasClosed(s, After(s, CloseBody(c)), c)
  {
    hide After, Enabled, UsersOk, ProfilesOk;
    var step := CloseBody(c);
    var s' := After(s, step);
    ClosedFacts(s, c);
    StepMoves(s, step);
    BusyConns(s, step, s.t.slots[c].profile.value);
  }

  lemma {:induction false} ClosedFacts(s: State, c: nat)
    requires ProcsOk(s) && Enabled(s, CloseBody(c))
    ensures var s' := After(s, CloseBody(c));
            && HasProfile(s, c) && (s.t.slots[c].user.Some? ==> HasUser(s, c))
            && c < |s'.t.slots| && c < |s'.procs| && s.procs[c].pc.CloseLocked?
            && s'.t.slots[c] == ZERO_SLOT && s'.procs[c] == NO_PROC
  {
    hide ClosedTables;
    assert ProcOk(s.t, s.t.slots[c], s.procs[c]);
  }

  // ----- who is turned away

  /** A refused authentication leaves the tables as they were. */
  lemma {:induction false} RefuseRestores(s: State, c: nat, username: string, newprf: nat, limit: nat)
    requires ProcsOk(s) && UsersOk(s) && Enabled(s, AuthFind(c, username, newprf))
    ensures var s1 := After(s, AuthFind(c, username, newprf));
            ProcsOk(s1)
            && (Enabled(s1, AuthRefuse(c, limit)) ==>
                  var s2 := After(s1, AuthRefuse(c, limit));
                  s2.t == s.t && At(s2, c, AuthUndone))
  {
    hide After, Enabled, ProcOk, AddUser, DropUser, UserSlot, KeysOk, Refs;
    ProcsOkKept(s, AuthFind(c, username, newprf));
    var s1 := After(s, AuthFind(c, username, newprf));
    FoundTables(s, c, username, newprf);
    forall u | 0 <= u < |s.t.users| ensures s.t.users[u].connections < 0xFFFF_FFFF {
      RefsAtLeast(s, u, c);
    }
    AddThenDrop(s.t, username, newprf);
    if Enabled(s1, AuthRefuse(c, limit)) {
      RefusedTables(s1, c, limit);
    }
  }

  lemma {:induction false} FoundTables(s: State, c: nat, username: string, newprf: nat)
    requires ProcsOk(s) && Enabled(s, AuthFind(c, username, newprf))
    ensures username != "" && newprf < |s.t.profiles| && UserSlot(s.t.users, username).Some? && c < MAX_PROC
    ensures var s' := After(s, AuthFind(c, username, newprf));
            && s'.t == AddUser(s.t, username, newprf) && c < |s'.procs|
            && s'.procs[c].newuser == UserSlot(s.t.users, username).value && s'.procs[c].newprf == newprf
  {
    hide AddUser, UserSlot, ProcOk;
  }

  lemma {:induction false} RefusedTables(s: State, c: nat, limit: nat)
    requires ProcsOk(s) && Enabled(s, AuthRefuse(c, limit))
    ensures var s' := After(s, AuthRefuse(c, limit));
            && c < |s.procs| && s.procs[c].newuser < |s.t.users| && s.procs[c].newprf < |s.t.profiles|
            && s'.t == DropUser(s.t, s.procs[c].newuser, s.procs[c].newprf) && At(s', c, AuthUndone)
  {
    hide DropUser;
    assert ProcOk(s.t, s.t.slots[c], s.procs[c]);
  }

  /** Taking a user and giving it back at once changes nothing. */
  lemma {:induction false} AddThenDrop(t: Tables, key: string, prf: nat)
    requires KeysOk(t.users) && key != "" && UserSlot(t.users, key).Some? && prf < |t.profiles|
    requires forall u :: 0 <= u < |t.users| ==> t.users[u].connections < 0xFFFF_FFFF
    ensures var u := AddUser(t, key, prf);
            UserSlot(t.users, key).value < |u.users| && DropUser(u, UserSlot(t.users, key).value, prf) == t
  {
    var id := UserSlot(t.users, key).value;
    assert t.users[id].key == if IsKnown(t.users, key) then key else "";
    var u := DropUser(AddUser(t, key, prf), id, prf);
    assert u.users == t.users;
    assert u.profiles == t.profiles;
  }

  /** The answer to the sharing request decides whether the client moves; it changes no
      table. */
  lemma {:induction false} ShareDecides(s: State, c: nat, ok: bool)
    requires ProcsOk(s) && UsersOk(s) && Enabled(s, ShareLock(c, ok))
    ensures var s' := After(s, ShareLock(c, ok));
            && ProcsOk(s') && s'.t == s.t
            && (Enabled(s', AuthCommit(c)) <==> ok) && (Enabled(s', AuthFail(c)) <==> !ok)
  {
    hide UsersOk, ProcOk;
    ProcsOkKept(s, ShareLock(c, ok));
  }

  /** What a client that is turned away keeps. */
  predicate Keeps(s: State, s': State, c: nat) {
    && c < |s.t.slots| == |s'.t.slots| && c < |s.procs| == |s'.procs|
    && s'.t.slots[c] == s.t.slots[c]
    && s'.procs[c].authenticated == s.procs[c].authenticated && s'.procs[c].key == s.procs[c].key
    && s'.procs[c].checked == s.procs[c].checked && s'.procs[c].limit == s.procs[c].limit
  }

  /** The client is giving up. */
  predicate GivingUp(s: State, c: nat) {
    At(s, c, AuthFailed) || At(s, c, AuthUndone)
  }

  lemma {:induction false} GivingUpKeeps(s: State, step: Step, c: nat)
    requires ProcsOk(s) && UsersOk(s) && Enabled(s, step) && GivingUp(s, c)
    ensures var s' := After(s, step);
            (GivingUp(s', c) || At(s', c, Serving)) && Keeps(s, s', c)
  {
    hide After, Enabled, UsersOk, Actor;
    StepLocal(s, step);
    if c == Actor(s, step) {
      OwnStepKeeps(s, step, c);
    }
  }

  lemma {:induction false} OwnStepKeeps(s: State, step: Step, c: nat)
    requires ProcsOk(s) && Enabled(s, step) && GivingUp(s, c) && Actor(s, step) == c
    ensures var s' := After(s, step);
            (GivingUp(s', c) || At(s', c, Serving)) && Keeps(s, s', c)
  {
    hide DropUser, PointersOk, UserSlot, CountIp, FirstFree;
    assert ProcOk(s.t, s.t.slots[c], s.procs[c]);
  }

  /** The client is giving up before every step of the run. */
  ghost predicate GivesUpThrough(s: State, steps: seq<Step>, s': State, c: nat)
    requires Inv(s) && Runs(s, steps, s')
    decreases |steps|
  {
    steps != [] ==>
      GivingUp(s, c) && (InvKept(s, steps[0]); GivesUpThrough(After(s, steps[0]), steps[1..], s', c))
  }

  /** Over any run of all processes in which a client gives up: it has the slot, the user
      and the profile it had when it was refused, until it is served again. */
  lemma {:induction false} RefusedKeeps(s: State, steps: seq<Step>, s': State, c: nat)
    requires Inv(s) && Runs(s, steps, s') && GivesUpThrough(s, steps, s', c) && GivingUp(s, c)
    ensures (GivingUp(s', c) || At(s', c, Serving)) && Keeps(s, s', c)
    decreases |steps|
  {
    hide Enabled, After, ProcsOk, UsersOk, LockOk, ProfilesOk, UserCountOk, LimitsOk, AdmittedPassed, GivingUp, Keeps;
    if steps == [] {
      KeepsItself(s, c);
    } else {
      var s1 := After(s, steps[0]);
      InvKept(s, steps[0]);
      GivingUpKeeps(s, steps[0], c);
      if steps[1..] != [] {
        RefusedKeeps(s1, steps[1..], s', c);
        KeepsOn(s, s1, s', c);
      }
    }
  }

  lemma {:induction false} KeepsItself(s: State, c: nat)
    requires ProcsOk(s) && GivingUp(s, c)
    ensures Keeps(s, s, c)
  {
  }

  lemma {:induction false} KeepsOn(s: State, s1: State, s2: State, c: nat)
    requires Keeps(s, s1, c) && Keeps(s1, s2, c)
    ensures Keeps(s, s2, c)
  {
  }

  // ----- who has authenticated

  /** The client has moved to the user it authenticated as. */
  predicate Settled(s: State, c: nat) {
    && c < |s.procs| && s.procs[c].authenticated
    && (s.procs[c].pc.AuthDone? || s.procs[c].pc.Serving? || s.procs[c].pc.CloseLocked?)
  }

  lemma {:induction false} SettledKeeps(s: State, step: Step, c: nat)
    requires ProcsOk(s) && UsersOk(s) && Enabled(s, step) && Settled(s, c) && step != CloseBody(c)
    ensures Settled(After(s, step), c) && Keeps(s, After(s, step), c)
  {
    hide After, Enabled, UsersOk, Actor;
    StepLocal(s, step);
    if c == Actor(s, step) {
      SettledOwnStep(s, step, c);
    }
  }

  lemma {:induction false} SettledOwnStep(s: State, step: Step, c: nat)
    requires ProcsOk(s) && Enabled(s, step) && Settled(s, c) && Actor(s, step) == c && step != CloseBody(c)
    ensures Settled(After(s, step), c) && Keeps(s, After(s, step), c)
  {
    hide PointersOk, UserSlot, CountIp, FirstFree;
    assert ProcOk(s.t, s.t.slots[c], s.procs[c]);
  }

  /** Over any run of all processes a client that has authenticated keeps its user and its
      profile until it closes: it does not authenticate twice. */
  lemma {:induction false} AuthenticatedKeeps(s: State, steps: seq<Step>, s': State, c: nat)
    requires Inv(s) && Runs(s, steps, s') && Settled(s, c) && CloseBody(c) !in steps
    ensures Settled(s', c) && Keeps(s, s', c)
    decreases |steps|
  {
    hide Enabled, After, ProcsOk, UsersOk, LockOk, ProfilesOk, UserCountOk, LimitsOk, AdmittedPassed, Settled, Keeps;
    if steps == [] {
      SettledItself(s, c);
    } else {
      var s1 := After(s, steps[0]);
      InvKept(s, steps[0]);
      SettledKeeps(s, steps[0], c);
      AuthenticatedKeeps(s1, steps[1..], s', c);
      KeepsOn(s, s1, s', c);
    }
  }

  lemma {:induction false} SettledItself(s: State, c: nat)
    requires ProcsOk(s) && Settled(s, c)
    ensures Keeps(s, s, c)
  {
  }

  // ----- the lock is given back

  /** What the process that holds the lock may do next. */
  ghost function NextOf(s: State, c: nat): Step
    requires ProcsOk(s) && c < |s.procs|
  {
    match s.procs[c].pc
    case ConnLocked => ConnCount(c, "host")
    case ConnFound => ConnUnlock(c)
    case AuthLocked => AuthReject(c)
    case AuthFound => if MayMove(s, c, 0) then AuthAccept(c, 0, false) else AuthRefuse(c, 0)
    case AuthPassed => AuthCommit(c)
    case AuthFailed => AuthFail(c)
    case CloseLocked => CloseBody(c)
    case _ => AuthUnlock(c)
  }

  /** How many steps it is away from the unlock. */
  function StepsLeft(pc: Pc): nat {
    match pc
    case AuthFound => 3
    case AuthPassed => 2
    case AuthFailed => 2
    case ConnLocked => 2
    case ConnFound => 1
    case AuthLocked => 1
    case AuthUndone => 1
    case AuthDone => 1
    case CloseLocked => 1
    case _ => 0
  }

  lemma {:induction false} HolderMay(s: State, c: nat)
    requires ProcsOk(s) && c < |s.procs| && Critical(s.procs[c].pc)
    ensures Enabled(s, NextOf(s, c))
  {
    hide ProcOk, UserSlot;
    assert |"host"| == 4;
  }

  lemma {:induction false} HolderMoves(s: State, c: nat)
    requires ProcsOk(s) && c < |s.procs| && Critical(s.procs[c].pc) && Enabled(s, NextOf(s, c))
    requires s.sem == 1
    ensures var s' := After(s, NextOf(s, c));
            && c < |s'.procs| && StepsLeft(s'.procs[c].pc) < StepsLeft(s.procs[c].pc) <= 3
            && (s'.sem == 0 || Critical(s'.procs[c].pc))
  {
    hide UserSlot, AddUser, DropUser, CountedTables, ClosedTables, MovedTables, PointersOk, MayMove;
    assert ProcOk(s.t, s.t.slots[c], s.procs[c]);
  }

  lemma {:induction false} HolderHasLock(s: State, c: nat)
    requires LockOk(s) && c < |s.procs| && Critical(s.procs[c].pc)
    ensures s.sem == 1
  {
    hide Sum;
    SumTerm(|s.procs|, LockWeight(s), c);
  }

  /** From any state a run of at most three steps frees the lock: nobody waits for somebody
      who cannot go on. */
  lemma {:induction false} LockIsGivenBack(s: State, c: nat) returns (steps: seq<Step>, s': State)
    requires Inv(s) && c < |s.procs| && Critical(s.procs[c].pc)
    ensures |steps| <= StepsLeft(s.procs[c].pc) <= 3 && Runs(s, steps, s') && s'.sem == 0
    decreases StepsLeft(s.procs[c].pc)
  {
    hide Enabled, After, NextOf, Critical, StepsLeft, ProcsOk, UsersOk, LockOk, ProfilesOk, UserCountOk, LimitsOk,
      AdmittedPassed;
    HolderHasLock(s, c);
    HolderMay(s, c);
    HolderMoves(s, c);
    var step := NextOf(s, c);
    var s1 := After(s, step);
    InvKept(s, step);
    steps, s' := [], s1;
    if s1.sem != 0 {
      steps, s' := LockIsGivenBack(s1, c);
    }
    OneStepMore(s, step, steps, s');
    steps := [step] + steps;
  }

  lemma {:induction false} OneStepMore(s: State, step: Step, steps: seq<Step>, s': State)
    requires Inv(s) && Enabled(s, step) && Inv(After(s, step)) && Runs(After(s, step), steps, s')
    ensures Runs(s, [step] + steps, s')
  {
    hide Enabled, After, ProcsOk, UsersOk, LockOk, ProfilesOk, UserCountOk, LimitsOk, AdmittedPassed;
    assert ([step] + steps)[1..] == steps;
  }
}
