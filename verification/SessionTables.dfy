/** The shared tables of client slots, users and profiles: the functions of
    client.c on the arrays, each proved equal to a function on table values. */
module SessionTables {
  import opened Wrappers

  /** A C `uint`. */
  type uint = x: int | 0 <= x < 0x1_0000_0000

  function Plus1(x: uint): uint {
    if x == 0xFFFF_FFFF then 0 else x + 1
  }

  function Minus1(x: uint): uint {
    if x == 0 then 0xFFFF_FFFF else x - 1
  }

  /** A client slot; `profile` and `user` are the pointers into the tables. */
  datatype Slot = Slot(inuse: bool, id: nat, ip: nat, concur: nat, profile: Option<nat>, user: Option<nat>)

  /** What memset leaves. */
  const ZERO_SLOT := Slot(false, 0, 0, 0, None, None)

  /** A user slot is empty when its key is. */
  datatype User = User(key: string, connections: uint)

  const ZERO_USER := User("", 0)

  datatype Profile = Profile(connections: uint, numusers: uint)

  datatype Tables = Tables(slots: seq<Slot>, users: seq<User>, profiles: seq<Profile>, numusers: int)

  // ----- users

  /** The first user slot from `i` on with this key, or the table's size. */
  function FindKey(users: seq<User>, key: string, i: nat): (j: nat)
    requires i <= |users|
    ensures i <= j <= |users|
    ensures j < |users| ==> users[j].key == key
    ensures forall k :: i <= k < j ==> users[k].key != key
    decreases |users| - i
  {
    if i == |users| || users[i].key == key then i else FindKey(users, key, i + 1)
  }

  /** `find_user`: the slot a key gets, None when the table is full. */
  function UserSlot(users: seq<User>, key: string): (id: Option<nat>)
    ensures id.Some? ==> id.value < |users|
  {
    var known := FindKey(users, key, 0);
    var empty := FindKey(users, "", 0);
    if known < |users| then Some(known)
    else if empty < |users| then Some(empty)
    else None
  }

  predicate IsKnown(users: seq<User>, key: string) {
    FindKey(users, key, 0) < |users|
  }

  /** The user table with one more connection for a key. */
  function WithUser(users: seq<User>, key: string): (r: seq<User>)
    requires UserSlot(users, key).Some?
    ensures |r| == |users|
  {
    var id := UserSlot(users, key).value;
    if IsKnown(users, key) then
      users[id := users[id].(connections := Plus1(users[id].connections))]
    else users[id := User(key, 1)]
  }

  function AddUser(t: Tables, key: string, prf: nat): (r: Tables)
    requires UserSlot(t.users, key).Some? && prf < |t.profiles|
    ensures r.users == WithUser(t.users, key) && r.slots == t.slots && |r.profiles| == |t.profiles|
  {
    var t1 := t.(users := WithUser(t.users, key));
    if IsKnown(t.users, key) then t1
    else
      t1.(profiles := t.profiles[prf := t.profiles[prf].(numusers := Plus1(t.profiles[prf].numusers))],
          numusers := t.numusers + 1)
  }

  /** The user table with one connection less in a slot. */
  function WithoutUser(users: seq<User>, id: nat): (r: seq<User>)
    requires id < |users|
    ensures |r| == |users|
  {
    var left := Minus1(users[id].connections);
    users[id := if left == 0 then ZERO_USER else users[id].(connections := left)]
  }

  /** `drop_user`. */
  function DropUser(t: Tables, id: nat, prf: nat): (r: Tables)
    requires id < |t.users| && prf < |t.profiles|
    ensures r.users == WithoutUser(t.users, id) && r.slots == t.slots && |r.profiles| == |t.profiles|
  {
    var t1 := t.(users := WithoutUser(t.users, id));
    if Minus1(t.users[id].connections) == 0 then
      t1.(profiles := t.profiles[prf := t.profiles[prf].(numusers := Minus1(t.profiles[prf].numusers))],
          numusers := t.numusers - 1)
    else t1
  }

  // ----- profiles and slots

  function AddConnection(t: Tables, prf: nat): (r: Tables)
    requires prf < |t.profiles|
    ensures r.users == t.users && r.slots == t.slots && |r.profiles| == |t.profiles|
  {
    t.(profiles := t.profiles[prf := t.profiles[prf].(connections := Plus1(t.profiles[prf].connections))])
  }

  /** A count that is 0 already is only complained about. */
  function DropConnection(t: Tables, prf: nat): (r: Tables)
    requires prf < |t.profiles|
    ensures r.users == t.users && r.slots == t.slots && |r.profiles| == |t.profiles|
  {
    if t.profiles[prf].connections > 0 then
      t.(profiles := t.profiles[prf := t.profiles[prf].(connections := Minus1(t.profiles[prf].connections))])
    else t
  }

  function CountIp(slots: seq<Slot>, ip: nat): nat {
    if slots == [] then 0
    else CountIp(slots[..|slots| - 1], ip) + (if slots[|slots| - 1].ip == ip then 1 else 0)
  }

  function FirstFree(slots: seq<Slot>, i: nat): (j: nat)
    requires i <= |slots|
    ensures i <= j <= |slots|
    ensures j < |slots| ==> !slots[j].inuse
    ensures forall k :: i <= k < j ==> slots[k].inuse
    decreases |slots| - i
  {
    if i == |slots| || !slots[i].inuse then i else FirstFree(slots, i + 1)
  }

  ghost predicate FreeSlotsZero(slots: seq<Slot>) {
    forall i :: 0 <= i < |slots| && !slots[i].inuse ==> slots[i] == ZERO_SLOT
  }

  /** `find_slot`: the slot an address gets. */
  function SlotFor(slots: seq<Slot>, ip: nat, maxcon: int): (i: Option<nat>)
    ensures i.Some? ==> i.value < |slots| && !slots[i.value].inuse
  {
    var free := FirstFree(slots, 0);
    if free < |slots| && !(maxcon > 0 && CountIp(slots, ip) + 1 > maxcon) then Some(free) else None
  }

  function TakeSlot(t: Tables, ip: nat, maxcon: int): Tables {
    match SlotFor(t.slots, ip, maxcon)
    case None => t
    case Some(i) => t.(slots := t.slots[i := Slot(true, i, ip, CountIp(t.slots, ip) + 1, None, None)])
  }

  lemma {:induction false} CountIpSplit(a: seq<Slot>, b: seq<Slot>, ip: nat)
    ensures CountIp(a + b, ip) == CountIp(a, ip) + CountIp(b, ip)
    decreases |b|
  {
    if b == [] {
      assert a + b == a;
    } else {
      assert (a + b)[..|a + b| - 1] == a + b[..|b| - 1];
      CountIpSplit(a, b[..|b| - 1], ip);
    }
  }

  /** The slots of an address, counted. */
  lemma {:induction false} CountIpIsNumber(slots: seq<Slot>, ip: nat)
    ensures CountIp(slots, ip) == |set i | 0 <= i < |slots| && slots[i].ip == ip|
    decreases |slots|
  {
    var all := set i | 0 <= i < |slots| && slots[i].ip == ip;
    if slots != [] {
      var n := |slots| - 1;
      CountIpIsNumber(slots[..n], ip);
      var before := set i | 0 <= i < |slots[..n]| && slots[..n][i].ip == ip;
      if slots[n].ip == ip {
        assert all == before + {n};
      } else {
        assert all == before;
      }
    }
  }

  /** A slot that is taken belongs to the address, which has one more then. */
  lemma {:induction false} TakenCounts(t: Tables, ip: nat, maxcon: int)
    requires FreeSlotsZero(t.slots) && ip != 0 && SlotFor(t.slots, ip, maxcon).Some?
    ensures CountIp(TakeSlot(t, ip, maxcon).slots, ip) == CountIp(t.slots, ip) + 1
  {
    var i := SlotFor(t.slots, ip, maxcon).value;
    var was, now := t.slots, TakeSlot(t, ip, maxcon).slots;
    assert was == was[..i] + [was[i]] + was[i + 1..];
    assert now == was[..i] + [now[i]] + was[i + 1..];
    CountIpSplit(was[..i] + [was[i]], was[i + 1..], ip);
    CountIpSplit(was[..i], [was[i]], ip);
    CountIpSplit(was[..i] + [now[i]], was[i + 1..], ip);
    CountIpSplit(was[..i], [now[i]], ip);
    assert CountIp([was[i]], ip) == 0 && CountIp([now[i]], ip) == 1;
  }

  // ----- the source's functions on the arrays

  class Master {
    const clients: array<Slot>
    const users: array<User>
    const profiles: array<Profile>
    var numusers: int

    ghost function Value(): Tables
      reads this, clients, users, profiles
    {
      Tables(clients[..], users[..], profiles[..], numusers)
    }

    constructor (maxProc: nat, profs: seq<Profile>)
      ensures fresh(clients) && fresh(users) && fresh(profiles)
      ensures Value() == Tables(seq(maxProc, i => ZERO_SLOT), seq(maxProc, i => ZERO_USER), profs, 0)
    {
      clients := new Slot[maxProc](i => ZERO_SLOT);
      users := new User[maxProc](i => ZERO_USER);
      profiles := new Profile[|profs|](i requires 0 <= i < |profs| => profs[i]);
      numusers := 0;
      new;
      assert clients[..] == seq(maxProc, i => ZERO_SLOT);
      assert users[..] == seq(maxProc, i => ZERO_USER);
    }

    method FindSlot(ip: nat, maxcon: int) returns (r: Option<nat>)
      requires FreeSlotsZero(clients[..])
      modifies clients
      ensures r == SlotFor(old(clients[..]), ip, maxcon)
      ensures r == None <==> (forall i :: 0 <= i < clients.Length ==> old(clients[i]).inuse)
                             || (maxcon > 0 && CountIp(old(clients[..]), ip) >= maxcon)
      ensures r.Some? ==>
                && r.value < clients.Length && !old(clients[r.value]).inuse
                && clients[r.value].inuse && clients[r.value].id == r.value && clients[r.value].ip == ip
                && clients[r.value].concur == CountIp(old(clients[..]), ip) + 1
                && (ip != 0 ==> CountIp(clients[..], ip) == CountIp(old(clients[..]), ip) + 1)
      ensures forall k :: 0 <= k < clients.Length && r != Some(k) ==> clients[k] == old(clients[k])
      ensures Value() == TakeSlot(old(Value()), ip, maxcon)
      ensures FreeSlotsZero(clients[..])
    {
      ghost var was, before := clients[..], Value();
      if ip != 0 && SlotFor(was, ip, maxcon).Some? {
        TakenCounts(before, ip, maxcon);
      }
      var cc := 0;
      var i := 0;
      while i < clients.Length
        invariant i <= clients.Length
        invariant clients[..] == was
        invariant FirstFree(was, 0) == FirstFree(was, i)
        invariant cc == CountIp(was[..i], ip)
      {
        assert was[..i + 1][..i] == was[..i];
        if clients[i].ip == ip {
          cc := cc + 1;
        }
        if !clients[i].inuse {
          r, cc := ClaimSlot(i, cc, ip, maxcon);
          return;
        }
        i := i + 1;
      }
      return None;
    }

    /** The rest of the scan once slot `i` was found free; `cc0` slots up to and
        including it were counted. */
    method ClaimSlot(i: nat, cc0: nat, ip: nat, maxcon: int) returns (r: Option<nat>, cc: nat)
      requires FreeSlotsZero(clients[..])
      requires i < clients.Length && i == FirstFree(clients[..], 0) && !clients[i].inuse
      requires cc0 == CountIp(clients[..][..i + 1], ip)
      modifies clients
      ensures r == SlotFor(old(clients[..]), ip, maxcon)
      ensures Value() == TakeSlot(old(Value()), ip, maxcon)
      ensures FreeSlotsZero(clients[..])
    {
      hide CountIp, FirstFree;
      ghost var was := clients[..];
      cc := cc0;
      clients[i] := ZERO_SLOT;
      clients[i] := clients[i].(inuse := true, id := i, ip := ip);
      ghost var now := clients[..];
      CountIpStep(now, i, i, ip);
      var k := i;
      while k < clients.Length
        invariant i <= k <= clients.Length
        invariant clients[..] == now
        invariant cc == cc0 + CountIp(now[i..k], ip)
        invariant k > i && maxcon > 0 ==> cc <= maxcon
      {
        CountIpStep(now, i, k, ip);
        CountIpRest(was, now, i, k, ip);
        if clients[k].ip == ip {
          cc := cc + 1;
        }
        if maxcon > 0 && cc > maxcon {
          clients[i] := clients[i].(inuse := false, id := 0, ip := 0);
          assert clients[..] == was;
          return None, cc;
        }
        k := k + 1;
      }
      CountIpRest(was, now, i, k - 1, ip);
      clients[i] := clients[i].(concur := cc);
      return Some(i), cc;
    }

    static lemma {:induction false} CountIpStep(now: seq<Slot>, i: nat, k: nat, ip: nat)
      requires i <= k < |now|
      ensures CountIp(now[i..i], ip) == 0
      ensures CountIp(now[i..k + 1], ip) == CountIp(now[i..k], ip) + (if now[k].ip == ip then 1 else 0)
    {
      assert now[i..k + 1][..k - i] == now[i..k];
    }

    /** Counting up to slot `k` behind the claimed slot `i` never exceeds the final
        count, one more than before. */
    static lemma {:induction false} CountIpRest(was: seq<Slot>, now: seq<Slot>, i: nat, k: nat, ip: nat)
      requires i <= k < |was| && was[i] == ZERO_SLOT
      requires now == was[i := Slot(true, i, ip, 0, None, None)]
      ensures CountIp(was[..i + 1], ip) + CountIp(now[i..k + 1], ip) <= CountIp(was, ip) + 1
      ensures k == |was| - 1 ==>
                CountIp(was[..i + 1], ip) + CountIp(now[i..k + 1], ip) == CountIp(was, ip) + 1
    {
      assert now[i..k + 1] == [now[i]] + was[i + 1..k + 1];
      CountIpSplit([now[i]], was[i + 1..k + 1], ip);
      assert was[i + 1..] == was[i + 1..k + 1] + was[k + 1..];
      CountIpSplit(was[i + 1..k + 1], was[k + 1..], ip);
      assert was == was[..i + 1] + was[i + 1..];
      CountIpSplit(was[..i + 1], was[i + 1..], ip);
      assert CountIp([now[i]], ip) == 1;
    }

    method FreeClient(id: nat)
      requires id < clients.Length
      modifies clients
      ensures Value() == old(Value()).(slots := old(clients[..])[id := ZERO_SLOT])
    {
      clients[id] := ZERO_SLOT;
    }

    method FindUser(ky: string, prf: nat) returns (r: Option<nat>)
      requires prf < profiles.Length
      modifies this, users, profiles
      ensures r == UserSlot(old(users[..]), ky)
      ensures r.Some? ==> Value() == AddUser(old(Value()), ky, prf)
      ensures r.None? ==> Value() == old(Value())
    {
      var i := 0;
      while i < users.Length
        invariant i <= users.Length
        invariant Value() == old(Value())
        invariant FindKey(users[..], ky, 0) == FindKey(users[..], ky, i)
      {
        if users[i].key == ky {
          users[i] := users[i].(connections := Plus1(users[i].connections));
          return Some(i);
        }
        i := i + 1;
      }
      var id: Option<nat> := None;
      i := 0;
      while i < users.Length
        invariant i <= users.Length
        invariant FindKey(users[..], "", 0) == FindKey(users[..], "", i)
        invariant id == None
      {
        if users[i].key == "" {
          id := Some(i);
          break;
        }
        i := i + 1;
      }
      if id == None {
        return None;
      }
      users[id.value] := ZERO_USER;
      users[id.value] := users[id.value].(key := ky, connections := 1);
      profiles[prf] := profiles[prf].(numusers := Plus1(profiles[prf].numusers));
      numusers := numusers + 1;
      return id;
    }

    method DropUserAt(id: nat, prf: nat)
      requires id < users.Length && prf < profiles.Length
      modifies this, users, profiles
      ensures Value() == DropUser(old(Value()), id, prf)
    {
      users[id] := users[id].(connections := Minus1(users[id].connections));
      if users[id].connections == 0 {
        users[id] := ZERO_USER;
        profiles[prf] := profiles[prf].(numusers := Minus1(profiles[prf].numusers));
        numusers := numusers - 1;
      }
    }

    /** Client `j` points at user slot `i`, which has this key. */
    ghost predicate Holds(key: string, i: int, j: int)
      reads clients, users
    {
      && 0 <= i < users.Length && users[i].key == key
      && 0 <= j < clients.Length && clients[j].user == Some(i)
    }

    /** The profile of the first client that holds the user with this key. */
    method FindUserProfile(key: string) returns (r: Option<nat>)
      ensures || (exists i, j :: Holds(key, i, j) && r == clients[j].profile)
              || (r == None && forall i, j :: !Holds(key, i, j))
    {
      var i := 0;
      while i < users.Length
        invariant i <= users.Length
        invariant forall k, j :: 0 <= k < i ==> !Holds(key, k, j)
      {
        if users[i].key == key {
          var j := 0;
          while j < clients.Length
            invariant j <= clients.Length
            invariant forall h :: 0 <= h < j ==> !Holds(key, i, h)
          {
            if clients[j].user == Some(i) {
              assert Holds(key, i, j);
              return clients[j].profile;
            }
            j := j + 1;
          }
        }
        i := i + 1;
      }
      return None;
    }

    /** The locked part of `run_child`. */
    method CountClient(c: nat, hostname: string)
      requires c < clients.Length
      requires clients[c].profile.Some? && clients[c].profile.value < profiles.Length
      modifies this, clients, users, profiles
      ensures Value() == CountedTables(old(Value()), c, hostname)
    {
      var prf := clients[c].profile.value;
      profiles[prf] := profiles[prf].(connections := Plus1(profiles[prf].connections));
      label counted:
      assert Value() == AddConnection(old(Value()), prf);
      var u := FindUser(hostname, prf);
      clients[c] := clients[c].(user := u);
    }

    /** The locked part of `close_child`. */
    method CloseClient(c: nat)
      requires c < clients.Length
      requires clients[c].profile.Some? && clients[c].profile.value < profiles.Length
      requires clients[c].user.Some? ==> clients[c].user.value < users.Length
      modifies this, clients, users, profiles
      ensures Value() == ClosedTables(old(Value()), c)
    {
      var prf := clients[c].profile.value;
      if profiles[prf].connections > 0 {
        profiles[prf] := profiles[prf].(connections := Minus1(profiles[prf].connections));
      }
      assert Value() == DropConnection(old(Value()), prf);
      if clients[c].user.Some? {
        DropUserAt(clients[c].user.value, prf);
      }
      FreeClient(c);
    }

    /** The end of a successful `authinfo`: the client moves to its new profile
        and user. */
    method MoveClient(c: nat, newuser: nat, newprf: nat)
      requires c < clients.Length
      requires clients[c].profile.Some? && clients[c].profile.value < profiles.Length
      requires clients[c].user.Some? && clients[c].user.value < users.Length
      requires newuser < users.Length && newprf < profiles.Length
      modifies this, clients, users, profiles
      ensures Value() == MovedTables(old(Value()), c, newuser, newprf)
    {
      var oldprf := clients[c].profile.value;
      if oldprf != newprf {
        if profiles[oldprf].connections != 0 {
          profiles[oldprf] := profiles[oldprf].(connections := Minus1(profiles[oldprf].connections));
        }
        assert Value() == DropConnection(old(Value()), oldprf);
        clients[c] := clients[c].(profile := Some(newprf));
        profiles[newprf] := profiles[newprf].(connections := Plus1(profiles[newprf].connections));
      }
      assert Value() == MovedProfile(old(Value()), c, newprf);
      DropUserAt(clients[c].user.value, oldprf);
      clients[c] := clients[c].(user := Some(newuser));
    }
  }

  // ----- the locked sections, on table values

  function CountedTables(t: Tables, c: nat, hostname: string): (r: Tables)
    requires c < |t.slots| && t.slots[c].profile.Some? && t.slots[c].profile.value < |t.profiles|
    ensures r.slots == t.slots[c := t.slots[c].(user := UserSlot(t.users, hostname))]
    ensures r.users == if UserSlot(t.users, hostname).Some? then WithUser(t.users, hostname) else t.users
    ensures |r.profiles| == |t.profiles|
  {
    var prf := t.slots[c].profile.value;
    var t1 := AddConnection(t, prf);
    var id := UserSlot(t1.users, hostname);
    var t2 := if id.Some? then AddUser(t1, hostname, prf) else t1;
    t2.(slots := t2.slots[c := t2.slots[c].(user := id)])
  }

  function ClosedTables(t: Tables, c: nat): (r: Tables)
    requires c < |t.slots| && t.slots[c].profile.Some? && t.slots[c].profile.value < |t.profiles|
    requires t.slots[c].user.Some? ==> t.slots[c].user.value < |t.users|
    ensures r.slots == t.slots[c := ZERO_SLOT]
    ensures r.users == if t.slots[c].user.Some? then WithoutUser(t.users, t.slots[c].user.value) else t.users
    ensures |r.profiles| == |t.profiles|
  {
    var prf := t.slots[c].profile.value;
    var t1 := DropConnection(t, prf);
    var t2 := if t.slots[c].user.Some? then DropUser(t1, t.slots[c].user.value, prf) else t1;
    t2.(slots := t2.slots[c := ZERO_SLOT])
  }

  function MovedProfile(t: Tables, c: nat, newprf: nat): (r: Tables)
    requires c < |t.slots| && t.slots[c].profile.Some? && t.slots[c].profile.value < |t.profiles|
    requires newprf < |t.profiles|
    ensures r.slots == t.slots[c := t.slots[c].(profile := Some(newprf))]
    ensures r.users == t.users && |r.profiles| == |t.profiles|
  {
    var oldprf := t.slots[c].profile.value;
    if oldprf == newprf then t
    else
      var t1 := AddConnection(DropConnection(t, oldprf), newprf);
      t1.(slots := t1.slots[c := t1.slots[c].(profile := Some(newprf))])
  }

  function MovedTables(t: Tables, c: nat, newuser: nat, newprf: nat): (r: Tables)
    requires c < |t.slots| && t.slots[c].profile.Some? && t.slots[c].profile.value < |t.profiles|
    requires t.slots[c].user.Some? && t.slots[c].user.value < |t.users|
    requires newuser < |t.users| && newprf < |t.profiles|
    ensures r.slots == t.slots[c := t.slots[c].(user := Some(newuser), profile := Some(newprf))]
    ensures r.users == WithoutUser(t.users, t.slots[c].user.value)
    ensures |r.profiles| == |t.profiles|
  {
    var t1 := MovedProfile(t, c, newprf);
    var t2 := DropUser(t1, t.slots[c].user.value, t.slots[c].profile.value);
    t2.(slots := t2.slots[c := t2.slots[c].(user := Some(newuser))])
  }
}
