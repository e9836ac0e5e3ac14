/** Reading the access configuration a second time. */
module Reload {
  import opened Wrappers
  import opened Utf8
  import opened PrefixMaps
  import opened KeyedTables
  import opened ProfileTable
  import opened AccessTables

  // ----- the changes of a reading, table by table

  function Changes(t: Tables, cfg: seq<Statement>, timeout: int): (r: seq<Change>)
    requires ReadFile(t, cfg, timeout).Some?
    ensures |r| == |cfg|
  {
    if cfg == [] then []
    else
      var n := |cfg| - 1;
      Changes(t, cfg[..n], timeout) + [Resolve(ReadFile(t, cfg[..n], timeout).value, cfg[n]).value]
  }

  function AliasWrites(cs: seq<Change>): seq<Row<string, Alias>> {
    if cs == [] then []
    else
      var c := cs[|cs| - 1];
      AliasWrites(cs[..|cs| - 1]) + (if c.SetAlias? then [c.alias] else [])
  }

  function Blocks(cs: seq<Change>): seq<Row<string, Settings>> {
    if cs == [] then []
    else
      var c := cs[|cs| - 1];
      Blocks(cs[..|cs| - 1]) + (if c.SetProfile? then [c.block] else [])
  }

  function AuthWrites(cs: seq<Change>): seq<Row<seq<byte>, Auth>> {
    if cs == [] then []
    else
      var c := cs[|cs| - 1];
      AuthWrites(cs[..|cs| - 1]) + (if c.SetAuth? then [c.auth] else [])
  }

  function AclWrites(cs: seq<Change>): seq<Row<Range, Acl>> {
    if cs == [] then []
    else
      var c := cs[|cs| - 1];
      AclWrites(cs[..|cs| - 1]) + (if c.SetAcl? then [c.acl] else [])
  }

  function DoAll(t: Tables, cs: seq<Change>, timeout: int): Tables {
    Tables(PutAll(t.aliases, AliasWrites(cs)), MergeAll(t.profiles, Blocks(cs), timeout),
           PutAll(t.auths, AuthWrites(cs)), PutAll(t.acls, AclWrites(cs)))
  }

  lemma {:induction false} PutAllSnoc<K, V>(t: seq<Row<K, V>>, writes: seq<Row<K, V>>, r: Row<K, V>)
    ensures PutAll(t, writes + [r]) == Put(PutAll(t, writes), r.key, r.value)
    ensures PutAll(t, writes + []) == PutAll(t, writes)
  {
    assert (writes + [r])[..|writes|] == writes;
    assert writes + [] == writes;
  }

  lemma {:induction false} MergeAllSnoc(t: Profiles, blocks: seq<Row<string, Settings>>, r: Row<string, Settings>,
        timeout: int)
    ensures MergeAll(t, blocks + [r], timeout) == Merge(MergeAll(t, blocks, timeout), r.key, r.value, timeout)
    ensures MergeAll(t, blocks + [], timeout) == MergeAll(t, blocks, timeout)
  {
    assert (blocks + [r])[..|blocks|] == blocks;
    assert blocks + [] == blocks;
  }

  lemma {:induction false} DoAllSnoc(t: Tables, cs: seq<Change>, c: Change, timeout: int)
    ensures DoAll(t, cs + [c], timeout) == Do(DoAll(t, cs, timeout), c, timeout)
  {
    hide Put, PutAll, Merge, MergeAll;
    assert (cs + [c])[..|cs|] == cs;
    var a: Row<string, Alias> := Row("", Alias("", ""));
    var b: Row<string, Settings> := Row("", map[]);
    var h: Row<seq<byte>, Auth> := Row([], Auth(0, 0));
    var l: Row<Range, Acl> := Row(Range(0, 0), Acl(None, {}));
    PutAllSnoc(t.aliases, AliasWrites(cs), if c.SetAlias? then c.alias else a);
    MergeAllSnoc(t.profiles, Blocks(cs), if c.SetProfile? then c.block else b, timeout);
    PutAllSnoc(t.auths, AuthWrites(cs), if c.SetAuth? then c.auth else h);
    PutAllSnoc(t.acls, AclWrites(cs), if c.SetAcl? then c.acl else l);
  }

  lemma {:induction false} ReadIsDoAll(t: Tables, cfg: seq<Statement>, timeout: int)
    requires ReadFile(t, cfg, timeout).Some?
    ensures ReadFile(t, cfg, timeout).value == DoAll(t, Changes(t, cfg, timeout), timeout)
    decreases |cfg|
  {
    hide Resolve, Do, DoAll, Accepted;
    if cfg == [] {
      DoNothing(t, timeout);
    } else {
      var n := |cfg| - 1;
      ReadIsDoAll(t, cfg[..n], timeout);
      DoAllSnoc(t, Changes(t, cfg[..n], timeout), Resolve(ReadFile(t, cfg[..n], timeout).value, cfg[n]).value, timeout);
    }
  }

  lemma {:induction false} DoNothing(t: Tables, timeout: int)
    ensures DoAll(t, [], timeout) == t
  {
  }

  // ----- names looked up again

  /** The change again; only the profile of an access list entry that had none may
      have been found meanwhile. */
  predicate Alike(c: Change, again: Change, default_: nat) {
    if c.SetAcl? && c.acl.value.profile == None
    then again.SetAcl? && again.acl.key == c.acl.key && again.acl.value.rights == c.acl.value.rights
      && again.acl.value.profile in {None, Some(default_)}
    else again == c
  }

  lemma {:induction false} AssignsStay(w: Tables, v: Tables, settings: seq<Setting>)
    requires Grows(w, v) && Assigns(w, settings).Some?
    ensures Assigns(v, settings) == Assigns(w, settings)
    decreases |settings|
  {
    if settings != [] {
      var n := |settings| - 1;
      AssignsStay(w, v, settings[..n]);
      match settings[n] {
        case Accounting(a) => IndexStays(w.aliases, v.aliases, a);
        case FailProfile(p) => IndexStays(w.profiles, v.profiles, p);
        case _ =>
      }
    }
  }

  lemma {:induction false} ResolveStays(w: Tables, v: Tables, s: Statement)
    requires Grows(w, v) && Resolve(w, s).Some?
    ensures Resolve(v, s).Some? && Alike(Resolve(w, s).value, Resolve(v, s).value, IndexOf(v.profiles, DEFAULT))
    ensures s.AclLine? && IndexOf(v.profiles, DEFAULT) < |v.profiles| ==> Resolve(v, s).value.acl.value.profile.Some?
  {
    hide Assigns, Rights;
    match s {
      case AliasLine(_, _, _) =>
      case ProfileBlock(name, settings) =>
        AssignsStay(w, v, settings);
        if IndexOf(w.profiles, name) < |w.profiles| {
          IndexStays(w.profiles, v.profiles, name);
        } else if name != DEFAULT {
          IndexStays(w.profiles, v.profiles, DEFAULT);
        }
      case AuthLine(mask, alias, profile) =>
        IndexStays(w.aliases, v.aliases, OrDefault(alias, DEFAULT_AUTH));
        IndexStays(w.profiles, v.profiles, OrDefault(profile, DEFAULT));
      case AclLine(ip, len, words, profile) =>
        if IndexOf(w.profiles, OrDefault(profile, DEFAULT)) < |w.profiles| {
          IndexStays(w.profiles, v.profiles, OrDefault(profile, DEFAULT));
        }
    }
  }

  // ----- the second reading goes through

  /** The sizes of the tables of the program; authenticators are not counted. */
  predicate Fits(t: Tables) {
    |t.aliases| <= MAX_ALIASES && |t.profiles| <= MAX_PROFILES && |t.acls| <= MAX_ACLS
  }

  ghost predicate SameKeys(t: Tables, u: Tables) {
    && Grows(t, u) && |t.aliases| == |u.aliases| && |t.profiles| == |u.profiles|
    && |t.auths| == |u.auths| && |t.acls| == |u.acls|
  }

  /** Statement `k` of a reading. */
  lemma {:induction false} StatementRead(t: Tables, cfg: seq<Statement>, timeout: int, k: nat)
    requires ReadFile(t, cfg, timeout).Some? && k < |cfg|
    ensures ReadFile(t, cfg[..k], timeout).Some? && ReadFile(t, cfg[..k + 1], timeout).Some?
    ensures var w := ReadFile(t, cfg[..k], timeout).value;
            var c := Changes(t, cfg, timeout)[k];
            Resolve(w, cfg[k]) == Some(c) && ReadFile(t, cfg[..k + 1], timeout).value == Do(w, c, timeout)
            && Accepted(Do(w, c, timeout), c)
    ensures Changes(t, cfg[..k + 1], timeout) == Changes(t, cfg, timeout)[..k + 1]
    decreases |cfg|
  {
    hide Resolve, Do, Accepted;
    var n := |cfg| - 1;
    if k == n {
      assert cfg[..k + 1] == cfg;
    } else {
      StatementRead(t, cfg[..n], timeout, k);
      assert cfg[..n][..k] == cfg[..k] && cfg[..n][..k + 1] == cfg[..k + 1];
    }
  }

  lemma {:induction false} ReadFits(t: Tables, cfg: seq<Statement>, timeout: int)
    requires ReadFile(t, cfg, timeout).Some? && Fits(t)
    ensures Fits(ReadFile(t, cfg, timeout).value)
    decreases |cfg|
  {
    hide Resolve, Put, Merge;
    if cfg != [] {
      ReadFits(t, cfg[..|cfg| - 1], timeout);
    }
  }

  /** The key a change writes is in a table. */
  predicate KeyIn(t: Tables, c: Change) {
    match c
    case SetAlias(r) => IndexOf(t.aliases, r.key) < |t.aliases|
    case SetProfile(r) => IndexOf(t.profiles, r.key) < |t.profiles|
    case SetAuth(r) => IndexOf(t.auths, r.key) < |t.auths|
    case SetAcl(r) => IndexOf(t.acls, r.key) < |t.acls|
  }

  lemma {:induction false} PutHas<K, V>(t: seq<Row<K, V>>, k: K, v: V)
    ensures IndexOf(Put(t, k, v), k) == IndexOf(t, k) < |Put(t, k, v)|
    ensures IndexOf(t, k) < |t| ==> |Put(t, k, v)| == |t|
  {
    IndexUnique(Put(t, k, v), k, IndexOf(t, k));
  }

  lemma {:induction false} DoHas(t: Tables, c: Change, timeout: int)
    ensures KeyIn(Do(t, c, timeout), c)
    ensures KeyIn(t, c) ==> SameKeys(t, Do(t, c, timeout))
  {
    DoGrows(t, c, timeout);
    hide Put, IndexOf, MergedProfile, Extends;
    match c
    case SetAlias(r) => PutHas(t.aliases, r.key, r.value);
    case SetProfile(r) => PutHas(t.profiles, r.key, MergedProfile(t.profiles, r.key, r.value, timeout));
    case SetAuth(r) => PutHas(t.auths, r.key, r.value);
    case SetAcl(r) => PutHas(t.acls, r.key, r.value);
  }

  lemma {:induction false} KeyStays(t: Tables, u: Tables, c: Change)
    requires Grows(t, u) && KeyIn(t, c)
    ensures KeyIn(u, c)
  {
    match c
    case SetAlias(r) => IndexStays(t.aliases, u.aliases, r.key);
    case SetProfile(r) => IndexStays(t.profiles, u.profiles, r.key);
    case SetAuth(r) => IndexStays(t.auths, u.auths, r.key);
    case SetAcl(r) => IndexStays(t.acls, u.acls, r.key);
  }

  lemma {:induction false} KeyAlike(u: Tables, c: Change, again: Change, d: nat)
    requires Alike(c, again, d) && KeyIn(u, c)
    ensures KeyIn(u, again)
  {
  }

  lemma {:induction false} SameIndex(t: Profiles, u: Profiles)
    requires Extends(t, u) && |t| == |u|
    ensures IndexOf(t, DEFAULT) == IndexOf(u, DEFAULT)
  {
  }

  /** A profile with a block has a hostname when the reading is done. */
  lemma {:induction false} HostnameKept(t: Tables, cfg: seq<Statement>, timeout: int, k: nat, name: string)
    requires ReadFile(t, cfg, timeout).Some? && k < |cfg|
    requires Changes(t, cfg, timeout)[k].SetProfile? && Changes(t, cfg, timeout)[k].block.key == name
    ensures var u := ReadFile(t, cfg, timeout).value.profiles;
            IndexOf(u, name) < |u| && HasHostname(u[IndexOf(u, name)].value.settings)
    decreases |cfg|
  {
    hide Resolve, HasHostname, Put, MergedProfile, IndexOf;
    var n := |cfg| - 1;
    StatementRead(t, cfg, timeout, n);
    assert cfg[..n + 1] == cfg;
    var c := Changes(t, cfg, timeout)[n];
    if !(c.SetProfile? && c.block.key == name) {
      HostnameKept(t, cfg[..n], timeout, k, name);
      var w := ReadFile(t, cfg[..n], timeout).value;
      if c.SetProfile? {
        PutOther(w.profiles, c.block.key, MergedProfile(w.profiles, c.block.key, c.block.value, timeout), name);
      }
    }
  }

  lemma {:induction false} PutOther<K, V>(t: seq<Row<K, V>>, k: K, v: V, other: K)
    requires other != k && IndexOf(t, other) < |t|
    ensures var u := Put(t, k, v);
            var i := IndexOf(t, other);
            IndexOf(u, other) == i < |u| && u[i] == t[i]
  {
    PutExtends(t, k, v);
    IndexStays(t, Put(t, k, v), other);
  }

  ghost predicate AllAlike(cs: seq<Change>, again: seq<Change>, d: nat) {
    |cs| == |again| && forall k :: 0 <= k < |cs| ==> Alike(cs[k], again[k], d)
  }

  lemma {:induction false} BlocksAlike(cs: seq<Change>, again: seq<Change>, d: nat)
    requires AllAlike(cs, again, d)
    ensures AliasWrites(cs) == AliasWrites(again) && Blocks(cs) == Blocks(again) && AuthWrites(cs) == AuthWrites(again)
    decreases |cs|
  {
    if cs != [] {
      var n := |cs| - 1;
      BlocksAlike(cs[..n], again[..n], d);
      assert Alike(cs[n], again[n], d);
    }
  }

  lemma {:induction false} BlockOf(cs: seq<Change>, j: nat) returns (k: nat)
    requires j < |Blocks(cs)|
    ensures k < |cs| && cs[k].SetProfile? && cs[k].block == Blocks(cs)[j]
    decreases |cs|
  {
    var n := |cs| - 1;
    if j < |Blocks(cs[..n])| {
      k := BlockOf(cs[..n], j);
    } else {
      k := n;
    }
  }

  /** Names with a block are in the table when the reading is done. */
  lemma {:induction false} BlocksKnown(t: Tables, cfg: seq<Statement>, timeout: int, k: nat)
    requires ReadFile(t, cfg, timeout).Some? && k <= |cfg|
    ensures var u := ReadFile(t, cfg, timeout).value.profiles;
            forall j :: 0 <= j < |Blocks(Changes(t, cfg, timeout)[..k])| ==>
              IndexOf(u, Blocks(Changes(t, cfg, timeout)[..k])[j].key) < |u|
  {
    var cs := Changes(t, cfg, timeout);
    var u := ReadFile(t, cfg, timeout).value.profiles;
    forall j | 0 <= j < |Blocks(cs[..k])| ensures IndexOf(u, Blocks(cs[..k])[j].key) < |u| {
      var i := BlockOf(cs[..k], j);
      HostnameKept(t, cfg, timeout, i, cs[i].block.key);
    }
  }

  /** The hostname a profile has at its block in the second reading. */
  lemma {:induction false} HostnameAgain(t: Tables, cfg: seq<Statement>, timeout: int, k: nat)
    requires ReadFile(t, cfg, timeout).Some? && k < |cfg| && Changes(t, cfg, timeout)[k].SetProfile?
    ensures var u := ReadFile(t, cfg, timeout).value;
            var name := Changes(t, cfg, timeout)[k].block.key;
            var v := MergeAll(u.profiles, Blocks(Changes(t, cfg, timeout)[..k + 1]), timeout);
            IndexOf(v, name) < |v| && HasHostname(v[IndexOf(v, name)].value.settings)
  {
    var cs := Changes(t, cfg, timeout);
    var name := cs[k].block.key;
    var blocks := Blocks(cs[..k + 1]);
    var u := ReadFile(t, cfg, timeout).value.profiles;
    StatementRead(t, cfg, timeout, k);
    ReadIsDoAll(t, cfg[..k + 1], timeout);
    var w := ReadFile(t, cfg[..k + 1], timeout).value.profiles;
    assert w == MergeAll(t.profiles, blocks, timeout);
    LastBlock(cs, k);
    AssignedIndex(blocks, |blocks| - 1);
    MergedAbsorbs(t.profiles, blocks, name, timeout);
    HostnameKept(t, cfg, timeout, k, name);
    BlocksKnown(t, cfg, timeout, k + 1);
    MergedAgain(u, blocks, timeout, IndexOf(u, name));
    MergeAllExtends(u, blocks, timeout);
    IndexStays(u, MergeAll(u, blocks, timeout), name);
    HostnameMerged(u[IndexOf(u, name)].value.settings, w[IndexOf(w, name)].value.settings,
                   Assigned(blocks, name).value, timeout);
  }

  lemma {:induction false} LastBlock(cs: seq<Change>, k: nat)
    requires k < |cs| && cs[k].SetProfile?
    ensures var b := Blocks(cs[..k + 1]); |b| > 0 && b[|b| - 1] == cs[k].block
  {
    assert cs[..k + 1][..k] == cs[..k];
  }

  lemma {:induction false} HostnameMerged(s: Settings, w: Settings, a: Settings, timeout: int)
    requires HasHostname(s) && HasHostname(w) && Absorbs(w, a, timeout)
    ensures HasHostname(Filled(s + a, timeout))
  {
    if "Hostname" in a {
      assert (w + a)["Hostname"] == a["Hostname"];
      assert w["Hostname"] == a["Hostname"];
      assert (s + a)["Hostname"] == a["Hostname"];
    } else {
      assert (s + a)["Hostname"] == s["Hostname"];
    }
  }

  /** The second reading up to statement `k`: it has not stopped, has looked names up
      alike, and has added nothing. */
  ghost predicate Again(t: Tables, cfg: seq<Statement>, timeout: int, k: nat)
    requires ReadFile(t, cfg, timeout).Some? && k <= |cfg|
  {
    var u := ReadFile(t, cfg, timeout).value;
    && ReadFile(u, cfg[..k], timeout).Some?
    && AllAlike(Changes(t, cfg, timeout)[..k], Changes(u, cfg[..k], timeout), IndexOf(u.profiles, DEFAULT))
    && SameKeys(u, ReadFile(u, cfg[..k], timeout).value)
  }

  lemma {:induction false} SecondReading(t: Tables, cfg: seq<Statement>, timeout: int, k: nat)
    requires ReadFile(t, cfg, timeout).Some? && k <= |cfg| && Fits(t)
    ensures Again(t, cfg, timeout, k)
  {
    hide Resolve, Do, Accepted, AllAlike, Changes;
    var u := ReadFile(t, cfg, timeout).value;
    if k == 0 {
      FirstAgain(t, cfg, timeout);
    } else {
      SecondReading(t, cfg, timeout, k - 1);
      StepAgain(t, cfg, timeout, k - 1);
    }
  }

  lemma {:induction false} FirstAgain(t: Tables, cfg: seq<Statement>, timeout: int)
    requires ReadFile(t, cfg, timeout).Some?
    ensures Again(t, cfg, timeout, 0)
  {
  }

  lemma {:induction false} StepAgain(t: Tables, cfg: seq<Statement>, timeout: int, k: nat)
    requires ReadFile(t, cfg, timeout).Some? && k < |cfg| && Fits(t)
    requires Again(t, cfg, timeout, k)
    ensures Again(t, cfg, timeout, k + 1)
  {
    hide Resolve, Do, Accepted, Alike, KeyIn, Fits, Grows, ReadFile, Changes;
    var cs := Changes(t, cfg, timeout);
    var u := ReadFile(t, cfg, timeout).value;
    var v := ReadFile(u, cfg[..k], timeout).value;
    StatementRead(t, cfg, timeout, k);
    var w := ReadFile(t, cfg[..k], timeout).value;
    ReadGrows(t, cfg, timeout, k);
    ReadGrows(t, cfg, timeout, k + 1);
    GrowsOn(w, u, v);
    ResolveStays(w, v, cfg[k]);
    var c2 := Resolve(v, cfg[k]).value;
    DoHas(w, cs[k], timeout);
    KeyStays(ReadFile(t, cfg[..k + 1], timeout).value, u, cs[k]);
    DefaultStays(u, v);
    KeyAlike(u, cs[k], c2, IndexOf(u.profiles, DEFAULT));
    KeyStays(u, v, c2);
    DoHas(v, c2, timeout);
    SameKeysOn(u, v, Do(v, c2, timeout));
    assert cs[..k + 1] == cs[..k] + [cs[k]];
    AlikeSnoc(cs[..k], Changes(u, cfg[..k], timeout), cs[k], c2, IndexOf(u.profiles, DEFAULT));
    AcceptedAgain(t, cfg, timeout, k, v, c2);
    ReadSnoc(u, cfg, timeout, k, c2);
  }

  lemma {:induction false} GrowsOn(w: Tables, u: Tables, v: Tables)
    requires Grows(w, u) && Grows(u, v)
    ensures Grows(w, v)
  {
  }

  lemma {:induction false} SameKeysOn(u: Tables, v: Tables, x: Tables)
    requires SameKeys(u, v) && SameKeys(v, x)
    ensures SameKeys(u, x)
  {
  }

  lemma {:induction false} DefaultStays(u: Tables, v: Tables)
    requires SameKeys(u, v)
    ensures IndexOf(u.profiles, DEFAULT) == IndexOf(v.profiles, DEFAULT)
  {
    SameIndex(u.profiles, v.profiles);
  }

  lemma {:induction false} AlikeSnoc(cs: seq<Change>, again: seq<Change>, c: Change, c2: Change, d: nat)
    requires AllAlike(cs, again, d) && Alike(c, c2, d)
    ensures AllAlike(cs + [c], again + [c2], d)
  {
  }

  /** The statement once more, when it is accepted. */
  lemma {:induction false} ReadSnoc(u: Tables, cfg: seq<Statement>, timeout: int, k: nat, c: Change)
    requires k < |cfg| && ReadFile(u, cfg[..k], timeout).Some?
    requires var v := ReadFile(u, cfg[..k], timeout).value;
             Resolve(v, cfg[k]) == Some(c) && Accepted(Do(v, c, timeout), c)
    ensures ReadFile(u, cfg[..k + 1], timeout) == Some(Do(ReadFile(u, cfg[..k], timeout).value, c, timeout))
    ensures Changes(u, cfg[..k + 1], timeout) == Changes(u, cfg[..k], timeout) + [c]
  {
    assert cfg[..k + 1][..k] == cfg[..k];
  }

  /** The blocks of the second reading, this statement included. */
  lemma {:induction false} AcceptedAgain(t: Tables, cfg: seq<Statement>, timeout: int, k: nat, v: Tables, c: Change)
    requires ReadFile(t, cfg, timeout).Some? && k < |cfg| && Fits(t)
    requires var u := ReadFile(t, cfg, timeout).value;
             && ReadFile(u, cfg[..k], timeout) == Some(v)
             && AllAlike(Changes(t, cfg, timeout)[..k + 1], Changes(u, cfg[..k], timeout) + [c],
                         IndexOf(u.profiles, DEFAULT))
             && SameKeys(u, Do(v, c, timeout))
    ensures Accepted(Do(v, c, timeout), c)
  {
    var cs := Changes(t, cfg, timeout);
    var u := ReadFile(t, cfg, timeout).value;
    var d := IndexOf(u.profiles, DEFAULT);
    var again := Changes(u, cfg[..k], timeout) + [c];
    ReadFits(t, cfg, timeout);
    assert Alike(cs[..k + 1][k], again[k], d);
    if c.SetProfile? {
      BlocksAlike(cs[..k + 1], again, d);
      ReadIsDoAll(u, cfg[..k], timeout);
      DoAllSnoc(u, Changes(u, cfg[..k], timeout), c, timeout);
      HostnameAgain(t, cfg, timeout, k);
    }
  }

  // ----- what the second reading leaves

  /** Every access list entry has a profile. */
  ghost predicate NoDangling(t: Tables) {
    forall i :: 0 <= i < |t.acls| ==> t.acls[i].value.profile.Some?
  }

  ghost predicate AllProfiled(cs: seq<Change>) {
    forall k :: 0 <= k < |cs| && cs[k].SetAcl? ==> cs[k].acl.value.profile.Some?
  }

  lemma {:induction false} ResolvedProfiled(v: Tables, s: Statement)
    requires Resolve(v, s).Some? && IndexOf(v.profiles, DEFAULT) < |v.profiles|
    ensures var c := Resolve(v, s).value;
            c.SetAcl? ==> c.acl.value.profile.Some?
  {
    hide Assigns, Rights, IndexOf;
  }

  /** With a default profile in the table every entry read finds a profile. */
  lemma {:induction false} ProfiledAt(u: Tables, cfg: seq<Statement>, timeout: int, k: nat)
    requires ReadFile(u, cfg, timeout).Some? && k < |cfg| && IndexOf(u.profiles, DEFAULT) < |u.profiles|
    ensures var c := Changes(u, cfg, timeout)[k];
            c.SetAcl? ==> c.acl.value.profile.Some?
  {
    hide ReadFile, Changes, Accepted, Do, Resolve;
    StatementRead(u, cfg, timeout, k);
    ReadKeepsPlaces(u, cfg[..k], timeout);
    var v := ReadFile(u, cfg[..k], timeout).value;
    IndexStays(u.profiles, v.profiles, DEFAULT);
    ResolvedProfiled(v, cfg[k]);
  }

  lemma {:induction false} AgainProfiled(u: Tables, cfg: seq<Statement>, timeout: int)
    requires ReadFile(u, cfg, timeout).Some? && IndexOf(u.profiles, DEFAULT) < |u.profiles|
    ensures AllProfiled(Changes(u, cfg, timeout))
  {
    hide ReadFile, Changes;
    forall k | 0 <= k < |cfg| && Changes(u, cfg, timeout)[k].SetAcl?
      ensures Changes(u, cfg, timeout)[k].acl.value.profile.Some?
    {
      ProfiledAt(u, cfg, timeout, k);
    }
  }

  lemma {:induction false} LastAcl(cs: seq<Change>, key: Range)
    requires cs != []
    ensures var c := cs[|cs| - 1];
            LastWrite(AclWrites(cs), key) ==
            if c.SetAcl? && c.acl.key == key then Some(c.acl.value) else LastWrite(AclWrites(cs[..|cs| - 1]), key)
  {
    var c := cs[|cs| - 1];
    var rest := AclWrites(cs[..|cs| - 1]);
    assert c.SetAcl? ==> (rest + [c.acl])[..|rest|] == rest;
    assert rest + [] == rest;
  }

  lemma {:induction false} AclsAlike(cs: seq<Change>, again: seq<Change>, d: nat, key: Range)
    requires AllAlike(cs, again, d) && AllProfiled(again)
    ensures var a, b := LastWrite(AclWrites(cs), key), LastWrite(AclWrites(again), key);
            && (a.Some? <==> b.Some?)
            && (b.Some? ==> b.value.profile.Some?)
            && (a.Some? && a.value.profile.Some? ==> a == b)
    decreases |cs|
  {
    if cs != [] {
      var n := |cs| - 1;
      AclsAlike(cs[..n], again[..n], d, key);
      assert Alike(cs[n], again[n], d);
      LastAcl(cs, key);
      LastAcl(again, key);
      hide AclWrites, LastWrite;
    }
  }

  /** The last line for every range written finds a profile. */
  ghost predicate LastProfiled(cs: seq<Change>) {
    forall key :: LastWrite(AclWrites(cs), key).Some? ==> LastWrite(AclWrites(cs), key).value.profile.Some?
  }

  lemma {:induction false} AclsAgain(t: seq<Row<Range, Acl>>, cs: seq<Change>, again: seq<Change>, d: nat)
    requires AllAlike(cs, again, d) && AllProfiled(again)
    ensures var u := PutAll(t, AclWrites(cs));
            PutAll(u, AclWrites(again)) == u <==> LastProfiled(cs)
  {
    hide AclWrites, LastWrite, PutAll, IndexOf;
    var u := PutAll(t, AclWrites(cs));
    var v := PutAll(u, AclWrites(again));
    if LastProfiled(cs) {
      forall key ensures LastWrite(AclWrites(cs), key) == LastWrite(AclWrites(again), key) {
        AclsAlike(cs, again, d, key);
      }
      RewriteStable(u, t, AclWrites(cs), AclWrites(again));
    } else {
      var key :| LastWrite(AclWrites(cs), key).Some? && LastWrite(AclWrites(cs), key).value.profile == None;
      AclsAlike(cs, again, d, key);
      LastWriteStands(t, AclWrites(cs), key);
      LastWriteStands(u, AclWrites(again), key);
      assert u != v;
    }
  }

  /** The tables a second reading leaves alone: all but the access list. */
  lemma {:induction false} ReloadKeepsRest(t: Tables, cfg: seq<Statement>, timeout: int)
    requires Load(t, cfg, timeout).Some? && Fits(t)
    ensures var u := Load(t, cfg, timeout).value;
            var v := Load(u, cfg, timeout);
            && v.Some? && v.value == u.(acls := v.value.acls)
            && (v.value.acls == u.acls <==> LastProfiled(Changes(t, cfg, timeout)))
  {
    hide ReadFile, Changes, AliasWrites, Blocks, AuthWrites, AclWrites, PutAll, MergeAll, LastProfiled;
    var u := Load(t, cfg, timeout).value;
    var d := IndexOf(u.profiles, DEFAULT);
    assert cfg[..|cfg|] == cfg;
    SecondReading(t, cfg, timeout, |cfg|);
    var cs, again := Changes(t, cfg, timeout), Changes(u, cfg, timeout);
    assert cs[..|cfg|] == cs;
    ReadIsDoAll(t, cfg, timeout);
    ReadIsDoAll(u, cfg, timeout);
    BlocksAlike(cs, again, d);
    AgainProfiled(u, cfg, timeout);
    PutAllTwice(t.aliases, AliasWrites(cs));
    MergeAllTwice(t.profiles, Blocks(cs), timeout);
    PutAllTwice(t.auths, AuthWrites(cs));
    AclsAgain(t.acls, cs, again, d);
  }

  /** So it finds the modules the first one found. */
  lemma {:induction false} ReloadFindsModules(t: Tables, cfg: seq<Statement>, timeout: int, modules: Modules)
    requires Load(t, cfg, timeout).Some? && Fits(t)
    ensures var u := Load(t, cfg, timeout).value;
            Load(u, cfg, timeout).Some?
            && (ModulesKnown(Load(u, cfg, timeout).value, modules) <==> ModulesKnown(u, modules))
  {
    hide Load;
    ReloadKeepsRest(t, cfg, timeout);
  }

  /** A line of the file is about the range. */
  predicate Written(cfg: seq<Statement>, key: Range) {
    exists k :: 0 <= k < |cfg| && cfg[k].AclLine? && RangeOf(cfg[k]) == key
  }

  /** Loading the same configuration once more changes nothing if and only if every
      access list entry it writes has its profile: one read before any default profile
      was defined has none, and finds it the second time. */
  lemma {:induction false} ReloadStableExactly(t: Tables, cfg: seq<Statement>, timeout: int)
    requires Load(t, cfg, timeout).Some? && Fits(t)
    ensures var u := Load(t, cfg, timeout).value;
            Load(u, cfg, timeout) == Some(u) <==>
            forall i :: 0 <= i < |u.acls| && Written(cfg, u.acls[i].key) && IndexOf(u.acls, u.acls[i].key) == i ==>
              u.acls[i].value.profile.Some?
  {
    hide ReadFile, Changes, AclWrites, LastWrite, PutAll, IndexOf, Written;
    var u := Load(t, cfg, timeout).value;
    var cs := Changes(t, cfg, timeout);
    ReloadKeepsRest(t, cfg, timeout);
    ReadIsDoAll(t, cfg, timeout);
    assert u.acls == PutAll(t.acls, AclWrites(cs));
    if LastProfiled(cs) {
      forall i | 0 <= i < |u.acls| && Written(cfg, u.acls[i].key) && IndexOf(u.acls, u.acls[i].key) == i
        ensures u.acls[i].value.profile.Some?
      {
        WrittenExactly(t, cfg, timeout, u.acls[i].key);
        LastWriteStands(t.acls, AclWrites(cs), u.acls[i].key);
      }
    } else {
      var key :| LastWrite(AclWrites(cs), key).Some? && LastWrite(AclWrites(cs), key).value.profile == None;
      WrittenExactly(t, cfg, timeout, key);
      LastWriteStands(t.acls, AclWrites(cs), key);
    }
  }

  /** A reload leaves the live counters of the profiles there are as they are. */
  lemma {:induction false} ReloadKeepsCounters(t: Tables, cfg: seq<Statement>, timeout: int, i: nat)
    requires Load(t, cfg, timeout).Some? && i < |Load(t, cfg, timeout).value.profiles|
    ensures var c := Load(t, cfg, timeout).value.profiles[i].value.counters;
            if i < |t.profiles| then c == t.profiles[i].value.counters
            else c.connections == c.numusers == c.realusers == c.bytes == c.articles == 0
  {
    ReadIsDoAll(t, cfg, timeout);
    CountersKept(t.profiles, Blocks(Changes(t, cfg, timeout)), timeout, i);
  }

  // ----- the condition on the file

  /** The default profile is there before statement `k` is read. */
  predicate DefaultBy(t: Tables, cfg: seq<Statement>, k: nat)
    requires k <= |cfg|
  {
    || IndexOf(t.profiles, DEFAULT) < |t.profiles|
    || exists j :: 0 <= j < k && cfg[j].ProfileBlock? && cfg[j].name == DEFAULT
  }

  /** An access list line that finds no profile. */
  predicate Bare(t: Tables, cfg: seq<Statement>, k: nat): (b: bool)
    requires k < |cfg|
    ensures b ==> cfg[k].AclLine?
  {
    cfg[k].AclLine? && cfg[k].profile == "" && !DefaultBy(t, cfg, k)
  }

  function RangeOf(s: Statement): Range
    requires s.AclLine?
  {
    Range(s.ip, AclSize(s.len))
  }

  /** A later line for the same range finds one. */
  predicate Rewritten(t: Tables, cfg: seq<Statement>, k: nat)
    requires k < |cfg| && cfg[k].AclLine?
  {
    exists j :: k < j < |cfg| && cfg[j].AclLine? && RangeOf(cfg[j]) == RangeOf(cfg[k]) && !Bare(t, cfg, j)
  }

  lemma {:induction false} PutAdds<K, V>(t: seq<Row<K, V>>, k: K, v: V, other: K)
    ensures IndexOf(Put(t, k, v), other) < |Put(t, k, v)| <==> IndexOf(t, other) < |t| || other == k
  {
    PutHas(t, k, v);
    PutExtends(t, k, v);
    if IndexOf(t, other) < |t| {
      IndexStays(t, Put(t, k, v), other);
    }
  }

  /** The default profile is in the table after `k` statements exactly if it was there or
      one of them is its block. */
  lemma {:induction false} DefaultRead(t: Tables, cfg: seq<Statement>, timeout: int, k: nat)
    requires ReadFile(t, cfg, timeout).Some? && k <= |cfg|
    ensures ReadFile(t, cfg[..k], timeout).Some?
    ensures var w := ReadFile(t, cfg[..k], timeout).value.profiles;
            IndexOf(w, DEFAULT) < |w| <==> DefaultBy(t, cfg, k)
    decreases k
  {
    hide IndexOf, Resolve, MergedProfile, Accepted, Changes, Put;
    ReadGrows(t, cfg, timeout, k);
    if k == 0 {
      assert cfg[..0] == [];
    } else {
      DefaultRead(t, cfg, timeout, k - 1);
      StatementRead(t, cfg, timeout, k - 1);
      var w := ReadFile(t, cfg[..k - 1], timeout).value;
      var c := Changes(t, cfg, timeout)[k - 1];
      KindRead(w, cfg[k - 1], c);
      if c.SetProfile? {
        var r := c.block;
        PutAdds(w.profiles, r.key, MergedProfile(w.profiles, r.key, r.value, timeout), DEFAULT);
      }
      var s := cfg[k - 1];
      assert DefaultBy(t, cfg, k) <==> DefaultBy(t, cfg, k - 1) || (s.ProfileBlock? && s.name == DEFAULT);
    }
  }

  lemma {:induction false} KindRead(w: Tables, s: Statement, c: Change)
    requires Resolve(w, s) == Some(c)
    ensures c.SetProfile? <==> s.ProfileBlock?
    ensures c.SetProfile? ==> c.block.key == s.name
    ensures c.SetAcl? <==> s.AclLine?
    ensures c.SetAcl? ==> c.acl.key == RangeOf(s)
    ensures c.SetAcl? && s.profile == "" ==>
              (c.acl.value.profile == None <==> IndexOf(w.profiles, DEFAULT) == |w.profiles|)
    ensures c.SetAcl? && s.profile != "" ==> c.acl.value.profile.Some?
  {
    hide Assigns, Rights, IndexOf;
  }

  /** Statement `k` writes an entry without a profile exactly if it is bare. */
  lemma {:induction false} BareExactly(t: Tables, cfg: seq<Statement>, timeout: int, k: nat)
    requires ReadFile(t, cfg, timeout).Some? && k < |cfg|
    ensures var c := Changes(t, cfg, timeout)[k];
            && (c.SetAcl? <==> cfg[k].AclLine?)
            && (c.SetAcl? ==> c.acl.key == RangeOf(cfg[k]) && (c.acl.value.profile == None <==> Bare(t, cfg, k)))
  {
    hide Resolve, ReadFile, Changes, Do, Accepted, IndexOf;
    StatementRead(t, cfg, timeout, k);
    DefaultRead(t, cfg, timeout, k);
    KindRead(ReadFile(t, cfg[..k], timeout).value, cfg[k], Changes(t, cfg, timeout)[k]);
  }

  /** The last change of a range. */
  lemma {:induction false} LastAclAt(cs: seq<Change>, key: Range) returns (j: nat)
    requires LastWrite(AclWrites(cs), key).Some?
    ensures j < |cs| && cs[j].SetAcl? && cs[j].acl.key == key
    ensures LastWrite(AclWrites(cs), key) == Some(cs[j].acl.value)
    ensures forall k :: j < k < |cs| ==> !(cs[k].SetAcl? && cs[k].acl.key == key)
    decreases |cs|
  {
    hide AclWrites, LastWrite;
    var n := |cs| - 1;
    NoAcls(key);
    LastAcl(cs, key);
    if cs[n].SetAcl? && cs[n].acl.key == key {
      j := n;
    } else {
      j := LastAclAt(cs[..n], key);
    }
  }

  lemma {:induction false} NoAcls(key: Range)
    ensures forall cs: seq<Change> :: |cs| == 0 ==> LastWrite(AclWrites(cs), key) == None
  {
  }

  lemma {:induction false} AclWritten(cs: seq<Change>, k: nat)
    requires k < |cs| && cs[k].SetAcl?
    ensures LastWrite(AclWrites(cs), cs[k].acl.key).Some?
    decreases |cs|
  {
    hide AclWrites, LastWrite;
    LastAcl(cs, cs[k].acl.key);
    if k < |cs| - 1 {
      AclWritten(cs[..|cs| - 1], k);
    }
  }

  lemma {:induction false} WrittenExactly(t: Tables, cfg: seq<Statement>, timeout: int, key: Range)
    requires ReadFile(t, cfg, timeout).Some?
    ensures Written(cfg, key) <==> LastWrite(AclWrites(Changes(t, cfg, timeout)), key).Some?
  {
    hide ReadFile, Changes, AclWrites, LastWrite, Bare, RangeOf;
    var cs := Changes(t, cfg, timeout);
    if Written(cfg, key) {
      var k :| 0 <= k < |cfg| && cfg[k].AclLine? && RangeOf(cfg[k]) == key;
      BareExactly(t, cfg, timeout, k);
      AclWritten(cs, k);
    }
    if LastWrite(AclWrites(cs), key).Some? {
      var j := LastAclAt(cs, key);
      BareExactly(t, cfg, timeout, j);
    }
  }

  /** The last lines find profiles exactly if every bare line is written again. */
  lemma {:induction false} LastProfiledExactly(t: Tables, cfg: seq<Statement>, timeout: int)
    requires ReadFile(t, cfg, timeout).Some?
    ensures LastProfiled(Changes(t, cfg, timeout))
       <==> forall k :: 0 <= k < |cfg| && Bare(t, cfg, k) ==> Rewritten(t, cfg, k)
  {
    hide ReadFile, Changes, AclWrites, LastWrite, Bare, RangeOf;
    var cs := Changes(t, cfg, timeout);
    if LastProfiled(cs) {
      forall k | 0 <= k < |cfg| && Bare(t, cfg, k) ensures Rewritten(t, cfg, k) {
        BareExactly(t, cfg, timeout, k);
        AclWritten(cs, k);
        var j := LastAclAt(cs, RangeOf(cfg[k]));
        BareExactly(t, cfg, timeout, j);
      }
    } else {
      var key :| LastWrite(AclWrites(cs), key).Some? && LastWrite(AclWrites(cs), key).value.profile == None;
      var j := LastAclAt(cs, key);
      BareExactly(t, cfg, timeout, j);
      forall l | j < l < |cfg| && cfg[l].AclLine? ensures RangeOf(cfg[l]) != RangeOf(cfg[j]) {
        BareExactly(t, cfg, timeout, l);
      }
      assert !Rewritten(t, cfg, j);
    }
  }

  /** After loading no entry dangles exactly if every bare line is written again, and
      every entry that dangled is written, being the first of its range. */
  lemma {:induction false} DanglingExactly(t: Tables, cfg: seq<Statement>, timeout: int)
    requires ReadFile(t, cfg, timeout).Some?
    ensures NoDangling(ReadFile(t, cfg, timeout).value)
       <==> (forall k :: 0 <= k < |cfg| && Bare(t, cfg, k) ==> Rewritten(t, cfg, k))
            && (forall i :: 0 <= i < |t.acls| && t.acls[i].value.profile == None ==>
                  Written(cfg, t.acls[i].key) && IndexOf(t.acls, t.acls[i].key) == i)
  {
    hide ReadFile, Changes, AclWrites, LastWrite, PutAll, Bare, Rewritten, Written, RangeOf, IndexOf;
    var u := ReadFile(t, cfg, timeout).value;
    var cs := Changes(t, cfg, timeout);
    ReadIsDoAll(t, cfg, timeout);
    assert u.acls == PutAll(t.acls, AclWrites(cs));
    LastProfiledExactly(t, cfg, timeout);
    if NoDangling(u) {
      forall key | LastWrite(AclWrites(cs), key).Some? ensures LastWrite(AclWrites(cs), key).value.profile.Some? {
        LastWriteStands(t.acls, AclWrites(cs), key);
      }
      forall i | 0 <= i < |t.acls| && t.acls[i].value.profile == None
        ensures Written(cfg, t.acls[i].key) && IndexOf(t.acls, t.acls[i].key) == i
      {
        WrittenExactly(t, cfg, timeout, t.acls[i].key);
        if LastWrite(AclWrites(cs), t.acls[i].key) == None || IndexOf(t.acls, t.acls[i].key) != i {
          OthersStay(t.acls, AclWrites(cs), i);
        }
      }
    } else {
      var i :| 0 <= i < |u.acls| && u.acls[i].value.profile == None;
      var key := u.acls[i].key;
      RowSource(t.acls, AclWrites(cs), i);
      WrittenExactly(t, cfg, timeout, key);
      PutAllExtends(t.acls, AclWrites(cs));
      if i < |t.acls| && IndexOf(t.acls, key) == i {
        IndexStays(t.acls, u.acls, key);
      }
      if LastWrite(AclWrites(cs), key).Some? {
        LastWriteStands(t.acls, AclWrites(cs), key);
      }
    }
  }

  /** So a reload changes nothing exactly if every access list line that is read before
      any default profile is there is followed by another one for its range that finds
      a profile. */
  lemma {:induction false} ReloadStableByFile(t: Tables, cfg: seq<Statement>, timeout: int)
    requires Load(t, cfg, timeout).Some? && Fits(t)
    ensures var u := Load(t, cfg, timeout).value;
            Load(u, cfg, timeout) == Some(u) <==>
            forall k :: 0 <= k < |cfg| && Bare(t, cfg, k) ==> Rewritten(t, cfg, k)
  {
    hide ReadFile, Bare, Rewritten, LastProfiled;
    ReloadKeepsRest(t, cfg, timeout);
    LastProfiledExactly(t, cfg, timeout);
  }

  // ----- a file that is not stable

  const EMPTY := Tables([], [], [], [])

  /** An access list line in front of everything else. */
  function EarlyEntry(ip: Address, len: Length, lib: string, args: string, host: string): seq<Statement> {
    [AclLine(ip, len, [Some(Read)], ""), AliasLine(DEFAULT_AUTH, lib, args), AliasLine(DEFAULT_ACCT, lib, args),
     ProfileBlock(DEFAULT, HostLines(host))]
  }

  function HostLines(host: string): seq<Setting> {
    [Assign("Hostname", Text(host)), Accounting(DEFAULT_ACCT)]
  }

  /** What they assign, the accounting alias being at place `i`. */
  function HostSettings(host: string, i: nat): Settings {
    map["Hostname" := Text(host), "Accounting" := Reference(i)]
  }

  lemma {:induction false} ReadOn(t: Tables, cfg: seq<Statement>, timeout: int, k: nat, w: Tables)
    requires k < |cfg| && ReadFile(t, cfg[..k], timeout) == Some(w)
    ensures ReadFile(t, cfg[..k + 1], timeout) == Step(w, cfg[k], timeout)
  {
    assert cfg[..k + 1][..k] == cfg[..k];
  }

  lemma {:induction false} OneRight()
    ensures Rights([Some(Read)]) == Some({Read})
  {
    assert [Some(Read)][..0] == [];
    assert {} + {Read} == {Read};
  }

  lemma {:induction false} FirstRow<K, V>(k: K, v: V)
    ensures IndexOf<K, V>([], k) == 0 && Put([], k, v) == [Row(k, v)]
  {
    assert [] + [Row(k, v)] == [Row(k, v)];
  }

  lemma {:induction false} OneHost(t: Tables, host: string)
    requires IndexOf(t.aliases, DEFAULT_ACCT) < |t.aliases|
    ensures Assigns(t, HostLines(host)) == Some(HostSettings(host, IndexOf(t.aliases, DEFAULT_ACCT)))
  {
    hide IndexOf;
    var lines := HostLines(host);
    assert lines[..2] == lines && lines[..1][..0] == [] && lines[..2][..1] == lines[..1];
    assert Assigns(t, []) == Some(map[]);
    assert Assigns(t, lines[..1]) == Some(map["Hostname" := Text(host)]);
    assert |"Hostname"| == 8 && |"Accounting"| == 10;
  }

  /** No later step touches them. */
  lemma {:induction false} HostFilled(host: string, i: nat, timeout: int)
    ensures var s := HostFill(host, i, timeout);
            && "Hostname" in s && s["Hostname"] == Text(host)
            && "Accounting" in s && s["Accounting"] == Reference(i)
  {
    hide Filled;
    assert |"Hostname"| == 8 && |"rl_sleep"| == 8 && |"Accounting"| == 10;
    assert "Hostname"[0] != "rl_sleep"[0];
    assert |"UserRLFactorD"| == 13 && |"UserRLFactorU"| == 13 && |"ProfileRLFactorD"| == 16;
    assert |"ProfileRLFactorU"| == 16 && |"ClientReadTimeout"| == 17;
    var d := Defaults(timeout);
    assert "Hostname" !in d && "Accounting" !in d;
    var s := map[] + HostSettings(host, i)["rl_sleep" := Number(RL_INITVAL)];
    assert s["Hostname"] == Text(host) && s["Accounting"] == Reference(i);
  }

  /** It loads, its entry has no profile, and loading it again changes that. */
  lemma {:induction false} EarlyEntryDangles(ip: Address, len: Length, lib: string, args: string, host: string,
        timeout: int)
    requires host != ""
    ensures var cfg := EarlyEntry(ip, len, lib, args, host);
            var u := Load(EMPTY, cfg, timeout);
            && u.Some? && ModulesKnown(u.value, Modules({}, {lib}))
            && !NoDangling(u.value) && Load(u.value, cfg, timeout) != u
  {
    var cfg := EarlyEntry(ip, len, lib, args, host);
    EarlyEntryLoads(ip, len, lib, args, host, timeout);
    hide Load, NoDangling, ModulesKnown;
    assert Fits(EMPTY);
    assert Bare(EMPTY, cfg, 0) && !Rewritten(EMPTY, cfg, 0);
    ReloadStableByFile(EMPTY, cfg, timeout);
  }

  lemma {:induction false} EarlyEntryLoads(ip: Address, len: Length, lib: string, args: string, host: string,
        timeout: int)
    requires host != ""
    ensures var u := Load(EMPTY, EarlyEntry(ip, len, lib, args, host), timeout);
            u.Some? && ModulesKnown(u.value, Modules({}, {lib})) && !NoDangling(u.value)
  {
    hide ReadFile, Step, NoDangling, Complete, ModulesKnown;
    var cfg := EarlyEntry(ip, len, lib, args, host);
    var t := EarlyThree(ip, len, lib, args, host, timeout);
    ReadOn(EMPTY, cfg, timeout, 3, t);
    FirstProfile(t, lib, host, timeout);
    assert cfg[..4] == cfg;
  }

  lemma {:induction false} EarlyAcl(ip: Address, len: Length, timeout: int)
    ensures Step(EMPTY, AclLine(ip, len, [Some(Read)], ""), timeout)
         == Some(EMPTY.(acls := [Row(Range(ip, AclSize(len)), Acl(None, {Read}))]))
  {
    hide AclSize;
    OneRight();
    FirstRow(Range(ip, AclSize(len)), Acl(None, {Read}));
    FirstRow(DEFAULT, Profile(map[], ZERO));
  }

  lemma {:induction false} AliasRead(t: Tables, name: string, lib: string, args: string, timeout: int)
    requires |t.aliases| < MAX_ALIASES
    ensures Step(t, AliasLine(name, lib, args), timeout)
         == Some(t.(aliases := Put(t.aliases, name, Alias(lib, args))))
  {
  }

  lemma {:induction false} EarlyThree(ip: Address, len: Length, lib: string, args: string, host: string, timeout: int)
    returns (t: Tables)
    ensures ReadFile(EMPTY, EarlyEntry(ip, len, lib, args, host)[..3], timeout) == Some(t)
    ensures t.profiles == [] && t.auths == [] && |t.acls| == 1 && t.acls[0].value.profile == None
    ensures forall i :: 0 <= i < |t.aliases| ==> t.aliases[i].value.lib == lib
    ensures IndexOf(t.aliases, DEFAULT_AUTH) < |t.aliases| && IndexOf(t.aliases, DEFAULT_ACCT) < |t.aliases|
  {
    hide Step, Put, IndexOf, AclSize;
    var cfg := EarlyEntry(ip, len, lib, args, host);
    assert cfg[..0] == [];
    ReadOn(EMPTY, cfg, timeout, 0, EMPTY);
    EarlyAcl(ip, len, timeout);
    var t1 := EMPTY.(acls := [Row(Range(ip, AclSize(len)), Acl(None, {Read}))]);
    ReadOn(EMPTY, cfg, timeout, 1, t1);
    AliasRead(t1, DEFAULT_AUTH, lib, args, timeout);
    FirstRow(DEFAULT_AUTH, Alias(lib, args));
    var t2 := t1.(aliases := [Row(DEFAULT_AUTH, Alias(lib, args))]);
    ReadOn(EMPTY, cfg, timeout, 2, t2);
    AliasRead(t2, DEFAULT_ACCT, lib, args, timeout);
    TwoAliases(lib, args);
    t := t2.(aliases := [Row(DEFAULT_AUTH, Alias(lib, args)), Row(DEFAULT_ACCT, Alias(lib, args))]);
  }

  lemma {:induction false} TwoAliases(lib: string, args: string)
    ensures var a := Row(DEFAULT_AUTH, Alias(lib, args));
            var b := Row(DEFAULT_ACCT, Alias(lib, args));
            && Put([a], DEFAULT_ACCT, b.value) == [a, b]
            && IndexOf([a, b], DEFAULT_AUTH) == 0 && IndexOf([a, b], DEFAULT_ACCT) == 1
  {
    var a := Row(DEFAULT_AUTH, Alias(lib, args));
    var b := Row(DEFAULT_ACCT, Alias(lib, args));
    assert DEFAULT_AUTH[1] == 'u' && DEFAULT_ACCT[1] == 'c';
    assert [a][..0] == [] && [a, b][..1] == [a];
  }

  lemma {:induction false} FirstProfile(t: Tables, lib: string, host: string, timeout: int)
    requires host != "" && t.profiles == [] && t.auths == [] && |t.acls| == 1 && t.acls[0].value.profile == None
    requires IndexOf(t.aliases, DEFAULT_AUTH) < |t.aliases| && IndexOf(t.aliases, DEFAULT_ACCT) < |t.aliases|
    requires forall i :: 0 <= i < |t.aliases| ==> t.aliases[i].value.lib == lib
    ensures var u := Step(t, ProfileBlock(DEFAULT, HostLines(host)), timeout);
            u.Some? && Complete(u.value) && ModulesKnown(u.value, Modules({}, {lib})) && !NoDangling(u.value)
  {
    hide Step, Complete, HostLines, IndexOf, ModulesKnown, HostFill;
    HostStep(t, host, timeout);
    HostFilled(host, IndexOf(t.aliases, DEFAULT_ACCT), timeout);
    HostKnown(t, lib, HostFill(host, IndexOf(t.aliases, DEFAULT_ACCT), timeout));
  }

  function HostFill(host: string, i: nat, timeout: int): Settings {
    Filled(map[] + HostSettings(host, i)["rl_sleep" := Number(RL_INITVAL)], timeout)
  }

  lemma {:induction false} HostStep(t: Tables, host: string, timeout: int)
    requires host != "" && t.profiles == [] && IndexOf(t.aliases, DEFAULT_ACCT) < |t.aliases|
    ensures Step(t, ProfileBlock(DEFAULT, HostLines(host)), timeout)
         == Some(t.(profiles := [Row(DEFAULT, Profile(HostFill(host, IndexOf(t.aliases, DEFAULT_ACCT), timeout),
                                                      ZERO))]))
  {
    hide Filled, Assigns, HostLines, IndexOf, HostSettings, Merge;
    OneHost(t, host);
    var i := IndexOf(t.aliases, DEFAULT_ACCT);
    HostFilled(host, i, timeout);
    OneProfile(HostSettings(host, i)["rl_sleep" := Number(RL_INITVAL)], timeout);
  }

  lemma {:induction false} HostKnown(t: Tables, lib: string, s: Settings)
    requires t.auths == [] && "Accounting" in s && s["Accounting"] == Reference(IndexOf(t.aliases, DEFAULT_ACCT))
    requires IndexOf(t.aliases, DEFAULT_AUTH) < |t.aliases| && IndexOf(t.aliases, DEFAULT_ACCT) < |t.aliases|
    requires forall i :: 0 <= i < |t.aliases| ==> t.aliases[i].value.lib == lib
    ensures var u := t.(profiles := [Row(DEFAULT, Profile(s, ZERO))]);
            Complete(u) && ModulesKnown(u, Modules({}, {lib}))
  {
    var u := t.(profiles := [Row(DEFAULT, Profile(s, ZERO))]);
    assert AccountingLib(u, s) == Some(lib);
  }

  lemma {:induction false} OneProfile(a: Settings, timeout: int)
    ensures var p := Merge([], DEFAULT, a, timeout);
            p == [Row(DEFAULT, Profile(Filled(map[] + a, timeout), ZERO))] && IndexOf(p, DEFAULT) == 0
    ensures IndexOf<string, Profile>([], DEFAULT) == 0
  {
    hide Filled;
    MergeAt([], DEFAULT, a, timeout);
  }
}
