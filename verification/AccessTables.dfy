/** The access configuration: aliases, profiles, authenticators and access lists, and
    what reading it once more does to them. */
module AccessTables {
  import opened Wrappers
  import opened Utf8
  import Wildmat
  import opened PrefixMaps
  import opened KeyedTables
  import opened ProfileTable

  const DEFAULT_AUTH := "auth_default"
  const DEFAULT_ACCT := "acct_default"
  const RL_INITVAL := 100000

  const MAX_ALIASES := 256
  const MAX_PROFILES := 512
  const MAX_ACLS := 2048

  datatype Alias = Alias(lib: string, args: string)

  /** Who authenticates the users of a mask, and their profile: places in tables. */
  datatype Auth = Auth(alias: nat, profile: nat)

  datatype Right = Read | Stats | Post | Apost | Deny | Authenticate | Unlimit

  /** The addresses from `start`, `size` more than one of them. */
  datatype Range = Range(start: Address, size: nat)

  /** What an access list entry grants; a profile that was not there is None. */
  datatype Acl = Acl(profile: Option<nat>, rights: set<Right>)

  datatype Tables = Tables(
    aliases: seq<Row<string, Alias>>,
    profiles: Profiles,
    auths: seq<Row<seq<byte>, Auth>>,
    acls: seq<Row<Range, Acl>>)

  // ----- statements

  /** A line of a profile block. */
  datatype Setting =
    | Assign(field: string, value: Value)
    | Accounting(alias: string)
    | FailProfile(profile: string)
    | Deprecated
    | Unknown

  /** A parsed statement; an absent name is empty, a word that is no right is None. */
  datatype Statement =
    | AliasLine(name: string, lib: string, args: string)
    | ProfileBlock(name: string, settings: seq<Setting>)
    | AuthLine(mask: seq<byte>, alias: string, profile: string)
    | AclLine(ip: Address, len: Length, words: seq<Option<Right>>, profile: string)

  type Length = x: int | 0 <= x <= 32

  /** What a statement does once its names are looked up. */
  datatype Change =
    | SetAlias(alias: Row<string, Alias>)
    | SetProfile(block: Row<string, Settings>)
    | SetAuth(auth: Row<seq<byte>, Auth>)
    | SetAcl(acl: Row<Range, Acl>)

  function AclSize(len: Length): nat {
    if len == 0 then 0xFFFF_FFFF else Pow2(32 - len) - 1
  }

  /** The settings after a line; None where the program stops. */
  function LineDone(t: Tables, m: Settings, line: Setting): Option<Settings> {
    match line
    case Assign(f, v) => Some(m[f := v])
    case Accounting(a) =>
      if IndexOf(t.aliases, a) < |t.aliases| then Some(m["Accounting" := Reference(IndexOf(t.aliases, a))]) else None
    case FailProfile(p) =>
      if IndexOf(t.profiles, p) < |t.profiles| then Some(m["FailProfile" := Reference(IndexOf(t.profiles, p))])
      else None
    case Deprecated => Some(m)
    case Unknown => None
  }

  /** What the lines of a block assign; None where the program stops. */
  function Assigns(t: Tables, lines: seq<Setting>): Option<Settings> {
    if lines == [] then Some(map[])
    else
      var m := Assigns(t, lines[..|lines| - 1]);
      if m == None then None else LineDone(t, m.value, lines[|lines| - 1])
  }

  function Rights(words: seq<Option<Right>>): Option<set<Right>> {
    if words == [] then Some({})
    else
      var n := |words| - 1;
      match (Rights(words[..n]), words[n])
      case (Some(rights), Some(right)) => Some(rights + {right})
      case _ => None
  }

  function OrDefault(name: string, default_: string): string {
    if name == "" then default_ else name
  }

  /** Looking up the names of a statement; None where the program stops. An access list
      entry without a profile takes the default one, if there is one yet. */
  function Resolve(t: Tables, s: Statement): Option<Change> {
    match s
    case AliasLine(name, lib, args) => Some(SetAlias(Row(name, Alias(lib, args))))
    case ProfileBlock(name, settings) =>
      if name != DEFAULT && IndexOf(t.profiles, name) == IndexOf(t.profiles, DEFAULT) == |t.profiles| then None
      else
        var a := Assigns(t, settings);
        if a == None then None else Some(SetProfile(Row(name, a.value["rl_sleep" := Number(RL_INITVAL)])))
    case AuthLine(mask, alias, profile) =>
      var a := IndexOf(t.aliases, OrDefault(alias, DEFAULT_AUTH));
      var p := IndexOf(t.profiles, OrDefault(profile, DEFAULT));
      if a == |t.aliases| || p == |t.profiles| then None else Some(SetAuth(Row(mask, Auth(a, p))))
    case AclLine(ip, len, words, profile) =>
      var p := IndexOf(t.profiles, OrDefault(profile, DEFAULT));
      if profile != "" && p == |t.profiles| then None
      else
        var rights := Rights(words);
        if rights == None then None
        else Some(SetAcl(Row(Range(ip, AclSize(len)), Acl(if p < |t.profiles| then Some(p) else None, rights.value))))
  }

  function Do(t: Tables, c: Change, timeout: int): Tables {
    match c
    case SetAlias(r) => t.(aliases := Put(t.aliases, r.key, r.value))
    case SetProfile(r) => t.(profiles := Merge(t.profiles, r.key, r.value, timeout))
    case SetAuth(r) => t.(auths := Put(t.auths, r.key, r.value))
    case SetAcl(r) => t.(acls := Put(t.acls, r.key, r.value))
  }

  predicate HasHostname(s: Settings) {
    "Hostname" in s && s["Hostname"] != Text("")
  }

  /** The checks behind a change. Authenticators are not counted. */
  predicate Accepted(u: Tables, c: Change) {
    match c
    case SetAlias(r) => |u.aliases| <= MAX_ALIASES
    case SetProfile(r) =>
      var i := IndexOf(u.profiles, r.key);
      |u.profiles| <= MAX_PROFILES && i < |u.profiles| && HasHostname(u.profiles[i].value.settings)
    case SetAuth(r) => true
    case SetAcl(r) => |u.acls| <= MAX_ACLS
  }

  function Step(t: Tables, s: Statement, timeout: int): Option<Tables> {
    var c := Resolve(t, s);
    if c == None then None
    else
      var u := Do(t, c.value, timeout);
      if Accepted(u, c.value) then Some(u) else None
  }

  /** Reading the file into the tables there are; None where the program stops. */
  function ReadFile(t: Tables, cfg: seq<Statement>, timeout: int): Option<Tables> {
    if cfg == [] then Some(t)
    else
      var w := ReadFile(t, cfg[..|cfg| - 1], timeout);
      if w == None then None else Step(w.value, cfg[|cfg| - 1], timeout)
  }

  predicate Complete(u: Tables) {
    && IndexOf(u.profiles, DEFAULT) < |u.profiles|
    && IndexOf(u.aliases, DEFAULT_AUTH) < |u.aliases|
    && IndexOf(u.aliases, DEFAULT_ACCT) < |u.aliases|
  }

  /** Loading or reloading the configuration. */
  function Load(t: Tables, cfg: seq<Statement>, timeout: int): Option<Tables> {
    var u := ReadFile(t, cfg, timeout);
    if u.Some? && Complete(u.value) then u else None
  }

  /** The authenticator and accounting modules the program has, by library. */
  datatype Modules = Modules(auth: set<string>, acct: set<string>)

  /** The library that accounts for a profile, if it has an accounting alias. */
  function AccountingLib(u: Tables, s: Settings): Option<string> {
    if "Accounting" !in s then None
    else
      match s["Accounting"]
      case Reference(i) => if i < |u.aliases| then Some(u.aliases[i].value.lib) else None
      case _ => None
  }

  /** Every authenticator and every profile names a module there is. */
  predicate ModulesKnown(u: Tables, m: Modules) {
    && (forall i :: 0 <= i < |u.auths| ==>
          var a := u.auths[i].value.alias;
          a < |u.aliases| && u.aliases[a].value.lib in m.auth)
    && (forall i :: 0 <= i < |u.profiles| ==>
          var lib := AccountingLib(u, u.profiles[i].value.settings);
          lib.Some? && lib.value in m.acct)
  }

  // ----- what reading keeps

  /** Every table keeps its keys in their places. */
  ghost predicate Grows(t: Tables, u: Tables) {
    && Extends(t.aliases, u.aliases) && Extends(t.profiles, u.profiles)
    && Extends(t.auths, u.auths) && Extends(t.acls, u.acls)
  }

  ghost predicate Unique(t: Tables) {
    UniqueKeys(t.aliases) && UniqueKeys(t.profiles) && UniqueKeys(t.auths) && UniqueKeys(t.acls)
  }

  lemma {:induction false} PutExtends<K, V>(t: seq<Row<K, V>>, k: K, v: V)
    ensures Extends(t, Put(t, k, v))
    ensures UniqueKeys(t) ==> UniqueKeys(Put(t, k, v))
  {
  }

  lemma {:induction false} DoGrows(t: Tables, c: Change, timeout: int)
    ensures Grows(t, Do(t, c, timeout))
    ensures Unique(t) ==> Unique(Do(t, c, timeout))
  {
    hide Put, MergedProfile, UniqueKeys;
    match c
    case SetAlias(r) => PutExtends(t.aliases, r.key, r.value);
    case SetProfile(r) => PutExtends(t.profiles, r.key, MergedProfile(t.profiles, r.key, r.value, timeout));
    case SetAuth(r) => PutExtends(t.auths, r.key, r.value);
    case SetAcl(r) => PutExtends(t.acls, r.key, r.value);
  }

  lemma {:induction false} ReadGrows(t: Tables, cfg: seq<Statement>, timeout: int, k: nat)
    requires ReadFile(t, cfg, timeout).Some? && k <= |cfg|
    ensures ReadFile(t, cfg[..k], timeout).Some?
    ensures Grows(ReadFile(t, cfg[..k], timeout).value, ReadFile(t, cfg, timeout).value)
    decreases |cfg|
  {
    hide Do, Resolve, Accepted;
    if k == |cfg| {
      assert cfg[..k] == cfg;
    } else {
      var n := |cfg| - 1;
      ReadGrows(t, cfg[..n], timeout, k);
      assert cfg[..n][..k] == cfg[..k];
      var w := ReadFile(t, cfg[..n], timeout).value;
      DoGrows(w, Resolve(w, cfg[n]).value, timeout);
    }
  }

  /** Reading keeps keys unique and every entry in its place. */
  lemma {:induction false} ReadKeepsPlaces(t: Tables, cfg: seq<Statement>, timeout: int)
    requires ReadFile(t, cfg, timeout).Some?
    ensures Grows(t, ReadFile(t, cfg, timeout).value)
    ensures Unique(t) ==> Unique(ReadFile(t, cfg, timeout).value)
    decreases |cfg|
  {
    hide Do, Resolve, Accepted, Unique;
    if cfg != [] {
      var n := |cfg| - 1;
      ReadKeepsPlaces(t, cfg[..n], timeout);
      var w := ReadFile(t, cfg[..n], timeout).value;
      DoGrows(w, Resolve(w, cfg[n]).value, timeout);
    }
  }

  // ----- lookups

  predicate InRange(r: Range, ip: Address) {
    r.start <= ip <= r.start + r.size
  }

  /** The first entry whose range holds the address, or the length. */
  function AclIndex(acls: seq<Row<Range, Acl>>, ip: Address): (i: nat)
    ensures i <= |acls|
    ensures i < |acls| ==> InRange(acls[i].key, ip)
    ensures forall j :: 0 <= j < i ==> !InRange(acls[j].key, ip)
  {
    if acls == [] then 0
    else
      var n := |acls| - 1;
      var i := AclIndex(acls[..n], ip);
      if i < n || InRange(acls[n].key, ip) then i else n + 1
  }

  /** The mask matches the user name. */
  predicate MaskAdmits(mask: seq<byte>, user: seq<byte>) {
    Wildmat.Run(Wildmat.Parse(mask, 0, |mask|), user) == Wildmat.Yes
  }

  /** The first authenticator whose mask matches, or the length. */
  function AuthIndex(auths: seq<Row<seq<byte>, Auth>>, user: seq<byte>): (i: nat)
    ensures i <= |auths|
    ensures i < |auths| ==> MaskAdmits(auths[i].key, user)
    ensures forall j :: 0 <= j < i ==> !MaskAdmits(auths[j].key, user)
  {
    if auths == [] then 0
    else
      var n := |auths| - 1;
      var i := AuthIndex(auths[..n], user);
      if i < n || MaskAdmits(auths[n].key, user) then i else n + 1
  }

  /** An address or user that had an entry keeps its place in the list over a reload:
      what changes is only what that entry says. */
  lemma {:induction false} FirstMatchKept(t: Tables, cfg: seq<Statement>, timeout: int, ip: Address, user: seq<byte>)
    requires Load(t, cfg, timeout).Some?
    ensures var u := Load(t, cfg, timeout).value;
            && (AclIndex(t.acls, ip) < |t.acls| ==> AclIndex(u.acls, ip) == AclIndex(t.acls, ip))
            && (AuthIndex(t.auths, user) < |t.auths| ==> AuthIndex(u.auths, user) == AuthIndex(t.auths, user))
  {
    hide ReadFile, MaskAdmits, InRange;
    ReadKeepsPlaces(t, cfg, timeout);
  }

  /** The range of an entry is the block of its prefix, over all addresses, if and only
      if the address of the prefix is the first of the block. */
  lemma {:induction false} AclRangeExactly(ip: Address, len: Length)
    ensures (forall a: Address :: InRange(Range(ip, AclSize(len)), a) <==> a / Pow2(32 - len) == ip / Pow2(32 - len))
       <==> ip % Pow2(32 - len) == 0
  {
    hide Pow2;
    var m := Pow2(32 - len);
    SizeIsBlock(len);
    var q := ip / m;
    DivExactly(ip, m, q);
    if ip % m == 0 {
      assert ip == q * m;
      forall a: Address ensures InRange(Range(ip, AclSize(len)), a) <==> a / m == q {
        DivExactly(a, m, q);
      }
    } else {
      var first: Address := q * m;
      DivExactly(first, m, q);
      assert !InRange(Range(ip, AclSize(len)), first) && first / m == ip / m;
    }
  }

  lemma {:induction false} SizeIsBlock(len: Length)
    ensures AclSize(len) == Pow2(32 - len) - 1
  {
    if len == 0 {
      Pow2Of30();
      assert Pow2(32) == 2 * Pow2(31) == 4 * Pow2(30);
    }
  }
}
