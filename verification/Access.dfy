/** The tables of the access configuration as the program updates them in place. */
module Access {
  import opened Wrappers
  import opened Utf8
  import opened PrefixMaps
  import opened KeyedTables
  import opened ProfileTable
  import opened AccessTables

  /** The settings after a block, None where the program stops. */
  function BlockResult(t: Tables, base: Settings, lines: seq<Setting>, timeout: int): Option<Settings> {
    var a := Assigns(t, lines);
    if a == None then None
    else
      var s := Filled(base + a.value["rl_sleep" := Number(RL_INITVAL)], timeout);
      if HasHostname(s) then Some(s) else None
  }

  lemma {:induction false} SleepReset(base: Settings, a: Settings, timeout: int)
    ensures Filled(base + a, timeout)["rl_sleep" := Number(RL_INITVAL)]
         == Filled(base + a["rl_sleep" := Number(RL_INITVAL)], timeout)
  {
    SleepNoDefault(timeout);
    hide Defaults;
    var n := Number(RL_INITVAL);
    assert base + a["rl_sleep" := n] == (base + a)["rl_sleep" := n];
    FilledPut(base + a, "rl_sleep", n, timeout);
  }

  lemma {:induction false} SleepNoDefault(timeout: int)
    ensures "rl_sleep" !in Defaults(timeout)
  {
  }

  lemma {:induction false} FilledPut(s: Settings, f: string, v: Value, timeout: int)
    requires f !in Defaults(timeout)
    ensures Filled(s, timeout)[f := v] == Filled(s[f := v], timeout)
  {
    hide Defaults;
  }

  /** A profile block, in terms of its result. */
  lemma {:induction false} ProfileStep(t: Tables, name: string, lines: seq<Setting>, timeout: int)
    ensures var base := Base(t.profiles, name);
            var r := BlockResult(t, base.settings, lines, timeout);
            var orphan := name != DEFAULT && IndexOf(t.profiles, name) == IndexOf(t.profiles, DEFAULT) == |t.profiles|;
            var after := Put(t.profiles, name, Profile(if r.Some? then r.value else map[], base.counters));
            Step(t, ProfileBlock(name, lines), timeout) ==
            if orphan || r == None || |after| > MAX_PROFILES then None else Some(t.(profiles := after))
  {
    hide Assigns, Base, Filled, HasHostname, Put;
    var a := Assigns(t, lines);
    if a.Some? {
      MergeAt(t.profiles, name, a.value["rl_sleep" := Number(RL_INITVAL)], timeout);
    }
  }

  lemma {:induction false} NoLines(t: Tables, lines: seq<Setting>)
    ensures Assigns(t, lines[..0]) == Some(map[])
  {
  }

  lemma {:induction false} AssignsStep(t: Tables, lines: seq<Setting>, k: nat)
    requires k < |lines| && Assigns(t, lines[..k]).Some?
    ensures Assigns(t, lines[..k + 1]) == LineDone(t, Assigns(t, lines[..k]).value, lines[k])
    ensures LineDone(t, Assigns(t, lines[..k]).value, lines[k]) == None ==> Assigns(t, lines) == None
  {
    assert lines[..k + 1][..k] == lines[..k];
    if Assigns(t, lines[..k + 1]) == None {
      AssignsStop(t, lines, k + 1);
    }
  }

  class AccessConfig {
    var aliases: seq<Row<string, Alias>>
    var profiles: Profiles
    var auths: seq<Row<seq<byte>, Auth>>
    var acls: seq<Row<Range, Acl>>
    const timeout: int

    ghost function State(): Tables
      reads this
    {
      Tables(aliases, profiles, auths, acls)
    }

    constructor (timeout: int)
      ensures State() == Tables([], [], [], []) && this.timeout == timeout
    {
      aliases, profiles, auths, acls := [], [], [], [];
      this.timeout := timeout;
    }

    // the lookups: loops from the front

    static method Find<K(==), V>(t: seq<Row<K, V>>, k: K) returns (i: nat)
      ensures i == IndexOf(t, k)
    {
      i := 0;
      while i < |t|
        invariant i <= |t| && forall j :: 0 <= j < i ==> t[j].key != k
      {
        if t[i].key == k {
          IndexUnique(t, k, i);
          return;
        }
        i := i + 1;
      }
    }

    method GetAcl(ip: Address) returns (i: nat)
      ensures i == AclIndex(acls, ip)
    {
      i := 0;
      while i < |acls|
        invariant i <= |acls| && forall j :: 0 <= j < i ==> !InRange(acls[j].key, ip)
      {
        if ip >= acls[i].key.start && ip <= acls[i].key.start + acls[i].key.size {
          return;
        }
        i := i + 1;
      }
    }

    method GetAuth(user: seq<byte>) returns (i: nat)
      ensures i == AuthIndex(auths, user)
    {
      i := 0;
      while i < |auths|
        invariant i <= |auths| && forall j :: 0 <= j < i ==> !MaskAdmits(auths[j].key, user)
      {
        var m := Wildmat.MatchSimple(user, auths[i].key);
        if m {
          return;
        }
        i := i + 1;
      }
    }

    // the statements

    method ParseAlias(name: string, lib: string, args: string) returns (ok: bool)
      modifies `aliases
      ensures Step(old(State()), AliasLine(name, lib, args), timeout) == Some(State()) || !ok
      ensures ok <==> Step(old(State()), AliasLine(name, lib, args), timeout).Some?
    {
      var i := Find(aliases, name);
      if i == |aliases| {
        aliases := aliases + [Row(name, Alias(lib, args))];
      } else {
        aliases := aliases[i := Row(name, Alias(lib, args))];
      }
      return |aliases| <= MAX_ALIASES;
    }

    method ParseAuth(mask: seq<byte>, alias: string, profile: string) returns (ok: bool)
      modifies `auths
      ensures Step(old(State()), AuthLine(mask, alias, profile), timeout) == Some(State()) || !ok
      ensures ok <==> Step(old(State()), AuthLine(mask, alias, profile), timeout).Some?
    {
      var a := Find(aliases, if alias == "" then DEFAULT_AUTH else alias);
      if a == |aliases| {
        return false;
      }
      var p := Find(profiles, if profile == "" then DEFAULT else profile);
      if p == |profiles| {
        return false;
      }
      var i := Find(auths, mask);
      if i == |auths| {
        auths := auths + [Row(mask, Auth(a, p))];
      } else {
        auths := auths[i := Row(mask, Auth(a, p))];
      }
      return true;
    }

    static method ReadRights(words: seq<Option<Right>>) returns (r: Option<set<Right>>)
      ensures r == Rights(words)
    {
      var rights: set<Right> := {};
      var k := 0;
      while k < |words|
        invariant k <= |words| && Rights(words[..k]) == Some(rights)
      {
        assert words[..k + 1][..k] == words[..k];
        if words[k] == None {
          RightsStop(words, k + 1);
          return None;
        }
        rights := rights + {words[k].value};
        k := k + 1;
      }
      assert words[..k] == words;
      return Some(rights);
    }

    method ParseAcl(ip: Address, len: Length, words: seq<Option<Right>>, profile: string) returns (ok: bool)
      modifies `acls
      ensures Step(old(State()), AclLine(ip, len, words, profile), timeout) == Some(State()) || !ok
      ensures ok <==> Step(old(State()), AclLine(ip, len, words, profile), timeout).Some?
    {
      hide Rights, IndexOf;
      var size := if len == 0 then 0xFFFF_FFFF else Pow2(32 - len) - 1;
      var named := Find(profiles, if profile == "" then DEFAULT else profile);
      if profile != "" && named == |profiles| {
        return false;
      }
      var rights := ReadRights(words);
      if rights == None {
        return false;
      }
      var entry := Row(Range(ip, size), Acl(if named < |profiles| then Some(named) else None, rights.value));
      var i := Find(acls, Range(ip, size));
      if i == |acls| {
        acls := acls + [entry];
      } else {
        acls := acls[i := entry];
      }
      return |acls| <= MAX_ACLS;
    }

    /** The lines of a block, over the settings of the profile. */
    method ProfileCopyCfg(base: Settings, lines: seq<Setting>) returns (r: Option<Settings>)
      ensures r == BlockResult(State(), base, lines, timeout)
    {
      hide Filled, Assigns, IndexOf;
      var m := base;
      var k := 0;
      NoLines(State(), lines);
      while k < |lines|
        invariant k <= |lines|
        invariant Assigns(State(), lines[..k]).Some? && m == base + Assigns(State(), lines[..k]).value
      {
        AssignsStep(State(), lines, k);
        match lines[k] {
          case Assign(f, v) =>
            m := m[f := v];
          case Accounting(a) =>
            var i := Find(aliases, a);
            if i >= |aliases| {
              return None;
            }
            m := m["Accounting" := Reference(i)];
          case FailProfile(p) =>
            var i := Find(profiles, p);
            if i >= |profiles| {
              return None;
            }
            m := m["FailProfile" := Reference(i)];
          case Deprecated =>
          case Unknown =>
            return None;
        }
        k := k + 1;
      }
      assert lines[..k] == lines;
      SleepReset(base, Assigns(State(), lines).value, timeout);
      m := Filled(m, timeout)["rl_sleep" := Number(RL_INITVAL)];
      if "Hostname" !in m || m["Hostname"] == Text("") {
        return None;
      }
      return Some(m);
    }

    /** A profile block: over the profile there is, or over a copy of the default one
        with its counters reset. */
    method ParseProfile(name: string, lines: seq<Setting>) returns (ok: bool)
      modifies `profiles
      ensures Step(old(State()), ProfileBlock(name, lines), timeout) == Some(State()) || !ok
      ensures ok <==> Step(old(State()), ProfileBlock(name, lines), timeout).Some?
    {
      hide Step, BlockResult;
      ProfileStep(State(), name, lines, timeout);
      var i := Find(profiles, name);
      if i < |profiles| {
        var s := ProfileCopyCfg(profiles[i].value.settings, lines);
        if s == None {
          return false;
        }
        profiles := profiles[i := Row(name, profiles[i].value.(settings := s.value))];
        return |profiles| <= MAX_PROFILES;
      }
      var slot := Profile(map[], ZERO);
      if name != DEFAULT {
        var d := Find(profiles, DEFAULT);
        if d == |profiles| {
          return false;
        }
        slot := profiles[d].value;
        slot := slot.(counters := slot.counters.(connections := 0, numusers := 0, realusers := 0, bytes := 0,
                                                 articles := 0));
      }
      var s := ProfileCopyCfg(slot.settings, lines);
      if s == None {
        return false;
      }
      profiles := profiles + [Row(name, slot.(settings := s.value))];
      return |profiles| <= MAX_PROFILES;
    }

    method Parse(s: Statement) returns (ok: bool)
      modifies this
      ensures Step(old(State()), s, timeout) == Some(State()) || !ok
      ensures ok <==> Step(old(State()), s, timeout).Some?
    {
      hide Step;
      match s {
        case AliasLine(name, lib, args) => ok := ParseAlias(name, lib, args);
        case ProfileBlock(name, lines) => ok := ParseProfile(name, lines);
        case AuthLine(mask, alias, profile) => ok := ParseAuth(mask, alias, profile);
        case AclLine(ip, len, words, profile) => ok := ParseAcl(ip, len, words, profile);
      }
    }

    /** Reading the file, statement after statement, into the tables there are. */
    method ReadAcsFile(cfg: seq<Statement>) returns (ok: bool)
      modifies this
      ensures ReadFile(old(State()), cfg, timeout) == Some(State()) || !ok
      ensures ok <==> ReadFile(old(State()), cfg, timeout).Some?
    {
      hide Step;
      ghost var before := State();
      var k := 0;
      while k < |cfg|
        invariant k <= |cfg| && ReadFile(before, cfg[..k], timeout) == Some(State())
      {
        assert cfg[..k + 1][..k] == cfg[..k];
        ok := Parse(cfg[k]);
        if !ok {
          ReadStops(before, cfg, timeout, k + 1);
          return;
        }
        k := k + 1;
      }
      assert cfg[..k] == cfg;
      return true;
    }

    /** Loading the configuration, and the checks behind it: the default names, and that
        every module named is there; a reload is the same over the tables there are. */
    method LoadAccessConf(cfg: seq<Statement>, modules: Modules) returns (ok: bool)
      modifies this
      ensures Load(old(State()), cfg, timeout) == Some(State()) || !ok
      ensures ok <==> Load(old(State()), cfg, timeout).Some?
                      && ModulesKnown(Load(old(State()), cfg, timeout).value, modules)
    {
      hide ReadFile, IndexOf, AccountingLib;
      ok := ReadAcsFile(cfg);
      if !ok {
        return;
      }
      var p := Find(profiles, DEFAULT);
      var a := Find(aliases, DEFAULT_AUTH);
      var c := Find(aliases, DEFAULT_ACCT);
      if p == |profiles| || a == |aliases| || c == |aliases| {
        return false;
      }
      ok := CheckModules(modules);
    }

    method CheckModules(modules: Modules) returns (ok: bool)
      ensures ok <==> ModulesKnown(State(), modules)
    {
      hide AccountingLib;
      var i := 0;
      while i < |auths|
        invariant i <= |auths|
        invariant forall j :: 0 <= j < i ==>
                    var a := auths[j].value.alias;
                    a < |aliases| && aliases[a].value.lib in modules.auth
      {
        var a := auths[i].value.alias;
        if a >= |aliases| || aliases[a].value.lib !in modules.auth {
          return false;
        }
        i := i + 1;
      }
      i := 0;
      while i < |profiles|
        invariant i <= |profiles|
        invariant forall j :: 0 <= j < i ==>
                    var lib := AccountingLib(State(), profiles[j].value.settings);
                    lib.Some? && lib.value in modules.acct
      {
        var lib := LibOf(profiles[i].value.settings);
        if lib == None || lib.value !in modules.acct {
          return false;
        }
        i := i + 1;
      }
      return true;
    }

    method LibOf(s: Settings) returns (lib: Option<string>)
      ensures lib == AccountingLib(State(), s)
    {
      if "Accounting" in s {
        match s["Accounting"] {
          case Reference(i) => return if i < |aliases| then Some(aliases[i].value.lib) else None;
          case _ => return None;
        }
      }
      return None;
    }
  }

  lemma {:induction false} ReadStops(t: Tables, cfg: seq<Statement>, timeout: int, k: nat)
    requires k <= |cfg| && ReadFile(t, cfg[..k], timeout) == None
    ensures ReadFile(t, cfg, timeout) == None
    decreases |cfg|
  {
    hide Step;
    if k == |cfg| {
      assert cfg[..k] == cfg;
    } else {
      assert cfg[..|cfg| - 1][..k] == cfg[..k];
      ReadStops(t, cfg[..|cfg| - 1], timeout, k);
    }
  }

  lemma {:induction false} RightsStop(words: seq<Option<Right>>, k: nat)
    requires k <= |words| && Rights(words[..k]) == None
    ensures Rights(words) == None
    decreases |words|
  {
    if k == |words| {
      assert words[..k] == words;
    } else {
      assert words[..|words| - 1][..k] == words[..k];
      RightsStop(words[..|words| - 1], k);
    }
  }

  lemma {:induction false} AssignsStop(t: Tables, lines: seq<Setting>, k: nat)
    requires k <= |lines| && Assigns(t, lines[..k]) == None
    ensures Assigns(t, lines) == None
    decreases |lines|
  {
    if k == |lines| {
      assert lines[..k] == lines;
    } else {
      assert lines[..|lines| - 1][..k] == lines[..k];
      AssignsStop(t, lines[..|lines| - 1], k);
    }
  }
}
