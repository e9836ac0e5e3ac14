/** What the statements of the access configuration put into the tables. */
module AccessMeaning {
  import opened Wrappers
  import opened Utf8
  import opened PrefixMaps
  import opened KeyedTables
  import opened ProfileTable
  import opened AccessTables
  import Wildmat
  import WildmatSemantics
  import WildmatForms

  // ----- one row of a table

  /** The first row of the key, if there is one. */
  function ValueAt<K(==), V>(t: seq<Row<K, V>>, k: K): Option<V> {
    if IndexOf(t, k) < |t| then Some(t[IndexOf(t, k)].value) else None
  }

  /** Place `i` is that of the first row with the key. */
  predicate Names<K(==), V>(t: seq<Row<K, V>>, k: K, i: nat) {
    i < |t| && t[i].key == k && forall j :: 0 <= j < i ==> t[j].key != k
  }

  predicate Known<K(==), V>(t: seq<Row<K, V>>, k: K) {
    exists i :: 0 <= i < |t| && t[i].key == k
  }

  lemma {:induction false} KnownExactly<K, V>(t: seq<Row<K, V>>, k: K)
    ensures Known(t, k) <==> IndexOf(t, k) < |t|
    ensures IndexOf(t, k) < |t| ==> Names(t, k, IndexOf(t, k))
  {
  }

  /** Writing a row: its key has the value, and the rows of other keys are as they were. */
  lemma {:induction false} PutMeans<K, V>(t: seq<Row<K, V>>, k: K, v: V)
    ensures ValueAt(Put(t, k, v), k) == Some(v)
    ensures forall other :: other != k ==> ValueAt(Put(t, k, v), other) == ValueAt(t, other)
  {
    var u := Put(t, k, v);
    IndexUnique(u, k, IndexOf(t, k));
    forall other | other != k ensures ValueAt(u, other) == ValueAt(t, other) {
      if IndexOf(t, other) < |t| {
        IndexUnique(u, other, IndexOf(t, other));
      }
    }
  }

  // ----- access lists

  /** Every word is a right, and each right written is granted, and no other. */
  lemma {:induction false} RightsExactly(words: seq<Option<Right>>)
    ensures Rights(words).Some? <==> None !in words
    ensures Rights(words).Some? ==> forall r :: r in Rights(words).value <==> Some(r) in words
    decreases |words|
  {
    if words != [] {
      var n := |words| - 1;
      RightsExactly(words[..n]);
      assert words == words[..n] + [words[n]];
    }
  }

  /** An access list line is accepted if and only if its words are rights, its profile is
      known, and the table has room. It gives its range the rights written and the
      profile named, or without a name the default one, if it is there; no other range
      and no other table is touched. */
  lemma {:induction false} AclMeans(t: Tables, ip: Address, len: Length, words: seq<Option<Right>>, profile: string,
      timeout: int)
    ensures var u := Step(t, AclLine(ip, len, words, profile), timeout);
            var key := Range(ip, AclSize(len));
            && (u.Some? <==> None !in words && (profile != "" ==> Known(t.profiles, profile))
                             && (|t.acls| < MAX_ACLS || (|t.acls| == MAX_ACLS && Known(t.acls, key))))
            && (u.Some? ==>
                  && u.value == t.(acls := u.value.acls)
                  && ValueAt(u.value.acls, key).Some?
                  && (forall r :: r in ValueAt(u.value.acls, key).value.rights <==> Some(r) in words)
                  && (var name := if profile == "" then "default" else profile;
                      match ValueAt(u.value.acls, key).value.profile
                      case Some(i) => Names(t.profiles, name, i)
                      case None => !Known(t.profiles, name))
                  && forall other :: other != key ==> ValueAt(u.value.acls, other) == ValueAt(t.acls, other))
  {
    hide Rights, AclSize, IndexOf, Known, Names, ValueAt;
    var key := Range(ip, AclSize(len));
    RightsExactly(words);
    KnownExactly(t.profiles, OrDefault(profile, DEFAULT));
    KnownExactly(t.acls, key);
    var c := Resolve(t, AclLine(ip, len, words, profile));
    if c.Some? {
      PutMeans(t.acls, key, c.value.acl.value);
      PutSize(t.acls, key, c.value.acl.value);
    }
  }

  lemma {:induction false} PutSize<K, V>(t: seq<Row<K, V>>, k: K, v: V)
    ensures |Put(t, k, v)| == |t| + (if IndexOf(t, k) < |t| then 0 else 1)
  {
  }

  // ----- aliases and authenticators

  /** An alias line gives its name the library and the arguments written. */
  lemma {:induction false} AliasMeans(t: Tables, name: string, lib: string, args: string, timeout: int)
    ensures var u := Step(t, AliasLine(name, lib, args), timeout);
            && (u.Some? <==> |t.aliases| < MAX_ALIASES || (|t.aliases| == MAX_ALIASES && Known(t.aliases, name)))
            && (u.Some? ==>
                  && u.value == t.(aliases := u.value.aliases)
                  && ValueAt(u.value.aliases, name) == Some(Alias(lib, args))
                  && forall other :: other != name ==> ValueAt(u.value.aliases, other) == ValueAt(t.aliases, other))
  {
    hide IndexOf, Known, ValueAt;
    KnownExactly(t.aliases, name);
    PutMeans(t.aliases, name, Alias(lib, args));
    PutSize(t.aliases, name, Alias(lib, args));
  }

  /** An authenticator line is accepted if and only if its alias and its profile are
      known, the default ones where it names none, and gives its mask these two. */
  lemma {:induction false} AuthMeans(t: Tables, mask: seq<byte>, alias: string, profile: string, timeout: int)
    ensures var u := Step(t, AuthLine(mask, alias, profile), timeout);
            var a := if alias == "" then "auth_default" else alias;
            var p := if profile == "" then "default" else profile;
            && (u.Some? <==> Known(t.aliases, a) && Known(t.profiles, p))
            && (u.Some? ==>
                  && u.value == t.(auths := u.value.auths)
                  && ValueAt(u.value.auths, mask).Some?
                  && Names(t.aliases, a, ValueAt(u.value.auths, mask).value.alias)
                  && Names(t.profiles, p, ValueAt(u.value.auths, mask).value.profile)
                  && forall other :: other != mask ==> ValueAt(u.value.auths, other) == ValueAt(t.auths, other))
  {
    hide IndexOf, Known, Names, ValueAt;
    KnownExactly(t.aliases, OrDefault(alias, DEFAULT_AUTH));
    KnownExactly(t.profiles, OrDefault(profile, DEFAULT));
    var c := Resolve(t, AuthLine(mask, alias, profile));
    if c.Some? {
      PutMeans(t.auths, mask, c.value.auth.value);
    }
  }

  // ----- profiles

  /** What one line of a block gives a field. */
  function LineGives(t: Tables, line: Setting, f: string): Option<Value> {
    match line
    case Assign(field, v) => if field == f then Some(v) else None
    case Accounting(a) => if f == "Accounting" then Some(Reference(IndexOf(t.aliases, a))) else None
    case FailProfile(p) => if f == "FailProfile" then Some(Reference(IndexOf(t.profiles, p))) else None
    case Deprecated => None
    case Unknown => None
  }

  /** The last line that is about a field decides. */
  function LinesGive(t: Tables, lines: seq<Setting>, f: string): Option<Value> {
    if lines == [] then None
    else
      var n := |lines| - 1;
      var v := LineGives(t, lines[n], f);
      if v.Some? then v else LinesGive(t, lines[..n], f)
  }

  predicate LineAccepted(t: Tables, line: Setting) {
    match line
    case Accounting(a) => Known(t.aliases, a)
    case FailProfile(p) => Known(t.profiles, p)
    case Unknown => false
    case _ => true
  }

  lemma {:induction false} AssignsMean(t: Tables, lines: seq<Setting>)
    ensures Assigns(t, lines).Some? <==> forall k :: 0 <= k < |lines| ==> LineAccepted(t, lines[k])
    ensures Assigns(t, lines).Some? ==>
              forall f :: LinesGive(t, lines, f) ==
                if f in Assigns(t, lines).value then Some(Assigns(t, lines).value[f]) else None
    decreases |lines|
  {
    hide IndexOf;
    if lines != [] {
      var n := |lines| - 1;
      AssignsMean(t, lines[..n]);
      LineMeans(t, lines[n]);
      assert forall k :: 0 <= k < n ==> lines[..n][k] == lines[k];
    }
  }

  lemma {:induction false} LineMeans(t: Tables, line: Setting)
    ensures LineAccepted(t, line) <==>
            && line != Unknown
            && (line.Accounting? ==> IndexOf(t.aliases, line.alias) < |t.aliases|)
            && (line.FailProfile? ==> IndexOf(t.profiles, line.profile) < |t.profiles|)
  {
    match line
    case Accounting(a) => KnownExactly(t.aliases, a);
    case FailProfile(p) => KnownExactly(t.profiles, p);
    case _ =>
  }

  /** The settings a block starts from: the profile's own, else the default one's, else
      none. */
  function Inherited(t: Tables, name: string): Settings {
    var own, def := ValueAt(t.profiles, name), ValueAt(t.profiles, "default");
    if own.Some? then own.value.settings else if def.Some? then def.value.settings else map[]
  }

  /** What nothing and zero become: the four rate limit factors 1.4, and the read timeout
      that of the program. */
  function DefaultOf(f: string, timeout: int): Option<Value> {
    if f in {"UserRLFactorD", "UserRLFactorU", "ProfileRLFactorD", "ProfileRLFactorU"} then Some(Factor(1.4))
    else if f == "ClientReadTimeout" then Some(Number(timeout))
    else None
  }

  lemma {:induction false} DefaultsAre(timeout: int)
    ensures forall f :: DefaultOf(f, timeout) == if f in Defaults(timeout) then Some(Defaults(timeout)[f]) else None
    ensures forall v :: IsZero(v) <==> v in {Number(0), Factor(0.0)}
  {
    assert |"UserRLFactorD"| == 13 && |"UserRLFactorU"| == 13 && |"ProfileRLFactorD"| == 16;
    assert |"ProfileRLFactorU"| == 16 && |"ClientReadTimeout"| == 17;
  }

  /** A field behind a block: what the last line about it says, else what it was; the rate
      limiter starts anew, and where a default is given nothing and zero become it. */
  function FieldAfter(t: Tables, name: string, lines: seq<Setting>, f: string, timeout: int): Option<Value> {
    var given := LinesGive(t, lines, f);
    var was := Inherited(t, name);
    var v := if f == "rl_sleep" then Some(Number(RL_INITVAL))
             else if given.Some? then given
             else if f in was then Some(was[f]) else None;
    var def := DefaultOf(f, timeout);
    if def.Some? && v in {None, Some(Number(0)), Some(Factor(0.0))} then def else v
  }

  /** A block that is accepted gives its profile, field by field, what it says or what it
      inherits, and touches no other profile and no other table. */
  lemma {:induction false} BlockMeans(t: Tables, name: string, lines: seq<Setting>, timeout: int)
    requires Step(t, ProfileBlock(name, lines), timeout).Some?
    ensures var u := Step(t, ProfileBlock(name, lines), timeout).value;
            && u == t.(profiles := u.profiles)
            && ValueAt(u.profiles, name).Some?
            && (forall f :: FieldAfter(t, name, lines, f, timeout) ==
                  var s := ValueAt(u.profiles, name).value.settings;
                  if f in s then Some(s[f]) else None)
            && forall other :: other != name ==> ValueAt(u.profiles, other) == ValueAt(t.profiles, other)
  {
    hide IndexOf, Assigns, LinesGive, DefaultOf, MergedProfile, Inherited, Accepted;
    AssignsMean(t, lines);
    var a := Assigns(t, lines).value["rl_sleep" := Number(RL_INITVAL)];
    PutMeans(t.profiles, name, MergedProfile(t.profiles, name, a, timeout));
    FieldsMerged(t, name, a, timeout);
  }

  /** Field by field, what merging assignments gives. */
  lemma {:induction false} FieldsMerged(t: Tables, name: string, a: Settings, timeout: int)
    ensures var s, was := MergedProfile(t.profiles, name, a, timeout).settings, Inherited(t, name);
            forall f ::
              var v := if f in a then Some(a[f]) else if f in was then Some(was[f]) else None;
              var def := DefaultOf(f, timeout);
              (if f in s then Some(s[f]) else None)
              == if def.Some? && v in {None, Some(Number(0)), Some(Factor(0.0))} then def else v
  {
    hide IndexOf, Filled, Defaults, DefaultOf, IsZero;
    DefaultsAre(timeout);
  }

  /** A block is accepted if and only if its profile or the default one is there or it is
      the default one's, its lines are accepted, there is room, and the profile has a
      hostname then. */
  lemma {:induction false} BlockAccepted(t: Tables, name: string, lines: seq<Setting>, timeout: int)
    ensures Step(t, ProfileBlock(name, lines), timeout).Some? <==>
            && (name == "default" || Known(t.profiles, name) || Known(t.profiles, "default"))
            && (forall k :: 0 <= k < |lines| ==> LineAccepted(t, lines[k]))
            && (|t.profiles| < MAX_PROFILES || (|t.profiles| == MAX_PROFILES && Known(t.profiles, name)))
            && FieldAfter(t, name, lines, "Hostname", timeout) !in {None, Some(Text(""))}
  {
    hide IndexOf, Filled, Assigns, LinesGive, LineAccepted, Known, Put, Defaults, DefaultOf, IsZero;
    DefaultsAre(timeout);
    AssignsMean(t, lines);
    KnownExactly(t.profiles, name);
    KnownExactly(t.profiles, DEFAULT);
    HostnameHasNoDefault(timeout);
    if Assigns(t, lines).Some? {
      var a := Assigns(t, lines).value["rl_sleep" := Number(RL_INITVAL)];
      var p := MergedProfile(t.profiles, name, a, timeout);
      PutMeans(t.profiles, name, p);
      PutSize(t.profiles, name, p);
    }
  }

  lemma {:induction false} HostnameHasNoDefault(timeout: int)
    ensures "Hostname" !in Defaults(timeout) && "Hostname" != "rl_sleep"
  {
    assert |"Hostname"| == 8 && |"UserRLFactorD"| == 13 && |"UserRLFactorU"| == 13 && |"ProfileRLFactorD"| == 16;
    assert |"ProfileRLFactorU"| == 16 && |"ClientReadTimeout"| == 17;
    assert "Hostname"[0] != "rl_sleep"[0];
  }

  // ----- the checks behind the file

  /** A file that is read loads if and only if the names every later lookup falls back to
      are there. */
  lemma {:induction false} LoadNeeds(t: Tables, cfg: seq<Statement>, timeout: int)
    requires ReadFile(t, cfg, timeout).Some?
    ensures var u := ReadFile(t, cfg, timeout).value;
            Load(t, cfg, timeout) ==
            if Known(u.profiles, "default") && Known(u.aliases, "auth_default") && Known(u.aliases, "acct_default")
            then Some(u) else None
  {
    hide ReadFile, IndexOf, Known;
    var u := ReadFile(t, cfg, timeout).value;
    KnownExactly(u.profiles, "default");
    KnownExactly(u.aliases, "auth_default");
    KnownExactly(u.aliases, "acct_default");
  }

  /** A new authenticator needs the authentication module of its alias, and nothing
      else. */
  lemma {:induction false} AuthNeedsModule(t: Tables, mask: seq<byte>, alias: string, profile: string, timeout: int,
      m: Modules)
    requires Step(t, AuthLine(mask, alias, profile), timeout).Some? && !Known(t.auths, mask)
    ensures var u := Step(t, AuthLine(mask, alias, profile), timeout).value;
            var a := ValueAt(t.aliases, if alias == "" then "auth_default" else alias);
            a.Some? && (ModulesKnown(u, m) <==> ModulesKnown(t, m) && a.value.lib in m.auth)
  {
    hide IndexOf, Known;
    KnownExactly(t.auths, mask);
    KnownExactly(t.aliases, OrDefault(alias, DEFAULT_AUTH));
    var u := Step(t, AuthLine(mask, alias, profile), timeout).value;
    var n := |t.auths|;
    assert u == t.(auths := t.auths + [u.auths[n]]);
    assert u.auths[n].value.alias == IndexOf(t.aliases, OrDefault(alias, DEFAULT_AUTH));
    forall s ensures AccountingLib(u, s) == AccountingLib(t, s) {
    }
    assert forall i :: 0 <= i < n ==> u.auths[i] == t.auths[i];
  }

  /** Behind the checks every profile, the default one too, accounts with a module there
      is, and so does every mask authenticate. */
  lemma {:induction false} ModulesMean(u: Tables, m: Modules, name: string, mask: seq<byte>)
    requires ModulesKnown(u, m)
    ensures var p := ValueAt(u.profiles, name);
            p.Some? ==> AccountingLib(u, p.value.settings).Some? && AccountingLib(u, p.value.settings).value in m.acct
    ensures var a := ValueAt(u.auths, mask);
            a.Some? ==> a.value.alias < |u.aliases| && u.aliases[a.value.alias].value.lib in m.auth
  {
  }

  /** A profile has the library of the alias its block names for accounting. */
  lemma {:induction false} AccountingNeedsModule(t: Tables, s: Settings, alias: string)
    requires Known(t.aliases, alias) && "Accounting" in s && s["Accounting"] == Reference(IndexOf(t.aliases, alias))
    ensures ValueAt(t.aliases, alias).Some? && AccountingLib(t, s) == Some(ValueAt(t.aliases, alias).value.lib)
  {
    KnownExactly(t.aliases, alias);
  }

  // ----- who answers for a user

  /** The mask `*` stands for every user, and an escaped name for that user alone: no
      authenticator behind a `*`, or behind the own name, is asked, and none with the name
      of another. */
  lemma {:induction false} AuthByMask(auths: seq<Row<seq<byte>, Auth>>, user: seq<byte>, i: nat, name: seq<byte>)
    requires i < |auths| && WildmatSemantics.NulFree(name)
    ensures auths[i].key == [Wildmat.STAR] ==> AuthIndex(auths, user) <= i
    ensures auths[i].key == WildmatSemantics.Escape(name) ==>
              if name == user then AuthIndex(auths, user) <= i else AuthIndex(auths, user) != i
  {
    WildmatForms.StarAdmitsAll(user);
    WildmatForms.EscapeAdmitsItself(name, user);
  }
}
