/** The table of backend servers: reading it, ordering it by level, and the
    choice of a server in it. */
module Backends {
  import opened Wrappers
  import opened Sorting
  import opened Balancer

  const MAX_LEVEL := 1000

  /** One `server` block of the configuration: its groups lines, and the last of the
      other lines, None where there is none. */
  datatype Entry = Entry(name: string, groups: seq<string>, policy: Option<Policy>, maxConnections: Option<uint>)

  const DEFAULT := "default"

  const BLANK := Server("", "", 0, Single, 0)

  // ----- reading the blocks

  /** The groups line read last, and the level it has. */
  datatype Reading = Reading(groups: string, level: nat)

  function ReadLine(r: Reading, groups: string): Reading {
    Reading(groups, if groups == r.groups then r.level else r.level + 1)
  }

  function ReadGroups(r: Reading, lines: seq<string>): (after: Reading)
    ensures after.level >= r.level
    ensures lines != [] ==> after.groups == lines[|lines| - 1]
  {
    if lines == [] then r
    else ReadLine(ReadGroups(r, lines[..|lines| - 1]), lines[|lines| - 1])
  }

  function ReadAll(entries: seq<Entry>): Reading {
    if entries == [] then Reading("", 0)
    else ReadGroups(ReadAll(entries[..|entries| - 1]), entries[|entries| - 1].groups)
  }

  /** The position of a name, or the length. */
  function Find(servers: seq<Server>, name: string): (i: nat)
    ensures i <= |servers|
    ensures i < |servers| ==> servers[i].name == name
    ensures forall k :: 0 <= k < i ==> servers[k].name != name
  {
    if servers == [] then 0
    else
      var n := |servers| - 1;
      var i := Find(servers[..n], name);
      if i < n || servers[n].name == name then i else n + 1
  }

  function Fill(base: Server, e: Entry, r: Reading): Server {
    Server(
      e.name,
      if e.groups != [] then e.groups[|e.groups| - 1] else base.groups,
      if e.groups != [] then r.level else base.level,
      if e.policy.Some? then e.policy.value else base.policy,
      if e.maxConnections.Some? then e.maxConnections.value else base.maxConnections)
  }

  /** The table the blocks describe, None where the program stops. */
  function Parsed(entries: seq<Entry>): (r: Option<seq<Server>>)
    ensures r.Some? ==> |r.value| == |entries|
  {
    if entries == [] then Some([])
    else
      var n := |entries| - 1;
      var e := entries[n];
      match Parsed(entries[..n])
      case None => None
      case Some(servers) =>
        if e.name != DEFAULT && Find(servers, DEFAULT) == |servers| then None
        else if Find(servers, e.name) < |servers| then None
        else
          var base := if e.name == DEFAULT then BLANK else servers[Find(servers, DEFAULT)];
          Some(servers + [Fill(base, e, ReadAll(entries))])
  }

  ghost predicate UniqueNames(servers: seq<Server>) {
    forall i, j :: 0 <= i < j < |servers| ==> servers[i].name != servers[j].name
  }

  /** Names are unique, the default server is the first, and no level is higher than
      the one of the last groups line. */
  lemma {:induction false} ParsedTable(entries: seq<Entry>)
    requires Parsed(entries).Some?
    ensures UniqueNames(Parsed(entries).value)
    ensures entries != [] ==> Parsed(entries).value[0].name == DEFAULT
    ensures forall s :: s in Parsed(entries).value ==> s.level <= ReadAll(entries).level
    decreases |entries|
  {
    if entries != [] {
      ParsedTable(entries[..|entries| - 1]);
    }
  }

  /** Reading lines keeps the level if and only if they all say what the line before
      them said. */
  lemma {:induction false} SameLines(r: Reading, lines: seq<string>)
    ensures ReadGroups(r, lines).level == r.level <==> forall k :: 0 <= k < |lines| ==> lines[k] == r.groups
    ensures ReadGroups(r, lines).level == r.level ==> ReadGroups(r, lines).groups == r.groups
    decreases |lines|
  {
    if lines != [] {
      SameLines(r, lines[..|lines| - 1]);
    }
  }

  /** Every groups line behind block `i` says `g`. */
  predicate SameAfter(entries: seq<Entry>, i: nat, g: string) {
    forall k :: i < k < |entries| ==> SaysOnly(entries[k], g)
  }

  predicate SaysOnly(e: Entry, g: string) {
    forall l :: 0 <= l < |e.groups| ==> e.groups[l] == g
  }

  function LastLine(e: Entry): string
    requires e.groups != []
  {
    e.groups[|e.groups| - 1]
  }

  /** The level after the groups lines of block `i` is still the level at the end if
      and only if every groups line since says the same. */
  lemma {:induction false} LevelSpansRun(entries: seq<Entry>, i: nat)
    requires i < |entries| && entries[i].groups != []
    ensures ReadAll(entries[..i + 1]).level <= ReadAll(entries).level
    ensures ReadAll(entries).level == ReadAll(entries[..i + 1]).level
       <==> SameAfter(entries, i, LastLine(entries[i]))
    ensures SameAfter(entries, i, LastLine(entries[i])) ==> ReadAll(entries).groups == LastLine(entries[i])
    decreases |entries|
  {
    hide ReadGroups;
    var n := |entries| - 1;
    var g := LastLine(entries[i]);
    if i == n {
      assert entries[..i + 1] == entries;
    } else {
      LevelSpansRun(entries[..n], i);
      assert entries[..n][..i + 1] == entries[..i + 1];
      SameLines(ReadAll(entries[..n]), entries[n].groups);
      assert SameAfter(entries, i, g) <==> SameAfter(entries[..n], i, g) && SaysOnly(entries[n], g);
    }
  }

  /** The words of groups lines are not empty. */
  ghost predicate LinesFull(entries: seq<Entry>) {
    forall k, l :: 0 <= k < |entries| && 0 <= l < |entries[k].groups| ==> entries[k].groups[l] != ""
  }

  /** Level 0 is the level before any groups line. */
  lemma {:induction false} NoLevelNoLines(entries: seq<Entry>)
    requires LinesFull(entries)
    ensures ReadAll(entries).level == 0 <==> forall k :: 0 <= k < |entries| ==> entries[k].groups == []
    ensures ReadAll(entries).level == 0 ==> ReadAll(entries).groups == ""
    decreases |entries|
  {
    if entries != [] {
      var n := |entries| - 1;
      NoLevelNoLines(entries[..n]);
      SameLines(ReadAll(entries[..n]), entries[n].groups);
      hide ReadGroups;
    }
  }

  lemma {:induction false} ParsedInit(entries: seq<Entry>)
    requires entries != [] && Parsed(entries).Some?
    ensures var before := Parsed(entries[..|entries| - 1]);
            before.Some? && Parsed(entries).value[..|entries| - 1] == before.value
  {
    hide Fill, ReadAll;
  }

  lemma {:induction false} ParsedPrefix(entries: seq<Entry>, i: nat)
    requires Parsed(entries).Some? && i < |entries|
    ensures Parsed(entries[..i + 1]).Some?
    ensures Parsed(entries).value[i] == Parsed(entries[..i + 1]).value[i]
    decreases |entries|
  {
    hide Parsed;
    var n := |entries| - 1;
    if i == n {
      assert entries[..i + 1] == entries;
    } else {
      ParsedInit(entries);
      ParsedPrefix(entries[..n], i);
      assert entries[..n][..i + 1] == entries[..i + 1];
      assert Parsed(entries).value[i] == Parsed(entries).value[..n][i];
    }
  }

  lemma {:induction false} ParsedPrefixes(entries: seq<Entry>, i: nat)
    requires i <= |entries| && Parsed(entries[..i]) == None
    ensures Parsed(entries) == None
    decreases |entries|
  {
    var n := |entries| - 1;
    if i == |entries| {
      assert entries[..i] == entries;
    } else {
      assert entries[..n][..i] == entries[..i];
      ParsedPrefixes(entries[..n], i);
    }
  }

  lemma {:induction false} NothingRead(entries: seq<Entry>)
    ensures Parsed(entries[..0]) == Some([]) && ReadAll(entries[..0]) == Reading("", 0)
  {
  }

  /** One more block. */
  lemma {:induction false} ReadStep(entries: seq<Entry>, i: nat)
    requires i < |entries| && Parsed(entries[..i]).Some?
    ensures ReadAll(entries[..i + 1]) == ReadGroups(ReadAll(entries[..i]), entries[i].groups)
    ensures var servers := Parsed(entries[..i]).value;
            var e := entries[i];
            var def := Find(servers, DEFAULT);
            Parsed(entries[..i + 1]) ==
            if Find(servers, e.name) < |servers| || (e.name != DEFAULT && def == |servers|) then None
            else Some(servers + [Fill(if e.name == DEFAULT then BLANK else servers[def], e, ReadAll(entries[..i + 1]))])
  {
    hide Fill, ReadGroups;
    assert entries[..i + 1][..i] == entries[..i];
  }

  /** The block whose groups lines give server `i` its level: its own, or the default
      server's where it has none. */
  function LevelBlock(entries: seq<Entry>, i: nat): (b: nat)
    requires i < |entries|
    ensures b < |entries|
  {
    if entries[i].groups != [] then i else 0
  }

  /** The first server of a prefix is the first of the table. */
  lemma {:induction false} FirstStays(entries: seq<Entry>, i: nat)
    requires Parsed(entries).Some? && 0 < i <= |entries|
    ensures Parsed(entries[..i]).Some? && Parsed(entries[..i]).value[0] == Parsed(entries).value[0]
    ensures Parsed(entries).value[0].name == DEFAULT
  {
    ParsedTable(entries);
    hide Parsed;
    ParsedPrefix(entries, i - 1);
    ParsedPrefix(entries, 0);
    ParsedPrefix(entries[..i], 0);
    assert entries[..i][..1] == entries[..1];
  }

  lemma {:induction false} OwnLevel(entries: seq<Entry>, i: nat)
    requires Parsed(entries).Some? && i < |entries|
    ensures Parsed(entries).value[i].level ==
            if entries[i].groups != [] then ReadAll(entries[..i + 1]).level
            else if i == 0 then 0
            else Parsed(entries).value[0].level
  {
    hide Parsed, ReadAll, Find;
    ParsedPrefix(entries, i);
    if i > 0 {
      FirstStays(entries, i);
      DefaultFirst(Parsed(entries[..i]).value);
    } else {
      NothingRead(entries);
      NothingFound();
    }
    ReadStep(entries, i);
  }

  lemma {:induction false} NothingFound()
    ensures Find([], DEFAULT) == 0
  {
  }

  lemma {:induction false} DefaultFirst(servers: seq<Server>)
    requires servers != [] && servers[0].name == DEFAULT
    ensures Find(servers, DEFAULT) == 0
  {
  }

  /** What block `i` says of its server, and else what the default block says, and else
      no groups, policy single and no limit. */
  lemma {:induction false} FieldsRead(entries: seq<Entry>, i: nat)
    requires Parsed(entries).Some? && i < |entries|
    ensures var e, d, s := entries[i], entries[0], Parsed(entries).value[i];
            && s.name == e.name
            && s.maxConnections == (if e.maxConnections.Some? then e.maxConnections.value
                                    else if d.maxConnections.Some? then d.maxConnections.value else 0)
            && s.policy == (if e.policy.Some? then e.policy.value
                            else if d.policy.Some? then d.policy.value else Single)
            && s.groups == (if e.groups != [] then LastLine(e) else if d.groups != [] then LastLine(d) else "")
  {
    hide Parsed, ReadAll, Find;
    OwnFields(entries, i);
    OwnFields(entries, 0);
  }

  lemma {:induction false} OwnFields(entries: seq<Entry>, i: nat)
    requires Parsed(entries).Some? && i < |entries|
    ensures var e, s := entries[i], Parsed(entries).value[i];
            var base := if i == 0 then BLANK else Parsed(entries).value[0];
            && s.name == e.name
            && s.maxConnections == (if e.maxConnections.Some? then e.maxConnections.value else base.maxConnections)
            && s.policy == (if e.policy.Some? then e.policy.value else base.policy)
            && s.groups == (if e.groups != [] then LastLine(e) else base.groups)
  {
    hide Parsed, ReadAll, Find;
    ParsedPrefix(entries, i);
    if i > 0 {
      FirstStays(entries, i);
      DefaultFirst(Parsed(entries[..i]).value);
    } else {
      NothingRead(entries);
      NothingFound();
    }
    ReadStep(entries, i);
  }

  /** A server without a groups line has the default server's level. */
  lemma {:induction false} LevelRead(entries: seq<Entry>, i: nat)
    requires Parsed(entries).Some? && i < |entries|
    ensures var b := LevelBlock(entries, i);
            Parsed(entries).value[i].level == if entries[b].groups != [] then ReadAll(entries[..b + 1]).level else 0
  {
    hide Parsed, ReadAll;
    OwnLevel(entries, i);
    OwnLevel(entries, 0);
  }

  /** Two servers share a level if and only if the same block gives it to both, or every
      groups line between the two blocks says the same. */
  lemma {:induction false} SameLevelExactly(entries: seq<Entry>, i: nat, j: nat)
    requires Parsed(entries).Some? && i < |entries| && j < |entries| && LinesFull(entries)
    requires LevelBlock(entries, i) <= LevelBlock(entries, j)
    ensures var a, b := LevelBlock(entries, i), LevelBlock(entries, j);
            Parsed(entries).value[i].level == Parsed(entries).value[j].level <==>
            a == b || (entries[a].groups != [] && SameAfter(entries[..b + 1], a, LastLine(entries[a])))
  {
    hide Parsed, ReadAll;
    var a, b := LevelBlock(entries, i), LevelBlock(entries, j);
    LevelRead(entries, i);
    LevelRead(entries, j);
    if a < b {
      var e := entries[..b + 1];
      assert e[b] == entries[b] && e[a] == entries[a];
      if entries[a].groups != [] {
        LevelSpansRun(e, a);
        assert e[..a + 1] == entries[..a + 1];
      } else {
        NoLevelNoLines(e);
      }
    }
  }

  // ----- the order by level

  function LevelOf(servers: seq<Server>, i: nat): nat {
    if i < |servers| then servers[i].level else 0
  }

  /** The order of `lservers`: higher levels first. */
  predicate HigherLevel(servers: seq<Server>, a: nat, b: nat) {
    LevelOf(servers, a) >= LevelOf(servers, b)
  }

  ghost predicate ByLevel(servers: seq<Server>, list: seq<nat>) {
    && (forall i :: 0 <= i < |list| ==> list[i] < |servers|)
    && (forall i, j :: 0 <= i < j < |list| ==> servers[list[i]].level >= servers[list[j]].level)
  }

  lemma {:induction false} SortedByLevel(servers: seq<Server>, r: seq<nat>, list: seq<nat>)
    requires Sorted(r, (a, b) => HigherLevel(servers, a, b)) && multiset(r) == multiset(list)
    requires forall k :: 0 <= k < |list| ==> list[k] < |servers|
    ensures ByLevel(servers, r)
  {
    forall k | 0 <= k < |r| ensures r[k] < |servers| {
      assert r[k] in multiset(r);
    }
    forall i, j | 0 <= i < j < |r| ensures servers[r[i]].level >= servers[r[j]].level {
      assert HigherLevel(servers, r[i], r[j]);
    }
  }

  /** Everyone but the default server. */
  function Others(n: nat, def: nat): (r: seq<nat>)
    ensures |r| == n - (if def < n then 1 else 0)
    ensures forall i :: 0 <= i < |r| ==> r[i] < n && r[i] != def
    ensures forall i :: 0 <= i < n && i != def ==> i in r
  {
    if n == 0 then [] else Others(n - 1, def) + (if n - 1 == def then [] else [n - 1])
  }

  lemma {:induction false} OnLevelPrefix(servers: seq<Server>, list: seq<nat>, lv: nat, i: nat)
    requires forall k :: 0 <= k < |list| ==> list[k] < |servers|
    requires i <= |list|
    ensures OnLevel(servers, list[..i], lv) <= OnLevel(servers, list, lv)
    decreases |list|
  {
    if i == |list| {
      assert list[..i] == list;
    } else {
      var n := |list| - 1;
      OnLevelPrefix(servers, list[..n], lv, i);
      assert list[..n][..i] == list[..i];
    }
  }

  lemma {:induction false} OnLevelSnoc(servers: seq<Server>, list: seq<nat>, x: nat, lv: nat)
    requires x < |servers| && forall k :: 0 <= k < |list| ==> list[k] < |servers|
    ensures |OnLevel(servers, list + [x], lv)|
         == |OnLevel(servers, list, lv)| + (if servers[x].level == lv then 1 else 0)
  {
    assert (list + [x])[..|list|] == list;
  }

  lemma {:induction false} OnLevelJoin(servers: seq<Server>, a: seq<nat>, b: seq<nat>, lv: nat)
    requires forall k :: 0 <= k < |a| ==> a[k] < |servers|
    requires forall k :: 0 <= k < |b| ==> b[k] < |servers|
    ensures |OnLevel(servers, a + b, lv)| == |OnLevel(servers, a, lv)| + |OnLevel(servers, b, lv)|
    decreases |b|
  {
    hide OnLevel;
    if b == [] {
      assert a + b == a;
      assert OnLevel(servers, b, lv) == [] by {
        OnLevelEmpty(servers, lv);
      }
    } else {
      var n := |b| - 1;
      assert b == b[..n] + [b[n]];
      assert a + b == (a + b[..n]) + [b[n]];
      OnLevelJoin(servers, a, b[..n], lv);
      OnLevelSnoc(servers, a + b[..n], b[n], lv);
      OnLevelSnoc(servers, b[..n], b[n], lv);
    }
  }

  lemma {:induction false} OnLevelEmpty(servers: seq<Server>, lv: nat)
    ensures OnLevel(servers, [], lv) == []
  {
  }

  lemma {:induction false} WithoutOne(b: seq<nat>, k: nat)
    requires k < |b|
    ensures multiset(b) == multiset(b[..k] + b[k + 1..]) + multiset{b[k]}
  {
    assert b == b[..k] + ([b[k]] + b[k + 1..]);
  }

  lemma {:induction false} OnLevelMiddle(servers: seq<Server>, a: seq<nat>, x: nat, b: seq<nat>, lv: nat)
    requires x < |servers|
    requires forall k :: 0 <= k < |a| ==> a[k] < |servers|
    requires forall k :: 0 <= k < |b| ==> b[k] < |servers|
    ensures |OnLevel(servers, a + [x] + b, lv)|
         == |OnLevel(servers, a + b, lv)| + (if servers[x].level == lv then 1 else 0)
  {
    hide OnLevel;
    OnLevelJoin(servers, a, b, lv);
    OnLevelSnoc(servers, a, x, lv);
    OnLevelJoin(servers, a + [x], b, lv);
  }

  lemma {:induction false} OnLevelWithout(servers: seq<Server>, b: seq<nat>, lv: nat, k: nat)
    requires forall i :: 0 <= i < |b| ==> b[i] < |servers|
    requires k < |b|
    ensures |OnLevel(servers, b, lv)|
         == |OnLevel(servers, b[..k] + b[k + 1..], lv)| + (if servers[b[k]].level == lv then 1 else 0)
  {
    hide OnLevel;
    OnLevelMiddle(servers, b[..k], b[k], b[k + 1..], lv);
    assert b == b[..k] + [b[k]] + b[k + 1..];
  }

  lemma {:induction false} SameAfterRemoval(a: seq<nat>, i: nat, b: seq<nat>, k: nat)
    requires multiset(a) == multiset(b) && i < |a| && k < |b| && a[i] == b[k]
    ensures multiset(a[..i] + a[i + 1..]) == multiset(b[..k] + b[k + 1..])
  {
    WithoutOne(a, i);
    WithoutOne(b, k);
    var m, m' := multiset(a[..i] + a[i + 1..]), multiset(b[..k] + b[k + 1..]);
    assert m == multiset(a) - multiset{a[i]};
    assert m' == multiset(b) - multiset{a[i]};
  }

  lemma {:induction false} OnLevelPermuted(servers: seq<Server>, a: seq<nat>, b: seq<nat>, lv: nat)
    requires forall k :: 0 <= k < |a| ==> a[k] < |servers|
    requires forall k :: 0 <= k < |b| ==> b[k] < |servers|
    requires multiset(a) == multiset(b)
    ensures |OnLevel(servers, a, lv)| == |OnLevel(servers, b, lv)|
    decreases |a|
  {
    hide OnLevel;
    if a == [] {
      assert |multiset(a)| == |multiset(b)|;
      assert a == b;
    } else {
      assert a[0] in multiset(a);
      var k :| 0 <= k < |b| && b[k] == a[0];
      SameAfterRemoval(a, 0, b, k);
      OnLevelPermuted(servers, a[..0] + a[1..], b[..k] + b[k + 1..], lv);
      OnLevelWithout(servers, a, lv, 0);
      OnLevelWithout(servers, b, lv, k);
    }
  }

  lemma {:induction false} CountOthers(servers: seq<Server>, n: nat, def: nat, lv: nat)
    requires n <= |servers|
    ensures CountLevel(servers[..n], lv)
         == |OnLevel(servers, Others(n, def), lv)| + (if def < n && servers[def].level == lv then 1 else 0)
  {
    hide OnLevel;
    if n == 0 {
      OnLevelEmpty(servers, lv);
    } else {
      CountOthers(servers, n - 1, def, lv);
      assert servers[..n][..n - 1] == servers[..n - 1];
      if n - 1 == def {
        assert Others(n, def) == Others(n - 1, def);
      } else {
        OnLevelSnoc(servers, Others(n - 1, def), n - 1, lv);
      }
    }
  }

  /** The servers counted on a level are those listed on it, and the default server
      if it has that level. */
  lemma {:induction false} CountsListed(servers: seq<Server>, list: seq<nat>, def: nat, lv: nat)
    requires def < |servers| && ByLevel(servers, list)
    requires multiset(list) == multiset(Others(|servers|, def))
    ensures CountLevel(servers, lv)
         == |OnLevel(servers, list, lv)| + (if servers[def].level == lv then 1 else 0)
  {
    CountOthers(servers, |servers|, def, lv);
    assert servers[..|servers|] == servers;
    OnLevelPermuted(servers, list, Others(|servers|, def), lv);
  }

  /** Everyone but the default server is listed on the own level, ... */
  lemma {:induction false} IsListed(servers: seq<Server>, list: seq<nat>, def: nat, s: nat)
    returns (k: nat)
    requires def < |servers| && ByLevel(servers, list)
    requires multiset(list) == multiset(Others(|servers|, def))
    requires s < |servers| && s != def
    ensures var on := OnLevel(servers, list, servers[s].level);
            k < |on| && on[k] == s
  {
    hide OnLevel, Others;
    assert s in Others(|servers|, def);
    assert s in multiset(list);
    k := PlaceOn(servers, list, servers[s].level, s);
  }

  lemma {:induction false} PlaceOn(servers: seq<Server>, list: seq<nat>, lv: nat, s: nat) returns (k: nat)
    requires forall i :: 0 <= i < |list| ==> list[i] < |servers|
    requires s in list && servers[s].level == lv
    ensures var on := OnLevel(servers, list, lv);
            k < |on| && on[k] == s
    decreases |list|
  {
    var n := |list| - 1;
    if list[n] == s {
      k := |OnLevel(servers, list[..n], lv)|;
    } else {
      k := PlaceOn(servers, list[..n], lv, s);
    }
  }

  ghost predicate Once(on: seq<nat>) {
    forall i, j :: 0 <= i < j < |on| ==> on[i] != on[j]
  }

  /** ... and only once. */
  lemma {:induction false} ListedOnce(servers: seq<Server>, list: seq<nat>, def: nat, lv: nat)
    requires def < |servers| && ByLevel(servers, list)
    requires multiset(list) == multiset(Others(|servers|, def))
    ensures Once(OnLevel(servers, list, lv))
  {
    hide OnLevel, Others;
    OthersOnce(|servers|, def);
    forall x ensures multiset(list)[x] <= 1 {
      assert multiset(Others(|servers|, def))[x] <= 1;
    }
    OnceOn(servers, list, lv);
  }

  lemma {:induction false} OthersOnce(n: nat, def: nat)
    ensures forall x :: multiset(Others(n, def))[x] <= if x in Others(n, def) then 1 else 0
  {
    if n > 0 {
      OthersOnce(n - 1, def);
    }
  }

  lemma {:induction false} OnceOn(servers: seq<Server>, list: seq<nat>, lv: nat)
    requires forall i :: 0 <= i < |list| ==> list[i] < |servers|
    requires forall x :: multiset(list)[x] <= 1
    ensures Once(OnLevel(servers, list, lv))
    decreases |list|
  {
    if list != [] {
      var n := |list| - 1;
      assert list == list[..n] + [list[n]];
      forall x ensures multiset(list[..n])[x] <= if x == list[n] then 0 else 1 {
        assert multiset(list)[x] <= 1;
      }
      assert list[n] !in multiset(list[..n]);
      OnceOn(servers, list[..n], lv);
      var before := OnLevel(servers, list[..n], lv);
      assert forall i :: 0 <= i < |before| ==> before[i] in list[..n];
    }
  }

  // ----- choosing

  /** Who is full on a level, in the order of the list, at the `a`-th choice. */
  function FullOn(servers: seq<Server>, on: seq<nat>, conns: (nat, nat) -> uint, a: nat): (r: seq<bool>)
    requires forall k :: 0 <= k < |on| ==> on[k] < |servers|
    ensures |r| == |on|
    ensures forall k :: 0 <= k < |on| ==> r[k] == Full(servers[on[k]], conns(a, on[k]))
  {
    seq(|on|, k requires 0 <= k < |on| => Full(servers[on[k]], conns(a, on[k])))
  }

  /** The server chosen on a level whose cursor stands at `pos`, and the new cursor;
      None where the recursion of the choice has no end. */
  function Next(servers: seq<Server>, list: seq<nat>, lv: nat, pos: nat, conns: (nat, nat) -> uint, a: nat)
      : (r: Option<(Option<nat>, nat)>)
    requires forall k :: 0 <= k < |list| ==> list[k] < |servers|
    ensures r.Some? && r.value.0.Some? ==> r.value.0.value < |servers| && servers[r.value.0.value].level == lv
  {
    var on := OnLevel(servers, list, lv);
    var full := FullOn(servers, on, conns, a);
    var max := CountLevel(servers, lv);
    if !Counts(full, max) || !Ends(full, max) then None
    else
      var (i, p) := Pick(full, max, pos);
      Some((if i.Some? then Some(on[i.value]) else None, p))
  }

  /** How many times the choice calls itself, at most. */
  ghost function Steps(servers: seq<Server>, list: seq<nat>, lv: nat, pos: nat, conns: (nat, nat) -> uint, a: nat): nat
    requires forall k :: 0 <= k < |list| ==> list[k] < |servers|
  {
    var full := FullOn(servers, OnLevel(servers, list, lv), conns, a);
    var max := CountLevel(servers, lv);
    if Counts(full, max) && Ends(full, max) then Ahead(full, max, pos) else 0
  }

  /** One call: no server, the server under the cursor, or, where that is full, what
      the next call says. */
  lemma {:induction false} NextStep(servers: seq<Server>, list: seq<nat>, lv: nat, pos: nat,
        conns: (nat, nat) -> uint, a: nat)
    requires forall k :: 0 <= k < |list| ==> list[k] < |servers|
    requires Next(servers, list, lv, pos, conns, a).Some?
    ensures var on := OnLevel(servers, list, lv);
            var rolled := Roll(pos, CountLevel(servers, lv));
            if pos >= |on| then Next(servers, list, lv, pos, conns, a) == Some((None, pos))
            else if Full(servers[on[pos]], conns(a, on[pos]))
            then Next(servers, list, lv, pos, conns, a) == Next(servers, list, lv, rolled, conns, a)
              && Steps(servers, list, lv, rolled, conns, a) < Steps(servers, list, lv, pos, conns, a)
            else Next(servers, list, lv, pos, conns, a) == Some((Some(on[pos]), rolled))
  {
    hide OnLevel, CountLevel, Full;
  }

  // ----- the start-up check

  /** The first of these servers with a substitute to look for, or the length. */
  function FirstPooled(servers: seq<Server>, on: seq<nat>): (j: nat)
    requires forall k :: 0 <= k < |on| ==> on[k] < |servers|
    ensures j <= |on|
    ensures j < |on| ==> !servers[on[j]].policy.Single?
    ensures forall k :: 0 <= k < j ==> servers[on[k]].policy.Single?
    decreases |on|
  {
    if on == [] then 0
    else
      var n := |on| - 1;
      var j := FirstPooled(servers, on[..n]);
      if j < n || !servers[on[n]].policy.Single? then j else |on|
  }

  /** The choice the check makes on a level. */
  function Checking(servers: seq<Server>, list: seq<nat>, lv: nat, conns: (nat, nat) -> uint)
      : (r: Option<(Option<nat>, nat)>)
    requires forall k :: 0 <= k < |list| ==> list[k] < |servers|
  {
    Next(servers, list, lv, Roll(0, CountLevel(servers, lv)), conns, 0)
  }

  /** A level where it is made, and where it finds another server. */
  predicate IsChecked(servers: seq<Server>, list: seq<nat>, lv: nat)
    requires forall k :: 0 <= k < |list| ==> list[k] < |servers|
  {
    var on := OnLevel(servers, list, lv);
    FirstPooled(servers, on) < |on|
  }

  predicate Passes(servers: seq<Server>, list: seq<nat>, lv: nat, conns: (nat, nat) -> uint)
    requires forall k :: 0 <= k < |list| ==> list[k] < |servers|
  {
    var on := OnLevel(servers, list, lv);
    var j := FirstPooled(servers, on);
    j < |on| ==>
      var r := Checking(servers, list, lv, conns);
      r.Some? && r.value.0 !in {None, Some(on[j])}
  }

  predicate AllPass(servers: seq<Server>, list: seq<nat>, conns: (nat, nat) -> uint) {
    && (forall k :: 0 <= k < |list| ==> list[k] < |servers|)
    && forall lv :: 0 <= lv < MAX_LEVEL ==> Passes(servers, list, lv, conns)
  }

  /** Where it leaves the cursors. */
  predicate CursorsChecked(servers: seq<Server>, list: seq<nat>, conns: (nat, nat) -> uint, cursors: seq<nat>) {
    && (forall k :: 0 <= k < |list| ==> list[k] < |servers|)
    && forall lv :: 0 <= lv < |cursors| ==>
         if IsChecked(servers, list, lv)
         then Checking(servers, list, lv, conns).Some? && cursors[lv] == Checking(servers, list, lv, conns).value.1
         else cursors[lv] == 0
  }

  /** While nobody is full, a level passes if and only if all its servers have policy
      single, or there are two and the first that has not is not the second. */
  lemma {:induction false} PassesExactly(servers: seq<Server>, list: seq<nat>, def: nat, lv: nat,
      conns: (nat, nat) -> uint)
    requires def < |servers| && ByLevel(servers, list)
    requires multiset(list) == multiset(Others(|servers|, def))
    requires forall i :: 0 <= i < |servers| ==> !Full(servers[i], conns(0, i))
    ensures var on := OnLevel(servers, list, lv);
            var j := FirstPooled(servers, on);
            Passes(servers, list, lv, conns) <==> j == |on| || (|on| >= 2 && j != 1)
  {
    hide OnLevel, CountLevel, Others, FirstPooled, Full, Pick;
    var on := OnLevel(servers, list, lv);
    var j := FirstPooled(servers, on);
    if j < |on| {
      CountsListed(servers, list, def, lv);
      ListedOnce(servers, list, def, lv);
      var max := CountLevel(servers, lv);
      assert FullOn(servers, on, conns, 0) == AllFree(|on|);
      assert !AllFree(|on|)[0];
      HasSubstituteExactly(|on|, max, j);
    }
  }

  /** All servers of the level have policy single, or there are two and the first that has
      not is not the second. */
  predicate Substitutable(servers: seq<Server>, list: seq<nat>, lv: nat)
    requires forall k :: 0 <= k < |list| ==> list[k] < |servers|
  {
    var on := OnLevel(servers, list, lv);
    FirstPooled(servers, on) == |on| || (|on| >= 2 && FirstPooled(servers, on) != 1)
  }

  /** So the program starts if and only if that is so of all levels. */
  lemma {:induction false} AllPassExactly(servers: seq<Server>, list: seq<nat>, def: nat)
    requires def < |servers| && ByLevel(servers, list)
    requires multiset(list) == multiset(Others(|servers|, def))
    requires forall s :: s in servers ==> s.level < MAX_LEVEL
    ensures AllPass(servers, list, Unconnected) <==> forall lv: nat :: Substitutable(servers, list, lv)
  {
    hide OnLevel, Others, FirstPooled, Passes;
    forall lv: nat
      ensures Passes(servers, list, lv, Unconnected) <==> Substitutable(servers, list, lv)
      ensures lv >= MAX_LEVEL ==> Substitutable(servers, list, lv)
    {
      PassesExactly(servers, list, def, lv, Unconnected);
      var on := OnLevel(servers, list, lv);
      if on != [] {
        assert servers[on[0]] in servers;
      }
    }
  }

  /** Nobody is connected when the program starts. */
  const Unconnected: (nat, nat) -> uint := (a, i) => 0

  lemma {:induction false} CheckingEnds(servers: seq<Server>, list: seq<nat>, def: nat, lv: nat)
    requires def < |servers| && ByLevel(servers, list)
    requires multiset(list) == multiset(Others(|servers|, def))
    ensures Checking(servers, list, lv, Unconnected).Some?
  {
    hide OnLevel, CountLevel, Others, Pick;
    CountsListed(servers, list, def, lv);
    var on := OnLevel(servers, list, lv);
    if on != [] {
      assert !FullOn(servers, on, Unconnected, 0)[0];
    }
  }

  lemma {:induction false} FirstPooledIs(servers: seq<Server>, on: seq<nat>, j: nat)
    requires forall k :: 0 <= k < |on| ==> on[k] < |servers|
    requires j < |on| && !servers[on[j]].policy.Single?
    requires forall k :: 0 <= k < j ==> servers[on[k]].policy.Single?
    ensures FirstPooled(servers, on) == j
  {
  }

  /** Some server among the first `i` of the list makes its level checked. */
  ghost predicate Reached(servers: seq<Server>, list: seq<nat>, i: nat, lv: nat)
    requires forall k :: 0 <= k < |list| ==> list[k] < |servers|
    requires i <= |list|
  {
    exists k :: 0 <= k < i && servers[list[k]].level == lv && !servers[list[k]].policy.Single?
  }

  /** The server at place `i` is the first of its level to be checked. */
  lemma {:induction false} ReachedFirst(servers: seq<Server>, list: seq<nat>, i: nat)
    requires forall k :: 0 <= k < |list| ==> list[k] < |servers|
    requires i < |list| && !servers[list[i]].policy.Single?
    requires !Reached(servers, list, i, servers[list[i]].level)
    ensures var on := OnLevel(servers, list, servers[list[i]].level);
            var j := FirstPooled(servers, on);
            j < |on| && on[j] == list[i]
  {
    hide OnLevel, FirstPooled;
    var lv := servers[list[i]].level;
    var on := OnLevel(servers, list, lv);
    var before := OnLevel(servers, list[..i], lv);
    OnLevelPrefix(servers, list, lv, i);
    OnLevelStep(servers, list, lv, i);
    forall k | 0 <= k < |before| ensures servers[on[k]].policy.Single? {
      assert on[k] == before[k];
    }
    FirstPooledIs(servers, on, |before|);
  }

  lemma {:induction false} ReachedAll(servers: seq<Server>, list: seq<nat>, lv: nat)
    requires forall k :: 0 <= k < |list| ==> list[k] < |servers|
    ensures Reached(servers, list, |list|, lv) <==> IsChecked(servers, list, lv)
  {
    hide OnLevel, FirstPooled;
    var on := OnLevel(servers, list, lv);
    var j := FirstPooled(servers, on);
    if j < |on| {
      assert on[j] in list;
    }
    if Reached(servers, list, |list|, lv) {
      var k :| 0 <= k < |list| && servers[list[k]].level == lv && !servers[list[k]].policy.Single?;
      var p := PlaceOn(servers, list, lv, list[k]);
    }
  }

  lemma {:induction false} ReachedStep(servers: seq<Server>, list: seq<nat>, i: nat, lv: nat)
    requires forall k :: 0 <= k < |list| ==> list[k] < |servers|
    requires i < |list|
    ensures Reached(servers, list, i + 1, lv) <==>
            Reached(servers, list, i, lv) || (servers[list[i]].level == lv && !servers[list[i]].policy.Single?)
  {
  }

  /** The check in front of place `i`: `lev` is the level asked last, and all those
      reached have passed. */
  ghost predicate Asked(servers: seq<Server>, list: seq<nat>, i: nat, conns: (nat, nat) -> uint, lev: int,
        cursors: seq<nat>)
    requires forall k :: 0 <= k < |list| ==> list[k] < |servers|
    requires i <= |list|
  {
    && (lev >= 0 ==> Reached(servers, list, i, lev))
    && (forall lv: nat :: Reached(servers, list, i, lv) ==> 0 <= lev <= lv)
    && (forall lv :: 0 <= lv < |cursors| ==>
          if Reached(servers, list, i, lv)
          then Passes(servers, list, lv, conns) && Checking(servers, list, lv, conns).Some?
            && cursors[lv] == Checking(servers, list, lv, conns).value.1
          else cursors[lv] == 0)
  }

  lemma {:induction false} AskedFirst(servers: seq<Server>, list: seq<nat>, conns: (nat, nat) -> uint,
      cursors: seq<nat>)
    requires forall k :: 0 <= k < |list| ==> list[k] < |servers|
    requires forall lv :: 0 <= lv < |cursors| ==> cursors[lv] == 0
    ensures Asked(servers, list, 0, conns, -1, cursors)
  {
  }

  /** A server of a level that was asked, or with policy single, is passed over. */
  lemma {:induction false} AskedPast(servers: seq<Server>, list: seq<nat>, i: nat, conns: (nat, nat) -> uint,
      lev: int, cursors: seq<nat>)
    requires forall k :: 0 <= k < |list| ==> list[k] < |servers|
    requires i < |list| && Asked(servers, list, i, conns, lev, cursors)
    requires servers[list[i]].level == lev || servers[list[i]].policy.Single?
    ensures Asked(servers, list, i + 1, conns, lev, cursors)
  {
    hide Passes, Checking, Reached;
    var next := i + 1;
    forall lv: nat ensures Reached(servers, list, next, lv) <==> Reached(servers, list, i, lv) {
      ReachedStep(servers, list, i, lv);
    }
  }

  /** Any other is the first of its level, which is asked now. */
  lemma {:induction false} AskedNew(servers: seq<Server>, list: seq<nat>, i: nat, conns: (nat, nat) -> uint,
      lev: int, cursors: seq<nat>)
    requires ByLevel(servers, list)
    requires i < |list| && Asked(servers, list, i, conns, lev, cursors)
    requires servers[list[i]].level != lev && !servers[list[i]].policy.Single?
    ensures var lv := servers[list[i]].level;
            var on := OnLevel(servers, list, lv);
            var j := FirstPooled(servers, on);
            IsChecked(servers, list, lv) && j < |on| && on[j] == list[i] && (lv < |cursors| ==> cursors[lv] == 0)
  {
    hide Passes, Checking, FirstPooled, OnLevel;
    assert !Reached(servers, list, i, servers[list[i]].level);
    ReachedFirst(servers, list, i);
  }

  /** What the choice says of a level. */
  lemma {:induction false} Answered(servers: seq<Server>, list: seq<nat>, lv: nat, conns: (nat, nat) -> uint,
      s: nat, r: Option<nat>, p: nat)
    requires forall k :: 0 <= k < |list| ==> list[k] < |servers|
    requires Next(servers, list, lv, Roll(0, CountLevel(servers, lv)), conns, 0) == Some((r, p))
    requires var on := OnLevel(servers, list, lv);
             var j := FirstPooled(servers, on);
             j < |on| && on[j] == s
    ensures Checking(servers, list, lv, conns) == Some((r, p))
    ensures Passes(servers, list, lv, conns) <==> r != None && r != Some(s)
  {
    hide Next, OnLevel, FirstPooled, CountLevel, Roll;
  }

  lemma {:induction false} CheckingMeans(servers: seq<Server>, list: seq<nat>, lv: nat, conns: (nat, nat) -> uint)
    requires forall k :: 0 <= k < |list| ==> list[k] < |servers|
    ensures Checking(servers, list, lv, conns) == Next(servers, list, lv, Roll(0, CountLevel(servers, lv)), conns, 0)
  {
    hide Next, CountLevel, Roll;
  }

  lemma {:induction false} LevelsFall(servers: seq<Server>, list: seq<nat>, i: nat, lv: int)
    requires ByLevel(servers, list) && i < |list| && lv >= 0 && Reached(servers, list, i, lv)
    ensures servers[list[i]].level <= lv
  {
  }

  lemma {:induction false} AskedNext(servers: seq<Server>, list: seq<nat>, i: nat, conns: (nat, nat) -> uint,
      lev: int, cursors: seq<nat>, after: seq<nat>)
    requires ByLevel(servers, list)
    requires i < |list| && Asked(servers, list, i, conns, lev, cursors) && |after| == |cursors|
    requires !servers[list[i]].policy.Single?
    requires var lv := servers[list[i]].level;
             && lv != lev && lv < |cursors| && Passes(servers, list, lv, conns)
             && Checking(servers, list, lv, conns).Some? && after[lv] == Checking(servers, list, lv, conns).value.1
             && forall k :: 0 <= k < |cursors| && k != lv ==> after[k] == cursors[k]
    ensures Asked(servers, list, i + 1, conns, servers[list[i]].level, after)
  {
    hide Passes, Checking, Reached;
    var lv := servers[list[i]].level;
    if lev >= 0 {
      LevelsFall(servers, list, i, lev);
    }
    var next := i + 1;
    forall l: nat ensures Reached(servers, list, next, l) <==> Reached(servers, list, i, l) || l == lv {
      ReachedStep(servers, list, i, l);
    }
  }

  lemma {:induction false} AskedAll(servers: seq<Server>, list: seq<nat>, conns: (nat, nat) -> uint,
      lev: int, cursors: seq<nat>)
    requires forall k :: 0 <= k < |list| ==> list[k] < |servers|
    requires Asked(servers, list, |list|, conns, lev, cursors) && |cursors| == MAX_LEVEL
    ensures AllPass(servers, list, conns) && CursorsChecked(servers, list, conns, cursors)
  {
    hide Checking, FirstPooled, OnLevel;
    forall lv: nat ensures Reached(servers, list, |list|, lv) <==> IsChecked(servers, list, lv) {
      ReachedAll(servers, list, lv);
    }
  }

  lemma {:induction false} FullMeans(s: Server, connections: uint)
    ensures Full(s, connections) <==> s.maxConnections != 0 && connections >= s.maxConnections
  {
  }

  lemma {:induction false} OnLevelNone(servers: seq<Server>, list: seq<nat>, lv: nat)
    requires forall k :: 0 <= k < |list| ==> list[k] < |servers|
    ensures |OnLevel(servers, list[..0], lv)| == 0
  {
  }

  lemma {:induction false} OnLevelStep(servers: seq<Server>, list: seq<nat>, lv: nat, i: nat)
    requires forall k :: 0 <= k < |list| ==> list[k] < |servers|
    requires i < |list|
    ensures var n := |OnLevel(servers, list[..i], lv)|;
            if servers[list[i]].level == lv
            then |OnLevel(servers, list[..i + 1], lv)| == n + 1
              && n < |OnLevel(servers, list, lv)| && OnLevel(servers, list, lv)[n] == list[i]
            else |OnLevel(servers, list[..i + 1], lv)| == n
  {
    assert list[..i + 1][..i] == list[..i];
    OnLevelPrefix(servers, list, lv, i + 1);
  }

  /** Everyone but the default server, in order of level. */
  method OrderServers(servers: seq<Server>, def: nat) returns (lservers: seq<nat>)
    requires def < |servers|
    ensures ByLevel(servers, lservers) && multiset(lservers) == multiset(Others(|servers|, def))
  {
    hide HigherLevel, ByLevel, Others;
    OthersNone(def);
    var list: seq<nat> := [];
    var i := 0;
    while i < |servers|
      invariant i <= |servers|
      invariant list == Others(i, def)
    {
      OthersStep(i, def);
      if i != def {
        list := list + [i];
      }
      i := i + 1;
    }
    LevelsOrdered(servers);
    lservers := Qsort(list, (a, b) => HigherLevel(servers, a, b));
    SortedByLevel(servers, lservers, list);
  }

  lemma {:induction false} OthersNone(def: nat)
    ensures Others(0, def) == []
  {
  }

  lemma {:induction false} OthersStep(i: nat, def: nat)
    ensures Others(i + 1, def) == if i == def then Others(i, def) else Others(i, def) + [i]
  {
  }

  lemma {:induction false} LevelsOrdered(servers: seq<Server>)
    ensures TotalOrder((a, b) => HigherLevel(servers, a, b))
  {
  }

  class ServerTable {
    var servers: seq<Server>
    var lservers: seq<nat>
    const balancePos: array<nat>
    var lastGroups: string
    var lastLevel: nat

    /** What a loaded table keeps: `lservers` holds everyone but the default server,
        by level, and no cursor has run further than one step behind its level. */
    ghost predicate Valid()
      reads this, balancePos
    {
      && balancePos.Length == MAX_LEVEL
      && UniqueNames(servers)
      && (forall s :: s in servers ==> s.level < MAX_LEVEL)
      && Find(servers, DEFAULT) < |servers|
      && ByLevel(servers, lservers)
      && multiset(lservers) == multiset(Others(|servers|, Find(servers, DEFAULT)))
      && (forall lv :: 0 <= lv < MAX_LEVEL ==> balancePos[lv] < CountLevel(servers, lv) || balancePos[lv] == 0)
    }

    constructor ()
      ensures balancePos.Length == MAX_LEVEL && fresh(balancePos)
      ensures servers == [] && lservers == [] && lastGroups == "" && lastLevel == 0
      ensures forall lv :: 0 <= lv < MAX_LEVEL ==> balancePos[lv] == 0
    {
      servers, lservers, lastGroups, lastLevel := [], [], "", 0;
      balancePos := new nat[MAX_LEVEL](i => 0);
    }

    method GetServer(name: string) returns (r: Option<nat>)
      ensures r == if Find(servers, name) < |servers| then Some(Find(servers, name)) else None
    {
      var i := 0;
      while i < |servers|
        invariant i <= |servers|
        invariant forall k :: 0 <= k < i ==> servers[k].name != name
      {
        if servers[i].name == name {
          return Some(i);
        }
        i := i + 1;
      }
      return None;
    }

    /** One block: the table grows by it, or the program stops. */
    method ParseServer(e: Entry) returns (ok: bool)
      modifies `servers, `lastGroups, `lastLevel
      ensures Reading(lastGroups, lastLevel) == ReadGroups(old(Reading(lastGroups, lastLevel)), e.groups) || !ok
      ensures ok <==> Find(old(servers), e.name) == |old(servers)|
                      && (e.name == DEFAULT || Find(old(servers), DEFAULT) < |old(servers)|)
      ensures ok ==> servers == old(servers) + [Fill(
                if e.name == DEFAULT then BLANK else old(servers)[Find(old(servers), DEFAULT)],
                e, Reading(lastGroups, lastLevel))]
    {
      var s := BLANK;
      if e.name != DEFAULT {
        var def := GetServer(DEFAULT);
        match def {
          case None => return false;
          case Some(d) => s := servers[d];
        }
      }
      s := s.(name := e.name);
      var known := GetServer(e.name);
      if known.Some? {
        return false;
      }
      ghost var filled := s;
      var k := 0;
      while k < |e.groups|
        invariant k <= |e.groups|
        invariant Reading(lastGroups, lastLevel) == ReadGroups(old(Reading(lastGroups, lastLevel)), e.groups[..k])
        invariant s == if k == 0 then filled else filled.(groups := e.groups[k - 1], level := lastLevel)
        invariant servers == old(servers)
      {
        assert e.groups[..k + 1][..k] == e.groups[..k];
        if lastGroups != e.groups[k] {
          lastGroups := e.groups[k];
          lastLevel := lastLevel + 1;
        }
        s := s.(groups := e.groups[k], level := lastLevel);
        k := k + 1;
      }
      assert e.groups[..k] == e.groups;
      if e.maxConnections.Some? {
        s := s.(maxConnections := e.maxConnections.value);
      }
      if e.policy.Some? {
        s := s.(policy := e.policy.value);
      }
      servers := servers + [s];
      return true;
    }

    /** All the blocks in turn. */
    method ReadServers(entries: seq<Entry>) returns (ok: bool)
      modifies `servers, `lastGroups, `lastLevel
      ensures ok <==> Parsed(entries).Some?
      ensures ok ==> servers == Parsed(entries).value
    {
      hide Parsed, ReadAll, Fill, ReadGroups, Find;
      servers, lastGroups, lastLevel := [], "", 0;
      var i := 0;
      NothingRead(entries);
      while i < |entries|
        invariant i <= |entries|
        invariant Parsed(entries[..i]) == Some(servers)
        invariant ReadAll(entries[..i]) == Reading(lastGroups, lastLevel)
      {
        ReadStep(entries, i);
        ok := this.ParseServer(entries[i]);
        if !ok {
          ParsedPrefixes(entries, i + 1);
          return;
        }
        i := i + 1;
      }
      assert entries[..i] == entries;
      return true;
    }

    method ClearCursors()
      modifies balancePos
      ensures forall lv :: 0 <= lv < balancePos.Length ==> balancePos[lv] == 0
    {
      var i := 0;
      while i < balancePos.Length
        invariant i <= balancePos.Length
        invariant forall lv :: 0 <= lv < i ==> balancePos[lv] == 0
      {
        balancePos[i] := 0;
        i := i + 1;
      }
    }

    /** Reading the configuration, ordering the servers, clearing the cursors and asking
        every level for a substitute. */
    method LoadServers(entries: seq<Entry>) returns (ok: bool)
      requires balancePos.Length == MAX_LEVEL && ReadAll(entries).level < MAX_LEVEL
      modifies this, balancePos
      ensures Parsed(entries).Some? && entries != [] ==> Valid() && servers == Parsed(entries).value
      ensures ok <==> Parsed(entries).Some? && entries != [] && AllPass(servers, lservers, Unconnected)
      ensures ok ==> CursorsChecked(servers, lservers, Unconnected, balancePos[..])
    {
      hide Parsed, Others, Passes, IsChecked, Checking, CursorsChecked, AllPass;
      ok := ReadServers(entries);
      if !ok {
        return;
      }
      ParsedTable(entries);
      var def := GetServer(DEFAULT);
      if def == None {
        return false;
      }
      lservers := OrderServers(servers, def.value);
      ClearCursors();
      forall lv: nat ensures Checking(servers, lservers, lv, Unconnected).Some? {
        CheckingEnds(servers, lservers, def.value, lv);
      }
      ok := CheckServerRedundancy(Unconnected);
    }

    method CountServerLevel(lv: nat) returns (num: nat)
      ensures num == CountLevel(servers, lv)
    {
      num := 0;
      var i := 0;
      assert servers[..0] == [];
      while i < |servers|
        invariant i <= |servers| && num == CountLevel(servers[..i], lv)
      {
        assert servers[..i + 1][..i] == servers[..i];
        if servers[i].level == lv {
          num := num + 1;
        }
        i := i + 1;
      }
      assert servers[..i] == servers;
    }

    method AddLevelUsage(lv: nat)
      requires Valid() && lv < MAX_LEVEL
      modifies balancePos
      ensures Valid()
      ensures balancePos[lv] == Roll(old(balancePos[lv]), CountLevel(servers, lv))
      ensures forall k :: 0 <= k < MAX_LEVEL && k != lv ==> balancePos[k] == old(balancePos[k])
    {
      var max := CountServerLevel(lv);
      balancePos[lv] := balancePos[lv] + 1;
      if balancePos[lv] >= max {
        balancePos[lv] := 0;
      }
    }

    /** The cursor of a level where other processes leave it. */
    method MoveCursor(lv: nat, pos: nat)
      requires Valid() && lv < MAX_LEVEL && (pos < CountLevel(servers, lv) || pos == 0)
      modifies balancePos
      ensures Valid() && balancePos[lv] == pos
      ensures forall k :: 0 <= k < MAX_LEVEL && k != lv ==> balancePos[k] == old(balancePos[k])
    {
      balancePos[lv] := pos;
    }

    /** The next server of a level, `conns` giving the connections seen at the `a`-th
        choice: the walk over `lservers` chooses what `Pick` chooses among the
        servers of the level, and ends where `Pick` ends. */
    method GetNextServer(lv: nat, conns: (nat, nat) -> uint, a: nat) returns (r: Option<nat>)
      requires Valid() && lv < MAX_LEVEL
      requires Next(servers, lservers, lv, balancePos[lv], conns, a).Some?
      modifies balancePos
      ensures Valid()
      ensures Next(servers, lservers, lv, old(balancePos[lv]), conns, a) == Some((r, balancePos[lv]))
      ensures forall k :: 0 <= k < MAX_LEVEL && k != lv ==> balancePos[k] == old(balancePos[k])
      decreases Steps(servers, lservers, lv, balancePos[lv], conns, a)
    {
      hide Next, OnLevel, CountLevel, Others, Find, Roll, Full, Steps;
      var num := balancePos[lv];
      var i := 0;
      OnLevelNone(servers, lservers, lv);
      while i < |lservers|
        invariant i <= |lservers|
        invariant num >= 0 && num + |OnLevel(servers, lservers[..i], lv)| == balancePos[lv]
        invariant unchanged(balancePos)
      {
        var s := lservers[i];
        OnLevelStep(servers, lservers, lv, i);
        if servers[s].level == lv {
          if num == 0 {
            NextStep(servers, lservers, lv, balancePos[lv], conns, a);
            AddLevelUsage(lv);
            var max := servers[s].maxConnections;
            var cur := conns(a, s);
            if max != 0 && cur >= max {
              FullMeans(servers[s], cur);
              r := GetNextServer(lv, conns, a);
              return;
            }
            FullMeans(servers[s], cur);
            return Some(s);
          }
          num := num - 1;
        }
        i := i + 1;
      }
      assert lservers[..i] == lservers;
      NextStep(servers, lservers, lv, balancePos[lv], conns, a);
      return None;
    }

    lemma {:induction false} ValidList()
      requires Valid()
      ensures balancePos.Length == MAX_LEVEL && ByLevel(servers, lservers)
      ensures forall i :: 0 <= i < |servers| ==> servers[i].level < MAX_LEVEL
    {
    }

    /** Every level with a server that needs a substitute is asked for one, over cleared
        cursors; the program stops at the first that has none. */
    method CheckServerRedundancy(conns: (nat, nat) -> uint) returns (ok: bool)
      requires Valid()
      requires forall lv :: 0 <= lv < MAX_LEVEL ==> balancePos[lv] == 0
      requires forall lv :: 0 <= lv < MAX_LEVEL && IsChecked(servers, lservers, lv) ==>
                 Checking(servers, lservers, lv, conns).Some?
      modifies balancePos
      ensures Valid()
      ensures ok <==> AllPass(servers, lservers, conns)
      ensures ok ==> CursorsChecked(servers, lservers, conns, balancePos[..])
    {
      hide Next, OnLevel, CountLevel, Others, Find, Roll, FirstPooled, Asked, UniqueNames, Checking, Passes, IsChecked,
        ServerTable.Valid, CursorsChecked;
      var lev: int := -1;
      var i := 0;
      ValidList();
      AskedFirst(servers, lservers, conns, balancePos[..]);
      while i < |lservers|
        invariant i <= |lservers| && Valid() && balancePos.Length == MAX_LEVEL
        invariant Asked(servers, lservers, i, conns, lev, balancePos[..])
      {
        var s := lservers[i];
        var lv := servers[s].level;
        if lv == lev {
          AskedPast(servers, lservers, i, conns, lev, balancePos[..]);
          i := i + 1;
          continue;
        }
        if servers[s].policy == Backup || servers[s].policy == Balance {
          ghost var was := balancePos[..];
          AskedNew(servers, lservers, i, conns, lev, was);
          CheckingMeans(servers, lservers, lv, conns);
          AddLevelUsage(lv);
          var r := GetNextServer(lv, conns, 0);
          Answered(servers, lservers, lv, conns, s, r, balancePos[lv]);
          if r == None || r == Some(s) {
            return false;
          }
          AskedNext(servers, lservers, i, conns, lev, was, balancePos[..]);
          lev := lv;
        } else {
          AskedPast(servers, lservers, i, conns, lev, balancePos[..]);
        }
        i := i + 1;
      }
      AskedAll(servers, lservers, conns, lev, balancePos[..]);
      return true;
    }
  }
}
