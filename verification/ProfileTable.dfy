/** The table of profiles: settings merged into a profile, live counters kept. */
module ProfileTable {
  import opened Wrappers
  import opened KeyedTables

  const DEFAULT := "default"

  /** The value of a setting; references are places in a table. */
  datatype Value = Number(int) | Text(string) | Factor(real) | Reference(nat)

  type Settings = map<string, Value>

  /** Counters that sessions change while the program runs. */
  datatype Counters = Counters(connections: nat, numusers: nat, realusers: nat, bytes: nat, articles: nat,
                               rbytes: nat, postbytes: nat, postarticles: nat)

  const ZERO := Counters(0, 0, 0, 0, 0, 0, 0, 0)

  datatype Profile = Profile(settings: Settings, counters: Counters)

  type Profiles = seq<Row<string, Profile>>

  /** What a setting that is 0 or absent becomes at the end of a block, given the
      read timeout of the program. */
  function Defaults(timeout: int): Settings {
    map[
      "UserRLFactorD" := Factor(1.4), "UserRLFactorU" := Factor(1.4),
      "ProfileRLFactorD" := Factor(1.4), "ProfileRLFactorU" := Factor(1.4),
      "ClientReadTimeout" := Number(timeout)
    ]
  }

  predicate IsZero(v: Value) {
    v == Number(0) || v == Factor(0.0)
  }

  function Filled(s: Settings, timeout: int): (r: Settings)
    ensures r.Keys == s.Keys + Defaults(timeout).Keys
    ensures forall k :: k in s && k !in Defaults(timeout) ==> r[k] == s[k]
    ensures forall k :: k in s && k in Defaults(timeout) ==> r[k] == if IsZero(s[k]) then Defaults(timeout)[k] else s[k]
    ensures forall k :: k !in s && k in Defaults(timeout) ==> r[k] == Defaults(timeout)[k]
  {
    map k | k in s.Keys + Defaults(timeout).Keys ::
      if k in s && !(k in Defaults(timeout) && IsZero(s[k])) then s[k] else Defaults(timeout)[k]
  }

  /** What a block of a name starts from: the profile there is, or a copy of the
      default one with its counters reset. */
  function Base(t: Profiles, name: string): Profile {
    var i := IndexOf(t, name);
    var d := IndexOf(t, DEFAULT);
    if i < |t| then t[i].value
    else if name != DEFAULT && d < |t|
    then Profile(t[d].value.settings,
                 t[d].value.counters.(connections := 0, numusers := 0, realusers := 0, bytes := 0, articles := 0))
    else Profile(map[], ZERO)
  }

  /** The profile of a name after a block with these assignments. */
  function MergedProfile(t: Profiles, name: string, assigns: Settings, timeout: int): Profile {
    var base := Base(t, name);
    Profile(Filled(base.settings + assigns, timeout), base.counters)
  }

  function Merge(t: Profiles, name: string, assigns: Settings, timeout: int): Profiles {
    Put(t, name, MergedProfile(t, name, assigns, timeout))
  }

  /** Block after block. */
  function MergeAll(t: Profiles, blocks: seq<Row<string, Settings>>, timeout: int): Profiles {
    if blocks == [] then t
    else
      var n := |blocks| - 1;
      Merge(MergeAll(t, blocks[..n], timeout), blocks[n].key, blocks[n].value, timeout)
  }

  /** All that the blocks of a name assign; None without a block. */
  function Assigned(blocks: seq<Row<string, Settings>>, name: string): Option<Settings> {
    if blocks == [] then None
    else
      var n := |blocks| - 1;
      var r := Assigned(blocks[..n], name);
      if blocks[n].key != name then r
      else Some(if r.Some? then r.value + blocks[n].value else blocks[n].value)
  }

  // ----- merging twice

  /** The assignments are in the settings already. */
  ghost predicate Absorbs(s: Settings, assigns: Settings, timeout: int) {
    Filled(s + assigns, timeout) == s
  }

  lemma {:induction false} FilledMerges(s: Settings, a: Settings, b: Settings, timeout: int)
    ensures Filled(Filled(s + a, timeout) + b, timeout) == Filled(s + (a + b), timeout)
  {
    hide Defaults;
  }

  lemma {:induction false} FilledAbsorbs(s: Settings, a: Settings, timeout: int)
    ensures Absorbs(Filled(s + a, timeout), a, timeout)
  {
    FilledMerges(s, a, a, timeout);
    assert a + a == a;
  }

  lemma {:induction false} AbsorbsMore(s: Settings, a: Settings, b: Settings, timeout: int)
    requires Absorbs(s, a, timeout)
    ensures Absorbs(Filled(s + b, timeout), a + b, timeout)
  {
    FilledMerges(s, a, b, timeout);
    FilledAbsorbs(s, a + b, timeout);
  }

  lemma {:induction false} MergeAllExtends(t: Profiles, blocks: seq<Row<string, Settings>>, timeout: int)
    ensures Extends(t, MergeAll(t, blocks, timeout))
    ensures UniqueKeys(t) ==> UniqueKeys(MergeAll(t, blocks, timeout))
    decreases |blocks|
  {
    if blocks != [] {
      MergeAllExtends(t, blocks[..|blocks| - 1], timeout);
    }
  }

  lemma {:induction false} MergeAt(t: Profiles, name: string, assigns: Settings, timeout: int)
    ensures var u := Merge(t, name, assigns, timeout);
            var i := IndexOf(t, name);
            IndexOf(u, name) == i < |u| && u[i].value == MergedProfile(t, name, assigns, timeout)
  {
    hide MergedProfile;
    IndexUnique(Merge(t, name, assigns, timeout), name, IndexOf(t, name));
  }

  lemma {:induction false} MergedAbsorbs(t: Profiles, blocks: seq<Row<string, Settings>>, name: string, timeout: int)
    requires Assigned(blocks, name).Some?
    ensures var u := MergeAll(t, blocks, timeout);
            IndexOf(u, name) < |u| && Absorbs(u[IndexOf(u, name)].value.settings, Assigned(blocks, name).value, timeout)
    decreases |blocks|
  {
    hide Filled, Absorbs;
    var n := |blocks| - 1;
    var w := MergeAll(t, blocks[..n], timeout);
    var u := MergeAll(t, blocks, timeout);
    var before := Assigned(blocks[..n], name);
    if before.Some? {
      MergedAbsorbs(t, blocks[..n], name, timeout);
    }
    if blocks[n].key != name {
      IndexStays(w, u, name);
    } else {
      MergeAt(w, name, blocks[n].value, timeout);
      hide IndexOf, Merge, Put;
      if before.Some? {
        AbsorbsMore(Base(w, name).settings, before.value, blocks[n].value, timeout);
      } else {
        FilledAbsorbs(Base(w, name).settings, blocks[n].value, timeout);
      }
    }
  }

  /** Blocks of names that are there: each profile gets what its blocks assign. */
  lemma {:induction false} MergedAgain(u: Profiles, blocks: seq<Row<string, Settings>>, timeout: int, i: nat)
    requires i < |u| && forall j :: 0 <= j < |blocks| ==> IndexOf(u, blocks[j].key) < |u|
    ensures |MergeAll(u, blocks, timeout)| == |u|
    ensures MergeAll(u, blocks, timeout)[i].key == u[i].key
    ensures MergeAll(u, blocks, timeout)[i].value
         == if IndexOf(u, u[i].key) == i && Assigned(blocks, u[i].key).Some?
            then Profile(Filled(u[i].value.settings + Assigned(blocks, u[i].key).value, timeout), u[i].value.counters)
            else u[i].value
    decreases |blocks|
  {
    hide Filled;
    if blocks != [] {
      var n := |blocks| - 1;
      var v := MergeAll(u, blocks[..n], timeout);
      MergedAgain(u, blocks[..n], timeout, i);
      MergeAllExtends(u, blocks[..n], timeout);
      IndexStays(u, v, blocks[n].key);
      IndexStays(u, v, u[i].key);
      var before := Assigned(blocks[..n], u[i].key);
      if before.Some? {
        FilledMerges(u[i].value.settings, before.value, blocks[n].value, timeout);
      }
    }
  }

  lemma {:induction false} AssignedIndex(blocks: seq<Row<string, Settings>>, j: nat)
    requires j < |blocks|
    ensures Assigned(blocks, blocks[j].key).Some?
    decreases |blocks|
  {
    if j < |blocks| - 1 {
      AssignedIndex(blocks[..|blocks| - 1], j);
    }
  }

  /** The same blocks twice are the same blocks once. */
  lemma {:induction false} MergeAllTwice(t: Profiles, blocks: seq<Row<string, Settings>>, timeout: int)
    ensures MergeAll(MergeAll(t, blocks, timeout), blocks, timeout) == MergeAll(t, blocks, timeout)
  {
    var u := MergeAll(t, blocks, timeout);
    forall j | 0 <= j < |blocks| ensures IndexOf(u, blocks[j].key) < |u| {
      AssignedIndex(blocks, j);
      MergedAbsorbs(t, blocks, blocks[j].key, timeout);
    }
    var v := MergeAll(u, blocks, timeout);
    if u == [] {
      MergeAllEmpty(t, blocks, timeout);
    }
    forall i | 0 <= i < |u| ensures |v| == |u| && v[i] == u[i] {
      MergedAgain(u, blocks, timeout, i);
      if IndexOf(u, u[i].key) == i && Assigned(blocks, u[i].key).Some? {
        MergedAbsorbs(t, blocks, u[i].key, timeout);
      }
    }
  }

  lemma {:induction false} MergeAllEmpty(t: Profiles, blocks: seq<Row<string, Settings>>, timeout: int)
    requires MergeAll(t, blocks, timeout) == []
    ensures blocks == []
  {
  }

  /** The counters of the profiles there are stay as they are, and a new profile starts
      with no connections, users, bytes and articles. */
  lemma {:induction false} CountersKept(t: Profiles, blocks: seq<Row<string, Settings>>, timeout: int, i: nat)
    requires i < |MergeAll(t, blocks, timeout)|
    ensures var c := MergeAll(t, blocks, timeout)[i].value.counters;
            if i < |t| then c == t[i].value.counters
            else c.connections == c.numusers == c.realusers == c.bytes == c.articles == 0
    decreases |blocks|
  {
    hide Filled;
    if blocks != [] {
      var w := MergeAll(t, blocks[..|blocks| - 1], timeout);
      MergeAllExtends(t, blocks[..|blocks| - 1], timeout);
      if i < |w| {
        CountersKept(t, blocks[..|blocks| - 1], timeout, i);
      }
    }
  }
}
