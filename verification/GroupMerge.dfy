/** Merging the group lists of the backend servers: the first server asked that
    lists a group keeps it. */
module GroupMerge {
  import opened Wrappers
  import opened Sorting
  import opened Groups

  /** A line of a group list, after the scan of its four fields. */
  datatype Line = Entry(group: string, end: int, begin: int, mode: char) | Invalid

  datatype Listing = Listing(server: string, lines: seq<Line>)

  /** The group of a line: none for an invalid line or a name that is too long. */
  function Listed(server: string, line: Line): (r: seq<Group>)
    ensures |r| <= 1 && forall g :: g in r ==> g.server == server && |g.name| < MAX_GROUP && g.times == 0
  {
    match line
    case Invalid => []
    case Entry(group, end, begin, mode) =>
      if |group| >= MAX_GROUP then [] else [Group(group, server, end, begin, mode, 0)]
  }

  /** The groups a server lists. */
  function Offers(server: string, lines: seq<Line>): (r: seq<Group>)
    ensures forall g :: g in r ==> g.server == server && |g.name| < MAX_GROUP && g.times == 0
  {
    if lines == [] then []
    else Offers(server, lines[..|lines| - 1]) + Listed(server, lines[|lines| - 1])
  }

  /** Those of `incoming` whose name is not among the groups yet. */
  function Fresh(groups: seq<Group>, incoming: seq<Group>): (r: seq<Group>)
    ensures forall g :: g in r <==> g in incoming && !Known(groups, g.name)
  {
    if incoming == [] then []
    else
      var n := |incoming| - 1;
      Fresh(groups, incoming[..n]) + (if Known(groups, incoming[n].name) then [] else [incoming[n]])
  }

  // ----- the reference: who lists a name first

  function Lookup(groups: seq<Group>, name: string): (r: Option<Group>)
    ensures r.Some? ==> r.value in groups && r.value.name == name
    ensures r.Some? <==> Known(groups, name)
  {
    if groups == [] then None
    else
      var n := |groups| - 1;
      var r := Lookup(groups[..n], name);
      if r.Some? then r else if groups[n].name == name then Some(groups[n]) else None
  }

  /** The entry of the first listing with the name. */
  function FirstListed(listings: seq<Listing>, name: string): Option<Group> {
    if listings == [] then None
    else
      var n := |listings| - 1;
      var r := FirstListed(listings[..n], name);
      if r.Some? then r else Lookup(Offers(listings[n].server, listings[n].lines), name)
  }

  /** The groups are in order, each name of a listing once, from the first listing
      that has it. */
  ghost predicate Merged(groups: seq<Group>, listings: seq<Listing>) {
    && Ascending(groups)
    && forall g :: g in groups <==> FirstListed(listings, g.name) == Some(g)
  }

  ghost predicate NoDuplicates(listings: seq<Listing>) {
    forall l :: l in listings ==> DistinctNames(Offers(l.server, l.lines))
  }

  lemma {:induction false} LookupFinds(groups: seq<Group>, g: Group)
    requires DistinctNames(groups)
    ensures g in groups <==> Lookup(groups, g.name) == Some(g)
  {
    if g in groups {
      var i :| 0 <= i < |groups| && groups[i] == g;
      var r := Lookup(groups, g.name).value;
      var j :| 0 <= j < |groups| && groups[j] == r;
      assert i == j;
    }
  }

  /** One more listing. */
  lemma {:induction false} MergeStep(before: seq<Group>, listings: seq<Listing>, l: Listing, now: seq<Group>)
    requires Merged(before, listings) && DistinctNames(Offers(l.server, l.lines)) && Ascending(now)
    requires forall g :: g in now <==> g in before || g in Fresh(before, Offers(l.server, l.lines))
    ensures Merged(now, listings + [l])
  {
    var offers := Offers(l.server, l.lines);
    assert (listings + [l])[..|listings|] == listings;
    forall g ensures g in now <==> FirstListed(listings + [l], g.name) == Some(g) {
      LookupFinds(offers, g);
      var r := FirstListed(listings, g.name);
      KnownExactly(before, listings, g.name);
    }
  }

  lemma {:induction false} KnownExactly(groups: seq<Group>, listings: seq<Listing>, name: string)
    requires Merged(groups, listings)
    ensures Known(groups, name) <==> FirstListed(listings, name).Some?
  {
    FirstHasName(listings, name);
    if Known(groups, name) {
      var i :| 0 <= i < |groups| && groups[i].name == name;
      assert groups[i] in groups;
    }
    if FirstListed(listings, name).Some? {
      assert FirstListed(listings, name).value in groups;
    }
  }

  lemma {:induction false} FirstHasName(listings: seq<Listing>, name: string)
    ensures FirstListed(listings, name).Some? ==> FirstListed(listings, name).value.name == name
  {
    if listings != [] {
      FirstHasName(listings[..|listings| - 1], name);
    }
  }

  // ----- how many

  /** All groups in the order they come in. */
  function Gathered(listings: seq<Listing>): seq<Group> {
    if listings == [] then []
    else
      var n := |listings| - 1;
      var g := Gathered(listings[..n]);
      g + Fresh(g, Offers(listings[n].server, listings[n].lines))
  }

  lemma {:induction false} FreshAlike(a: seq<Group>, b: seq<Group>, incoming: seq<Group>)
    requires forall name :: Known(a, name) <==> Known(b, name)
    ensures Fresh(a, incoming) == Fresh(b, incoming)
    decreases |incoming|
  {
    if incoming != [] {
      FreshAlike(a, b, incoming[..|incoming| - 1]);
    }
  }

  lemma {:induction false} SameNames(a: seq<Group>, b: seq<Group>)
    requires multiset(a) == multiset(b)
    ensures forall name :: Known(a, name) <==> Known(b, name)
    ensures |a| == |b| && forall g :: g in a <==> g in b
  {
    forall g ensures g in a <==> g in b {
      assert g in a <==> g in multiset(a);
    }
    assert |multiset(a)| == |multiset(b)|;
    forall name ensures Known(a, name) <==> Known(b, name) {
      if Known(a, name) {
        var i :| 0 <= i < |a| && a[i].name == name;
        assert a[i] in b;
      }
      if Known(b, name) {
        var i :| 0 <= i < |b| && b[i].name == name;
        assert b[i] in a;
      }
    }
  }

  lemma {:induction false} GatheredGrows(listings: seq<Listing>, i: nat)
    requires i <= |listings|
    ensures |Gathered(listings[..i])| <= |Gathered(listings)|
    decreases |listings|
  {
    if i == |listings| {
      assert listings[..i] == listings;
    } else {
      GatheredGrows(listings[..|listings| - 1], i);
      assert listings[..|listings| - 1][..i] == listings[..i];
    }
  }

  // ----- duplicates within a listing

  lemma {:induction false} FreshDistinct(groups: seq<Group>, incoming: seq<Group>)
    requires DistinctNames(incoming)
    ensures DistinctNames(Fresh(groups, incoming))
    decreases |incoming|
  {
    if incoming != [] {
      var n := |incoming| - 1;
      FreshDistinct(groups, incoming[..n]);
      var f := Fresh(groups, incoming[..n]);
      forall i | 0 <= i < |f| ensures f[i].name != incoming[n].name {
        assert f[i] in incoming[..n];
      }
    }
  }

  lemma {:induction false} DistinctJoin(a: seq<Group>, b: seq<Group>)
    requires DistinctNames(a) && forall g :: g in b ==> !Known(a, g.name)
    ensures DistinctNames(a + b) <==> DistinctNames(b)
  {
    if DistinctNames(a + b) {
      forall i, j | 0 <= i < j < |b| ensures b[i].name != b[j].name {
        assert (a + b)[|a| + i] == b[i] && (a + b)[|a| + j] == b[j];
      }
    }
    if DistinctNames(b) {
      forall i, j | 0 <= i < j < |a + b| ensures (a + b)[i].name != (a + b)[j].name {
        if i < |a| <= j {
          assert b[j - |a|] in b;
          assert a[i].name == (a + b)[i].name;
        }
      }
    }
  }

  /** Merging into groups that are in order keeps every name once if and only if the
      new names are listed once each. */
  lemma {:induction false} AscendingExactly(before: seq<Group>, incoming: seq<Group>, now: seq<Group>)
    requires Ascending(before) && Sorted(now, NameLe)
    requires multiset(now) == multiset(before) + multiset(Fresh(before, incoming))
    ensures Ascending(now) <==> DistinctNames(Fresh(before, incoming))
  {
    var f := Fresh(before, incoming);
    AscendingIsSortedDistinct(before);
    AscendingIsSortedDistinct(now);
    DistinctJoin(before, f);
    assert multiset(before + f) == multiset(now);
    if DistinctNames(now) {
      DistinctPermuted(now, before + f);
    }
    if DistinctNames(before + f) {
      DistinctPermuted(before + f, now);
    }
  }

  // ----- the code

  /** The groups have gained the names of `incoming`, and no others. */
  ghost predicate Gains(before: seq<Group>, incoming: seq<Group>, now: seq<Group>) {
    forall name :: Known(now, name) <==> Known(before, name) || Known(incoming, name)
  }

  /** The search meets no name of the listing it is merging. */
  ghost predicate Clear(before: seq<Group>, incoming: seq<Group>) {
    before != [] || DistinctNames(incoming)
  }

  lemma {:induction false} KnownJoin(a: seq<Group>, b: seq<Group>, name: string)
    ensures Known(a + b, name) <==> Known(a, name) || Known(b, name)
  {
    if Known(a, name) {
      var i :| 0 <= i < |a| && a[i].name == name;
      assert (a + b)[i] == a[i];
    }
    if Known(b, name) {
      var i :| 0 <= i < |b| && b[i].name == name;
      assert (a + b)[|a| + i] == b[i];
    }
  }

  lemma {:induction false} NothingYet(before: seq<Group>, server: string, lines: seq<Line>)
    ensures Gains(before, Offers(server, lines[..0]), before)
    ensures before + Fresh(before, Offers(server, lines[..0])) == before
  {
  }

  lemma {:induction false} OffersStep(server: string, lines: seq<Line>, k: nat)
    requires k < |lines|
    ensures Offers(server, lines[..k + 1]) == Offers(server, lines[..k]) + Listed(server, lines[k])
    ensures Listed(server, lines[k]) == [] ==> Offers(server, lines[..k + 1]) == Offers(server, lines[..k])
  {
    assert lines[..k + 1][..k] == lines[..k];
  }

  lemma {:induction false} OffersPrefix(server: string, lines: seq<Line>, k: nat)
    requires k <= |lines|
    ensures Offers(server, lines[..k]) <= Offers(server, lines)
    decreases |lines|
  {
    if k == |lines| {
      assert lines[..k] == lines;
    } else {
      OffersPrefix(server, lines[..|lines| - 1], k);
      assert lines[..|lines| - 1][..k] == lines[..k];
    }
  }

  lemma {:induction false} FreshPrefix(before: seq<Group>, a: seq<Group>, b: seq<Group>)
    requires a <= b
    ensures Fresh(before, a) <= Fresh(before, b)
    decreases |b|
  {
    if |a| == |b| {
      assert a == b;
    } else {
      FreshPrefix(before, a, b[..|b| - 1]);
    }
  }

  lemma {:induction false} FreshWithin(before: seq<Group>, server: string, lines: seq<Line>, k: nat)
    requires k <= |lines|
    ensures |Fresh(before, Offers(server, lines[..k]))| <= |Fresh(before, Offers(server, lines))|
  {
    hide Fresh, Offers;
    OffersPrefix(server, lines, k);
    FreshPrefix(before, Offers(server, lines[..k]), Offers(server, lines));
  }

  lemma {:induction false} FreshSnoc(before: seq<Group>, incoming: seq<Group>, g: Group)
    ensures Fresh(before, incoming + [g]) == Fresh(before, incoming) + (if Known(before, g.name) then [] else [g])
  {
    assert (incoming + [g])[..|incoming|] == incoming;
  }

  /** Until the listing is done, the search of a clear one finds just the names known
      before it. */
  lemma {:induction false} SearchRight(before: seq<Group>, server: string, lines: seq<Line>, k: nat, g: Group,
        groups: seq<Group>, found: bool)
    requires k < |lines| && Listed(server, lines[k]) == [g]
    requires found ==> Known(groups, g.name)
    requires before != [] ==> (found <==> Known(before, g.name))
    requires Gains(before, Offers(server, lines[..k]), groups)
    ensures Gains(before, Offers(server, lines[..k + 1]), if found then groups else groups + [g])
    ensures Clear(before, Offers(server, lines)) && groups == before + Fresh(before, Offers(server, lines[..k])) ==>
              (if found then groups else groups + [g]) == before + Fresh(before, Offers(server, lines[..k + 1]))
  {
    hide Fresh, Offers, Known;
    var soFar := Offers(server, lines[..k]);
    OffersStep(server, lines, k);
    forall name ensures Known(soFar + [g], name) <==> Known(soFar, name) || g.name == name {
      KnownJoin(soFar, [g], name);
      KnownOne(g, name);
    }
    forall name ensures Known(groups + [g], name) <==> Known(groups, name) || g.name == name {
      KnownJoin(groups, [g], name);
      KnownOne(g, name);
    }
    FreshSnoc(before, soFar, g);
    if before == [] && DistinctNames(Offers(server, lines)) {
      KnownNone(g.name);
      OffersPrefix(server, lines, k + 1);
      NotTwice(Offers(server, lines), soFar, g);
    }
  }

  lemma {:induction false} KnownNone(name: string)
    ensures !Known([], name)
  {
  }

  lemma {:induction false} KnownOne(g: Group, name: string)
    ensures Known([g], name) <==> g.name == name
  {
    assert [g][0] == g;
  }

  lemma {:induction false} NotTwice(all: seq<Group>, some: seq<Group>, g: Group)
    requires DistinctNames(all) && some + [g] <= all
    ensures !Known(some, g.name)
  {
    forall i | 0 <= i < |some| ensures some[i].name != g.name {
      assert all[i] == some[i] && all[|some|] == g;
    }
  }

  lemma {:induction false} NothingMerged()
    ensures Merged([], []) && Ascending([]) && Gathered([]) == []
    ensures multiset([]) == multiset(Gathered([]))
  {
  }

  /** The state between two listings. */
  ghost predicate Ready(groups: seq<Group>, done: seq<Listing>) {
    && Merged(groups, done) && multiset(groups) == multiset(Gathered(done))
    && Ascending(groups) && |groups| <= MAX_GROUPS
  }

  // ----- the order of the servers

  /** The servers the main loop asks, among the first `n`, after one of level `cur`. */
  function Visits(levels: seq<nat>, n: nat, cur: int): (r: seq<nat>)
    requires n <= |levels|
    ensures forall k :: 0 <= k < |r| ==> r[k] < n
  {
    if n == 0 then []
    else if levels[n - 1] != cur then [n - 1] + Visits(levels, n - 1, levels[n - 1])
    else Visits(levels, n - 1, cur)
  }

  function Answers(visits: seq<nat>, answers: nat -> seq<Listing>): seq<Listing> {
    if visits == [] then [] else answers(visits[0]) + Answers(visits[1..], answers)
  }

  lemma {:induction false} AnswersStep(i: nat, rest: seq<nat>, answers: nat -> seq<Listing>)
    ensures Answers([i] + rest, answers) == answers(i) + Answers(rest, answers)
  {
    assert ([i] + rest)[1..] == rest;
  }

  ghost predicate Descending(levels: seq<nat>) {
    forall i, j :: 0 <= i < j < |levels| ==> levels[i] >= levels[j]
  }

  lemma {:induction false} VisitsStep(levels: seq<nat>, n: nat, cur: int)
    requires 0 < n <= |levels|
    ensures Visits(levels, n, cur)
         == if levels[n - 1] != cur then [n - 1] + Visits(levels, n - 1, levels[n - 1]) else Visits(levels, n - 1, cur)
  {
  }

  lemma {:induction false} VisitsAscend(levels: seq<nat>, n: nat, cur: int)
    requires Descending(levels) && n <= |levels|
    requires n > 0 ==> levels[n - 1] >= cur
    ensures var v := Visits(levels, n, cur);
            && (forall a, b :: 0 <= a < b < |v| ==> levels[v[a]] < levels[v[b]])
            && (forall a :: 0 <= a < |v| ==> levels[v[a]] > cur)
  {
    if n > 0 {
      VisitsStep(levels, n, cur);
      VisitsAscend(levels, n - 1, levels[n - 1]);
      hide Visits;
    }
  }

  /** A server of the level of `i` is asked, no earlier in the list. */
  ghost predicate Asked(levels: seq<nat>, visits: seq<nat>, i: nat)
    requires i < |levels| && forall a :: 0 <= a < |visits| ==> visits[a] < |levels|
  {
    exists a :: 0 <= a < |visits| && levels[visits[a]] == levels[i] && visits[a] >= i
  }

  lemma {:induction false} VisitsCover(levels: seq<nat>, n: nat, cur: int, i: nat)
    requires Descending(levels) && i < n <= |levels|
    requires levels[n - 1] >= cur && levels[i] > cur
    ensures Asked(levels, Visits(levels, n, cur), i)
  {
    hide Visits;
    var v := Visits(levels, n, cur);
    VisitsStep(levels, n, cur);
    if levels[i] == levels[n - 1] {
      assert v[0] == n - 1;
    } else {
      VisitsCover(levels, n - 1, levels[n - 1], i);
      var rest := Visits(levels, n - 1, levels[n - 1]);
      var a :| 0 <= a < |rest| && levels[rest[a]] == levels[i] && rest[a] >= i;
      if levels[n - 1] != cur {
        assert v[a + 1] == rest[a];
      }
    }
  }

  /** On a list ordered by level every level is asked once, lower levels first, and of
      each level its last server. */
  lemma {:induction false} EachLevelOnce(levels: seq<nat>)
    requires Descending(levels)
    ensures var v := Visits(levels, |levels|, -1);
            && (forall a, b :: 0 <= a < b < |v| ==> levels[v[a]] < levels[v[b]])
            && (forall i :: 0 <= i < |levels| ==> Asked(levels, v, i))
  {
    hide Visits, Asked;
    var v := Visits(levels, |levels|, -1);
    VisitsAscend(levels, |levels|, -1);
    forall i | 0 <= i < |levels| ensures Asked(levels, v, i) {
      VisitsCover(levels, |levels|, -1, i);
    }
  }

  lemma {:induction false} FirstListedJoin(a: seq<Listing>, b: seq<Listing>, name: string)
    ensures FirstListed(a + b, name)
         == if FirstListed(a, name).Some? then FirstListed(a, name) else FirstListed(b, name)
    decreases |b|
  {
    if b == [] {
      assert a + b == a;
    } else {
      var n := |b| - 1;
      assert (a + b)[..|a| + n] == a + b[..n];
      FirstListedJoin(a, b[..n], name);
    }
  }

  /** The group comes from the first server asked that lists it. */
  lemma {:induction false} FirstServerWins(visits: seq<nat>, answers: nat -> seq<Listing>, name: string, k: nat)
    requires k < |visits| && FirstListed(answers(visits[k]), name).Some?
    requires forall j :: 0 <= j < k ==> FirstListed(answers(visits[j]), name) == None
    ensures FirstListed(Answers(visits, answers), name) == FirstListed(answers(visits[k]), name)
    decreases |visits|
  {
    FirstListedJoin(answers(visits[0]), Answers(visits[1..], answers), name);
    if k > 0 {
      FirstServerWins(visits[1..], answers, name, k - 1);
    }
  }

  /** So of the servers asked, the one of the lowest level that lists a name keeps the
      group. */
  lemma {:induction false} LowestLevelWins(levels: seq<nat>, answers: nat -> seq<Listing>, groups: seq<Group>,
        name: string, k: nat)
    requires Descending(levels)
    requires Merged(groups, Answers(Visits(levels, |levels|, -1), answers))
    requires k < |Visits(levels, |levels|, -1)|
    requires var v := Visits(levels, |levels|, -1);
             && FirstListed(answers(v[k]), name).Some?
             && forall j :: 0 <= j < |v| && levels[v[j]] < levels[v[k]] ==> FirstListed(answers(v[j]), name) == None
    ensures FirstListed(answers(Visits(levels, |levels|, -1)[k]), name).value in groups
  {
    var v := Visits(levels, |levels|, -1);
    EachLevelOnce(levels);
    FirstServerWins(v, answers, name, k);
    FirstHasName(answers(v[k]), name);
  }

  lemma {:induction false} GatheredStep(listings: seq<Listing>, i: nat)
    requires i < |listings|
    ensures Gathered(listings[..i + 1])
         == Gathered(listings[..i]) + Fresh(Gathered(listings[..i]), Offers(listings[i].server, listings[i].lines))
  {
    assert listings[..i + 1][..i] == listings[..i];
  }

  lemma {:induction false} MergedStep(before: seq<Group>, listings: seq<Listing>, l: Listing, now: seq<Group>)
    requires Merged(before, listings) && DistinctNames(Offers(l.server, l.lines)) && Sorted(now, NameLe)
    requires multiset(now) == multiset(before) + multiset(Fresh(before, Offers(l.server, l.lines)))
    ensures Merged(now, listings + [l]) && Ascending(now)
  {
    hide Fresh, Offers, Known, DistinctNames, Ascending, FirstListed;
    var f := Fresh(before, Offers(l.server, l.lines));
    FreshDistinct(before, Offers(l.server, l.lines));
    AscendingExactly(before, Offers(l.server, l.lines), now);
    forall g ensures g in now <==> g in before || g in f {
      assert g in multiset(now) <==> g in multiset(before) || g in multiset(f);
    }
    MergeStep(before, listings, l, now);
  }

  class Updater {
    var groups: seq<Group>

    constructor ()
      ensures groups == []
    {
      groups := [];
    }

    /** Looking a name up among the first `max` groups, or among all for 0. */
    method Gg(name: string, max: nat) returns (r: Option<nat>)
      requires max <= |groups|
      ensures r.Some? ==> r.value < |groups| && groups[r.value].name == name && Known(groups, name)
      ensures max > 0 && Sorted(groups[..max], NameLe) ==> (r.Some? <==> Known(groups[..max], name))
    {
      var n := max;
      if n == 0 {
        n := |groups|;
      }
      r := Bsearch(groups, name, n);
    }

    /** The lines of one listing, appended unless the search finds their name. */
    method Collect(server: string, lines: seq<Line>) returns (ok: bool)
      requires Ascending(groups) && |groups| <= MAX_GROUPS
      modifies this
      ensures ok ==> Gains(old(groups), Offers(server, lines), groups) && |groups| <= MAX_GROUPS
      ensures ok && Clear(old(groups), Offers(server, lines)) ==>
                groups == old(groups) + Fresh(old(groups), Offers(server, lines))
      ensures Clear(old(groups), Offers(server, lines)) ==>
                (ok <==> |old(groups)| + |Fresh(old(groups), Offers(server, lines))| <= MAX_GROUPS)
    {
      hide Fresh, Offers, Known, Clear, Gains, DistinctNames;
      var ng := |groups|;
      var k := 0;
      ghost var before := groups;
      ghost var offers := Offers(server, lines);
      AscendingIsSortedDistinct(before);
      NothingYet(before, server, lines);
      while k < |lines|
        invariant k <= |lines| && before <= groups && |groups| <= MAX_GROUPS
        invariant Gains(before, Offers(server, lines[..k]), groups)
        invariant Clear(before, offers) ==> groups == before + Fresh(before, Offers(server, lines[..k]))
      {
        OffersStep(server, lines, k);
        if lines[k].Entry? && |lines[k].group| < MAX_GROUP {
          ghost var g := Listed(server, lines[k])[0];
          assert groups[..ng] == before;
          var found := Gg(lines[k].group, ng);
          SearchRight(before, server, lines, k, g, groups, found.Some?);
          if found == None {
            if |groups| == MAX_GROUPS {
              FreshWithin(before, server, lines, k + 1);
              return false;
            }
            var i := |groups|;
            groups := groups + [Group(lines[k].group, server, lines[k].end, lines[k].begin, lines[k].mode, 0)];
          }
        }
        k := k + 1;
      }
      assert lines[..k] == lines;
      return true;
    }

    /** Merging one listing; the program stops where the table is full. With groups
        known before, exactly the entries with new names are added. Into an empty
        table, whose growing part the search runs over while it is out of order, that
        holds of a listing without duplicates; no name is lost in any case. */
    method GetlistActive(server: string, lines: seq<Line>) returns (ok: bool)
      requires Ascending(groups) && |groups| <= MAX_GROUPS
      modifies this
      ensures ok ==> Sorted(groups, NameLe) && |groups| <= MAX_GROUPS
      ensures ok ==> Gains(old(groups), Offers(server, lines), groups)
      ensures ok && Clear(old(groups), Offers(server, lines)) ==>
                multiset(groups) == multiset(old(groups)) + multiset(Fresh(old(groups), Offers(server, lines)))
      ensures Clear(old(groups), Offers(server, lines)) ==>
                (ok <==> |old(groups)| + |Fresh(old(groups), Offers(server, lines))| <= MAX_GROUPS)
    {
      hide Fresh, Offers, Known, Clear, DistinctNames;
      ok := Collect(server, lines);
      if ok {
        NamesOrdered();
        ghost var collected := groups;
        groups := Qsort(groups, NameLe);
        SameNames(collected, groups);
      }
    }

    /** The listings of one server, one a query, `done` being those merged before. Of
        listings without duplicates the result is the merge, and the program stops just
        where their groups do not fit. */
    method UpdateServer(listings: seq<Listing>, ghost done: seq<Listing>) returns (ok: bool)
      requires Ready(groups, done) && NoDuplicates(listings)
      modifies this
      ensures ok ==> Ready(groups, done + listings)
      ensures ok <==> |Gathered(done + listings)| <= MAX_GROUPS
    {
      hide Fresh, Offers, Known, DistinctNames, Ascending, FirstListed, Merged, Gathered, Gains;
      var i := 0;
      assert done + listings[..0] == done;
      while i < |listings|
        invariant i <= |listings|
        invariant Ready(groups, done + listings[..i])
      {
        ghost var before := groups;
        ghost var all := done + listings;
        ghost var n := |done| + i;
        assert all[..n] == done + listings[..i] && all[n] == listings[i];
        assert all[..n + 1] == done + listings[..i + 1] == all[..n] + [all[n]];
        ok := GetlistActive(listings[i].server, listings[i].lines);
        assert listings[i] in listings;
        SameNames(before, Gathered(all[..n]));
        FreshAlike(before, Gathered(all[..n]), Offers(all[n].server, all[n].lines));
        GatheredStep(all, n);
        if !ok {
          GatheredGrows(all, n + 1);
          return;
        }
        MergedStep(before, all[..n], all[n], groups);
        i := i + 1;
      }
      assert listings[..i] == listings;
      SameNames(groups, Gathered(done + listings));
      return true;
    }

    /** The updater's main loop: from the last server of `lservers` to the first, one
        of each level; `answers` are the listings that asking a server brings. */
    method UpdateGroups(levels: seq<nat>, answers: nat -> seq<Listing>) returns (ok: bool)
      requires groups == []
      requires forall i :: 0 <= i < |levels| ==> NoDuplicates(answers(i))
      modifies this
      ensures ok ==> Merged(groups, Answers(Visits(levels, |levels|, -1), answers))
      ensures ok <==> |Gathered(Answers(Visits(levels, |levels|, -1), answers))| <= MAX_GROUPS
    {
      hide Merged, Gathered, NoDuplicates, FirstListed;
      ghost var all := Answers(Visits(levels, |levels|, -1), answers);
      ghost var done: seq<Listing> := [];
      var cur: int := -1;
      var i := |levels| - 1;
      NothingMerged();
      assert all == done + all;
      while i >= 0
        invariant -1 <= i < |levels|
        invariant Ready(groups, done)
        invariant all == done + Answers(Visits(levels, i + 1, cur), answers)
      {
        if levels[i] != cur {
          cur := levels[i];
          ghost var rest := Answers(Visits(levels, i, cur), answers);
          AnswersStep(i, Visits(levels, i, cur), answers);
          assert all == (done + answers(i)) + rest;
          ok := UpdateServer(answers(i), done);
          if !ok {
            GatheredGrows(all, |done + answers(i)|);
            assert all[..|done + answers(i)|] == done + answers(i);
            return;
          }
          done := done + answers(i);
        }
        i := i - 1;
      }
      assert all == done;
      SameNames(groups, Gathered(all));
      return true;
    }
  }
}
