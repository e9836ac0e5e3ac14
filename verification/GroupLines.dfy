/** The merged table in terms of the lines the servers answer with: which line gives a
    group, which lines are passed over, and when the table is full. */
module GroupLines {
  import opened Wrappers
  import opened Groups
  import opened GroupMerge

  /** A line that is not passed over. */
  predicate Readable(e: Line) {
    e.Entry? && |e.group| < MAX_GROUP
  }

  /** The group is what a line of the listing says: the last article is the high mark, the
      first one the low mark. */
  predicate IsLine(g: Group, l: Listing) {
    && Entry(g.name, g.hi, g.lo, g.mode) in l.lines && |g.name| < MAX_GROUP
    && g.server == l.server && g.times == 0
  }

  predicate Names(l: Listing, name: string) {
    exists e :: e in l.lines && Readable(e) && e.group == name
  }

  /** A server offers what its readable lines say, and nothing else. */
  lemma {:induction false} OffersExactly(l: Listing, g: Group)
    ensures g in Offers(l.server, l.lines) <==> IsLine(g, l)
    decreases |l.lines|
  {
    if l.lines != [] {
      var n := |l.lines| - 1;
      OffersExactly(Listing(l.server, l.lines[..n]), g);
      assert l.lines == l.lines[..n] + [l.lines[n]];
    }
  }

  lemma {:induction false} NamesExactly(l: Listing, name: string)
    ensures Names(l, name) <==> Known(Offers(l.server, l.lines), name)
  {
    var offers := Offers(l.server, l.lines);
    if Names(l, name) {
      var e :| e in l.lines && Readable(e) && e.group == name;
      var g := Group(name, l.server, e.end, e.begin, e.mode, 0);
      OffersExactly(l, g);
      var i :| 0 <= i < |offers| && offers[i] == g;
    }
    if Known(offers, name) {
      var i :| 0 <= i < |offers| && offers[i].name == name;
      OffersExactly(l, offers[i]);
    }
  }

  ghost predicate Unnamed(listings: seq<Listing>, name: string) {
    forall j :: 0 <= j < |listings| ==> !Names(listings[j], name)
  }

  /** The group is a line of a listing, and no listing before it names it. */
  ghost predicate IsFirstLine(g: Group, listings: seq<Listing>) {
    exists k :: 0 <= k < |listings| && IsLine(g, listings[k]) && Unnamed(listings[..k], g.name)
  }

  lemma {:induction false} FirstListedExactly(listings: seq<Listing>, g: Group)
    requires NoDuplicates(listings)
    ensures FirstListed(listings, g.name) == Some(g) <==> IsFirstLine(g, listings)
    ensures FirstListed(listings, g.name) == None <==> Unnamed(listings, g.name)
    decreases |listings|
  {
    hide Offers, Known, Lookup, IsFirstLine, IsLine, Names, Unnamed, DistinctNames;
    if listings == [] {
      NothingListed(g);
    } else {
      var n := |listings| - 1;
      var l := listings[n];
      FirstListedExactly(listings[..n], g);
      LookupFinds(Offers(l.server, l.lines), g);
      OffersExactly(l, g);
      NamesExactly(l, g.name);
      FirstLineStep(listings, g);
      UnnamedStep(listings, g.name);
      if IsFirstLine(g, listings[..n]) {
        FirstLineNamed(listings[..n], g);
      }
    }
  }

  lemma {:induction false} NothingListed(g: Group)
    ensures !IsFirstLine(g, []) && Unnamed([], g.name)
  {
  }

  lemma {:induction false} UnnamedStep(listings: seq<Listing>, name: string)
    requires listings != []
    ensures var n := |listings| - 1;
            Unnamed(listings, name) <==> Unnamed(listings[..n], name) && !Names(listings[n], name)
  {
    hide Names;
    var before := listings[..|listings| - 1];
    assert forall k :: 0 <= k < |before| ==> before[k] == listings[k];
  }

  lemma {:induction false} FirstLineNamed(listings: seq<Listing>, g: Group)
    requires IsFirstLine(g, listings)
    ensures !Unnamed(listings, g.name)
  {
    var k :| 0 <= k < |listings| && IsLine(g, listings[k]) && Unnamed(listings[..k], g.name);
    assert Readable(Entry(g.name, g.hi, g.lo, g.mode));
    assert Names(listings[k], g.name);
  }

  lemma {:induction false} FirstLineStep(listings: seq<Listing>, g: Group)
    requires listings != []
    ensures var n := |listings| - 1;
            IsFirstLine(g, listings) <==>
            IsFirstLine(g, listings[..n]) || (IsLine(g, listings[n]) && Unnamed(listings[..n], g.name))
  {
    hide IsLine, Unnamed;
    var n := |listings| - 1;
    var before := listings[..n];
    if IsFirstLine(g, before) {
      var k :| 0 <= k < n && IsLine(g, before[k]) && Unnamed(before[..k], g.name);
      assert before[k] == listings[k] && before[..k] == listings[..k];
    }
    if IsFirstLine(g, listings) {
      var k :| 0 <= k <= n && IsLine(g, listings[k]) && Unnamed(listings[..k], g.name);
      if k < n {
        assert before[k] == listings[k] && before[..k] == listings[..k];
      }
    }
  }

  /** The merged table holds exactly the first line of every name. */
  lemma {:induction false} MergedExactly(groups: seq<Group>, listings: seq<Listing>)
    requires NoDuplicates(listings) && Ascending(groups)
    ensures Merged(groups, listings) <==> forall g :: g in groups <==> IsFirstLine(g, listings)
  {
    forall g: Group ensures FirstListed(listings, g.name) == Some(g) <==> IsFirstLine(g, listings) {
      FirstListedExactly(listings, g);
    }
  }

  // ----- when the table is full

  ghost function NamesRead(listings: seq<Listing>): set<string> {
    set l, e | l in listings && e in l.lines && Readable(e) :: e.group
  }

  /** The groups that come in are one for each name that is read, so the update stops
      exactly where more names are read than the table holds. */
  lemma {:induction false} GatheredCounts(listings: seq<Listing>)
    requires NoDuplicates(listings)
    ensures DistinctNames(Gathered(listings))
    ensures forall name :: Known(Gathered(listings), name) <==> name in NamesRead(listings)
    ensures |Gathered(listings)| == |NamesRead(listings)|
    decreases |listings|
  {
    if listings != [] {
      var n := |listings| - 1;
      var l := listings[n];
      var g, offers := Gathered(listings[..n]), Offers(l.server, l.lines);
      GatheredCounts(listings[..n]);
      FreshDistinct(g, offers);
      forall name ensures Known(g + Fresh(g, offers), name) <==> name in NamesRead(listings) {
        NamesExactly(l, name);
        KnownJoined(g, offers, name);
        NamesReadStep(listings, name);
      }
      DistinctJoin(g, Fresh(g, offers));
    }
    NamesCounted(Gathered(listings), NamesRead(listings));
  }

  lemma {:induction false} KnownJoined(groups: seq<Group>, incoming: seq<Group>, name: string)
    ensures Known(groups + Fresh(groups, incoming), name) <==> Known(groups, name) || Known(incoming, name)
  {
    var added := Fresh(groups, incoming);
    var all := groups + added;
    if Known(all, name) {
      var i :| 0 <= i < |all| && all[i].name == name;
      if i >= |groups| {
        assert all[i] in added;
        assert all[i] in incoming;
      }
    }
    if Known(groups, name) {
      var i :| 0 <= i < |groups| && groups[i].name == name;
      assert all[i].name == name;
    } else if Known(incoming, name) {
      var i :| 0 <= i < |incoming| && incoming[i].name == name;
      assert incoming[i] in added;
      var j :| 0 <= j < |added| && added[j] == incoming[i];
      assert all[|groups| + j].name == name;
    }
  }

  lemma {:induction false} NamesReadStep(listings: seq<Listing>, name: string)
    requires listings != []
    ensures var n := |listings| - 1;
            name in NamesRead(listings) <==> name in NamesRead(listings[..n]) || Names(listings[n], name)
  {
    var n := |listings| - 1;
    assert listings == listings[..n] + [listings[n]];
  }

  /** Distinct names are as many as their groups. */
  lemma {:induction false} NamesCounted(groups: seq<Group>, names: set<string>)
    requires DistinctNames(groups) && forall name :: Known(groups, name) <==> name in names
    ensures |names| == |groups|
    decreases |groups|
  {
    if groups == [] {
      assert names == {} by {
        forall name ensures name !in names {
          assert !Known([], name);
        }
      }
    } else {
      var n := |groups| - 1;
      var rest := names - {groups[n].name};
      forall name ensures Known(groups[..n], name) <==> name in rest {
        if Known(groups[..n], name) {
          var i :| 0 <= i < n && groups[..n][i].name == name;
          assert groups[i].name == name;
        }
        if name in rest {
          var i :| 0 <= i < |groups| && groups[i].name == name;
          assert groups[..n][i].name == name;
        }
      }
      NamesCounted(groups[..n], rest);
      assert groups[n].name in names;
    }
  }
}
