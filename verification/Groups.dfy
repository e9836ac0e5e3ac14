/** Newsgroups, their order by name, and the binary search the program and the
    updater share. */
module Groups {
  import opened Wrappers
  import opened Sorting

  const MAX_GROUP := 160
  const MAX_GROUPS := 128000

  datatype Group = Group(name: string, server: string, hi: int, lo: int, mode: char, times: int)

  /** strcmp: below zero, zero or above zero. */
  function Strcmp(a: string, b: string): (r: int)
    ensures r == 0 <==> a == b
  {
    if a == [] then (if b == [] then 0 else -1)
    else if b == [] then 1
    else if a[0] < b[0] then -1
    else if b[0] < a[0] then 1
    else
      assert a == [a[0]] + a[1..] && b == [b[0]] + b[1..];
      Strcmp(a[1..], b[1..])
  }

  lemma {:induction false} StrcmpSwaps(a: string, b: string)
    ensures Strcmp(a, b) < 0 <==> Strcmp(b, a) > 0
  {
    if a != [] && b != [] {
      StrcmpSwaps(a[1..], b[1..]);
    }
  }

  lemma {:induction false} StrcmpTransitive(a: string, b: string, c: string)
    requires Strcmp(a, b) <= 0 && Strcmp(b, c) <= 0
    ensures Strcmp(a, c) <= 0
    ensures Strcmp(a, b) < 0 || Strcmp(b, c) < 0 ==> Strcmp(a, c) < 0
  {
    if a != [] && b != [] && c != [] && a[0] == b[0] == c[0] {
      StrcmpTransitive(a[1..], b[1..], c[1..]);
    }
  }

  predicate NameLe(a: Group, b: Group) {
    Strcmp(a.name, b.name) <= 0
  }

  lemma {:induction false} NamesOrdered()
    ensures TotalOrder(NameLe)
  {
    forall a, b ensures NameLe(a, b) || NameLe(b, a) {
      StrcmpSwaps(a.name, b.name);
    }
    forall a, b, c | NameLe(a, b) && NameLe(b, c) ensures NameLe(a, c) {
      StrcmpTransitive(a.name, b.name, c.name);
    }
  }

  predicate Known(groups: seq<Group>, name: string) {
    exists i :: 0 <= i < |groups| && groups[i].name == name
  }

  /** In ascending order of name, each name once. */
  ghost predicate Ascending(groups: seq<Group>) {
    forall i, j :: 0 <= i < j < |groups| ==> Strcmp(groups[i].name, groups[j].name) < 0
  }

  ghost predicate DistinctNames(groups: seq<Group>) {
    forall i, j :: 0 <= i < j < |groups| ==> groups[i].name != groups[j].name
  }

  lemma {:induction false} AscendingIsSortedDistinct(groups: seq<Group>)
    ensures Ascending(groups) <==> Sorted(groups, NameLe) && DistinctNames(groups)
  {
    if Ascending(groups) {
      forall i, j | 0 <= i < j < |groups| ensures NameLe(groups[i], groups[j]) && groups[i].name != groups[j].name {
        assert Strcmp(groups[i].name, groups[j].name) < 0;
      }
    }
    if Sorted(groups, NameLe) && DistinctNames(groups) {
      forall i, j | 0 <= i < j < |groups| ensures Strcmp(groups[i].name, groups[j].name) < 0 {
        assert NameLe(groups[i], groups[j]);
      }
    }
  }

  /** An ascending list is determined by its elements. */
  lemma {:induction false} AscendingUnique(a: seq<Group>, b: seq<Group>)
    requires Ascending(a) && Ascending(b)
    requires forall g :: g in a <==> g in b
    ensures a == b
    decreases |a|
  {
    EmptyTogether(a, b);
    if a != [] {
      FirstIsLeast(a, b);
      FirstIsLeast(b, a);
      StrcmpSwaps(a[0].name, b[0].name);
      assert a[0] in b && b[0] in a;
      SameFirst(a, b);
      forall g ensures g in a[1..] <==> g in b[1..] {
        TailElements(a, g);
        TailElements(b, g);
      }
      AscendingUnique(a[1..], b[1..]);
      assert a == [a[0]] + a[1..] && b == [b[0]] + b[1..];
    }
  }

  lemma {:induction false} EmptyTogether(a: seq<Group>, b: seq<Group>)
    requires forall g :: g in a <==> g in b
    ensures a == [] <==> b == []
  {
    if a != [] {
      assert a[0] in b;
    }
    if b != [] {
      assert b[0] in a;
    }
  }

  lemma {:induction false} FirstIsLeast(a: seq<Group>, b: seq<Group>)
    requires Ascending(a) && a != [] && b != [] && b[0] in a
    ensures Strcmp(a[0].name, b[0].name) <= 0
  {
    var k :| 0 <= k < |a| && a[k] == b[0];
    if k > 0 {
      assert Strcmp(a[0].name, a[k].name) < 0;
    }
  }

  lemma {:induction false} SameFirst(a: seq<Group>, b: seq<Group>)
    requires Ascending(a) && Ascending(b) && a != [] && b != []
    requires a[0] in b && b[0] in a
    ensures a[0] == b[0]
  {
    FirstIsLeast(a, b);
    FirstIsLeast(b, a);
    StrcmpSwaps(a[0].name, b[0].name);
    var k :| 0 <= k < |a| && a[k] == b[0];
    if k > 0 {
      assert Strcmp(a[0].name, a[k].name) < 0;
    }
  }

  lemma {:induction false} TailElements(a: seq<Group>, g: Group)
    requires Ascending(a) && a != []
    ensures g in a[1..] <==> g in a && g != a[0]
  {
    assert a == [a[0]] + a[1..];
    forall k | 0 < k < |a| ensures a[k] != a[0] {
      assert Strcmp(a[0].name, a[k].name) < 0;
    }
  }

  lemma {:induction false} DistinctCounts(a: seq<Group>, x: Group)
    requires DistinctNames(a)
    ensures multiset(a)[x] <= 1
    decreases |a|
  {
    if a != [] {
      var n := |a| - 1;
      assert a == a[..n] + [a[n]];
      DistinctCounts(a[..n], x);
      if x in a[..n] {
        var i :| 0 <= i < n && a[i] == x;
        assert a[i].name != a[n].name;
      }
    }
  }

  lemma {:induction false} TwiceCounts(b: seq<Group>, i: nat, j: nat)
    requires i < j < |b| && b[i] == b[j]
    ensures multiset(b)[b[i]] >= 2
  {
    assert b == b[..j] + ([b[j]] + b[j + 1..]);
    assert b[i] in multiset(b[..j]) by {
      assert b[..j][i] == b[i];
    }
  }

  lemma {:induction false} DistinctPermuted(a: seq<Group>, b: seq<Group>)
    requires multiset(a) == multiset(b) && DistinctNames(a)
    ensures DistinctNames(b)
  {
    forall i, j | 0 <= i < j < |b| ensures b[i].name != b[j].name {
      if b[i] == b[j] {
        TwiceCounts(b, i, j);
        DistinctCounts(a, b[i]);
      } else {
        assert b[i] in multiset(b) && b[j] in multiset(b);
        var k :| 0 <= k < |a| && a[k] == b[i];
        var l :| 0 <= l < |a| && a[l] == b[j];
      }
    }
  }

  /** bsearch over the first `max` groups: what it finds has the name, and on a list
      in order it finds a name that is there. On a list out of order it may miss. */
  method Bsearch(groups: seq<Group>, name: string, max: nat) returns (r: Option<nat>)
    requires max <= |groups|
    ensures r.Some? ==> r.value < max && groups[r.value].name == name
    ensures Sorted(groups[..max], NameLe) ==> (r.Some? <==> Known(groups[..max], name))
  {
    var lo, hi := 0, max;
    while lo < hi
      invariant lo <= hi <= max
      invariant Sorted(groups[..max], NameLe) ==>
                  forall k :: 0 <= k < max && groups[k].name == name ==> lo <= k < hi
    {
      var mid := (lo + hi) / 2;
      var c := Strcmp(name, groups[mid].name);
      if c < 0 {
        SearchBelow(groups[..max], name, mid);
        hi := mid;
      } else if c > 0 {
        SearchAbove(groups[..max], name, mid);
        lo := mid + 1;
      } else {
        assert groups[..max][mid].name == name;
        return Some(mid);
      }
    }
    return None;
  }

  lemma {:induction false} SearchBelow(s: seq<Group>, name: string, mid: nat)
    requires mid < |s| && Strcmp(name, s[mid].name) < 0
    ensures Sorted(s, NameLe) ==> forall k :: mid <= k < |s| ==> s[k].name != name
  {
    if Sorted(s, NameLe) {
      forall k | mid <= k < |s| ensures Strcmp(name, s[k].name) < 0 {
        assert k == mid || NameLe(s[mid], s[k]);
        StrcmpTransitive(name, s[mid].name, s[k].name);
      }
    }
  }

  lemma {:induction false} SearchAbove(s: seq<Group>, name: string, mid: nat)
    requires mid < |s| && Strcmp(name, s[mid].name) > 0
    ensures Sorted(s, NameLe) ==> forall k :: 0 <= k <= mid ==> s[k].name != name
  {
    if Sorted(s, NameLe) {
      StrcmpSwaps(s[mid].name, name);
      forall k | 0 <= k <= mid ensures Strcmp(s[k].name, name) < 0 {
        assert k == mid || NameLe(s[k], s[mid]);
        StrcmpTransitive(s[k].name, s[mid].name, name);
      }
    }
  }
}
