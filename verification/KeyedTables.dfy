/** Tables searched from the front by a key, in which an entry is overwritten in
    place or appended. */
module KeyedTables {
  import opened Wrappers

  datatype Row<K, V> = Row(key: K, value: V)

  /** The first row with the key, or the length. */
  function IndexOf<K(==), V>(t: seq<Row<K, V>>, k: K): (i: nat)
    ensures i <= |t|
    ensures i < |t| ==> t[i].key == k
    ensures forall j :: 0 <= j < i ==> t[j].key != k
  {
    if t == [] then 0
    else
      var n := |t| - 1;
      var i := IndexOf(t[..n], k);
      if i < n || t[n].key == k then i else n + 1
  }

  function Put<K(==), V>(t: seq<Row<K, V>>, k: K, v: V): (r: seq<Row<K, V>>) {
    var i := IndexOf(t, k);
    if i < |t| then t[i := Row(k, v)] else t + [Row(k, v)]
  }

  function PutAll<K(==), V>(t: seq<Row<K, V>>, writes: seq<Row<K, V>>): seq<Row<K, V>> {
    if writes == [] then t
    else
      var n := |writes| - 1;
      Put(PutAll(t, writes[..n]), writes[n].key, writes[n].value)
  }

  function LastWrite<K(==), V>(writes: seq<Row<K, V>>, k: K): Option<V> {
    if writes == [] then None
    else if writes[|writes| - 1].key == k then Some(writes[|writes| - 1].value)
    else LastWrite(writes[..|writes| - 1], k)
  }

  /** `u` has the keys of `t`, in the same places, and perhaps more behind them. */
  ghost predicate Extends<K, V>(t: seq<Row<K, V>>, u: seq<Row<K, V>>) {
    |t| <= |u| && forall i :: 0 <= i < |t| ==> t[i].key == u[i].key
  }

  ghost predicate UniqueKeys<K, V>(t: seq<Row<K, V>>) {
    forall i, j :: 0 <= i < j < |t| ==> t[i].key != t[j].key
  }

  lemma {:induction false} IndexUnique<K, V>(t: seq<Row<K, V>>, k: K, i: nat)
    requires i < |t| && t[i].key == k && forall j :: 0 <= j < i ==> t[j].key != k
    ensures IndexOf(t, k) == i
  {
  }

  /** A key found stays where it is. */
  lemma {:induction false} IndexStays<K, V>(t: seq<Row<K, V>>, u: seq<Row<K, V>>, k: K)
    requires Extends(t, u) && IndexOf(t, k) < |t|
    ensures IndexOf(u, k) == IndexOf(t, k)
  {
    IndexUnique(u, k, IndexOf(t, k));
  }

  lemma {:induction false} PutAllExtends<K, V>(t: seq<Row<K, V>>, writes: seq<Row<K, V>>)
    ensures Extends(t, PutAll(t, writes))
    ensures UniqueKeys(t) ==> UniqueKeys(PutAll(t, writes))
    decreases |writes|
  {
    if writes != [] {
      PutAllExtends(t, writes[..|writes| - 1]);
    }
  }

  /** After the writes a written key has its last value. */
  lemma {:induction false} LastWriteStands<K, V>(t: seq<Row<K, V>>, writes: seq<Row<K, V>>, k: K)
    requires LastWrite(writes, k).Some?
    ensures var u := PutAll(t, writes);
            IndexOf(u, k) < |u| && u[IndexOf(u, k)].value == LastWrite(writes, k).value
    decreases |writes|
  {
    var n := |writes| - 1;
    var w := PutAll(t, writes[..n]);
    var u := PutAll(t, writes);
    if writes[n].key == k {
      IndexUnique(u, k, IndexOf(w, k));
    } else {
      LastWriteStands(t, writes[..n], k);
      IndexStays(w, u, k);
    }
  }

  /** A row that is not written, or that a row before it shadows, stays as it is. */
  lemma {:induction false} OthersStay<K, V>(t: seq<Row<K, V>>, writes: seq<Row<K, V>>, i: nat)
    requires i < |t| && (IndexOf(t, t[i].key) != i || LastWrite(writes, t[i].key) == None)
    ensures |PutAll(t, writes)| >= |t| && PutAll(t, writes)[i] == t[i]
    decreases |writes|
  {
    if writes != [] {
      var n := |writes| - 1;
      OthersStay(t, writes[..n], i);
      PutAllExtends(t, writes[..n]);
      var w := PutAll(t, writes[..n]);
      var j := IndexOf(t, t[i].key);
      IndexStays(t, w, t[i].key);
    }
  }

  /** A row is as it was, or is the last write of its key. */
  lemma {:induction false} RowSource<K, V>(t: seq<Row<K, V>>, writes: seq<Row<K, V>>, i: nat)
    requires i < |PutAll(t, writes)|
    ensures var u := PutAll(t, writes);
            || (i < |t| && u[i] == t[i])
            || (LastWrite(writes, u[i].key) == Some(u[i].value) && IndexOf(u, u[i].key) == i)
    decreases |writes|
  {
    if writes != [] {
      var n := |writes| - 1;
      var w := PutAll(t, writes[..n]);
      var u := PutAll(t, writes);
      var j := IndexOf(w, writes[n].key);
      if i == j {
        IndexUnique(u, writes[n].key, i);
      } else {
        RowSource(t, writes[..n], i);
        if IndexOf(w, w[i].key) == i {
          IndexStays(w, u, w[i].key);
        }
      }
    }
  }

  lemma {:induction false} NothingAppended<K, V>(t: seq<Row<K, V>>, writes: seq<Row<K, V>>)
    requires forall i :: 0 <= i < |writes| ==> IndexOf(t, writes[i].key) < |t|
    ensures |PutAll(t, writes)| == |t|
    decreases |writes|
  {
    if writes != [] {
      var n := |writes| - 1;
      NothingAppended(t, writes[..n]);
      PutAllExtends(t, writes[..n]);
      IndexStays(t, PutAll(t, writes[..n]), writes[n].key);
    }
  }

  lemma {:induction false} WrittenIsLast<K, V>(writes: seq<Row<K, V>>, i: nat)
    requires i < |writes|
    ensures LastWrite(writes, writes[i].key).Some?
    decreases |writes|
  {
    if i < |writes| - 1 {
      WrittenIsLast(writes[..|writes| - 1], i);
    }
  }

  /** The same writes twice are the same writes once. */
  lemma {:induction false} PutAllTwice<K, V>(t: seq<Row<K, V>>, writes: seq<Row<K, V>>)
    ensures PutAll(PutAll(t, writes), writes) == PutAll(t, writes)
  {
    var u := PutAll(t, writes);
    RewriteStable(u, t, writes, writes);
  }

  /** Writes with the same last values change nothing either. */
  lemma {:induction false} RewriteStable<K, V>(u: seq<Row<K, V>>, t: seq<Row<K, V>>, writes: seq<Row<K, V>>,
        again: seq<Row<K, V>>)
    requires u == PutAll(t, writes)
    requires forall k :: LastWrite(writes, k) == LastWrite(again, k)
    ensures PutAll(u, again) == u
  {
    forall i | 0 <= i < |again| ensures IndexOf(u, again[i].key) < |u| {
      WrittenIsLast(again, i);
      LastWriteStands(t, writes, again[i].key);
    }
    NothingAppended(u, again);
    PutAllExtends(u, again);
    var v := PutAll(u, again);
    forall i | 0 <= i < |u| ensures v[i] == u[i] {
      RowRewritten(u, t, writes, again, i);
    }
  }

  lemma {:induction false} RowRewritten<K, V>(u: seq<Row<K, V>>, t: seq<Row<K, V>>, writes: seq<Row<K, V>>,
        again: seq<Row<K, V>>, i: nat)
    requires u == PutAll(t, writes) && i < |u| == |PutAll(u, again)|
    requires LastWrite(writes, u[i].key) == LastWrite(again, u[i].key)
    ensures PutAll(u, again)[i] == u[i]
  {
    var k := u[i].key;
    if IndexOf(u, k) == i && LastWrite(again, k).Some? {
      LastWriteStands(t, writes, k);
      LastWriteStands(u, again, k);
      PutAllExtends(u, again);
      IndexStays(u, PutAll(u, again), k);
    } else {
      OthersStay(u, again, i);
    }
  }
}
