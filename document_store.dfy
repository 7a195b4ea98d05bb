/** The document collections of the hosted store, seen as a map from document
    id to document plus the order in which the collection lists them when a
    query asks for no particular order. */
module DocumentStore {
  import opened Sorting

  /** A document of the users collection. */
  datatype User = User(id: string, fullName: string, accountId: string)

  predicate Distinct<T(==)>(s: seq<T>) {
    forall i, j :: 0 <= i < j < |s| ==> s[i] != s[j]
  }

  /** The listing order of a collection after deleting document `x`. */
  function Remove<T(==,!new)>(ids: seq<T>, x: T): (r: seq<T>)
    ensures forall y :: y in r <==> y in ids && y != x
  {
    Filter(ids, y => y != x)
  }

  lemma {:induction false} FilterDistinct<T(!new)>(s: seq<T>, p: T -> bool)
    requires Distinct(s)
    ensures Distinct(Filter(s, p))
  {
    if s != [] {
      assert Distinct(s[1..]);
      FilterDistinct(s[1..], p);
      assert s[0] !in s[1..];
    }
  }

  lemma RemoveDistinct<T(!new)>(ids: seq<T>, x: T)
    requires Distinct(ids)
    ensures Distinct(Remove(ids, x))
  {
    FilterDistinct(ids, y => y != x);
  }

  lemma AppendDistinct<T>(ids: seq<T>, x: T)
    requires Distinct(ids) && x !in ids
    ensures Distinct(ids + [x])
  {
  }

  /** The documents of a collection in listing order. */
  function Project<K, V>(m: map<K, V>, ids: seq<K>): (r: seq<V>)
    requires forall i :: 0 <= i < |ids| ==> ids[i] in m
    ensures |r| == |ids|
    ensures forall i :: 0 <= i < |ids| ==> r[i] == m[ids[i]]
  {
    if ids == [] then [] else [m[ids[0]]] + Project(m, ids[1..])
  }

  /** Creating a document appends it to the listing. */
  lemma ProjectAppend<K, V>(m: map<K, V>, ids: seq<K>, k: K, v: V)
    requires forall i :: 0 <= i < |ids| ==> ids[i] in m
    requires k !in ids
    ensures Project(m[k := v], ids + [k]) == Project(m, ids) + [v]
  {
    var l, r := Project(m[k := v], ids + [k]), Project(m, ids) + [v];
    assert forall i :: 0 <= i < |ids| ==> ids[i] != k;
    assert forall i :: 0 <= i < |l| ==> l[i] == r[i];
  }

  /** Updating a document replaces it in place in the listing. */
  lemma ProjectUpdate<K, V>(m: map<K, V>, ids: seq<K>, k: K, v: V)
    requires forall i :: 0 <= i < |ids| ==> ids[i] in m
    ensures var r := Project(m[k := v], ids);
      |r| == |ids| &&
      forall i :: 0 <= i < |ids| ==> r[i] == if ids[i] == k then v else Project(m, ids)[i]
  {
  }

  /** Deleting a document drops it from the listing and keeps the others in
      order; `keep` tells the deleted document from the others. */
  lemma {:induction false} ProjectRemove<K(!new), V(!new)>(m: map<K, V>, ids: seq<K>, k: K, keep: V -> bool)
    requires forall i :: 0 <= i < |ids| ==> ids[i] in m
    requires forall j :: j in m ==> (keep(m[j]) <==> j != k)
    ensures forall i :: 0 <= i < |Remove(ids, k)| ==> Remove(ids, k)[i] in m - {k}
    ensures Project(m - {k}, Remove(ids, k)) == Filter(Project(m, ids), keep)
  {
    if ids != [] {
      ProjectRemove(m, ids[1..], k, keep);
      assert Project(m, ids)[1..] == Project(m, ids[1..]);
      if ids[0] != k {
        assert Remove(ids, k) == [ids[0]] + Remove(ids[1..], k);
      }
    }
  }

  /** The listing order names each stored document once, and every document
      is stored under its own id. */
  ghost predicate Indexed<V>(m: map<string, V>, order: seq<string>, key: V -> string) {
    && Distinct(order)
    && (forall id :: id in m <==> id in order)
    && (forall id :: id in m ==> key(m[id]) == id)
  }

  lemma IndexedInsert<V>(m: map<string, V>, order: seq<string>, key: V -> string, v: V)
    requires Indexed(m, order, key) && key(v) !in m
    ensures Indexed(m[key(v) := v], order + [key(v)], key)
    ensures Project(m[key(v) := v], order + [key(v)]) == Project(m, order) + [v]
  {
    ProjectAppend(m, order, key(v), v);
  }

  lemma IndexedUpdate<V>(m: map<string, V>, order: seq<string>, key: V -> string, v: V)
    requires Indexed(m, order, key) && key(v) in m
    ensures Indexed(m[key(v) := v], order, key)
  {
  }

  lemma IndexedRemove<V>(m: map<string, V>, order: seq<string>, key: V -> string, id: string)
    requires Indexed(m, order, key)
    ensures Indexed(m - {id}, Remove(order, id), key)
  {
    RemoveDistinct(order, id);
  }

  /** Deleting a document drops it from the listing and keeps the others in order. */
  lemma IndexedRemoveListing<V(!new)>(m: map<string, V>, order: seq<string>, key: V -> string, id: string, keep: V -> bool)
    requires Indexed(m, order, key)
    requires forall v :: keep(v) <==> key(v) != id
    ensures forall i :: 0 <= i < |Remove(order, id)| ==> Remove(order, id)[i] in m - {id}
    ensures Project(m - {id}, Remove(order, id)) == Filter(Project(m, order), keep)
  {
    ProjectRemove(m, order, id, keep);
  }
}
