/** Python's `dict` with string keys: its entries in insertion order.
    Assigning to a key that is already present replaces the value where the
    key stands; assigning to a new key appends it. */
module OrderedDict {

  datatype Option<T> = None | Some(value: T)

  /** The entries of a dictionary, oldest key first. */
  type Dict<V> = seq<(string, V)>

  /** The keys of `d` in iteration order. */
  function Keys<V>(d: Dict<V>): seq<string>
  {
    seq(|d|, i requires 0 <= i < |d| => d[i].0)
  }

  /** No key occurs twice, as in every Python dict. */
  ghost predicate DistinctKeys<V>(d: Dict<V>)
  {
    forall i, j :: 0 <= i < j < |d| ==> d[i].0 != d[j].0
  }

  /** The position of the first occurrence of `k` in `ks`, if any. */
  function IndexOf(ks: seq<string>, k: string): (r: Option<nat>)
    ensures r.Some? ==> r.value < |ks| && ks[r.value] == k
    ensures r.Some? ==> forall j :: 0 <= j < r.value ==> ks[j] != k
    ensures r.None? <==> k !in ks
  {
    if ks == [] then None
    else if ks[0] == k then Some(0)
    else
      match IndexOf(ks[1..], k)
      case Some(i) => Some(i + 1)
      case None => None
  }

  /** `d.get(k)`. */
  function Lookup<V>(d: Dict<V>, k: string): (r: Option<V>)
    ensures r.Some? <==> k in Keys(d)
    ensures r.Some? ==> exists i :: 0 <= i < |d| && d[i] == (k, r.value)
  {
    match IndexOf(Keys(d), k)
    case Some(i) => Some(d[i].1)
    case None => None
  }

  /** The first position of `k` is the one before which `k` does not occur. */
  lemma IndexOfIs(ks: seq<string>, k: string, i: nat)
    requires i < |ks| && ks[i] == k
    requires forall j :: 0 <= j < i ==> ks[j] != k
    ensures IndexOf(ks, k) == Some(i)
  {
    match IndexOf(ks, k)
    case Some(j) =>
      if j > i { assert ks[i] == k; }
    case None =>
  }

  /** Assigning to a key whose first entry is at `i` rewrites position `i`. */
  lemma UpdateAt<V>(d: Dict<V>, k: string, v: V, i: nat)
    requires i < |d| && d[i].0 == k
    requires forall j :: 0 <= j < i ==> d[j].0 != k
    ensures Update(d, k, v) == d[i := (k, v)]
  {
    IndexOfIs(Keys(d), k, i);
  }

  /** `d[k] = v`: afterwards `k` maps to `v`, every other key keeps its
      value, and the key order changes only by appending a new key. */
  function Update<V>(d: Dict<V>, k: string, v: V): (r: Dict<V>)
    ensures Keys(r) == if k in Keys(d) then Keys(d) else Keys(d) + [k]
    ensures Lookup(r, k) == Some(v)
    ensures forall k' :: k' != k ==> Lookup(r, k') == Lookup(d, k')
    ensures DistinctKeys(d) ==> DistinctKeys(r)
  {
    match IndexOf(Keys(d), k)
    case Some(i) =>
      ReplaceAt(d, i, k, v);
      d[i := (k, v)]
    case None =>
      AppendNew(d, k, v);
      d + [(k, v)]
  }

  /** Replacing the value of the entry found for `k`. */
  lemma ReplaceAt<V>(d: Dict<V>, i: nat, k: string, v: V)
    requires IndexOf(Keys(d), k) == Some(i)
    ensures Keys(d[i := (k, v)]) == Keys(d)
    ensures Lookup(d[i := (k, v)], k) == Some(v)
    ensures forall k' :: k' != k ==> Lookup(d[i := (k, v)], k') == Lookup(d, k')
    ensures DistinctKeys(d) ==> DistinctKeys(d[i := (k, v)])
  {
    var r := d[i := (k, v)];
    assert Keys(r) == Keys(d);
  }

  /** Appending an entry for a key `d` does not have. */
  lemma AppendNew<V>(d: Dict<V>, k: string, v: V)
    requires k !in Keys(d)
    ensures Keys(d + [(k, v)]) == Keys(d) + [k]
    ensures Lookup(d + [(k, v)], k) == Some(v)
    ensures forall k' :: k' != k ==> Lookup(d + [(k, v)], k') == Lookup(d, k')
    ensures DistinctKeys(d) ==> DistinctKeys(d + [(k, v)])
  {
    var r := d + [(k, v)];
    var ks := Keys(d);
    assert Keys(r) == ks + [k];
    IndexOfIs(ks + [k], k, |d|);
    forall k' | k' != k
      ensures Lookup(r, k') == Lookup(d, k')
    {
      match IndexOf(ks, k')
      case Some(j) =>
        IndexOfIs(ks + [k], k', j);
      case None =>
        assert k' !in ks + [k];
    }
    if DistinctKeys(d) {
      forall i, j | 0 <= i < j < |r|
        ensures r[i].0 != r[j].0
      {
        if j == |d| { assert ks[i] == r[i].0; }
      }
    }
  }
}
