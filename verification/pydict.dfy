/** A Python `dict` with string keys: an association list that remembers
    insertion order, as `dict.items()` does. Assigning to a key that is
    already present overwrites the value in place; a new key goes last. */
module PyDict {
  import opened Wrappers

  datatype Entry<V> = Entry(key: string, value: V)

  type Dict<V> = seq<Entry<V>>

  predicate Distinct<T(==)>(s: seq<T>) {
    forall i, j :: 0 <= i < j < |s| ==> s[i] != s[j]
  }

  /** The keys in insertion order. */
  function Keys<V>(d: Dict<V>): (ks: seq<string>)
    ensures |ks| == |d|
    ensures forall i :: 0 <= i < |d| ==> ks[i] == d[i].key
  {
    seq(|d|, i requires 0 <= i < |d| => d[i].key)
  }

  /** Every dictionary the program builds has each key once. */
  predicate Valid<V>(d: Dict<V>) {
    Distinct(Keys(d))
  }

  function Empty<V>(): (d: Dict<V>)
    ensures Valid(d) && Keys(d) == []
  {
    []
  }

  /** The position of `k`, if present: the first entry carrying it. */
  function IndexOf<V>(d: Dict<V>, k: string): (r: Option<nat>)
    ensures r.Some? ==> r.value < |d| && d[r.value].key == k
                        && forall j :: 0 <= j < r.value ==> d[j].key != k
    ensures r.None? <==> k !in Keys(d)
    decreases |d|
  {
    if |d| == 0 then None
    else if d[0].key == k then Some(0)
    else match IndexOf(d[1..], k)
      case None => None
      case Some(i) => Some(i + 1)
  }

  /** The first entry carrying `k` is the one `IndexOf` finds. */
  lemma IndexOfFirst<V>(d: Dict<V>, k: string, i: nat)
    requires i < |d| && d[i].key == k
    requires forall j :: 0 <= j < i ==> d[j].key != k
    ensures IndexOf(d, k) == Some(i)
  {
    assert Keys(d)[i] == k;
  }

  /** Two dictionaries with the same key order find every key at the same place. */
  lemma IndexOfSameKeys<V>(d: Dict<V>, e: Dict<V>, k: string)
    requires Keys(d) == Keys(e)
    ensures IndexOf(d, k) == IndexOf(e, k)
  {
    if IndexOf(d, k).Some? {
      IndexOfFirst(e, k, IndexOf(d, k).value);
    }
  }

  /** `d.get(k)`: the value stored under `k`, or None. */
  function Get<V>(d: Dict<V>, k: string): Option<V>
  {
    match IndexOf(d, k)
    case None => None
    case Some(i) => Some(d[i].value)
  }

  /** In a dictionary with each key once, every entry is found under its key. */
  lemma GetAt<V>(d: Dict<V>, i: nat)
    requires Valid(d) && i < |d|
    ensures Get(d, d[i].key) == Some(d[i].value)
  {
    forall j | 0 <= j < i ensures d[j].key != d[i].key {
      assert Keys(d)[j] != Keys(d)[i];
    }
    IndexOfFirst(d, d[i].key, i);
  }

  /** `d[k] = v`: an existing key keeps its place, a new key goes last. */
  function Put<V>(d: Dict<V>, k: string, v: V): (r: Dict<V>)
    ensures k in Keys(d) ==> Keys(r) == Keys(d)
    ensures k !in Keys(d) ==> Keys(r) == Keys(d) + [k] && r[..|d|] == d
    ensures Valid(d) ==> Valid(r)
  {
    match IndexOf(d, k)
    case Some(i) =>
      var r := d[i := Entry(k, v)];
      assert Keys(r) == Keys(d);
      r
    case None =>
      d + [Entry(k, v)]
  }

  /** After `d[k] = v`, `d.get(k)` is `v` and every other key reads as before. */
  lemma PutGet<V>(d: Dict<V>, k: string, v: V, k': string)
    ensures Get(Put(d, k, v), k) == Some(v)
    ensures k' != k ==> Get(Put(d, k, v), k') == Get(d, k')
  {
    var r := Put(d, k, v);
    match IndexOf(d, k)
    case Some(i) =>
      IndexOfSameKeys(r, d, k);
      IndexOfSameKeys(r, d, k');
    case None =>
      IndexOfFirst(r, k, |d|);
      if k' != k && IndexOf(d, k').Some? {
        IndexOfFirst(r, k', IndexOf(d, k').value);
      }
  }
}
