/** Python dictionaries as the source uses them: keys kept in insertion
    order, `d[k] = v` overwriting in place when `k` is present and appending
    otherwise. A dictionary is the sequence of its (key, value) items. */
module OrderedDicts {
  import opened Common

  type Dict<K, V> = seq<(K, V)>

  function Keys<K, V>(d: Dict<K, V>): (ks: seq<K>)
    ensures |ks| == |d| && forall i :: 0 <= i < |d| ==> ks[i] == d[i].0
  {
    seq(|d|, i requires 0 <= i < |d| => d[i].0)
  }

  /** Every key occurs once, as in any Python dictionary. */
  predicate WellFormed<K(==), V>(d: Dict<K, V>) {
    Distinct(Keys(d))
  }

  /** Some position holding key `k` is the first one. */
  lemma {:induction false} FirstPosition<K, V>(d: Dict<K, V>, k: K, from: nat)
    requires from <= |d| && k !in Keys(d)[..from] && k in Keys(d)
    ensures exists i :: 0 <= i < |d| && d[i].0 == k && k !in Keys(d)[..i]
    decreases |d| - from
  {
    if d[from].0 != k {
      assert Keys(d)[..from + 1] == Keys(d)[..from] + [d[from].0];
      FirstPosition(d, k, from + 1);
    }
  }

  /** The position of key `k`, if it is present. */
  function IndexOf<K(==), V>(d: Dict<K, V>, k: K): (r: Option<nat>)
    ensures r.None? <==> k !in Keys(d)
    ensures r.Some? ==> r.value < |d| && d[r.value].0 == k && k !in Keys(d)[..r.value]
  {
    if k !in Keys(d) then None
    else
      FirstPosition(d, k, 0);
      var i :| 0 <= i < |d| && d[i].0 == k && k !in Keys(d)[..i];
      Some(i)
  }

  /** `d.get(k)`: the value stored under `k`. */
  function Get<K(==), V>(d: Dict<K, V>, k: K): (r: Option<V>)
    ensures r.None? <==> k !in Keys(d)
  {
    match IndexOf(d, k)
    case None => None
    case Some(i) => Some(d[i].1)
  }

  /** In a dictionary every item's key looks up that item's value. */
  lemma GetItems<K, V>(d: Dict<K, V>)
    ensures WellFormed(d) ==> forall i :: 0 <= i < |d| ==> Get(d, d[i].0) == Some(d[i].1)
  {
    forall i | WellFormed(d) && 0 <= i < |d| ensures Get(d, d[i].0) == Some(d[i].1) {
      var j := IndexOf(d, d[i].0).value;
      assert Keys(d)[j] == Keys(d)[i];
    }
  }

  /** Two dictionaries that agree on every item with key `k` and put that
      key at the same positions give the same value for it. */
  lemma GetAgrees<K, V>(d: Dict<K, V>, r: Dict<K, V>, k: K)
    requires |d| <= |r|
    requires forall j :: 0 <= j < |d| ==> (d[j].0 == k <==> r[j].0 == k)
    requires forall j :: 0 <= j < |d| && d[j].0 == k ==> r[j].1 == d[j].1
    requires forall j :: |d| <= j < |r| ==> r[j].0 != k
    ensures Get(r, k) == Get(d, k)
  {
    match IndexOf(d, k)
    case None =>
      assert forall j :: 0 <= j < |r| ==> Keys(r)[j] != k;
    case Some(i) =>
      assert Keys(r)[i] == k;
      var ir := IndexOf(r, k).value;
      assert ir <= i;
      assert d[ir].0 == k;
  }

  /** `d[k] = v`: overwrite the value in place if `k` is a key, otherwise
      append a new item at the end. */
  function Put<K(==,!new), V>(d: Dict<K, V>, k: K, v: V): (r: Dict<K, V>)
    ensures Get(r, k) == Some(v)
    ensures forall k' :: k' != k ==> Get(r, k') == Get(d, k')
    ensures k in Keys(d) ==> Keys(r) == Keys(d)
    ensures k !in Keys(d) ==> r == d + [(k, v)]
  {
    match IndexOf(d, k)
    case None =>
      var r := d + [(k, v)];
      assert Keys(r) == Keys(d) + [k];
      forall k' | k' != k ensures Get(r, k') == Get(d, k') {
        GetAgrees(d, r, k');
      }
      assert Get(r, k) == Some(v) by {
        assert Keys(r)[|d|] == k;
        var ir := IndexOf(r, k).value;
        assert ir == |d|;
      }
      r
    case Some(i) =>
      var r := d[i := (k, v)];
      assert Keys(r) == Keys(d);
      forall k' | k' != k ensures Get(r, k') == Get(d, k') {
        GetAgrees(d, r, k');
      }
      assert Get(r, k) == Some(v) by {
        assert Keys(r)[i] == k;
        var ir := IndexOf(r, k).value;
        assert ir == i;
      }
      r
  }

  /** Assignment keeps every key unique. */
  lemma PutWellFormed<K(!new), V>(d: Dict<K, V>, k: K, v: V)
    requires WellFormed(d)
    ensures WellFormed(Put(d, k, v))
  {
    if k !in Keys(d) {
      var r := Put(d, k, v);
      assert Keys(r) == Keys(d) + [k];
    }
  }
}
