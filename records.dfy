/**
 * A JavaScript plain object with string keys, as `Object.entries` sees it:
 * its properties in insertion order. Keys of a real object are distinct;
 * the functions below are total on any sequence of pairs and agree with
 * JavaScript whenever the keys are distinct and none is an array index
 * such as "0" or "12" (JavaScript lists those first, in ascending numeric
 * order, whatever the insertion order).
 */
module Records {
  import opened Wrappers

  type Record<V> = seq<(string, V)>

  /** `Object.keys`. */
  function Keys<V>(d: Record<V>): (ks: seq<string>)
    ensures |ks| == |d|
    ensures forall i :: 0 <= i < |d| ==> ks[i] == d[i].0
  {
    seq(|d|, i requires 0 <= i < |d| => d[i].0)
  }

  predicate Distinct<T(==)>(s: seq<T>) {
    forall i, j :: 0 <= i < j < |s| ==> s[i] != s[j]
  }

  predicate DistinctKeys<V>(d: Record<V>) {
    Distinct(Keys(d))
  }

  /** `Array.prototype.indexOf`: the first position holding `x`, or -1. */
  function IndexOf<T(==)>(s: seq<T>, x: T): (r: int)
    ensures -1 <= r < |s|
    ensures r == -1 <==> x !in s
    ensures 0 <= r ==> s[r] == x && forall j :: 0 <= j < r ==> s[j] != x
  {
    if |s| == 0 then -1
    else if s[0] == x then 0
    else
      var r := IndexOf(s[1..], x);
      if r < 0 then -1 else r + 1
  }

  /** Property read `d[k]`: `None` stands for `undefined`. */
  function Get<V>(d: Record<V>, k: string): (r: Option<V>)
    ensures r.None? <==> k !in Keys(d)
  {
    var i := IndexOf(Keys(d), k);
    if i < 0 then None else Some(d[i].1)
  }

  /** Property write `d[k] = v`: an existing key keeps its position, a new key goes last. */
  function Put<V>(d: Record<V>, k: string, v: V): (r: Record<V>)
    ensures Keys(r) == if k in Keys(d) then Keys(d) else Keys(d) + [k]
    ensures Get(r, k) == Some(v)
    ensures forall k' :: k' != k ==> Get(r, k') == Get(d, k')
    ensures forall p :: p in r ==> p == (k, v) || p in d
  {
    var i := IndexOf(Keys(d), k);
    if i < 0 then
      assert Keys(d + [(k, v)]) == Keys(d) + [k];
      assert forall k' :: k' != k ==> IndexOf(Keys(d) + [k], k') == IndexOf(Keys(d), k') by {
        forall k' | k' != k { IndexOfAppend(Keys(d), k, k'); }
      }
      d + [(k, v)]
    else
      var r := d[i := (k, v)];
      assert Keys(r) == Keys(d);
      r
  }

  lemma {:induction false} IndexOfAppend<T>(s: seq<T>, x: T, y: T)
    requires y != x
    ensures IndexOf(s + [x], y) == IndexOf(s, y)
  {
    if |s| > 0 && s[0] != y {
      assert (s + [x])[1..] == s[1..] + [x];
      IndexOfAppend(s[1..], x, y);
    }
  }

  lemma IndexOfDistinct<T>(s: seq<T>, i: int)
    requires Distinct(s) && 0 <= i < |s|
    ensures IndexOf(s, s[i]) == i
  {
  }

  /** With distinct keys, reading the key at position `i` gives the value at position `i`. */
  lemma GetAt<V>(d: Record<V>, i: int)
    requires DistinctKeys(d) && 0 <= i < |d|
    ensures Get(d, d[i].0) == Some(d[i].1)
  {
    IndexOfDistinct(Keys(d), i);
  }

  lemma PutDistinct<V>(d: Record<V>, k: string, v: V)
    requires DistinctKeys(d)
    ensures DistinctKeys(Put(d, k, v))
  {
  }

  /** Writing a key that is not yet present appends it. */
  lemma PutNew<V>(d: Record<V>, k: string, v: V)
    requires k !in Keys(d)
    ensures Put(d, k, v) == d + [(k, v)]
  {
  }

  /** Writing a key that is present replaces its pair where it stands. */
  lemma PutAt<V>(d: Record<V>, i: int, v: V)
    requires DistinctKeys(d) && 0 <= i < |d|
    ensures Put(d, d[i].0, v) == d[i := (d[i].0, v)]
  {
    IndexOfDistinct(Keys(d), i);
  }

  /** Replaying the pairs of a record with distinct keys one `Put` at a time rebuilds it. */
  lemma PutNext<V>(d: Record<V>, n: nat)
    requires DistinctKeys(d) && n < |d|
    ensures Put(d[..n], d[n].0, d[n].1) == d[..n + 1]
  {
    assert d[n].0 !in Keys(d[..n]) by {
      forall i | 0 <= i < n ensures d[..n][i].0 != d[n].0 {
        assert Keys(d)[i] != Keys(d)[n];
      }
    }
    PutNew(d[..n], d[n].0, d[n].1);
    assert d[..n] + [d[n]] == d[..n + 1];
  }

  /** Reading a record extended by one pair. */
  lemma GetAppend<V>(d: Record<V>, k: string, v: V, k': string)
    ensures Get(d + [(k, v)], k') == if k' in Keys(d) then Get(d, k') else if k' == k then Some(v) else None
  {
    assert Keys(d + [(k, v)]) == Keys(d) + [k];
    var i := IndexOf(Keys(d), k');
    var j := IndexOf(Keys(d) + [k], k');
    if k' in Keys(d) {
      assert (Keys(d) + [k])[i] == k';
      assert j == i;
    }
  }
}
