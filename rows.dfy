/**
 * Python dictionaries as the scripts use them: string keys kept in insertion
 * order, as a sequence of (key, value) pairs.  Lookup finds the first pair with
 * the key; assignment to a key that is present replaces that pair in place (so the
 * key keeps its position) and assignment to a new key appends it.
 */
module Rows {
  import opened Wrappers

  /** A cell value of a Python row: either a `str` or an `int`. */
  datatype Value = Str(s: string) | Int(n: int)

  /** A dictionary with values of type V, in insertion order. */
  type Dict<V> = seq<(string, V)>

  /** A row of the metadata table as the scripts hold it in memory. */
  type Row = Dict<Value>

  /** The keys of a dictionary, in order. */
  function Keys<V>(d: Dict<V>): (ks: seq<string>)
    ensures |ks| == |d|
    ensures forall i :: 0 <= i < |d| ==> ks[i] == d[i].0
  {
    seq(|d|, i requires 0 <= i < |d| => d[i].0)
  }

  /** No key occurs twice, which every Python dict guarantees. */
  ghost predicate DistinctKeys<V>(d: Dict<V>) {
    forall i, j :: 0 <= i < j < |d| ==> d[i].0 != d[j].0
  }

  /** The position of the first pair with key k, or -1. */
  function Find<V>(d: Dict<V>, k: string): (i: int)
    ensures -1 <= i < |d|
    ensures i >= 0 ==> d[i].0 == k && forall j :: 0 <= j < i ==> d[j].0 != k
    ensures i == -1 ==> forall j :: 0 <= j < |d| ==> d[j].0 != k
  {
    if |d| == 0 then -1
    else if d[0].0 == k then 0
    else
      var i := Find(d[1..], k);
      if i < 0 then -1 else i + 1
  }

  /** `d.get(k)`: the value stored under k, if any. */
  function Get<V>(d: Dict<V>, k: string): (r: Option<V>)
    ensures r.Some? <==> k in Keys(d)
  {
    var i := Find(d, k);
    if i < 0 then None else Some(d[i].1)
  }

  /** `d[k] = v`: replaces the pair for k where it stands, or appends a new pair. */
  function Put<V>(d: Dict<V>, k: string, v: V): (r: Dict<V>)
    ensures Get(r, k) == Some(v)
    ensures k in Keys(d) ==> Keys(r) == Keys(d)
    ensures k !in Keys(d) ==> Keys(r) == Keys(d) + [k]
    ensures forall k' :: k' != k ==> Get(r, k') == Get(d, k')
  {
    var i := Find(d, k);
    if i >= 0 then
      var r := d[i := (k, v)];
      assert forall k' :: k' != k ==> Find(r, k') == Find(d, k') by {
        forall k' | k' != k ensures Find(r, k') == Find(d, k') {
          FindAfterUpdate(d, i, k, v, k');
        }
      }
      assert Keys(r) == Keys(d);
      r
    else
      var r := d + [(k, v)];
      assert forall k' :: k' != k ==> Find(r, k') == Find(d, k') by {
        forall k' | k' != k ensures Find(r, k') == Find(d, k') {
          FindAfterAppend(d, k, v, k');
        }
      }
      FindUnique(r, k, |d|);
      r
  }

  lemma FindAfterUpdate<V>(d: Dict<V>, i: nat, k: string, v: V, k': string)
    requires i < |d| && d[i].0 == k && k' != k
    ensures Find(d[i := (k, v)], k') == Find(d, k')
  {
    var r := d[i := (k, v)];
    FindUnique(r, k', Find(d, k'));
  }

  lemma FindAfterAppend<V>(d: Dict<V>, k: string, v: V, k': string)
    requires k' != k
    ensures Find(d + [(k, v)], k') == Find(d, k')
  {
    var r := d + [(k, v)];
    FindUnique(r, k', Find(d, k'));
  }

  /** Find is characterised by its contract. */
  lemma FindUnique<V>(d: Dict<V>, k: string, i: int)
    requires -1 <= i < |d|
    requires i >= 0 ==> d[i].0 == k && forall j :: 0 <= j < i ==> d[j].0 != k
    requires i == -1 ==> forall j :: 0 <= j < |d| ==> d[j].0 != k
    ensures Find(d, k) == i
  {
  }

  /** In a dictionary with distinct keys, the pair at position i is found by its key. */
  lemma GetAt<V>(d: Dict<V>, i: nat)
    requires DistinctKeys(d) && i < |d|
    ensures Find(d, d[i].0) == i && Get(d, d[i].0) == Some(d[i].1)
  {
    FindUnique(d, d[i].0, i);
  }
}
