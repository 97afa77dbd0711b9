/** Python's insertion-ordered dict with string keys, as a sequence of entries whose keys are
    pairwise distinct. Item assignment replaces a present key in place and appends a new one. */
module Dict {
  import opened Wrappers

  predicate DistinctKeys<V>(d: seq<(string, V)>) {
    forall i, j :: 0 <= i < j < |d| ==> d[i].0 != d[j].0
  }

  /** list(d): the keys in insertion order. */
  function Keys<V>(d: seq<(string, V)>): (ks: seq<string>)
    ensures |ks| == |d|
    ensures forall i :: 0 <= i < |d| ==> ks[i] == d[i].0
  {
    seq(|d|, i requires 0 <= i < |d| => d[i].0)
  }

  predicate Has<V>(d: seq<(string, V)>, k: string) {
    k in Keys(d)
  }

  /** The position of the first entry with key k. */
  function IndexOf<V>(d: seq<(string, V)>, k: string): (i: nat)
    requires Has(d, k)
    ensures i < |d| && d[i].0 == k
    ensures forall j :: 0 <= j < i ==> d[j].0 != k
  {
    if d[0].0 == k then 0
    else
      assert Keys(d) == [d[0].0] + Keys(d[1..]);
      1 + IndexOf(d[1..], k)
  }

  /** d.get(k): the value of the entry with key k. */
  function Get<V>(d: seq<(string, V)>, k: string): (r: Option<V>)
    ensures r.Some? <==> Has(d, k)
  {
    if Has(d, k) then Some(d[IndexOf(d, k)].1) else None
  }

  /** With distinct keys, the entry at position i is what Get finds for its key. */
  lemma GetAt<V>(d: seq<(string, V)>, i: nat)
    requires DistinctKeys(d) && i < |d|
    ensures Get(d, d[i].0) == Some(d[i].1)
  {
    assert Keys(d)[i] == d[i].0;
  }

  /** d[k] = v: replaces the value of a present key in place, appends a new key at the end. */
  function Put<V>(d: seq<(string, V)>, k: string, v: V): (r: seq<(string, V)>)
    ensures Get(r, k) == Some(v)
    ensures forall j :: j != k ==> Get(r, j) == Get(d, j)
    ensures Has(d, k) ==> Keys(r) == Keys(d)
    ensures !Has(d, k) ==> Keys(r) == Keys(d) + [k]
    ensures DistinctKeys(d) ==> DistinctKeys(r)
  {
    if Has(d, k) then
      var i := IndexOf(d, k);
      var r := d[i := (k, v)];
      assert Keys(r) == Keys(d);
      PutOthers(d, r, k);
      r
    else
      var r := d + [(k, v)];
      assert Keys(r) == Keys(d) + [k];
      assert Keys(r)[|d|] == k;
      PutOthers(d, r, k);
      r
  }

  /** Entries agreeing on every key other than k, at the same positions, give the same lookups. */
  lemma PutOthers<V>(d: seq<(string, V)>, r: seq<(string, V)>, k: string)
    requires |d| <= |r|
    requires forall i :: 0 <= i < |d| && d[i].0 != k ==> r[i] == d[i]
    requires forall i :: 0 <= i < |r| ==> (i < |d| && d[i].0 == r[i].0) || r[i].0 == k
    ensures forall j :: j != k ==> Get(r, j) == Get(d, j)
  {
    forall j | j != k
      ensures Get(r, j) == Get(d, j)
    {
      if Has(d, j) {
        var i := IndexOf(d, j);
        assert Keys(r)[i] == j;
        var i' := IndexOf(r, j);
        assert i' <= i;
        assert d[i'].0 == j;
      }
    }
  }

  /** Looking up in a dict extended by one entry with a new key. */
  lemma GetSnoc<V>(d: seq<(string, V)>, e: (string, V), k: string)
    requires DistinctKeys(d + [e])
    ensures Get(d + [e], k) == if k == e.0 then Some(e.1) else Get(d, k)
    ensures Has(d, k) ==> Has(d + [e], k) && IndexOf(d + [e], k) == IndexOf(d, k)
    ensures k == e.0 ==> !Has(d, k) && IndexOf(d + [e], k) == |d|
  {
    var r := d + [e];
    assert Keys(r) == Keys(d) + [e.0];
    if Has(d, k) {
      var i := IndexOf(d, k);
      assert r[i] == d[i];
      var i' := IndexOf(r, k);
      assert i' <= i;
      assert r[i'] == d[i'];
    }
    if k == e.0 {
      assert r[|d|] == e;
    }
  }

  /** dict(zip(ks, vs)): pairs up to the shorter of the two sequences. */
  function Zip<V>(ks: seq<string>, vs: seq<V>): (r: seq<(string, V)>)
    ensures |r| == if |ks| < |vs| then |ks| else |vs|
    ensures forall i :: 0 <= i < |r| ==> r[i] == (ks[i], vs[i])
  {
    var n := if |ks| < |vs| then |ks| else |vs|;
    seq(n, i requires 0 <= i < n => (ks[i], vs[i]))
  }

  predicate NoDuplicates(ks: seq<string>) {
    forall i, j :: 0 <= i < j < |ks| ==> ks[i] != ks[j]
  }

  lemma ZipDistinct<V>(ks: seq<string>, vs: seq<V>)
    requires NoDuplicates(ks)
    ensures DistinctKeys(Zip(ks, vs))
  {
  }

  /** A dict from str to str or None: a card, a sheet record, a snapshot. */
  type Fields = seq<(string, Option<string>)>

  /** d.get(k): None both for a missing key and for a key holding None. */
  function Lookup(d: Fields, k: string): (v: Option<string>)
    ensures v.Some? ==> Has(d, k)
  {
    if Has(d, k) then Get(d, k).value else None
  }

  /** str() of a value: None prints as "None". */
  function Str(v: Option<string>): string {
    match v
    case None => "None"
    case Some(s) => s
  }
}
