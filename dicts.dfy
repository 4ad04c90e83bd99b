/**
 * Python dictionaries with string keys, kept in insertion order.
 *
 * A dict is an association list; `Get`, `Put` and `Update` are the dict
 * operations `d.get(k)`, `d[k] = v` and `d.update(e)`.  Assigning to a key that
 * is already present keeps its position; a new key goes to the end.
 */
module Dicts {
  import opened Wrappers

  type Dict<V> = seq<(string, V)>

  /** The keys, in insertion order. */
  function Keys<V>(d: Dict<V>): (ks: seq<string>)
    ensures |ks| == |d|
  {
    seq(|d|, i requires 0 <= i < |d| => d[i].0)
  }

  /** No key occurs twice (every dict built by Python has this property). */
  predicate Unique<V>(d: Dict<V>) {
    forall i, j :: 0 <= i < j < |d| ==> d[i].0 != d[j].0
  }

  /** The position of the first entry with key `k`, or -1 when there is none. */
  function IndexOf<V>(d: Dict<V>, k: string): (i: int)
    ensures -1 <= i < |d|
    ensures i >= 0 ==> d[i].0 == k && forall j :: 0 <= j < i ==> d[j].0 != k
    ensures i < 0 <==> k !in Keys(d)
  {
    if d == [] then -1
    else
      assert Keys(d)[0] == d[0].0;
      if d[0].0 == k then 0
      else
        var j := IndexOf(d[1..], k);
        assert Keys(d) == [d[0].0] + Keys(d[1..]);
        assert forall m :: 0 < m < |d| ==> d[m] == d[1..][m - 1];
        if j < 0 then -1 else j + 1
  }

  /** `d.get(k)`. */
  function Get<V>(d: Dict<V>, k: string): (r: Option<V>)
    ensures r.Some? <==> k in Keys(d)
    ensures r.Some? ==> (k, r.value) in d
  {
    var i := IndexOf(d, k);
    if i >= 0 then Some(d[i].1) else None
  }

  /** `d.get(k, default)`. */
  function GetOr<V>(d: Dict<V>, k: string, default: V): (r: V)
    ensures k in Keys(d) ==> Get(d, k) == Some(r)
    ensures k !in Keys(d) ==> r == default
  {
    match Get(d, k)
    case Some(v) => v
    case None => default
  }

  /** In a unique dict, the entry at position `i` is what `get` finds. */
  lemma GetAt<V>(d: Dict<V>, i: nat)
    requires Unique(d) && i < |d|
    ensures Get(d, d[i].0) == Some(d[i].1)
  {
    assert Keys(d)[i] == d[i].0;
  }

  /** The dict pairing each key with the value at the same position. */
  function Zip<V>(keys: seq<string>, values: seq<V>): Dict<V>
    requires |keys| == |values|
  {
    seq(|keys|, i requires 0 <= i < |keys| => (keys[i], values[i]))
  }

  /** `d[k] = v`: replaces in place, or appends a new key at the end. */
  function Put<V>(d: Dict<V>, k: string, v: V): (r: Dict<V>)
    ensures Keys(r) == if k in Keys(d) then Keys(d) else Keys(d) + [k]
    ensures Unique(d) ==> Unique(r)
  {
    var i := IndexOf(d, k);
    if i >= 0 then
      assert Keys(d[i := (k, v)]) == Keys(d);
      d[i := (k, v)]
    else
      assert Keys(d + [(k, v)]) == Keys(d) + [k];
      assert forall j :: 0 <= j < |d| ==> d[j].0 != k by {
        forall j | 0 <= j < |d| ensures d[j].0 != k { assert Keys(d)[j] == d[j].0; }
      }
      d + [(k, v)]
  }

  /** After `d[k] = v`, `k` holds `v` and every other key what it held. */
  lemma GetPut<V>(d: Dict<V>, k: string, v: V, j: string)
    ensures Get(Put(d, k, v), j) == if j == k then Some(v) else Get(d, j)
  {
    var r := Put(d, k, v);
    var i := IndexOf(d, k);
    if j == k {
      if i >= 0 {
        assert r[i] == (k, v);
        assert IndexOf(r, k) == i;
      } else {
        assert r[|d|] == (k, v);
        assert forall m :: 0 <= m < |d| ==> r[m].0 != k by {
          forall m | 0 <= m < |d| ensures r[m].0 != k { assert Keys(d)[m] == d[m].0; }
        }
        assert IndexOf(r, k) == |d|;
      }
    } else {
      var n := IndexOf(d, j);
      assert forall m :: 0 <= m < |d| ==> (r[m].0 == j <==> d[m].0 == j);
      if n >= 0 {
        assert IndexOf(r, j) == n;
      }
    }
  }

  /** After `d[k] = v`, no other key changes. */
  lemma PutOthers<V>(d: Dict<V>, k: string, v: V)
    ensures forall j :: j != k ==> Get(Put(d, k, v), j) == Get(d, j)
  {
    forall j | j != k
      ensures Get(Put(d, k, v), j) == Get(d, j)
    {
      GetPut(d, k, v, j);
    }
  }

  /** `d.update(e)`: the entries of `e`, in order, assigned into `d`. */
  function Update<V>(d: Dict<V>, e: Dict<V>): (r: Dict<V>)
    ensures forall j :: j in Keys(r) <==> j in Keys(d) || j in Keys(e)
    ensures |Keys(d)| <= |Keys(r)| && Keys(r)[..|Keys(d)|] == Keys(d)
    ensures Unique(d) ==> Unique(r)
    decreases e
  {
    if e == [] then d
    else
      var d' := Put(d, e[0].0, e[0].1);
      assert Keys(d')[..|Keys(d)|] == Keys(d);
      assert forall j :: j in Keys(e) <==> j == e[0].0 || j in Keys(e[1..]) by {
        assert Keys(e) == [e[0].0] + Keys(e[1..]);
      }
      Update(d', e[1..])
  }

  /** After `d.update(e)`, the keys of `e` hold its values; the others are untouched. */
  lemma {:induction false} GetUpdate<V>(d: Dict<V>, e: Dict<V>, j: string)
    requires Unique(e)
    ensures Get(Update(d, e), j) == if j in Keys(e) then Get(e, j) else Get(d, j)
    decreases e
  {
    if e != [] {
      assert Keys(e) == [e[0].0] + Keys(e[1..]);
      assert Unique(e[1..]);
      GetUpdate(Put(d, e[0].0, e[0].1), e[1..], j);
      GetPut(d, e[0].0, e[0].1, j);
      if j in Keys(e[1..]) {
        GetTail(e, j);
      } else if j == e[0].0 {
        GetAt(e, 0);
      }
    }
  }

  /** A key of the tail of a unique dict is found in the tail. */
  lemma GetTail<V>(d: Dict<V>, k: string)
    requires Unique(d) && d != [] && k in Keys(d[1..])
    ensures Get(d, k) == Get(d[1..], k)
  {
    var m :| 0 <= m < |d[1..]| && Keys(d[1..])[m] == k;
    assert d[1..][m] == d[m + 1];
    GetAt(d, m + 1);
    GetAt(d[1..], m);
  }

  /** The dict with every value passed through `f`, keys and order kept. */
  function MapValues<V, W>(d: Dict<V>, f: V -> W): (r: Dict<W>)
    ensures |r| == |d| && forall i :: 0 <= i < |d| ==> r[i] == (d[i].0, f(d[i].1))
    ensures Keys(r) == Keys(d)
    ensures Unique(r) <==> Unique(d)
  {
    var r := seq(|d|, i requires 0 <= i < |d| => (d[i].0, f(d[i].1)));
    assert forall i :: 0 <= i < |d| ==> r[i].0 == d[i].0;
    assert Keys(r) == Keys(d);
    r
  }

  /** Positions are found by keys alone. */
  lemma IndexOfKeys<V, W>(d: Dict<V>, e: Dict<W>, k: string)
    requires |d| == |e| && forall i :: 0 <= i < |d| ==> d[i].0 == e[i].0
    ensures IndexOf(d, k) == IndexOf(e, k)
  {
    var i, j := IndexOf(d, k), IndexOf(e, k);
    if i < 0 || j < 0 {
      assert Keys(d) == Keys(e);
    }
  }

  /** Mapping the values commutes with assignment. */
  lemma MapValuesPut<V, W>(d: Dict<V>, k: string, v: V, f: V -> W)
    ensures MapValues(Put(d, k, v), f) == Put(MapValues(d, f), k, f(v))
  {
    IndexOfKeys(d, MapValues(d, f), k);
  }

  /** Mapping the values commutes with `update`. */
  lemma {:induction false} MapValuesUpdate<V, W>(d: Dict<V>, e: Dict<V>, f: V -> W)
    ensures MapValues(Update(d, e), f) == Update(MapValues(d, f), MapValues(e, f))
    decreases e
  {
    if e != [] {
      var fe := MapValues(e, f);
      assert fe[0] == (e[0].0, f(e[0].1));
      assert fe[1..] == MapValues(e[1..], f);
      MapValuesPut(d, e[0].0, e[0].1, f);
      MapValuesUpdate(Put(d, e[0].0, e[0].1), e[1..], f);
    }
  }
}
