/** Shared vocabulary: options, real vectors, Python's index normalisation and
    Python's insertion-ordered dictionary. */
module Base {

  datatype Option<T> = None | Some(value: T)

  /** A tensor row: one real per column. */
  type Vec = seq<real>

  function Zeros(n: nat): (v: Vec)
    ensures |v| == n && forall i :: 0 <= i < n ==> v[i] == 0.0
  {
    seq(n, _ => 0.0)
  }

  /** Sum of a sequence of reals. */
  function RSum(s: seq<real>): real
  {
    if s == [] then 0.0 else s[0] + RSum(s[1..])
  }

  lemma {:induction false} RSumAppend(s: seq<real>, t: seq<real>)
    ensures RSum(s + t) == RSum(s) + RSum(t)
  {
    if s == [] {
      assert s + t == t;
    } else {
      assert (s + t)[0] == s[0];
      assert (s + t)[1..] == s[1..] + t;
      RSumAppend(s[1..], t);
    }
  }

  lemma {:induction false} RSumZeros(s: seq<real>)
    requires forall i :: 0 <= i < |s| ==> s[i] == 0.0
    ensures RSum(s) == 0.0
  {
    if s != [] {
      RSumZeros(s[1..]);
    }
  }

  /** Sum of a sequence of counts. */
  function NSum(s: seq<nat>): nat
  {
    if s == [] then 0 else s[0] + NSum(s[1..])
  }

  lemma {:induction false} NSumZero(s: seq<nat>)
    requires forall i :: 0 <= i < |s| ==> s[i] == 0
    ensures NSum(s) == 0
  {
    if s != [] {
      NSumZero(s[1..]);
    }
  }

  lemma {:induction false} NSumPositive(s: seq<nat>, i: nat)
    requires i < |s| && s[i] > 0
    ensures NSum(s) > 0
  {
    if i > 0 {
      NSumPositive(s[1..], i - 1);
    }
  }

  lemma {:induction false} RSumNonneg(s: seq<real>)
    requires forall i :: 0 <= i < |s| ==> s[i] >= 0.0
    ensures RSum(s) >= 0.0
  {
    if s != [] {
      RSumNonneg(s[1..]);
    }
  }

  /** Dividing every term by the same positive count divides the sum. */
  lemma {:induction false} RSumDivide(s: seq<real>, q: seq<real>, c: real)
    requires c > 0.0 && |s| == |q|
    requires forall i :: 0 <= i < |s| ==> q[i] == s[i] / c
    ensures RSum(q) == RSum(s) / c
  {
    if s != [] {
      RSumDivide(s[1..], q[1..], c);
      assert q[0] + RSum(s[1..]) / c == (s[0] + RSum(s[1..])) / c;
    }
  }

  /** Python's reading of index `i` in a dimension of size `n`: a negative
      index counts from the end, anything outside [-n, n) is an IndexError. */
  function PyIndex(n: nat, i: int): (r: Option<nat>)
    ensures r.Some? <==> -(n as int) <= i < n
    ensures r.Some? ==> r.value < n && r.value == (if i >= 0 then i else n + i)
  {
    if 0 <= i < n then Some(i) else if -(n as int) <= i < 0 then Some(n + i) else None
  }

  /** Python's `s[:-1]`: every element but the last (empty stays empty). */
  function DropLast<T>(s: seq<T>): (r: seq<T>)
    ensures |r| == if s == [] then 0 else |s| - 1
    ensures forall i :: 0 <= i < |r| ==> r[i] == s[i]
  {
    if s == [] then [] else s[..|s| - 1]
  }

  /** A Python dict: entries in insertion order. */
  type Dict<V> = seq<(string, V)>

  function Keys<V>(d: Dict<V>): (ks: seq<string>)
    ensures |ks| == |d| && forall i :: 0 <= i < |d| ==> ks[i] == d[i].0
  {
    if d == [] then [] else [d[0].0] + Keys(d[1..])
  }

  /** `d.values()`, in insertion order. */
  function DictValues<V>(d: Dict<V>): (vs: seq<V>)
    ensures |vs| == |d| && forall i :: 0 <= i < |d| ==> vs[i] == d[i].1
  {
    seq(|d|, i requires 0 <= i < |d| => d[i].1)
  }

  predicate DistinctKeys<V>(d: Dict<V>)
  {
    forall i, j :: 0 <= i < j < |d| ==> d[i].0 != d[j].0
  }

  predicate Distinct(s: seq<string>)
  {
    forall i, j :: 0 <= i < j < |s| ==> s[i] != s[j]
  }

  lemma DistinctKeysOf<V>(d: Dict<V>)
    requires Distinct(Keys(d))
    ensures DistinctKeys(d)
  {
    forall i, j | 0 <= i < j < |d|
      ensures d[i].0 != d[j].0
    {
      assert Keys(d)[i] == d[i].0 && Keys(d)[j] == d[j].0;
    }
  }

  /** `d[k]`, or None for a KeyError. */
  function Get<V>(d: Dict<V>, k: string): Option<V>
  {
    if d == [] then None else if d[0].0 == k then Some(d[0].1) else Get(d[1..], k)
  }

  /** `d[k] = v`: an existing key keeps its position, a new key goes last. */
  function Put<V>(d: Dict<V>, k: string, v: V): Dict<V>
  {
    if d == [] then [(k, v)]
    else if d[0].0 == k then [(k, v)] + d[1..]
    else [d[0]] + Put(d[1..], k, v)
  }

  /** `d.update(e)`: the entries of `e` put in order. */
  function Update<V>(d: Dict<V>, e: Dict<V>): Dict<V>
    decreases |e|
  {
    if e == [] then d else Update(Put(d, e[0].0, e[0].1), e[1..])
  }

  lemma {:induction false} GetFound<V>(d: Dict<V>, i: nat)
    requires DistinctKeys(d) && i < |d|
    ensures Get(d, d[i].0) == Some(d[i].1)
  {
    if i > 0 {
      GetFound(d[1..], i - 1);
    }
  }

  lemma {:induction false} GetMissing<V>(d: Dict<V>, k: string)
    requires k !in Keys(d)
    ensures Get(d, k) == None
  {
    if d != [] {
      assert Keys(d)[0] == d[0].0;
      assert Keys(d[1..]) == Keys(d)[1..];
      GetMissing(d[1..], k);
    }
  }

  /** Reading back after `d[k] = v` gives `v` for `k` and the old value elsewhere. */
  lemma {:induction false} PutGet<V>(d: Dict<V>, k: string, v: V, k': string)
    ensures Get(Put(d, k, v), k') == if k' == k then Some(v) else Get(d, k')
  {
    if d != [] && d[0].0 != k {
      PutGet(d[1..], k, v, k');
    }
  }

  /** A new key is appended. */
  lemma {:induction false} PutNew<V>(d: Dict<V>, k: string, v: V)
    requires k !in Keys(d)
    ensures Put(d, k, v) == d + [(k, v)]
  {
    if d != [] {
      assert Keys(d)[0] == d[0].0;
      assert Keys(d[1..]) == Keys(d)[1..];
      PutNew(d[1..], k, v);
    }
  }

  /** An existing key is overwritten in place. */
  lemma {:induction false} PutExisting<V>(d: Dict<V>, i: nat, v: V)
    requires DistinctKeys(d) && i < |d|
    ensures Put(d, d[i].0, v) == d[i := (d[i].0, v)]
  {
    if i > 0 {
      PutExisting(d[1..], i - 1, v);
      assert [d[0]] + d[1..][i - 1 := (d[i].0, v)] == d[i := (d[i].0, v)];
    }
  }

  lemma {:induction false} KeysAppend<V>(d: Dict<V>, e: Dict<V>)
    ensures Keys(d + e) == Keys(d) + Keys(e)
  {
    assert forall i :: 0 <= i < |d + e| ==> Keys(d + e)[i] == (Keys(d) + Keys(e))[i];
  }

  /** A key present before an update is present after it. */
  lemma {:induction false} UpdateKeepsKey<V>(d: Dict<V>, e: Dict<V>, k: string)
    requires Get(d, k).Some?
    ensures Get(Update(d, e), k).Some?
    decreases |e|
  {
    if e != [] {
      PutGet(d, e[0].0, e[0].1, k);
      UpdateKeepsKey(Put(d, e[0].0, e[0].1), e[1..], k);
    }
  }

  /** Updating with entries whose keys are new appends them in order. */
  lemma {:induction false} UpdateFresh<V>(d: Dict<V>, e: Dict<V>)
    requires DistinctKeys(e)
    requires forall i :: 0 <= i < |e| ==> e[i].0 !in Keys(d)
    ensures Update(d, e) == d + e
    decreases |e|
  {
    if e != [] {
      var d', e' := d + [e[0]], e[1..];
      PutNew(d, e[0].0, e[0].1);
      KeysAppend(d, [e[0]]);
      assert Keys(d') == Keys(d) + [e[0].0];
      forall i | 0 <= i < |e'|
        ensures e'[i].0 !in Keys(d')
      {
        assert e'[i] == e[i + 1];
      }
      assert DistinctKeys(e') by {
        forall i, j | 0 <= i < j < |e'|
          ensures e'[i].0 != e'[j].0
        {
          assert e'[i] == e[i + 1] && e'[j] == e[j + 1];
        }
      }
      UpdateFresh(d', e');
      assert d' + e' == d + e;
    }
  }

  /** Updating with fresh entries and then writing a fresh key lays the
      dictionary out as the old entries, the new ones, then the key. */
  lemma UpdateThenPut<V>(d: Dict<V>, e: Dict<V>, k: string, v: V)
    requires DistinctKeys(d) && DistinctKeys(e)
    requires forall i :: 0 <= i < |e| ==> e[i].0 !in Keys(d) && e[i].0 != k
    requires k !in Keys(d)
    ensures Put(Update(d, e), k, v) == d + e + [(k, v)]
    ensures DistinctKeys(d + e + [(k, v)])
    ensures Keys(d + e + [(k, v)]) == Keys(d) + Keys(e) + [k]
  {
    UpdateFresh(d, e);
    KeysAppend(d, e);
    DistinctAppend(d, e);
    assert k !in Keys(d + e) by {
      forall i | 0 <= i < |d + e|
        ensures Keys(d + e)[i] != k
      {
        if i >= |d| {
          assert (d + e)[i] == e[i - |d|];
        } else {
          assert Keys(d)[i] == d[i].0;
        }
      }
    }
    PutNew(d + e, k, v);
    KeysAppend(d + e, [(k, v)]);
    assert Keys([(k, v)]) == [k];
    DistinctAppend(d + e, [(k, v)]);
  }

  /** In a dictionary with distinct keys laid out as `d` then `e`, the
      entries of `d` read back. */
  lemma PrefixGets<V>(d: Dict<V>, e: Dict<V>)
    requires DistinctKeys(d + e)
    ensures forall i :: 0 <= i < |d| ==> Get(d + e, d[i].0) == Some(d[i].1)
  {
    forall i | 0 <= i < |d|
      ensures Get(d + e, d[i].0) == Some(d[i].1)
    {
      assert (d + e)[i] == d[i];
      GetFound(d + e, i);
    }
  }

  /** In a dictionary with distinct keys laid out as `d` then `e`, the
      entries of `e` read back. */
  lemma SuffixGets<V>(d: Dict<V>, e: Dict<V>)
    requires DistinctKeys(d + e)
    ensures forall i :: 0 <= i < |e| ==> Get(d + e, e[i].0) == Some(e[i].1)
  {
    forall i | 0 <= i < |e|
      ensures Get(d + e, e[i].0) == Some(e[i].1)
    {
      assert (d + e)[|d| + i] == e[i];
      GetFound(d + e, |d| + i);
    }
  }

  /** In a dictionary with distinct keys laid out as `d`, then `e`, then one
      last key, every entry reads back. */
  lemma ThreePartGets<V>(d: Dict<V>, e: Dict<V>, k: string, v: V)
    requires DistinctKeys(d + e + [(k, v)])
    ensures forall i :: 0 <= i < |d| ==> Get(d + e + [(k, v)], d[i].0) == Some(d[i].1)
    ensures forall i :: 0 <= i < |e| ==> Get(d + e + [(k, v)], e[i].0) == Some(e[i].1)
    ensures Get(d + e + [(k, v)], k) == Some(v)
  {
    var de := d + e;
    PrefixGets(de, [(k, v)]);
    SuffixGets(de, [(k, v)]);
    assert [(k, v)][0] == (k, v);
    forall i | 0 <= i < |d|
      ensures Get(de + [(k, v)], d[i].0) == Some(d[i].1)
    {
      assert de[i] == d[i];
    }
    forall i | 0 <= i < |e|
      ensures Get(de + [(k, v)], e[i].0) == Some(e[i].1)
    {
      assert de[|d| + i] == e[i];
    }
  }

  /** Joining two dictionaries with distinct, disjoint keys keeps the keys distinct. */
  lemma DistinctAppend<V>(d: Dict<V>, e: Dict<V>)
    requires DistinctKeys(d) && DistinctKeys(e)
    requires forall j :: 0 <= j < |e| ==> e[j].0 !in Keys(d)
    ensures DistinctKeys(d + e)
  {
    forall i, j | 0 <= i < j < |d + e|
      ensures (d + e)[i].0 != (d + e)[j].0
    {
      if i >= |d| {
        assert (d + e)[i] == e[i - |d|] && (d + e)[j] == e[j - |d|];
      } else if j >= |d| {
        assert (d + e)[j] == e[j - |d|];
        assert Keys(d)[i] == d[i].0;
      }
    }
  }
}
