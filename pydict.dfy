/** Python's built-in `dict` as tool/summary.py uses it: keys are either
    integers (the row index a region is first stored under) or strings (the
    label it is moved to), values are strings, and iteration follows
    insertion order. The dict is an association list kept in that order. */
module PyDict {
  import opened Wrappers

  datatype Key = Index(i: int) | Name(s: string)

  type Dict = seq<(Key, string)>

  /** `list(d)`, the keys in iteration order. */
  function Keys(d: Dict): (ks: seq<Key>)
    ensures |ks| == |d|
  {
    if d == [] then [] else [d[0].0] + Keys(d[1..])
  }

  lemma {:induction false} KeysAt(d: Dict)
    ensures forall i :: 0 <= i < |d| ==> Keys(d)[i] == d[i].0
  {
    if d != [] {
      KeysAt(d[1..]);
    }
  }

  /** `d.values()`, in iteration order. */
  function Values(d: Dict): (vs: seq<string>)
    ensures |vs| == |d|
    ensures forall i :: 0 <= i < |d| ==> vs[i] == d[i].1
  {
    if d == [] then [] else [d[0].1] + Values(d[1..])
  }

  /** A Python dict never holds the same key twice. */
  predicate DistinctKeys(d: Dict)
  {
    forall i, j :: 0 <= i < j < |d| ==> d[i].0 != d[j].0
  }

  /** `d.get(k)`. */
  function Get(d: Dict, k: Key): (r: Option<string>)
    ensures r.Some? <==> k in Keys(d)
    ensures r.Some? ==> exists i :: 0 <= i < |d| && d[i] == (k, r.value)
  {
    if d == [] then None
    else if d[0].0 == k then Some(d[0].1)
    else Get(d[1..], k)
  }

  /** `d[k] = v`: a key already present keeps its position and takes the new
      value; a new key goes last (see StoreShape). */
  function Store(d: Dict, k: Key, v: string): Dict
  {
    if d == [] then [(k, v)]
    else if d[0].0 == k then [(k, v)] + d[1..]
    else [d[0]] + Store(d[1..], k, v)
  }

  /** A new key is appended; an existing key's entry is overwritten where it stands. */
  lemma {:induction false} StoreShape(d: Dict, k: Key, v: string)
    ensures k !in Keys(d) ==> Store(d, k, v) == d + [(k, v)]
    ensures k in Keys(d) && DistinctKeys(d) ==>
      |Store(d, k, v)| == |d| &&
      forall i :: 0 <= i < |d| ==> Store(d, k, v)[i] == (if d[i].0 == k then (k, v) else d[i])
  {
    if d != [] {
      assert Keys(d[1..]) == Keys(d)[1..];
      StoreShape(d[1..], k, v);
      if d[0].0 != k {
        assert Store(d, k, v) == [d[0]] + Store(d[1..], k, v);
        if k !in Keys(d) {
          assert [d[0]] + (d[1..] + [(k, v)]) == d + [(k, v)];
        }
      }
    }
  }

  /** After `d[k] = v` the dict holds `v` under `k` and every other key as before. */
  lemma {:induction false} StoreGet(d: Dict, k: Key, v: string)
    ensures Get(Store(d, k, v), k) == Some(v)
    ensures forall k' :: k' != k ==> Get(Store(d, k, v), k') == Get(d, k')
  {
    if d != [] {
      var r := Store(d, k, v);
      if d[0].0 == k {
        assert r[1..] == d[1..];
      } else {
        StoreGet(d[1..], k, v);
        assert r[0] == d[0] && r[1..] == Store(d[1..], k, v);
      }
    }
  }

  /** `d[k] = v` keeps the keys distinct and adds `k` last when it is new. */
  lemma StoreKeys(d: Dict, k: Key, v: string)
    requires DistinctKeys(d)
    ensures DistinctKeys(Store(d, k, v))
    ensures Keys(Store(d, k, v)) == if k in Keys(d) then Keys(d) else Keys(d) + [k]
  {
    StoreShape(d, k, v);
  }

  /** Storing adds no value other than the one stored. */
  lemma StoreValues(d: Dict, k: Key, v: string)
    requires DistinctKeys(d)
    ensures forall x :: x in Values(Store(d, k, v)) ==> x in Values(d) || x == v
  {
    StoreShape(d, k, v);
    var r := Store(d, k, v);
    forall x | x in Values(r) ensures x in Values(d) || x == v {
      var i :| 0 <= i < |r| && Values(r)[i] == x;
      if k !in Keys(d) {
        if i < |d| {
          assert Values(d)[i] == x;
        }
      } else if d[i].0 != k {
        assert Values(d)[i] == x;
      }
    }
  }

  /** `d.pop(k)`: the dict without its entry for `k` and the value that entry
      held, or `None` where Python raises `KeyError`. */
  function Pop(d: Dict, k: Key): (r: Option<(Dict, string)>)
    ensures r.None? <==> k !in Keys(d)
    ensures r.Some? ==> |r.value.0| == |d| - 1
  {
    if d == [] then None
    else if d[0].0 == k then Some((d[1..], d[0].1))
    else match Pop(d[1..], k)
      case None => None
      case Some((rest, v)) => Some(([d[0]] + rest, v))
  }

  /** Position of the first entry holding `k`. */
  function KeyIndex(d: Dict, k: Key): (i: nat)
    requires k in Keys(d)
    ensures i < |d| && d[i].0 == k
    ensures forall j :: 0 <= j < i ==> d[j].0 != k
  {
    if d[0].0 == k then 0 else 1 + KeyIndex(d[1..], k)
  }

  /** `d.pop(k)` removes the entry holding `k` (the first, and in a Python
      dict the only one) and returns its value; the other entries keep their
      order. */
  lemma {:induction false} PopRemoves(d: Dict, k: Key)
    requires k in Keys(d)
    ensures var i := KeyIndex(d, k); Pop(d, k) == Some((d[..i] + d[i + 1..], d[i].1))
  {
    if d[0].0 == k {
      assert d[..0] + d[1..] == d[1..];
    } else {
      var rest := d[1..];
      PopSkip(d, k);
      PopRemoves(rest, k);
      SpliceCons(d, KeyIndex(rest, k));
    }
  }

  /** Past a first entry that does not hold `k`, `pop` and the key's
      position both move one step into the rest. */
  lemma PopSkip(d: Dict, k: Key)
    requires k in Keys(d) && d[0].0 != k
    ensures k in Keys(d[1..])
    ensures KeyIndex(d, k) == KeyIndex(d[1..], k) + 1
    ensures Pop(d[1..], k).Some?
    ensures Pop(d, k) == Some(([d[0]] + Pop(d[1..], k).value.0, Pop(d[1..], k).value.1))
  {
  }

  lemma SpliceCons(d: Dict, j: nat)
    requires j + 1 < |d|
    ensures [d[0]] + (d[1..][..j] + d[1..][j + 1..]) == d[..j + 1] + d[j + 2..]
    ensures d[1..][j] == d[j + 1]
  {
    assert [d[0]] + d[1..][..j] == d[..j + 1];
    assert d[1..][j + 1..] == d[j + 2..];
  }

  /** Storing a key that an initial part of the dict does not hold leaves
      that part alone. */
  lemma {:induction false} StoreAfter(a: Dict, b: Dict, k: Key, v: string)
    requires k !in Keys(a)
    ensures Store(a + b, k, v) == a + Store(b, k, v)
  {
    if a == [] {
      assert a + b == b;
    } else {
      assert Keys(a[1..]) == Keys(a)[1..];
      StoreAfter(a[1..], b, k, v);
      var ab := a + b;
      assert ab[0] == a[0];
      assert a[0].0 == Keys(a)[0];
      assert ab[1..] == a[1..] + b;
      assert Store(ab, k, v) == [a[0]] + Store(a[1..] + b, k, v);
      assert [a[0]] + (a[1..] + Store(b, k, v)) == a + Store(b, k, v);
    }
  }
}
