/**
 * The JavaScript values the pipeline stores, and plain objects used as
 * dictionaries. A plain object whose keys are not array indices enumerates
 * its keys in insertion order and holds each key once, so it is modelled as
 * a sequence of (key, value) pairs with distinct keys.
 */
module JsObjects {
  import opened Wrappers

  /**
   * A dosage as a JavaScript number: a whole count of alternate alleles,
   * or `NaN` for a missing one. `NaN` is never coerced to a number.
   */
  datatype Dosage = Known(n: int) | NaN

  /** JavaScript `+` on two dosages: `NaN` absorbs everything. */
  function Add(a: Dosage, b: Dosage): (r: Dosage)
    ensures r.NaN? <==> a.NaN? || b.NaN?
    ensures r.Known? ==> r.n == a.n + b.n
  {
    if a.NaN? || b.NaN? then NaN else Known(a.n + b.n)
  }

  /** A property value: absent (`undefined`), `null`, or a number. */
  datatype Value = Undefined | Null | Number(d: Dosage)

  /** `Number(v)`: `undefined` converts to `NaN`, `null` to 0, a number to itself. */
  function ToNumber(v: Value): Dosage
  {
    match v
    case Undefined => NaN
    case Null => Known(0)
    case Number(d) => d
  }

  /**
   * The global `isNaN`: its argument, converted to a number, is `NaN`. So
   * `undefined` counts as `NaN` and `null` does not.
   */
  predicate IsNaN(v: Value)
    ensures IsNaN(v) <==> ToNumber(v).NaN?
  {
    v.Undefined? || (v.Number? && v.d.NaN?)
  }

  /** The key of the `i`-th property. */
  function KeyAt<V>(d: seq<(string, V)>, i: nat): string
    requires i < |d|
  {
    d[i].0
  }

  ghost predicate DistinctKeys<V>(d: seq<(string, V)>)
  {
    forall i, j :: 0 <= i < j < |d| ==> KeyAt(d, i) != KeyAt(d, j)
  }

  /** A plain object: its own enumerable properties in enumeration order. */
  type Dict<V> = d: seq<(string, V)> | DistinctKeys(d)

  /** `Object.keys(d)`. */
  function Keys<V>(d: seq<(string, V)>): (ks: seq<string>)
    ensures |ks| == |d|
    ensures forall i :: 0 <= i < |d| ==> ks[i] == d[i].0
  {
    seq(|d|, i requires 0 <= i < |d| => d[i].0)
  }

  /** `Object.values(d)`. */
  function Values<V>(d: seq<(string, V)>): (vs: seq<V>)
    ensures |vs| == |d|
    ensures forall i :: 0 <= i < |d| ==> vs[i] == d[i].1
  {
    seq(|d|, i requires 0 <= i < |d| => d[i].1)
  }

  /** The keys of two objects' properties listed one after the other. */
  lemma KeysConcat<V>(a: seq<(string, V)>, b: seq<(string, V)>)
    ensures Keys(a + b) == Keys(a) + Keys(b)
  {
  }

  /** A run of consecutive properties of an object has distinct keys too. */
  lemma DistinctSlice<V>(d: Dict<V>, a: nat, b: nat)
    requires a <= b <= |d|
    ensures DistinctKeys(d[a..b])
    ensures a == 0 ==> DistinctKeys(d[..b])
    ensures b == |d| ==> DistinctKeys(d[a..])
  {
    assert a == 0 ==> d[..b] == d[a..b];
    assert b == |d| ==> d[a..] == d[a..b];
    forall i, j | 0 <= i < j < b - a
      ensures KeyAt(d[a..b], i) != KeyAt(d[a..b], j)
    {
      assert KeyAt(d[a..b], i) == KeyAt(d, a + i) && KeyAt(d[a..b], j) == KeyAt(d, a + j);
    }
  }

  /** A property with a new key can go before or after the others. */
  lemma DistinctExtend<V>(d: Dict<V>, k: string, v: V)
    requires k !in Keys(d)
    ensures DistinctKeys([(k, v)] + d) && DistinctKeys(d + [(k, v)])
  {
    var front, back := [(k, v)] + d, d + [(k, v)];
    forall i, j | 0 <= i < j < |front|
      ensures KeyAt(front, i) != KeyAt(front, j) && KeyAt(back, i) != KeyAt(back, j)
    {
      if i == 0 {
        assert KeyAt(front, j) == Keys(d)[j - 1];
      } else {
        assert KeyAt(front, i) == KeyAt(d, i - 1) && KeyAt(front, j) == KeyAt(d, j - 1);
      }
      if j == |d| {
        assert KeyAt(back, i) == Keys(d)[i];
      } else {
        assert KeyAt(back, i) == KeyAt(d, i) && KeyAt(back, j) == KeyAt(d, j);
      }
    }
  }

  /** The first key appears nowhere else. */
  lemma FirstKeyUnique<V>(d: Dict<V>)
    requires d != []
    ensures d[0].0 !in Keys(d[1..])
  {
    forall i | 0 <= i < |d| - 1
      ensures Keys(d[1..])[i] != d[0].0
    {
      assert KeyAt(d, 0) != KeyAt(d, i + 1);
    }
  }

  /** A key appears nowhere before its own position. */
  lemma KeyNotBefore<V>(d: Dict<V>, i: nat)
    requires i < |d|
    ensures d[i].0 !in Keys(d[..i])
  {
    forall j | 0 <= j < i
      ensures Keys(d[..i])[j] != d[i].0
    {
      assert KeyAt(d, j) != KeyAt(d, i);
    }
  }

  /** `d[k]`, with `None` for a missing property. */
  function Get<V>(d: Dict<V>, k: string): (r: Option<V>)
    ensures r.None? <==> k !in Keys(d)
    ensures forall i :: 0 <= i < |d| && d[i].0 == k ==> r == Some(d[i].1)
  {
    if d == [] then None
    else if d[0].0 == k then
      FirstKeyUnique(d);
      assert forall i :: 1 <= i < |d| ==> d[i].0 == Keys(d[1..])[i - 1];
      Some(d[0].1)
    else
      DistinctSlice(d, 1, |d|);
      var r := Get(d[1..], k);
      assert forall i :: 1 <= i < |d| ==> d[1..][i - 1] == d[i];
      r
  }

  /**
   * `d[k] = v`: an existing property keeps its place in the enumeration
   * order and takes the new value; a new property goes last.
   */
  function Put<V>(d: Dict<V>, k: string, v: V): (r: Dict<V>)
    ensures Keys(r) == if k in Keys(d) then Keys(d) else Keys(d) + [k]
  {
    if d == [] then [(k, v)]
    else
      DistinctSlice(d, 1, |d|);
      var tail: Dict<V> := d[1..];
      if d[0].0 == k then
        FirstKeyUnique(d);
        DistinctExtend(tail, k, v);
        [(k, v)] + tail
      else
        var rest := Put(tail, k, v);
        FirstKeyUnique(d);
        KeysConcat([d[0]], tail);
        assert d[0].0 !in Keys(rest);
        DistinctExtend(rest, d[0].0, d[0].1);
        KeysConcat([d[0]], rest);
        [d[0]] + rest
  }

  /** After `d[k] = v`, `d[k]` is `v` and every other property is as before. */
  lemma {:induction false} PutGet<V>(d: Dict<V>, k: string, v: V, k': string)
    ensures Get(Put(d, k, v), k') == if k' == k then Some(v) else Get(d, k')
  {
    var r := Put(d, k, v);
    if d == [] {
    } else {
      DistinctSlice(d, 1, |d|);
      DistinctSlice(r, 1, |r|);
      if d[0].0 == k {
        assert r[1..] == d[1..];
      } else {
        PutGet(d[1..], k, v, k');
        assert r[1..] == Put(d[1..], k, v);
      }
    }
  }

  /** Putting a property that is not there yet appends it. */
  lemma {:induction false} PutNewAppends<V>(d: Dict<V>, k: string, v: V)
    requires k !in Keys(d)
    ensures Put(d, k, v) == d + [(k, v)]
  {
    if d != [] {
      DistinctSlice(d, 1, |d|);
      PutNewAppends(d[1..], k, v);
      assert d == [d[0]] + d[1..];
    }
  }
}
