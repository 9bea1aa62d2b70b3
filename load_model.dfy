/**
 * Feature extraction for one chromosome's model: pick, from a bucket of
 * features, the unphased ones of that chromosome, in the bucket's key
 * order, with `null` read as 0.
 */
module LoadModel {
  import opened Wrappers
  import opened JsStrings
  import opened JsObjects

  /** `chr${chrNumber}_`. */
  function ChrPrefix(chrNumber: int): string
  {
    "chr" + IntToString(chrNumber) + "_"
  }

  /** A key the extraction keeps: it starts with the chromosome's prefix and ends with `_combined`. */
  predicate Qualifies(chrPrefix: string, key: string)
  {
    StartsWith(key, chrPrefix) && EndsWith(key, "_combined")
  }

  /** `data[key] === null ? 0 : data[key]`. */
  function NullToZero(v: Value): (r: Value)
    ensures !r.Null?
    ensures v.Null? ==> r == Number(Known(0))
    ensures !v.Null? ==> r == v
  {
    if v.Null? then Number(Known(0)) else v
  }

  /**
   * The object the loop builds from the properties in `d`, in order: the
   * qualifying ones, with `null` read as 0. Its keys are keys of `d`.
   */
  function Filtered(chrPrefix: string, d: Dict<Value>): (f: Dict<Value>)
    ensures |f| <= |d|
    ensures forall k :: k in Keys(f) ==> k in Keys(d)
  {
    if d == [] then []
    else
      DistinctSlice(d, 0, |d| - 1);
      KeyNotBefore(d, |d| - 1);
      var (key, value) := d[|d| - 1];
      var f := Filtered(chrPrefix, d[..|d| - 1]);
      if Qualifies(chrPrefix, key) then
        DistinctExtend(f, key, NullToZero(value));
        var r := f + [(key, NullToZero(value))];
        assert Keys(r) == Keys(f) + [key];
        r
      else f
  }

  /** The values the extraction returns when some key qualifies. */
  function QualifyingValues(chrPrefix: string, d: Dict<Value>): (vs: seq<Value>)
    ensures |vs| == |Filtered(chrPrefix, d)|
  {
    Values(Filtered(chrPrefix, d))
  }

  /** The number of qualifying keys. */
  function CountQualifying(chrPrefix: string, keys: seq<string>): (k: nat)
    ensures k <= |keys|
  {
    if keys == [] then 0
    else CountQualifying(chrPrefix, keys[..|keys| - 1]) + (if Qualifies(chrPrefix, keys[|keys| - 1]) then 1 else 0)
  }

  /**
   * `preprocessDataForChromosome`: a `for...in` over the bucket that copies
   * each qualifying property into a fresh object, then `Object.values` of
   * that object; `null` (after an alert, not modelled) when it is empty.
   */
  method PreprocessDataForChromosome(chrNumber: int, data: Dict<Value>) returns (inputData: Option<seq<Value>>)
    ensures inputData.None? <==> forall k :: k in Keys(data) ==> !Qualifies(ChrPrefix(chrNumber), k)
    ensures inputData.Some? ==> inputData.value == QualifyingValues(ChrPrefix(chrNumber), data)
  {
    var chrPrefix := ChrPrefix(chrNumber);
    var filteredData: Dict<Value> := [];
    for i := 0 to |data|
      invariant filteredData == FilteredPrefix(chrPrefix, data, i)
    {
      var key := data[i].0;
      FilteredStep(chrPrefix, data, i);
      if StartsWith(key, chrPrefix) && EndsWith(key, "_combined") {
        filteredData := Put(filteredData, key, NullToZero(data[i].1));
      }
    }
    EmptyIffNoneQualifies(chrPrefix, data);
    var values := Values(filteredData);
    if |values| == 0 {
      return None;
    }
    return Some(values);
  }

  /** The keys of the extraction are exactly the qualifying keys of `d`. */
  lemma {:induction false} FilteredKeys(chrPrefix: string, d: Dict<Value>)
    ensures forall k :: k in Keys(Filtered(chrPrefix, d)) <==> k in Keys(d) && Qualifies(chrPrefix, k)
  {
    if d != [] {
      DistinctSlice(d, 0, |d| - 1);
      var init: Dict<Value> := d[..|d| - 1];
      FilteredKeys(chrPrefix, init);
      var (key, value) := d[|d| - 1];
      assert Keys(d) == Keys(init) + [key];
      var f, fi := Filtered(chrPrefix, d), Filtered(chrPrefix, init);
      if Qualifies(chrPrefix, key) {
        assert f == fi + [(key, NullToZero(value))];
        assert Keys(f) == Keys(fi) + [key];
      } else {
        assert f == fi;
      }
    }
  }

  /** The extraction is empty exactly when no key of `d` qualifies. */
  lemma EmptyIffNoneQualifies(chrPrefix: string, d: Dict<Value>)
    ensures Filtered(chrPrefix, d) == [] <==> forall k :: k in Keys(d) ==> !Qualifies(chrPrefix, k)
  {
    var f := Filtered(chrPrefix, d);
    FilteredKeys(chrPrefix, d);
    if f != [] {
      assert f[0].0 in Keys(f);
    }
  }

  /** The extraction of the first `i` properties of `d`. */
  function FilteredPrefix(chrPrefix: string, d: Dict<Value>, i: nat): (f: Dict<Value>)
    requires i <= |d|
    ensures i == |d| ==> f == Filtered(chrPrefix, d)
  {
    DistinctSlice(d, 0, i);
    assert d[..|d|] == d;
    Filtered(chrPrefix, d[..i])
  }

  /** One more property of `d` is stored, under its new key, iff its key qualifies. */
  lemma FilteredStep(chrPrefix: string, d: Dict<Value>, i: nat)
    requires i < |d|
    ensures FilteredPrefix(chrPrefix, d, i + 1) ==
            if Qualifies(chrPrefix, d[i].0) then Put(FilteredPrefix(chrPrefix, d, i), d[i].0, NullToZero(d[i].1))
            else FilteredPrefix(chrPrefix, d, i)
  {
    DistinctSlice(d, 0, i);
    DistinctSlice(d, 0, i + 1);
    KeyNotBefore(d, i);
    var prefix: Dict<Value> := d[..i];
    var next: Dict<Value> := d[..i + 1];
    assert next[..i] == prefix;
    assert next[i] == d[i];
    var f := Filtered(chrPrefix, prefix);
    if Qualifies(chrPrefix, d[i].0) {
      PutNewAppends(f, d[i].0, NullToZero(d[i].1));
    }
  }

  /** The output lists, in key order, the value (`null` read as 0) of each qualifying key, and nothing else. */
  lemma {:induction false} QualifyingValuesInKeyOrder(chrPrefix: string, d: Dict<Value>)
    ensures |Filtered(chrPrefix, d)| == CountQualifying(chrPrefix, Keys(d))
    ensures forall j :: 0 <= j < |Filtered(chrPrefix, d)| ==>
              var (key, value) := Filtered(chrPrefix, d)[j];
              Qualifies(chrPrefix, key) && Get(d, key).Some? && value == NullToZero(Get(d, key).value)
  {
    if d != [] {
      DistinctSlice(d, 0, |d| - 1);
      var init: Dict<Value> := d[..|d| - 1];
      QualifyingValuesInKeyOrder(chrPrefix, init);
      assert Keys(init) == Keys(d)[..|d| - 1];
      var f := Filtered(chrPrefix, d);
      var fi := Filtered(chrPrefix, init);
      forall j | 0 <= j < |f|
        ensures Qualifies(chrPrefix, f[j].0) && Get(d, f[j].0).Some? && f[j].1 == NullToZero(Get(d, f[j].0).value)
      {
        if j < |fi| {
          assert f[j] == fi[j];
          var k :| 0 <= k < |init| && init[k].0 == f[j].0;
          assert d[k] == init[k];
        } else {
          assert f[j] == (d[|d| - 1].0, NullToZero(d[|d| - 1].1));
        }
      }
    }
  }

  /** Extraction distributes over the concatenation of two objects with disjoint keys. */
  lemma {:induction false} FilteredAppend(chrPrefix: string, a: Dict<Value>, b: Dict<Value>)
    requires DistinctKeys(a + b)
    ensures Filtered(chrPrefix, a + b) == Filtered(chrPrefix, a) + Filtered(chrPrefix, b)
  {
    if b != [] {
      var ab: Dict<Value> := a + b;
      DistinctSlice(b, 0, |b| - 1);
      var b': Dict<Value> := b[..|b| - 1];
      DistinctSlice(ab, 0, |ab| - 1);
      assert ab[..|ab| - 1] == a + b';
      var (key, value) := b[|b| - 1];
      assert ab[|ab| - 1] == (key, value);
      var last: seq<(string, Value)> := if Qualifies(chrPrefix, key) then [(key, NullToZero(value))] else [];
      var fa: seq<(string, Value)>, fb': seq<(string, Value)> := Filtered(chrPrefix, a), Filtered(chrPrefix, b');
      assert Filtered(chrPrefix, ab) == Filtered(chrPrefix, a + b') + last;
      assert Filtered(chrPrefix, b) == fb' + last;
      FilteredAppend(chrPrefix, a, b');
      assert (fa + fb') + last == fa + (fb' + last);
    } else {
      assert a + b == a;
    }
  }

  /** The panel variant `..._combined_PRS313` never qualifies. */
  lemma Prs313KeysExcluded(chrPrefix: string, key: string)
    requires EndsWith(key, "_combined_PRS313")
    ensures !Qualifies(chrPrefix, key)
  {
    assert key[|key| - 1] == '3';
  }

  /**
   * A key qualifies for at most one chromosome: because the prefix ends
   * with `_`, the features of `chr1` never pick up those of `chr10` to
   * `chr19`.
   */
  lemma PrefixesDisjoint(n: nat, m: nat, key: string)
    requires StartsWith(key, ChrPrefix(n)) && StartsWith(key, ChrPrefix(m))
    ensures n == m
  {
    var a, b := NatToString(n), NatToString(m);
    DigitsThenUnderscore(n, key);
    DigitsThenUnderscore(m, key);
    assert |a| == |b|;
    NatToStringInjective(n, m);
  }

  /**
   * A key with the prefix of chromosome `n` has the digits of `n` after
   * `chr`, then `_`.
   */
  lemma DigitsThenUnderscore(n: nat, key: string)
    requires StartsWith(key, ChrPrefix(n))
    ensures 3 + |NatToString(n)| < |key| && key[3 + |NatToString(n)|] == '_'
    ensures key[3..3 + |NatToString(n)|] == NatToString(n)
    ensures forall j :: 3 <= j < 3 + |NatToString(n)| ==> IsDigit(key[j])
  {
    var a := NatToString(n);
    assert ChrPrefix(n) == "chr" + a + "_";
    PrefixLayout(a, key);
  }

  /** A key that starts with `chr`, then `a`, then `_` holds `a` at offset 3 and `_` right after it. */
  lemma PrefixLayout(a: string, key: string)
    requires StartsWith(key, "chr" + a + "_")
    ensures 3 + |a| < |key| && key[3 + |a|] == '_'
    ensures key[3..3 + |a|] == a
    ensures forall j :: 3 <= j < 3 + |a| ==> key[j] == a[j - 3]
  {
    var prefix := "chr" + a + "_";
    assert forall j :: 0 <= j < |prefix| ==> key[j] == prefix[j];
    assert forall j :: 3 <= j < 3 + |a| ==> prefix[j] == a[j - 3];
    assert prefix[3 + |a|] == '_';
  }
}
