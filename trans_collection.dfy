/** Slice and map conversions (package `trans`, file collection.go). A nil slice or
    map is `None`; a Go map that is only ranged over is a plain `map`, since ranging
    over a nil map visits nothing, just as for an empty one. */
module TransCollection {
  import opened Wrappers
  import opened Trans

  /** The values behind a sequence of pointers, nil ones replaced by the default. */
  function ValuesOf<T>(ps: seq<Option<T>>, defaultValue: T): (vs: seq<T>)
    ensures |vs| == |ps|
    ensures forall i :: 0 <= i < |ps| ==> vs[i] == FromPtr(ps[i], defaultValue)
  {
    if ps == [] then [] else [FromPtr(ps[0], defaultValue)] + ValuesOf(ps[1..], defaultValue)
  }

  /** `SliceToPtrs`: nil stays nil; otherwise a pointer to each element, in order. */
  method SliceToPtrs<T>(slice: Option<seq<T>>) returns (result: Option<seq<Option<T>>>)
    ensures slice.None? ==> result.None?
    ensures slice.Some? ==> result == Some(PtrsOf(slice.value))
  {
    if slice.None? {
      return None;
    }
    var s := slice.value;
    var a := new Option<T>[|s|](_ => None);
    for i := 0 to |s|
      invariant forall k :: 0 <= k < i ==> a[k] == ToPtr(s[k])
    {
      a[i] := ToPtr(s[i]);
    }
    assert a[..] == PtrsOf(s);
    result := Some(a[..]);
  }

  /** `SliceFromPtrs`: nil stays nil (an empty slice gives an empty, non-nil one);
      otherwise each pointee, or the default for a nil entry. */
  method SliceFromPtrs<T>(slice: Option<seq<Option<T>>>, defaultValue: T)
    returns (result: Option<seq<T>>)
    ensures slice.None? ==> result.None?
    ensures slice.Some? ==> result == Some(ValuesOf(slice.value, defaultValue))
  {
    if slice.None? {
      return None;
    }
    var s := slice.value;
    var a := new T[|s|](_ => defaultValue);
    for i := 0 to |s|
      invariant forall k :: 0 <= k < i ==> a[k] == FromPtr(s[k], defaultValue)
    {
      if s[i].Some? {
        a[i] := s[i].value;
      } else {
        a[i] := defaultValue;
      }
    }
    assert a[..] == ValuesOf(s, defaultValue);
    result := Some(a[..]);
  }

  /** Converting to pointers and back gives the original values, whatever the default. */
  lemma ValuesOfPtrsOf<T>(s: seq<T>, defaultValue: T)
    ensures ValuesOf(PtrsOf(s), defaultValue) == s
  {
  }

  /** Converting pointers to values and back keeps every non-nil entry's pointee and
      turns each nil entry into a pointer to the default. */
  lemma PtrsOfValuesOf<T>(ps: seq<Option<T>>, defaultValue: T)
    ensures |PtrsOf(ValuesOf(ps, defaultValue))| == |ps|
    ensures forall i :: 0 <= i < |ps| ==>
      PtrsOf(ValuesOf(ps, defaultValue))[i] == Some(ps[i].GetOr(defaultValue))
    ensures (forall i :: 0 <= i < |ps| ==> ps[i].Some?) ==> PtrsOf(ValuesOf(ps, defaultValue)) == ps
  {
  }

  /** `MapKeys`: every key exactly once, in the map's (unspecified) iteration order; the
      result is never nil. */
  method MapKeys<K, V>(source: map<K, V>) returns (target: seq<K>)
    ensures |target| == |source|
    ensures forall k :: k in source <==> k in target
    ensures forall i, j :: 0 <= i < j < |target| ==> target[i] != target[j]
  {
    target := [];
    var rest := source.Keys;
    while rest != {}
      invariant rest <= source.Keys
      invariant forall k :: k in target <==> k in source && k !in rest
      invariant |target| + |rest| == |source|
      invariant forall i, j :: 0 <= i < j < |target| ==> target[i] != target[j]
    {
      var k :| k in rest;
      target := target + [k];
      rest := rest - {k};
    }
  }

  /** The keys among `ks` that m maps to v. */
  ghost function KeysWithValue<K, V>(m: map<K, V>, ks: set<K>, v: V): set<K> {
    set k | k in ks && k in m && m[k] == v
  }

  /** `MapValues`: one entry per key, so each value occurs as often as there are keys
      mapping to it; the result is never nil. */
  method MapValues<K, V(==)>(source: map<K, V>) returns (target: seq<V>)
    ensures |target| == |source|
    ensures forall v :: multiset(target)[v] == |KeysWithValue(source, source.Keys, v)|
  {
    target := [];
    var rest := source.Keys;
    while rest != {}
      invariant rest <= source.Keys
      invariant |target| + |rest| == |source|
      invariant forall v :: multiset(target)[v] == |KeysWithValue(source, source.Keys - rest, v)|
    {
      var k :| k in rest;
      ghost var done := source.Keys - rest;
      target := target + [source[k]];
      rest := rest - {k};
      forall v
        ensures multiset(target)[v] == |KeysWithValue(source, source.Keys - rest, v)|
      {
        assert source.Keys - rest == done + {k};
        if source[k] == v {
          assert KeysWithValue(source, done + {k}, v) == KeysWithValue(source, done, v) + {k};
        } else {
          assert KeysWithValue(source, done + {k}, v) == KeysWithValue(source, done, v);
        }
      }
    }
    assert source.Keys - rest == source.Keys;
  }

  /** `MapFromPtrs`: nil stays nil (an empty map gives an empty, non-nil one); otherwise
      the same keys, each mapped to its pointee or to the default for a nil pointer. */
  method MapFromPtrs<K, V>(source: Option<map<K, Option<V>>>, defaultValue: V)
    returns (result: Option<map<K, V>>)
    ensures source.None? <==> result.None?
    ensures source.Some? ==> result.value.Keys == source.value.Keys
    ensures source.Some? ==> forall k :: k in source.value ==>
      result.value[k] == FromPtr(source.value[k], defaultValue)
  {
    if source.None? {
      return None;
    }
    var m := source.value;
    var r: map<K, V> := map[];
    var rest := m.Keys;
    while rest != {}
      invariant rest <= m.Keys
      invariant r.Keys == m.Keys - rest
      invariant forall k :: k in r ==> r[k] == FromPtr(m[k], defaultValue)
    {
      var k :| k in rest;
      if m[k].Some? {
        r := r[k := m[k].value];
      } else {
        r := r[k := defaultValue];
      }
      rest := rest - {k};
    }
    result := Some(r);
  }
}
