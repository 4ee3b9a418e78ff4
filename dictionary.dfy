/** `Dictionary.compactMapKeys` (dictionary.swift): re-key a dictionary, dropping keys the transform rejects. */
module DictionaryUtil {
  import opened Wrappers

  /** The new keys: every non-nil image of an old key. */
  ghost function Images<K, T>(keys: set<K>, transform: K -> Option<T>): set<T>
  {
    set k | k in keys && transform(k).Some? :: transform(k).value
  }

  /** Different keys never get the same new key. */
  ghost predicate Injective<K, T>(keys: set<K>, transform: K -> Option<T>)
  {
    forall k, k' | k in keys && k' in keys && transform(k).Some? && transform(k) == transform(k') :: k == k'
  }

  /** Every entry of `result` carries the value of some key of `keys` that maps to it. */
  ghost predicate ValuesFrom<K, T, V>(result: map<T, V>, m: map<K, V>, keys: set<K>, transform: K -> Option<T>)
    requires keys <= m.Keys
  {
    forall t | t in result :: exists k | k in keys :: transform(k) == Some(t) && m[k] == result[t]
  }

  /** Every key of `keys` with a new key has an entry there. */
  ghost predicate Covers<K, T, V>(result: map<T, V>, keys: set<K>, transform: K -> Option<T>)
  {
    forall k | k in keys && transform(k).Some? :: transform(k).value in result
  }

  /** Under an injective transform each visited key's value sits at its new key. */
  ghost predicate ValuesKept<K, T, V>(result: map<T, V>, m: map<K, V>, keys: set<K>, transform: K -> Option<T>)
    requires keys <= m.Keys
  {
    forall k | k in keys && transform(k).Some? :: transform(k).value in result && result[transform(k).value] == m[k]
  }

  /** The map after visiting `key`. */
  function Visit<K, T, V>(result: map<T, V>, m: map<K, V>, key: K, transform: K -> Option<T>): map<T, V>
    requires key in m
  {
    if transform(key).Some? then result[transform(key).value := m[key]] else result
  }

  lemma ValuesFromStep<K, T, V>(result: map<T, V>, m: map<K, V>, done: set<K>, key: K, transform: K -> Option<T>)
    requires done <= m.Keys && key in m
    requires ValuesFrom(result, m, done, transform)
    ensures ValuesFrom(Visit(result, m, key, transform), m, done + {key}, transform)
  {
    var r' := Visit(result, m, key, transform);
    forall t | t in r'
      ensures exists k | k in done + {key} :: transform(k) == Some(t) && m[k] == r'[t]
    {
      if transform(key) == Some(t) {
        assert m[key] == r'[t];
      } else {
        var k :| k in done && transform(k) == Some(t) && m[k] == result[t];
        assert k in done + {key};
      }
    }
  }

  lemma CoversStep<K, T, V>(result: map<T, V>, m: map<K, V>, done: set<K>, key: K, transform: K -> Option<T>)
    requires key in m
    requires Covers(result, done, transform)
    ensures Covers(Visit(result, m, key, transform), done + {key}, transform)
  {
  }

  /** Under an injective transform a key not yet visited has a new key not yet taken. */
  lemma NewKeyUnused<K, T, V>(result: map<T, V>, m: map<K, V>, done: set<K>, key: K, transform: K -> Option<T>)
    requires done <= m.Keys && key in m && key !in done && transform(key).Some?
    requires ValuesFrom(result, m, done, transform)
    requires Injective(m.Keys, transform)
    ensures transform(key).value !in result
  {
  }

  lemma KeptStep<K, T, V>(result: map<T, V>, m: map<K, V>, done: set<K>, key: K, transform: K -> Option<T>)
    requires done <= m.Keys && key in m && key !in done
    requires ValuesFrom(result, m, done, transform) && ValuesKept(result, m, done, transform)
    requires Injective(m.Keys, transform)
    ensures ValuesKept(Visit(result, m, key, transform), m, done + {key}, transform)
  {
  }

  lemma SizeStep<K, T, V>(result: map<T, V>, m: map<K, V>, done: set<K>, key: K, transform: K -> Option<T>)
    requires done <= m.Keys && key in m && key !in done
    requires ValuesFrom(result, m, done, transform)
    requires |result| <= |done|
    ensures |Visit(result, m, key, transform)| <= |done + {key}|
    ensures Injective(m.Keys, transform) && transform(key).Some? && |result| == |done|
            ==> |Visit(result, m, key, transform)| == |done + {key}|
  {
    assert |done + {key}| == |done| + 1;
    if transform(key).Some? {
      var t := transform(key).value;
      assert Visit(result, m, key, transform).Keys == result.Keys + {t};
      if Injective(m.Keys, transform) {
        NewKeyUnused(result, m, done, key, transform);
      }
    }
  }

  /** What the loop has built after visiting the keys `done`. */
  ghost predicate Built<K, T, V>(result: map<T, V>, m: map<K, V>, done: set<K>, transform: K -> Option<T>)
  {
    && done <= m.Keys
    && ValuesFrom(result, m, done, transform)
    && Covers(result, done, transform)
    && |result| <= |done|
    && (Injective(m.Keys, transform) ==> ValuesKept(result, m, done, transform))
    && (Injective(m.Keys, transform) && (forall k | k in m :: transform(k).Some?) ==> |result| == |done|)
  }

  /** Visiting one more key keeps `Built`. */
  lemma BuiltStep<K, T, V>(result: map<T, V>, m: map<K, V>, done: set<K>, key: K, transform: K -> Option<T>)
    requires Built(result, m, done, transform)
    requires key in m && key !in done
    ensures Built(Visit(result, m, key, transform), m, done + {key}, transform)
  {
    ValuesFromStep(result, m, done, key, transform);
    CoversStep(result, m, done, key, transform);
    SizeStep(result, m, done, key, transform);
    if Injective(m.Keys, transform) {
      KeptStep(result, m, done, key, transform);
    }
  }

  /**
   * The loop visits the entries in an unspecified order; when two keys map to the same new key,
   * the later one's value wins, so only the value of *some* such key is promised.
   */
  method CompactMapKeys<K(==), T(==), V>(m: map<K, V>, transform: K -> Option<T>) returns (result: map<T, V>)
    ensures result.Keys == Images(m.Keys, transform)
    ensures forall t | t in result :: exists k | k in m :: transform(k) == Some(t) && m[k] == result[t]
    ensures |result| <= |m|
    ensures Injective(m.Keys, transform) ==>
      forall k | k in m && transform(k).Some? :: result[transform(k).value] == m[k]
    ensures Injective(m.Keys, transform) && (forall k | k in m :: transform(k).Some?) ==> |result| == |m|
    ensures (forall k | k in m :: transform(k).None?) ==> result == map[]
  {
    result := map[];
    var remaining := m.Keys;
    ghost var done: set<K> := {};
    while remaining != {}
      invariant remaining == m.Keys - done
      invariant Built(result, m, done, transform)
      decreases remaining
    {
      var key :| key in remaining;
      BuiltStep(result, m, done, key, transform);
      result := Visit(result, m, key, transform);
      remaining := remaining - {key};
      done := done + {key};
    }
    assert done == m.Keys;
    assert |m| == |m.Keys|;
  }
}
