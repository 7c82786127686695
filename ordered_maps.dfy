/**
 * PHP arrays with string keys are ordered maps: assigning an existing key
 * keeps its position, assigning a new key appends it, `unset` removes it.
 * This module models such an array as a sequence of key/value pairs.
 */
module OrderedMaps {

  import opened Wrappers

  type OMap<K, V> = seq<(K, V)>

  /** The keys in array order. */
  function Keys<K, V>(m: OMap<K, V>): (ks: seq<K>)
    ensures |ks| == |m|
  {
    if m == [] then [] else [m[0].0] + Keys(m[1..])
  }

  /** No key occurs twice: what every PHP array satisfies. */
  ghost predicate Distinct<K, V>(m: OMap<K, V>) {
    forall i, j :: 0 <= i < j < |m| ==> m[i].0 != m[j].0
  }

  ghost predicate DistinctSeq<K>(ks: seq<K>) {
    forall i, j :: 0 <= i < j < |ks| ==> ks[i] != ks[j]
  }

  /** `$m[$k]` when `isset`-style presence is asked for: the first pair with key k. */
  function Get<K(==), V>(m: OMap<K, V>, k: K): (r: Option<V>)
    ensures r.Some? <==> k in Keys(m)
  {
    if m == [] then None
    else if m[0].0 == k then Some(m[0].1)
    else Get(m[1..], k)
  }

  /** `$m[$k] = $v`: replaces the value in place or appends a new pair. */
  function Set<K(==), V>(m: OMap<K, V>, k: K, v: V): OMap<K, V>
  {
    if m == [] then [(k, v)]
    else if m[0].0 == k then [(k, v)] + m[1..]
    else [m[0]] + Set(m[1..], k, v)
  }

  /** `unset($m[$k])`. */
  function Remove<K(==), V>(m: OMap<K, V>, k: K): OMap<K, V>
  {
    if m == [] then []
    else if m[0].0 == k then Remove(m[1..], k)
    else [m[0]] + Remove(m[1..], k)
  }

  /**
   * Assigns every pair of `b`, in order, onto `a`: what a flat (non-nested)
   * merge of two string-keyed arrays does.
   */
  function Merge<K(==), V>(a: OMap<K, V>, b: OMap<K, V>): OMap<K, V>
    decreases |b|
  {
    if b == [] then a else Merge(Set(a, b[0].0, b[0].1), b[1..])
  }

  /** The elements of `xs` that are not in `ks`, in the order of `xs`. */
  function Fresh<K(==)>(ks: seq<K>, xs: seq<K>): seq<K>
  {
    if xs == [] then []
    else if xs[0] in ks then Fresh(ks, xs[1..])
    else [xs[0]] + Fresh(ks, xs[1..])
  }

  lemma {:induction false} SetGet<K, V>(m: OMap<K, V>, k: K, v: V, k': K)
    ensures Get(Set(m, k, v), k') == if k' == k then Some(v) else Get(m, k')
  {
    if m != [] && m[0].0 != k {
      SetGet(m[1..], k, v, k');
      assert Set(m, k, v)[1..] == Set(m[1..], k, v);
    } else if m != [] {
      assert Set(m, k, v)[1..] == m[1..];
    }
  }

  /** Assigning a key that is present overwrites its first occurrence in place. */
  lemma {:induction false} SetExisting<K, V>(m: OMap<K, V>, k: K, v: V, i: nat)
    requires i < |m| && m[i].0 == k
    requires forall j :: 0 <= j < i ==> m[j].0 != k
    ensures Set(m, k, v) == m[i := (k, v)]
  {
    if i > 0 {
      SetExisting(m[1..], k, v, i - 1);
      assert [m[0]] + m[1..][i - 1 := (k, v)] == m[i := (k, v)];
    }
  }

  /** Assigning a key that is absent appends it. */
  lemma {:induction false} SetFreshKey<K, V>(m: OMap<K, V>, k: K, v: V)
    requires k !in Keys(m)
    ensures Set(m, k, v) == m + [(k, v)]
  {
    if m != [] {
      SetFreshKey(m[1..], k, v);
      assert [m[0]] + (m[1..] + [(k, v)]) == m + [(k, v)];
    }
  }

  lemma {:induction false} SetKeys<K, V>(m: OMap<K, V>, k: K, v: V)
    ensures Keys(Set(m, k, v)) == if k in Keys(m) then Keys(m) else Keys(m) + [k]
  {
    if m == [] {
    } else if m[0].0 == k {
      assert Set(m, k, v)[1..] == m[1..];
    } else {
      SetKeys(m[1..], k, v);
      assert Set(m, k, v)[1..] == Set(m[1..], k, v);
    }
  }

  lemma {:induction false} KeysDistinct<K, V>(m: OMap<K, V>)
    ensures Distinct(m) <==> DistinctSeq(Keys(m))
  {
    KeysAt(m);
  }

  lemma {:induction false} KeysAt<K, V>(m: OMap<K, V>)
    ensures forall i :: 0 <= i < |m| ==> Keys(m)[i] == m[i].0
  {
    if m != [] {
      KeysAt(m[1..]);
      forall i | 0 < i < |m| ensures Keys(m)[i] == m[i].0 {
        assert Keys(m)[i] == Keys(m[1..])[i - 1];
      }
    }
  }

  lemma {:induction false} SetDistinct<K, V>(m: OMap<K, V>, k: K, v: V)
    requires Distinct(m)
    ensures Distinct(Set(m, k, v))
  {
    KeysDistinct(m);
    SetKeys(m, k, v);
    KeysDistinct(Set(m, k, v));
  }

  lemma {:induction false} MergeDistinct<K, V>(a: OMap<K, V>, b: OMap<K, V>)
    requires Distinct(a)
    ensures Distinct(Merge(a, b))
    decreases |b|
  {
    if b != [] {
      SetDistinct(a, b[0].0, b[0].1);
      MergeDistinct(Set(a, b[0].0, b[0].1), b[1..]);
    }
  }

  /** A value assigned by the right-hand array wins; other keys keep their old value. */
  lemma {:induction false} MergeGet<K, V>(a: OMap<K, V>, b: OMap<K, V>, k: K)
    requires Distinct(b)
    ensures Get(Merge(a, b), k) == if k in Keys(b) then Get(b, k) else Get(a, k)
    decreases |b|
  {
    if b != [] {
      var a' := Set(a, b[0].0, b[0].1);
      DistinctTail(b);
      MergeGet(a', b[1..], k);
      SetGet(a, b[0].0, b[0].1, k);
    }
  }

  /** The tail of a distinct array is distinct and does not repeat the head's key. */
  lemma DistinctTail<K, V>(m: OMap<K, V>)
    requires Distinct(m) && m != []
    ensures Distinct(m[1..]) && m[0].0 !in Keys(m[1..])
  {
    KeysAt(m[1..]);
    forall i, j | 0 <= i < j < |m[1..]| ensures m[1..][i].0 != m[1..][j].0 {
      assert m[1..][i] == m[i + 1] && m[1..][j] == m[j + 1];
    }
    forall j | 0 <= j < |m[1..]| ensures Keys(m[1..])[j] != m[0].0 {
      assert m[1..][j] == m[j + 1];
    }
  }

  lemma {:induction false} FreshSkip<K>(ks: seq<K>, k: K, xs: seq<K>)
    requires k !in xs
    ensures Fresh(ks + [k], xs) == Fresh(ks, xs)
  {
    if xs != [] {
      FreshSkip(ks, k, xs[1..]);
    }
  }

  /**
   * Keys already in `a` keep their position; keys new to `a` are appended in
   * the order in which `b` gives them.
   */
  lemma {:induction false} MergeKeys<K, V>(a: OMap<K, V>, b: OMap<K, V>)
    requires Distinct(b)
    ensures Keys(Merge(a, b)) == Keys(a) + Fresh(Keys(a), Keys(b))
    decreases |b|
  {
    if b != [] {
      var k, v := b[0].0, b[0].1;
      var a' := Set(a, k, v);
      var rest := Fresh(Keys(a), Keys(b[1..]));
      DistinctTail(b);
      MergeKeys(a', b[1..]);
      SetKeys(a, k, v);
      assert Keys(b) == [k] + Keys(b[1..]);
      if k !in Keys(a) {
        FreshSkip(Keys(a), k, Keys(b[1..]));
        assert Fresh(Keys(a), Keys(b)) == [k] + rest;
        AppendAssoc(Keys(a), [k], rest);
      } else {
        assert Fresh(Keys(a), Keys(b)) == rest;
      }
    }
  }

  lemma AppendAssoc<T>(x: seq<T>, y: seq<T>, z: seq<T>)
    ensures x + y + z == x + (y + z)
  {
  }

  lemma {:induction false} RemoveGet<K, V>(m: OMap<K, V>, k: K, k': K)
    ensures Get(Remove(m, k), k') == if k' == k then None else Get(m, k')
  {
    if m != [] {
      RemoveGet(m[1..], k, k');
      if m[0].0 != k {
        assert Remove(m, k)[1..] == Remove(m[1..], k);
      }
    }
  }

  /** Removing a key that is not there changes nothing. */
  lemma {:induction false} RemoveAbsent<K, V>(m: OMap<K, V>, k: K)
    requires k !in Keys(m)
    ensures Remove(m, k) == m
  {
    if m != [] {
      assert Keys(m) == [m[0].0] + Keys(m[1..]);
      RemoveAbsent(m[1..], k);
    }
  }
}
