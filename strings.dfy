/**
 * The few PHP string functions the controllers rely on: `explode`,
 * `implode`, and single-pair `str_replace` / `strtr`.
 */
module Strings {

  /** `explode(c, s)` for a one-character separator: never empty. */
  function Split(s: string, c: char): (parts: seq<string>)
    ensures |parts| >= 1
  {
    if s == [] then [[]]
    else if s[0] == c then [[]] + Split(s[1..], c)
    else
      var rest := Split(s[1..], c);
      [[s[0]] + rest[0]] + rest[1..]
  }

  /** `implode(c, parts)`. */
  function Join(parts: seq<string>, c: char): string
  {
    if parts == [] then []
    else if |parts| == 1 then parts[0]
    else parts[0] + [c] + Join(parts[1..], c)
  }

  /** `n` occurs in `s` starting at position i. */
  ghost predicate OccursAt(s: string, n: string, i: int) {
    0 <= i && i + |n| <= |s| && s[i..i + |n|] == n
  }

  /**
   * `str_replace(n, r, s)` (and `strtr(s, [n => r])`, which behaves the same
   * for one pair): every non-overlapping occurrence of `n`, scanning from the
   * left, is replaced by `r`. An empty `n` leaves `s` unchanged.
   */
  function ReplaceAll(s: string, n: string, r: string): string
    decreases |s|
  {
    if n == [] || |s| < |n| then s
    else if s[..|n|] == n then r + ReplaceAll(s[|n|..], n, r)
    else [s[0]] + ReplaceAll(s[1..], n, r)
  }

  lemma {:induction false} SplitNoSeparator(a: string, c: char)
    requires c !in a
    ensures Split(a, c) == [a]
  {
    if a != [] {
      SplitNoSeparator(a[1..], c);
      assert [a[0]] + a[1..] == a;
    }
  }

  lemma {:induction false} SplitAfterSeparator(a: string, c: char, b: string)
    requires c !in a
    ensures Split(a + [c] + b, c) == [a] + Split(b, c)
  {
    if a == [] {
      assert a + [c] + b == [c] + b;
      assert ([c] + b)[1..] == b;
    } else {
      SplitAfterSeparator(a[1..], c, b);
      assert (a + [c] + b)[1..] == a[1..] + [c] + b;
      assert [a[0]] + a[1..] == a;
    }
  }

  /** `explode` undoes `implode` when no part contains the separator. */
  lemma {:induction false} SplitJoin(parts: seq<string>, c: char)
    requires parts != []
    requires forall i :: 0 <= i < |parts| ==> c !in parts[i]
    ensures Split(Join(parts, c), c) == parts
  {
    if |parts| == 1 {
      SplitNoSeparator(parts[0], c);
    } else {
      SplitJoin(parts[1..], c);
      SplitAfterSeparator(parts[0], c, Join(parts[1..], c));
    }
  }

  /** Occurrences in a suffix are occurrences in the whole string, shifted. */
  lemma OccursShift(s: string, n: string, d: nat, i: nat)
    requires d <= |s|
    ensures OccursAt(s[d..], n, i) <==> OccursAt(s, n, i + d)
  {
    if i + |n| <= |s| - d {
      assert s[d..][i..i + |n|] == s[i + d..i + d + |n|];
    }
  }

  lemma {:induction false} ReplaceAbsent(s: string, n: string, r: string)
    requires forall i :: !OccursAt(s, n, i)
    ensures ReplaceAll(s, n, r) == s
    decreases |s|
  {
    if n != [] && |s| >= |n| {
      assert !OccursAt(s, n, 0);
      forall i ensures !OccursAt(s[1..], n, i) {
        if i >= 0 { OccursShift(s, n, 1, i); }
      }
      ReplaceAbsent(s[1..], n, r);
      assert [s[0]] + s[1..] == s;
    }
  }

  lemma ReplaceMiss(s: string, n: string, r: string)
    requires n != [] && |n| <= |s| && !OccursAt(s, n, 0)
    ensures ReplaceAll(s, n, r) == [s[0]] + ReplaceAll(s[1..], n, r)
  {
  }

  lemma ReplaceHit(s: string, n: string, r: string)
    requires n != [] && OccursAt(s, n, 0)
    ensures ReplaceAll(s, n, r) == r + ReplaceAll(s[|n|..], n, r)
  {
  }

  /** A character that cannot start `n` is copied through. */
  lemma ReplaceSkip(c: char, t: string, n: string, r: string)
    requires n != [] && n[0] != c
    ensures ReplaceAll([c] + t, n, r) == [c] + ReplaceAll(t, n, r)
  {
    var s := [c] + t;
    assert s[1..] == t;
    if |s| >= |n| {
      assert s[..|n|][0] == c;
    }
  }

  /** An occurrence at the front is replaced, and scanning resumes after it. */
  lemma ReplacePrefix(n: string, t: string, r: string)
    requires n != []
    ensures ReplaceAll(n + t, n, r) == r + ReplaceAll(t, n, r)
  {
    var s := n + t;
    assert s[..|n|] == n;
    assert s[|n|..] == t;
  }

  /** `n` occurs in `s` at position k and nowhere else. */
  ghost predicate OccursOnlyAt(s: string, n: string, k: nat) {
    OccursAt(s, n, k) && forall i :: i != k ==> !OccursAt(s, n, i)
  }

  /**
   * When `n` occurs exactly once in `s`, at position k, replacing all
   * occurrences is the same as replacing that one slice.
   */
  lemma {:induction false} ReplaceUnique(s: string, n: string, r: string, k: nat)
    requires n != []
    requires OccursOnlyAt(s, n, k)
    ensures ReplaceAll(s, n, r) == s[..k] + r + s[k + |n|..]
    decreases k
  {
    if k == 0 {
      ReplaceUniqueFront(s, n, r);
    } else {
      var t := s[1..];
      ReplaceUniqueShift(s, n, r, k);
      ReplaceUnique(t, n, r, k - 1);
      ConsConcat(s[0], t[..k - 1], r, t[k - 1 + |n|..]);
    }
  }

  lemma ConsConcat<T>(x: T, a: seq<T>, b: seq<T>, c: seq<T>)
    ensures [x] + (a + b + c) == ([x] + a) + b + c
  {
  }

  lemma ReplaceUniqueFront(s: string, n: string, r: string)
    requires n != [] && OccursOnlyAt(s, n, 0)
    ensures ReplaceAll(s, n, r) == r + s[|n|..]
  {
    ReplaceHit(s, n, r);
    forall i ensures !OccursAt(s[|n|..], n, i) {
      if i >= 0 { OccursShift(s, n, |n|, i); }
    }
    ReplaceAbsent(s[|n|..], n, r);
  }

  /** Past a first character that starts no occurrence, the only occurrence moves one place left. */
  lemma ReplaceUniqueShift(s: string, n: string, r: string, k: nat)
    requires n != [] && 0 < k && OccursOnlyAt(s, n, k)
    ensures OccursOnlyAt(s[1..], n, k - 1)
    ensures ReplaceAll(s, n, r) == [s[0]] + ReplaceAll(s[1..], n, r)
    ensures s[..k] == [s[0]] + s[1..][..k - 1] && s[1..][k - 1 + |n|..] == s[k + |n|..]
  {
    var t := s[1..];
    assert !OccursAt(s, n, 0);
    ReplaceMiss(s, n, r);
    OccursShift(s, n, 1, k - 1);
    forall i | i != k - 1 ensures !OccursAt(t, n, i) {
      if i >= 0 { OccursShift(s, n, 1, i); }
    }
  }
}
