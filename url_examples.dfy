/**
 * Worked inputs for Url::urlQueryMerge: the example of
 * tests/unit/UrlHelperTest.php, and the two inputs on which the helper as
 * written departs from the intended merge.
 */
module UrlHelperExamples {

  import opened Wrappers
  import opened OrderedMaps
  import opened Strings
  import opened UrlHelper
  import Php

  /** A value that `http_build_query` and `parse_str` carry through unchanged. */
  predicate Plain(s: string) {
    '&' !in s && '=' !in s && '#' !in s && '?' !in s
  }

  /** A key `parse_str` keeps under its own name. */
  predicate PlainKey(s: string) {
    Plain(s) && ' ' !in s && '.' !in s && '[' !in s
  }

  /**
   * The worked example of tests/unit/UrlHelperTest.php with its text left
   * open: the test takes `base` = "https://testurl.com:999/directory1/directory2/page",
   * `frag` = "#hyperlink", keys "a" to "d", values "123", "456", "abc" and
   * `w` = "new_value". The existing key `b` is overwritten in place and the
   * new key `d` is appended; ThreePairs and FourPairs spell out the two
   * query strings.
   */
  lemma MergeExample(base: string, frag: string, a: string, b: string, c: string, d: string,
                     va: string, vb: string, vc: string, w: string)
    requires '#' !in base && '?' !in base && (frag == "" || frag[0] == '#')
    requires a != "" && b != "" && c != "" && d != ""
    requires a != b && a != c && a != d && b != c && b != d && c != d
    requires PlainKey(a) && PlainKey(b) && PlainKey(c) && PlainKey(d) && Plain(va) && Plain(vb) && Plain(vc) && Plain(w)
    ensures UrlQueryMerge(base + "?" + BuildQuery([(a, va), (b, vb), (c, vc)]) + frag, [(b, w), (d, w)])
         == Some(base + "?" + BuildQuery([(a, va), (b, w), (c, vc), (d, w)]) + frag)
  {
    var original: Params := [(a, va), (b, vb), (c, vc)];
    var q := BuildQuery(original);
    KeyNamePlain(a);
    KeyNamePlain(b);
    KeyNamePlain(c);
    assert WellFormed(original) && Distinct(original);
    BuildQueryHasNoHash(original);
    ParseBuild(original);
    var parts := UrlParts(base, Some(q), frag);
    AssembleWithQuery(base, q, frag);
    var params: Params := [(b, w), (d, w)];
    MergeOfParts(parts, params);
    var merged: Params := [(a, va), (b, w), (c, vc), (d, w)];
    ThreePairs(a, va, b, vb, c, vc);
    assert q != "";
    assert ParseQuery(q) == original;
    ExampleMerge(a, b, c, d, va, vb, vc, w);
    assert Merge(ParseQuery(q), params) == merged;
    AssembleWithQuery(base, BuildQuery(merged), frag);
  }

  /**
   * The same example for the helper as written, which is what the unit test
   * calls: the test's URL has no `=` outside its query, so the query text
   * occurs once and `str_replace` rewrites the query alone.
   */
  lemma MergeExampleAsWritten(base: string, frag: string, a: string, b: string, c: string, d: string,
                              va: string, vb: string, vc: string, w: string)
    requires '#' !in base && '?' !in base && (frag == "" || frag[0] == '#')
    requires '=' !in base && '=' !in frag
    requires !Rejected(base + "?" + BuildQuery([(a, va), (b, vb), (c, vc)]) + frag)
    requires a != "" && b != "" && c != "" && d != ""
    requires a != b && a != c && a != d && b != c && b != d && c != d
    requires PlainKey(a) && PlainKey(b) && PlainKey(c) && PlainKey(d) && Plain(va) && Plain(vb) && Plain(vc) && Plain(w)
    ensures UrlQueryMergeAsWritten(base + "?" + BuildQuery([(a, va), (b, vb), (c, vc)]) + frag, [(b, w), (d, w)])
         == Some(base + "?" + BuildQuery([(a, va), (b, w), (c, vc), (d, w)]) + frag)
  {
    MergeExample(base, frag, a, b, c, d, va, vb, vc, w);
    ThreeQueryChars(a, va, b, vb, c, vc);
    AsWrittenAgreesOnceOnly(base, BuildQuery([(a, va), (b, vb), (c, vc)]), frag, |a|, [(b, w), (d, w)]);
  }

  /** On a URL with no `=` outside its query, the helper as written and the intended merge agree. */
  lemma AsWrittenAgreesOnceOnly(base: string, q: string, frag: string, j: nat, params: Params)
    requires '#' !in base && '?' !in base && '=' !in base
    requires (frag == "" || frag[0] == '#') && '=' !in frag
    requires j < |q| && q[j] == '=' && '?' !in q && '#' !in q && params != []
    requires !Rejected(base + "?" + q + frag)
    ensures UrlQueryMergeAsWritten(base + "?" + q + frag, params) == UrlQueryMerge(base + "?" + q + frag, params)
  {
    var parts := UrlParts(base, Some(q), frag);
    QueryOccursOnce(base, q, frag, j);
    AssembleWithQuery(base, q, frag);
    AsWrittenAgreesWhenQueryUnique(parts, params);
  }

  /**
   * A query text with an `=` but no `?` or `#` occurs in a URL only as its
   * query when there is no `=` before or after it.
   */
  lemma QueryOccursOnce(base: string, q: string, frag: string, j: nat)
    requires j < |q| && q[j] == '=' && '?' !in q && '#' !in q
    requires '=' !in base && '=' !in frag && (frag == "" || frag[0] == '#')
    ensures OccursOnlyAt(base + "?" + q + frag, q, |base| + 1)
  {
    var s := base + "?" + q + frag;
    var k := |base| + 1;
    assert s[k..k + |q|] == q;
    assert forall p :: 0 <= p < |base| ==> s[p] == base[p];
    assert forall p :: k + |q| <= p < |s| ==> s[p] == frag[p - k - |q|];
    forall i | OccursAt(s, q, i)
      ensures i == k
    {
      OnlyOccurrence(s, q, k, j, i);
    }
  }

  /** The three-pair query has its first `=` right after the first key, and no `?` or `#`. */
  lemma ThreeQueryChars(a: string, va: string, b: string, vb: string, c: string, vc: string)
    requires a != "" && PlainKey(a) && Plain(va) && PlainKey(b) && Plain(vb) && PlainKey(c) && Plain(vc)
    ensures var q := BuildQuery([(a, va), (b, vb), (c, vc)]);
      |a| < |q| && q[|a|] == '=' && '?' !in q && '#' !in q
  {
    ThreePairs(a, va, b, vb, c, vc);
    var q := BuildQuery([(a, va), (b, vb), (c, vc)]);
    assert q == a + ("=" + (va + ("&" + (b + ("=" + (vb + ("&" + (c + ("=" + vc)))))))));
  }

  /** The characters of an occurrence are those of the text. */
  lemma OccurrenceChars(s: string, q: string, i: int)
    requires OccursAt(s, q, i)
    ensures forall t :: 0 <= t < |q| ==> s[i + t] == q[t]
  {
    forall t | 0 <= t < |q| ensures s[i + t] == q[t] {
      assert s[i..i + |q|][t] == s[i + t];
    }
  }

  /**
   * The step of QueryOccursOnce: an occurrence must hold its `=` inside the
   * query, so it can neither cover the `?` before the query nor the `#`
   * after it.
   */
  lemma OnlyOccurrence(s: string, q: string, k: nat, j: nat, i: int)
    requires OccursAt(s, q, i) && 1 <= k && k + |q| <= |s| && j < |q| && q[j] == '='
    requires s[k - 1] == '?' && (k + |q| < |s| ==> s[k + |q|] == '#')
    requires forall p :: 0 <= p < k - 1 ==> s[p] != '='
    requires forall p :: k + |q| <= p < |s| ==> s[p] != '='
    requires '?' !in q && '#' !in q
    ensures i == k
  {
    OccurrenceChars(s, q, i);
    assert s[i + j] == '=';
    assert k <= i + j < k + |q|;
    assert !(i <= k - 1 < i + |q|) by {
      assert forall t :: 0 <= t < |q| ==> q[t] != '?';
    }
    assert !(i <= k + |q| < i + |q| && k + |q| < |s|) by {
      assert forall t :: 0 <= t < |q| ==> q[t] != '#';
    }
  }

  /** `b` keeps its place with its new value; `d` goes to the end. */
  lemma ExampleMerge(a: string, b: string, c: string, d: string, va: string, vb: string, vc: string, w: string)
    requires a != b && a != d && b != c && c != d && b != d
    ensures Merge([(a, va), (b, vb), (c, vc)], [(b, w), (d, w)]) == [(a, va), (b, w), (c, vc), (d, w)]
  {
    var original := [(a, va), (b, vb), (c, vc)];
    var params := [(b, w), (d, w)];
    var m1 := [(a, va), (b, w), (c, vc)];
    SetExisting(original, b, w, 1);
    assert original[1 := (b, w)] == m1;
    KeysAt(m1);
    assert d !in Keys(m1);
    SetFreshKey(m1, d, w);
    assert params[1..] == [(d, w)];
    assert Merge(original, params) == Merge(Set(original, b, w), [(d, w)]);
    assert Merge(m1, [(d, w)]) == Merge(Set(m1, d, w), []);
    assert Set(m1, d, w) == m1 + [(d, w)];
    assert m1 + [(d, w)] == [(a, va), (b, w), (c, vc), (d, w)];
  }

  lemma FourPairs(a: string, va: string, b: string, vb: string, c: string, vc: string, d: string, vd: string)
    ensures BuildQuery([(a, va), (b, vb), (c, vc), (d, vd)])
         == a + "=" + va + "&" + b + "=" + vb + "&" + c + "=" + vc + "&" + d + "=" + vd
  {
    var m := [(a, va), (b, vb), (c, vc), (d, vd)];
    BuildQueryCons(m);
    assert m[1..] == [(b, vb), (c, vc), (d, vd)];
    ThreePairs(b, vb, c, vc, d, vd);
  }

  lemma ThreePairs(a: string, va: string, b: string, vb: string, c: string, vc: string)
    ensures BuildQuery([(a, va), (b, vb), (c, vc)]) == a + "=" + va + "&" + b + "=" + vb + "&" + c + "=" + vc
  {
    var m := [(a, va), (b, vb), (c, vc)];
    BuildQueryCons(m);
    assert m[1..] == [(b, vb), (c, vc)];
    BuildQueryCons(m[1..]);
    assert m[1..][1..] == [(c, vc)];
    BuildQueryCons(m[1..][1..]);
  }

  /**
   * As written, a query text that also occurs in the path is replaced there
   * too: for "/a?a" and the pair x=1 the helper returns "/a=&x=1?a=&x=1",
   * where the intended merge gives "/a?a=&x=1".
   */
  lemma AsWrittenReplacesInPath(k: string, x: string, v: string)
    requires !Empty(k) && PlainKey(k) && '/' !in k && ':' !in k
    requires x != "" && PlainKey(x) && Plain(v) && x != k
    ensures var r := k + "=" + "" + "&" + x + "=" + v;
      && UrlQueryMergeAsWritten("/" + k + "?" + k, [(x, v)]) == Some("/" + r + "?" + r)
      && UrlQueryMerge("/" + k + "?" + k, [(x, v)]) == Some("/" + k + "?" + r)
  {
    var url := "/" + k + "?" + k;
    var parts := UrlParts("/" + k, Some(k), "");
    var r := k + "=" + "" + "&" + x + "=" + v;
    assert Assemble(parts) == url && !Empty(url) by {
      AssembleWithQuery("/" + k, k, "");
      assert url + "" == url;
    }
    BareKeyMerged(k, x, v);
    assert UrlQueryMergeAsWritten(url, [(x, v)]) == Some(ReplaceAll(url, k, r)) by {
      assert url[1] == k[0] && ':' !in url;
      PathAccepted(url);
      AsWrittenOfParts(parts, [(x, v)]);
    }
    ReplaceInPath(k, r);
    assert UrlQueryMerge(url, [(x, v)]) == Some(Assemble(UrlParts("/" + k, Some(r), ""))) by {
      MergeOfParts(parts, [(x, v)]);
    }
    AssembleWithQuery("/" + k, r, "");
    assert "/" + k + "?" + r + "" == "/" + k + "?" + r;
  }

  /** The bare key `k` followed by the new pair, as `http_build_query` writes them. */
  lemma BareKeyMerged(k: string, x: string, v: string)
    requires k != "" && PlainKey(k) && x != k
    ensures BuildQuery(Merge(ParseQuery(k), [(x, v)])) == k + "=" + "" + "&" + x + "=" + v
  {
    KeyNamePlain(k);
    ParseQueryBareKey(k);
    SetFreshKey([(k, "")], x, v);
    assert Merge([(k, "")], [(x, v)]) == [(k, ""), (x, v)];
    BuildQueryCons([(k, ""), (x, v)]);
    assert [(k, ""), (x, v)][1..] == [(x, v)];
    BuildQueryCons([(x, v)]);
  }

  lemma ReplaceInPath(k: string, r: string)
    requires k != "" && '?' !in k && '/' !in k
    ensures ReplaceAll("/" + k + "?" + k, k, r) == "/" + r + "?" + r
  {
    PathShape(k);
    PathShape(r);
    ReplaceInPathParts(k, r);
  }

  /** "/x?x", grouped from the right. */
  lemma PathShape(x: string)
    ensures "/" + x + "?" + x == ['/'] + (x + (['?'] + x))
  {
  }

  lemma ReplaceInPathParts(k: string, r: string)
    requires k != "" && '?' !in k && '/' !in k
    ensures ReplaceAll(['/'] + (k + (['?'] + k)), k, r) == ['/'] + (r + (['?'] + r))
  {
    var tail := ['?'] + k;
    var rest := k + tail;
    assert ReplaceAll(k, k, r) == r by { assert k + [] == k; ReplacePrefix(k, [], r); }
    assert ReplaceAll(tail, k, r) == ['?'] + r by { assert k[0] in k; ReplaceSkip('?', k, k, r); }
    assert ReplaceAll(rest, k, r) == r + (['?'] + r) by { ReplacePrefix(k, tail, r); }
    assert k[0] in k;
    ReplaceSkip('/', rest, k, r);
  }

  /**
   * parse_url accepts the URL of tests/unit/UrlHelperTest.php: scheme
   * "https", host "testurl.com" and port 999, then a path, query or
   * fragment.
   */
  lemma TestUrlAccepted(rest: string)
    requires rest == [] || !AuthorityChar(rest[0])
    ensures !Rejected("https://testurl.com:999" + rest)
  {
    TestUrlParts();
    HostPortAccepted("https", "testurl.com", "999", rest);
  }

  /** The pieces of the test's URL before its path. */
  lemma TestUrlParts()
    ensures AllSchemeChars("https")
    ensures forall i :: 0 <= i < |"testurl.com"| ==> HostChar("testurl.com"[i])
    ensures forall i :: 0 <= i < |"999"| ==> Php.IsDigit("999"[i])
    ensures Php.DigitsValue("999") == 999
    ensures "https" + "://" + "testurl.com" + ":" + "999" == "https://testurl.com:999"
  {
    assert "999"[..2] == "99" && "99"[..1] == "9" && "9"[..0] == "";
  }

  /**
   * As written, a URL parse_url refuses for its empty host keeps its query
   * and gets a second one appended: "http:///x?a=1" merged with x=2 gives
   * "http:///x?a=1?x=2".
   */
  lemma RefusedUrlAppended(scheme: string, rest: string, params: Params)
    requires scheme != [] && AllSchemeChars(scheme) && !IsFileScheme(scheme) && params != []
    ensures UrlQueryMergeAsWritten(scheme + ":///" + rest, params) == Some(scheme + ":///" + rest + "?" + BuildQuery(params))
  {
    var url := scheme + ":///" + rest;
    EmptyHostRejected(scheme, rest);
    assert url[|scheme|] == ':' && |url| > 1;
  }

  /**
   * `parse_str` renames a key with a dot, and the merged query is written
   * with the new name: "/p?a.b=1" merged with x=2 gives "/p?a_b=1&x=2".
   */
  lemma DottedKeyRenamed(base: string, k1: string, k2: string, v: string, x: string, w: string)
    requires '#' !in base && '?' !in base && '=' !in base
    requires k1 != [] && PlainKey(k1) && PlainKey(k2) && Plain(v) && PlainKey(x) && Plain(w)
    requires x != k1 + "_" + k2
    requires !Rejected(base + "?" + (k1 + "." + k2 + "=" + v))
    ensures UrlQueryMergeAsWritten(base + "?" + (k1 + "." + k2 + "=" + v), [(x, w)])
         == Some(base + "?" + (k1 + "_" + k2 + "=" + v + "&" + x + "=" + w))
  {
    var q := k1 + "." + k2 + "=" + v;
    var name := k1 + "_" + k2;
    var params: Params := [(x, w)];
    assert ParseQuery(q) == [(name, v)] by {
      DottedParse(k1, k2, v);
    }
    var merged: Params := [(name, v), (x, w)];
    assert Merge([(name, v)], params) == merged by {
      SetFreshKey([(name, v)], x, w);
    }
    var nq := name + "=" + v + "&" + x + "=" + w;
    assert BuildQuery(merged) == nq by {
      BuildQueryCons(merged);
      assert merged[1..] == [(x, w)];
      BuildQueryCons([(x, w)]);
    }
    assert q[|k1| + 1 + |k2|] == '=';
    assert '?' !in q && '#' !in q by {
      assert forall c :: c in q ==> c in k1 || c == '.' || c in k2 || c == '=' || c in v;
    }
    assert base + "?" + q + "" == base + "?" + q;
    AsWrittenAgreesOnceOnly(base, q, "", |k1| + 1 + |k2|, params);
    AssembleWithQuery(base, q, "");
    MergeOfParts(UrlParts(base, Some(q), ""), params);
    AssembleWithQuery(base, nq, "");
    assert base + "?" + nq + "" == base + "?" + nq;
  }

  /** "k1.k2=v" reads as the single pair named "k1_k2". */
  lemma DottedParse(k1: string, k2: string, v: string)
    requires k1 != [] && PlainKey(k1) && PlainKey(k2) && Plain(v)
    ensures ParseQuery(k1 + "." + k2 + "=" + v) == [(k1 + "_" + k2, v)]
  {
    var key := k1 + "." + k2;
    var q := key + "=" + v;
    assert '&' !in q by {
      assert forall c :: c in q ==> c in k1 || c == '.' || c in k2 || c == '=' || c in v;
    }
    SplitNoSeparator(q, '&');
    assert '=' !in key by {
      assert forall c :: c in key ==> c in k1 || c == '.' || c in k2;
    }
    ParsePieceOfPair(key, v);
    DottedName(k1, k2);
    assert ParsePieces([], [q]) == ParsePieces([(k1 + "_" + k2, v)], []);
  }

  /** KeyName turns the dot between two plain keys into '_'. */
  lemma DottedName(k1: string, k2: string)
    requires k1 != [] && PlainKey(k1) && PlainKey(k2)
    ensures KeyName(k1 + "." + k2) == k1 + "_" + k2
  {
    var key := k1 + "." + k2;
    assert key[0] == k1[0] && k1[0] in k1;
    assert DropSpaces(key) == key;
    assert key == k1 + ("." + k2);
    UnderscoredAppend(k1, "." + k2);
    assert Underscored("." + k2) == "_" + Underscored(k2);
    UnderscoredPlain(k2);
    assert k1 + ("_" + k2) == k1 + "_" + k2;
  }

  /** Underscored works piecewise over text without '['. */
  lemma {:induction false} UnderscoredAppend(a: string, b: string)
    requires ' ' !in a && '.' !in a && '[' !in a
    ensures Underscored(a + b) == a + Underscored(b)
  {
    if a != [] {
      assert (a + b)[0] == a[0] && (a + b)[1..] == a[1..] + b;
      assert forall c :: c in a[1..] ==> c in a;
      UnderscoredAppend(a[1..], b);
      assert [a[0]] + a[1..] == a;
    } else {
      assert a + b == b;
    }
  }

}
