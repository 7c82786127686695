/**
 * `Url::urlQueryMerge` (helpers/Url.php): merges a flat key/value map into
 * the query string of a URL.
 *
 * The URL is split the way `parse_url` finds its query: the fragment starts
 * at the first `#`, and the query is what lies between the first `?` before
 * that and the fragment. `parse_url` also refuses some URLs outright (an
 * empty host, a bad port); those are written out as `Rejected`. The query
 * string is read as `parse_str` reads a flat query (pairs separated by `&`,
 * key and value split at the first `=`, key names cleaned of leading spaces,
 * dots and spaces) and written back as `http_build_query` writes one (no
 * percent-encoding here).
 */
module UrlHelper {

  import opened Wrappers
  import opened OrderedMaps
  import opened Strings
  import Php

  type Params = OMap<string, string>

  /** PHP's `empty()` on a string: the empty string and "0". */
  predicate Empty(s: string) {
    s == "" || s == "0"
  }

  /** Index of the first `c` in `s`, or |s| when there is none. */
  function FirstIndex(s: string, c: char): (i: nat)
    ensures i <= |s|
    ensures i < |s| ==> s[i] == c
  {
    if s == [] then 0 else if s[0] == c then 0 else 1 + FirstIndex(s[1..], c)
  }

  /** No `c` comes before the index FirstIndex finds. */
  lemma {:induction false} FirstIndexNotBefore(s: string, c: char)
    ensures forall k :: 0 <= k < FirstIndex(s, c) ==> s[k] != c
  {
    if s != [] && s[0] != c {
      FirstIndexNotBefore(s[1..], c);
      forall k | 0 < k < FirstIndex(s, c) ensures s[k] != c {
        assert s[k] == s[1..][k - 1];
      }
    }
  }

  /** The components of a URL that matter here: before the query, the query, the fragment. */
  datatype UrlParts = UrlParts(beforeQuery: string, query: Option<string>, fragment: string)

  /** What `parse_url` can produce: the parts are separable again. */
  ghost predicate ValidParts(p: UrlParts) {
    && '#' !in p.beforeQuery && '?' !in p.beforeQuery
    && (p.query.Some? ==> '#' !in p.query.value)
    && (p.fragment == [] || p.fragment[0] == '#')
  }

  /** Puts the parts back together. */
  function Assemble(p: UrlParts): string {
    p.beforeQuery + (if p.query.Some? then "?" + p.query.value else "") + p.fragment
  }

  /**
   * `parse_url` on a URL it accepts: the text before the first `?` that
   * precedes the first `#`, the query up to that `#`, and the fragment.
   */
  function ParseUrl(url: string): (p: UrlParts)
    ensures ValidParts(p) && Assemble(p) == url
  {
    var h := FirstIndex(url, '#');
    var q := FirstIndex(url[..h], '?');
    FirstIndexNotBefore(url, '#');
    FirstIndexNotBefore(url[..h], '?');
    if q == h then
      assert url[..h] + url[h..] == url;
      UrlParts(url[..h], None, url[h..])
    else
      assert url[..h] == url[..q] + ("?" + url[q + 1..h]);
      assert url[..h] + url[h..] == url;
      UrlParts(url[..q], Some(url[q + 1..h]), url[h..])
  }

  /** FirstIndex is characterised by its two properties. */
  lemma {:induction false} FirstIndexIs(s: string, c: char, i: nat)
    requires i <= |s| && (i < |s| ==> s[i] == c)
    requires forall k :: 0 <= k < i ==> s[k] != c
    ensures FirstIndex(s, c) == i
  {
    if s != [] && i > 0 {
      assert s[0] != c;
      forall k | 0 <= k < i - 1 ensures s[1..][k] != c {
        assert s[1..][k] == s[k + 1];
      }
      FirstIndexIs(s[1..], c, i - 1);
    }
  }

  /** A URL with a query, written out; it is never PHP-empty since it holds a `?`. */
  lemma AssembleWithQuery(base: string, q: string, frag: string)
    ensures Assemble(UrlParts(base, Some(q), frag)) == base + "?" + q + frag
    ensures !Empty(base + "?" + q + frag)
  {
    assert (base + "?" + q + frag)[|base|] == '?';
  }

  /** Splitting a URL undoes assembling it: parse_url and the parts determine each other. */
  lemma ParseAssemble(p: UrlParts)
    requires ValidParts(p)
    ensures ParseUrl(Assemble(p)) == p
  {
    var url := Assemble(p);
    var b := |p.beforeQuery|;
    var h := if p.query.Some? then b + 1 + |p.query.value| else b;
    assert url[h..] == p.fragment;
    assert url[..h] == p.beforeQuery + (if p.query.Some? then "?" + p.query.value else "");
    FirstIndexIs(url, '#', h);
    FirstIndexIs(url[..h], '?', b);
    if p.query.Some? {
      assert url[b + 1..h] == p.query.value;
    }
  }

  // ---- URLs parse_url refuses ----------------------------------------------

  /** A character `parse_url` accepts in a scheme: a letter, a digit, '+', '-' or '.'. */
  predicate SchemeChar(c: char) {
    'a' <= c <= 'z' || 'A' <= c <= 'Z' || '0' <= c <= '9' || c == '+' || c == '-' || c == '.'
  }

  predicate AllSchemeChars(s: string) {
    forall i :: 0 <= i < |s| ==> SchemeChar(s[i])
  }

  /** The scheme "file", in any letter case. */
  predicate IsFileScheme(s: string) {
    |s| == 4 && s[0] in "fF" && s[1] in "iI" && s[2] in "lL" && s[3] in "eE"
  }

  /** A leading `//`: an authority follows. */
  predicate StartsWithSlashes(s: string) {
    |s| >= 2 && s[0] == '/' && s[1] == '/'
  }

  /** Index of the first '?' or '#' in `s`, or |s|. */
  function QueryOrFragmentStart(s: string): (i: nat)
    ensures i <= |s|
  {
    if s == [] || s[0] == '?' || s[0] == '#' then 0 else 1 + QueryOrFragmentStart(s[1..])
  }

  /** A character that does not end an authority: anything but '/', '?' and '#'. */
  predicate AuthorityChar(c: char) {
    c != '/' && c != '?' && c != '#'
  }

  /** A character of a plain host name: no ':', '@' and nothing that ends an authority. */
  predicate HostChar(c: char) {
    AuthorityChar(c) && c != ':' && c != '@'
  }

  /** Index of the first '/', '?' or '#' in `s`, where an authority ends, or |s|. */
  function AuthorityEnd(s: string): (i: nat)
    ensures i <= |s|
    ensures i < |s| ==> s[i] == '/' || s[i] == '?' || s[i] == '#'
  {
    if s == [] || s[0] == '/' || s[0] == '?' || s[0] == '#' then 0 else 1 + AuthorityEnd(s[1..])
  }

  /** Index of the last `c` in `s`, if there is one. */
  function LastIndex(s: string, c: char): (r: Option<nat>)
    ensures r.Some? ==> r.value < |s| && s[r.value] == c
  {
    if s == [] then None else if s[|s| - 1] == c then Some(|s| - 1) else LastIndex(s[..|s| - 1], c)
  }

  /**
   * The authority at the start of `t` (up to the first '/', '?' or '#') is
   * refused: after any `user@`, the host before the last ':' is empty, or,
   * when no port was read yet, the text after that ':' is longer than five
   * characters or is not a port in 1-65535 as `strtol` reads it. A host in
   * brackets (an IPv6 address) is not searched for a port.
   */
  predicate HostRejected(t: string, portSet: bool) {
    var auth := t[..AuthorityEnd(t)];
    var host := match LastIndex(auth, '@') case Some(i) => auth[i + 1..] case None => auth;
    if host != [] && host[0] == '[' && host[|host| - 1] == ']' then false
    else
      match LastIndex(host, ':')
      case None => host == []
      case Some(j) =>
        var port := host[j + 1..];
        j == 0 || (!portSet && (|port| > 5 || (port != [] && !(0 < Php.IntCast(port) <= 65535))))
  }

  /**
   * The colon at `c` may start a port: one to five digits ending the URL or
   * followed by '/' are a port, refused unless in 1-65535; a colon that ends
   * the URL is refused; otherwise an authority follows only after `//`.
   */
  predicate PortRejected(url: string, c: nat)
    requires c < |url|
  {
    var rest := url[c + 1..];
    var ds := Php.DigitPrefix(rest);
    if 0 < |ds| < 6 && (|ds| == |rest| || rest[|ds|] == '/') then
      var port := Php.DigitsValue(ds);
      if 0 < port <= 65535 then HostRejected(if StartsWithSlashes(url) then url[2..] else url, true)
      else true
    else if rest == [] then true
    else StartsWithSlashes(url) && HostRejected(url[2..], false)
  }

  /**
   * `parse_url` returns false for `url` (PHP 7). A scheme is the text before
   * the first ':' when it is made of scheme characters. After a scheme, `//`
   * starts an authority (except `file:///`); a scheme followed by up to five
   * digits and then '/' or the end is read as a host and port instead. A
   * URL without a scheme has an authority when it starts with `//`.
   */
  predicate Rejected(url: string) {
    var c := FirstIndex(url, ':');
    if c == |url| then StartsWithSlashes(url) && HostRejected(url[2..], false)
    else if c == 0 then PortRejected(url, c)
    else if !AllSchemeChars(url[..c]) then
      if c + 1 < |url| && c < QueryOrFragmentStart(url) then PortRejected(url, c)
      else StartsWithSlashes(url) && HostRejected(url[2..], false)
    else if c + 1 == |url| then false
    else if url[c + 1] != '/' then
      var ds := Php.DigitPrefix(url[c + 1..]);
      && (|ds| == |url| - c - 1 || url[c + 1 + |ds|] == '/') && |ds| < 6
      && PortRejected(url, c)
    else if c + 2 < |url| && url[c + 2] == '/' then
      && !(IsFileScheme(url[..c]) && c + 3 < |url| && url[c + 3] == '/')
      && HostRejected(url[c + 3..], false)
    else false
  }

  /** A URL with no ':' that does not start with `//` is a plain path, which parse_url always accepts. */
  lemma PathAccepted(url: string)
    requires ':' !in url && !StartsWithSlashes(url)
    ensures !Rejected(url)
  {
    FirstIndexIs(url, ':', |url|);
  }

  /** A scheme followed by `///` has an empty host, which parse_url refuses (except for `file`). */
  lemma EmptyHostRejected(scheme: string, rest: string)
    requires scheme != [] && AllSchemeChars(scheme) && !IsFileScheme(scheme)
    ensures Rejected(scheme + ":///" + rest)
  {
    var url := scheme + ":///" + rest;
    var c := |scheme|;
    FirstIndexIs(url, ':', c);
    assert url[..c] == scheme;
    assert url[c + 1] == '/' && url[c + 2] == '/';
    assert url[c + 3..] == "/" + rest;
  }

  /**
   * A scheme, `://`, a host without ':' or '@', and a port of one to five
   * digits in 1-65535, followed by nothing or by a path, query or fragment:
   * parse_url accepts it.
   */
  lemma HostPortAccepted(scheme: string, host: string, port: string, rest: string)
    requires scheme != [] && AllSchemeChars(scheme)
    requires host != [] && forall i :: 0 <= i < |host| ==> HostChar(host[i])
    requires 0 < |port| <= 5 && forall i :: 0 <= i < |port| ==> Php.IsDigit(port[i])
    requires 0 < Php.DigitsValue(port) <= 65535
    requires rest == [] || !AuthorityChar(rest[0])
    ensures !Rejected(scheme + "://" + host + ":" + port + rest)
  {
    var t := host + ":" + port + rest;
    AuthorityAfter(scheme + "://", host, port, rest);
    SchemeAuthority(scheme, t);
    HostPortNotRejected(host, port, rest);
  }

  lemma AuthorityAfter(prefix: string, host: string, port: string, rest: string)
    ensures prefix + host + ":" + port + rest == prefix + (host + ":" + port + rest)
  {
  }

  /** After a scheme and `//`, a URL is refused exactly when its authority is. */
  lemma SchemeAuthority(scheme: string, t: string)
    requires scheme != [] && AllSchemeChars(scheme)
    requires t != [] && t[0] != '/'
    ensures Rejected(scheme + "://" + t) == HostRejected(t, false)
  {
    var url := scheme + "://" + t;
    var c := |scheme|;
    FirstIndexIs(url, ':', c);
    assert url[..c] == scheme;
    assert url[c + 1] == '/' && url[c + 2] == '/' && url[c + 3] == t[0];
    assert url[c + 3..] == t;
  }

  lemma HostPortNotRejected(host: string, port: string, rest: string)
    requires host != [] && forall i :: 0 <= i < |host| ==> HostChar(host[i])
    requires 0 < |port| <= 5 && forall i :: 0 <= i < |port| ==> Php.IsDigit(port[i])
    requires 0 < Php.DigitsValue(port) <= 65535
    requires rest == [] || !AuthorityChar(rest[0])
    ensures !HostRejected(host + ":" + port + rest, false)
  {
    var t := host + ":" + port + rest;
    var auth := host + ":" + port;
    assert t[..AuthorityEnd(t)] == auth by {
      assert t == auth + rest;
      forall k | 0 <= k < |auth| ensures AuthorityChar(t[k]) {
        assert t[k] == auth[k];
        if k < |host| { assert auth[k] == host[k]; }
        else if k > |host| { assert auth[k] == port[k - |host| - 1]; }
      }
      assert |auth| < |t| ==> t[|auth|] == rest[0];
      AuthorityEndIs(t, |auth|);
    }
    assert LastIndex(auth, '@') == None by { LastIndexAfter(host, ':', port, '@'); }
    assert LastIndex(auth, ':') == Some(|host|) by { LastIndexAt(host, ':', port); }
    assert auth[|host| + 1..] == port;
    assert Php.IntCast(port) == Php.DigitsValue(port) by { Php.DigitsCast(port); }
    assert auth[|auth| - 1] != ']' by { assert Php.IsDigit(auth[|auth| - 1]); }
    PortAccepted(t, auth, |host|);
  }

  /** An authority with a non-empty host before its last ':' and a good port after it is accepted. */
  lemma PortAccepted(t: string, auth: string, j: nat)
    requires t[..AuthorityEnd(t)] == auth && j < |auth| && auth[|auth| - 1] != ']'
    requires LastIndex(auth, '@') == None && LastIndex(auth, ':') == Some(j) && j > 0
    requires |auth[j + 1..]| <= 5 && (auth[j + 1..] == [] || 0 < Php.IntCast(auth[j + 1..]) <= 65535)
    ensures !HostRejected(t, false)
  {
  }

  /** AuthorityEnd is characterised by its two properties. */
  lemma {:induction false} AuthorityEndIs(s: string, i: nat)
    requires i <= |s| && (i < |s| ==> !AuthorityChar(s[i]))
    requires forall k :: 0 <= k < i ==> AuthorityChar(s[k])
    ensures AuthorityEnd(s) == i
  {
    if s != [] && i > 0 {
      assert AuthorityChar(s[0]);
      forall k | 0 <= k < i - 1 ensures AuthorityChar(s[1..][k]) {
        assert s[1..][k] == s[k + 1];
      }
      AuthorityEndIs(s[1..], i - 1);
    }
  }

  /** With no `x` in `a` and a digit-only `b`, `a + ":" + b` holds no `x`. */
  lemma LastIndexAfter(a: string, sep: char, b: string, x: char)
    requires forall i :: 0 <= i < |a| ==> a[i] != x
    requires x != sep && forall i :: 0 <= i < |b| ==> Php.IsDigit(b[i])
    requires !Php.IsDigit(x)
    ensures LastIndex(a + [sep] + b, x) == None
  {
    LastIndexNone(a + [sep] + b, x);
  }

  lemma {:induction false} LastIndexNone(s: string, x: char)
    requires forall i :: 0 <= i < |s| ==> s[i] != x
    ensures LastIndex(s, x) == None
    decreases |s|
  {
    if s != [] {
      LastIndexNone(s[..|s| - 1], x);
    }
  }

  /** The last `sep` of `a + [sep] + b`, when `b` holds none, is the one after `a`. */
  lemma {:induction false} LastIndexAt(a: string, sep: char, b: string)
    requires forall i :: 0 <= i < |b| ==> Php.IsDigit(b[i])
    requires !Php.IsDigit(sep)
    ensures LastIndex(a + [sep] + b, sep) == Some(|a|)
    decreases |b|
  {
    if b != [] {
      assert (a + [sep] + b)[..|a + [sep] + b| - 1] == a + [sep] + b[..|b| - 1];
      LastIndexAt(a, sep, b[..|b| - 1]);
    } else {
      assert a + [sep] + b == a + [sep];
    }
  }

  // ---- query strings -------------------------------------------------------

  /** `parse_str` ignores the spaces a key starts with. */
  function DropSpaces(s: string): (t: string)
    ensures t == [] || t[0] != ' '
  {
    if s != [] && s[0] == ' ' then DropSpaces(s[1..]) else s
  }

  /** '.' and ' ' become '_', up to the first '[' (where a PHP array key would begin). */
  function Underscored(s: string): (t: string)
    ensures |t| == |s|
  {
    if s == [] || s[0] == '[' then s
    else [if s[0] == '.' || s[0] == ' ' then '_' else s[0]] + Underscored(s[1..])
  }

  /** The name `parse_str` gives a key: "a.b" is stored as "a_b", " x y" as "x_y". */
  function KeyName(raw: string): string {
    Underscored(DropSpaces(raw))
  }

  /** A key name `parse_str` skips: empty, or empty before its first '['. */
  predicate Skipped(k: string) {
    k == [] || k[0] == '['
  }

  /** One `key=value` piece of a query string, split at its first `=`, with the key renamed. */
  function ParsePiece(piece: string): (kv: (string, string))
  {
    var e := FirstIndex(piece, '=');
    (KeyName(piece[..e]), if e < |piece| then piece[e + 1..] else "")
  }

  function ParsePieces(acc: Params, pieces: seq<string>): Params
    decreases |pieces|
  {
    if pieces == [] then acc
    else
      var kv := ParsePiece(pieces[0]);
      ParsePieces(if Skipped(kv.0) then acc else Set(acc, kv.0, kv.1), pieces[1..])
  }

  /**
   * `parse_str` on a flat query string: keys renamed by KeyName, later
   * duplicates overwrite, skipped keys are dropped.
   */
  function ParseQuery(q: string): Params {
    ParsePieces([], Split(q, '&'))
  }

  function Pieces(m: Params): (ps: seq<string>)
    ensures |ps| == |m|
    ensures forall i :: 0 <= i < |m| ==> ps[i] == m[i].0 + "=" + m[i].1
  {
    seq(|m|, i requires 0 <= i < |m| => m[i].0 + "=" + m[i].1)
  }

  /** `http_build_query` on a flat map of strings. */
  function BuildQuery(m: Params): string {
    Join(Pieces(m), '&')
  }

  /** Keys and values that survive a build/parse round trip unchanged. */
  ghost predicate WellFormed(m: Params) {
    forall i :: 0 <= i < |m| ==>
      && !Skipped(m[i].0) && KeyName(m[i].0) == m[i].0
      && '&' !in m[i].0 && '=' !in m[i].0 && '#' !in m[i].0
      && '&' !in m[i].1 && '#' !in m[i].1
  }

  // ---- the helper as written and as intended -------------------------------

  /**
   * Url::urlQueryMerge exactly as written: `None` stands for the `false`
   * returned for an empty URL. When the URL has a query, the merged query
   * replaces EVERY occurrence of the old query text in the URL (str_replace).
   * A URL parse_url refuses has no query components, so the new query is
   * appended to it whatever it holds.
   */
  function UrlQueryMergeAsWritten(url: string, params: Params): (r: Option<string>)
    ensures r.None? <==> Empty(url)
    ensures !Empty(url) && params == [] ==> r == Some(url)
    ensures !Empty(url) && params != [] && !HasQuery(url) ==> r == Some(url + "?" + BuildQuery(params))
    ensures !Empty(url) && params != [] && Rejected(url) ==> r == Some(url + "?" + BuildQuery(params))
  {
    if Empty(url) then None
    else if params == [] then Some(url)
    else
      var p := ParseUrl(url);
      if !HasQuery(url) then Some(url + "?" + BuildQuery(params))
      else Some(ReplaceAll(url, p.query.value, BuildQuery(Merge(ParseQuery(p.query.value), params))))
  }

  /**
   * `! empty($url_components['query'])`: the URL is accepted and has a
   * query that is not PHP-empty. For a refused URL `$url_components` is
   * false, whose 'query' reads as null.
   */
  predicate HasQuery(url: string) {
    var p := ParseUrl(url);
    !Rejected(url) && p.query.Some? && !Empty(p.query.value)
  }

  /** The pairs of the URL's own query, or none. */
  function OriginalParams(url: string): Params {
    var p := ParseUrl(url);
    if p.query.Some? && p.query.value != "" then ParseQuery(p.query.value) else []
  }

  /**
   * The merge the helper is meant to perform: only the query component is
   * rebuilt (original pairs with the new values assigned over them), and the
   * text before the query and the fragment stay where they are.
   */
  function UrlQueryMerge(url: string, params: Params): (r: Option<string>)
    ensures r.None? <==> Empty(url)
    ensures !Empty(url) && params == [] ==> r == Some(url)
  {
    if Empty(url) then None
    else if params == [] then Some(url)
    else
      var p := ParseUrl(url);
      Some(Assemble(UrlParts(p.beforeQuery, Some(BuildQuery(Merge(OriginalParams(url), params))), p.fragment)))
  }

  // ---- lemmas --------------------------------------------------------------

  lemma {:induction false} SplitParts(s: string, c: char)
    ensures forall i :: 0 <= i < |Split(s, c)| ==> c !in Split(s, c)[i]
    ensures forall i, x :: 0 <= i < |Split(s, c)| && x in Split(s, c)[i] ==> x in s
  {
    if s != [] {
      SplitParts(s[1..], c);
      var rest := Split(s[1..], c);
      var parts := Split(s, c);
      assert s == [s[0]] + s[1..];
      if s[0] == c {
        assert parts == [[]] + rest;
        forall i, x | 0 <= i < |parts| && x in parts[i] ensures x in s {
          assert parts[i] == rest[i - 1];
          assert x in s[1..];
        }
      } else {
        assert parts == [[s[0]] + rest[0]] + rest[1..];
        forall i, x | 0 <= i < |parts| && x in parts[i] ensures x in s {
          if i == 0 {
            assert x == s[0] || x in rest[0];
          } else {
            assert parts[i] == rest[i];
            assert x in s[1..];
          }
        }
      }
    }
  }

  /** KeyName keeps the characters of the key, save the '_' it writes. */
  lemma {:induction false} UnderscoredChars(s: string)
    ensures forall x :: x in Underscored(s) ==> x in s || x == '_'
  {
    if s != [] && s[0] != '[' {
      UnderscoredChars(s[1..]);
      assert forall x :: x in s[1..] ==> x in s;
    }
  }

  lemma {:induction false} DropSpacesSuffix(s: string)
    ensures forall x :: x in DropSpaces(s) ==> x in s
  {
    if s != [] && s[0] == ' ' {
      DropSpacesSuffix(s[1..]);
      assert forall x :: x in s[1..] ==> x in s;
    }
  }

  lemma KeyNameChars(raw: string)
    ensures forall x :: x in KeyName(raw) ==> x in raw || x == '_'
  {
    UnderscoredChars(DropSpaces(raw));
    DropSpacesSuffix(raw);
  }

  lemma {:induction false} UnderscoredTwice(s: string)
    ensures Underscored(Underscored(s)) == Underscored(s)
  {
    if s != [] && s[0] != '[' {
      UnderscoredTwice(s[1..]);
      var t := Underscored(s);
      assert t[0] != '[' && t[1..] == Underscored(s[1..]);
    }
  }

  /** A key name `parse_str` writes is its own name: renaming twice changes nothing. */
  lemma KeyNameIdempotent(raw: string)
    ensures KeyName(KeyName(raw)) == KeyName(raw)
  {
    var d := DropSpaces(raw);
    var k := Underscored(d);
    if k != [] {
      assert k[0] != ' ';
    }
    UnderscoredTwice(d);
  }

  /** A key with no space and no dot is its own name. */
  lemma {:induction false} KeyNamePlain(k: string)
    requires ' ' !in k && '.' !in k
    ensures KeyName(k) == k
  {
    UnderscoredPlain(k);
  }

  lemma {:induction false} UnderscoredPlain(k: string)
    requires ' ' !in k && '.' !in k
    ensures Underscored(k) == k
  {
    if k != [] && k[0] != '[' {
      assert k[0] != ' ' && k[0] != '.';
      assert forall x :: x in k[1..] ==> x in k;
      UnderscoredPlain(k[1..]);
      assert [k[0]] + k[1..] == k;
    }
  }

  lemma ParsePieceWellFormed(piece: string)
    requires '&' !in piece && '#' !in piece
    ensures var kv := ParsePiece(piece);
      && KeyName(kv.0) == kv.0
      && '&' !in kv.0 && '=' !in kv.0 && '#' !in kv.0 && '&' !in kv.1 && '#' !in kv.1
  {
    var e := FirstIndex(piece, '=');
    FirstIndexNotBefore(piece, '=');
    assert forall x :: x in piece[..e] ==> x in piece;
    assert '=' !in piece[..e];
    KeyNameChars(piece[..e]);
    KeyNameIdempotent(piece[..e]);
    assert e < |piece| ==> forall x :: x in piece[e + 1..] ==> x in piece;
  }

  lemma {:induction false} ParsePiecesWellFormed(acc: Params, pieces: seq<string>)
    requires WellFormed(acc) && Distinct(acc)
    requires forall i :: 0 <= i < |pieces| ==> '&' !in pieces[i] && '#' !in pieces[i]
    ensures WellFormed(ParsePieces(acc, pieces)) && Distinct(ParsePieces(acc, pieces))
    decreases |pieces|
  {
    if pieces != [] {
      var kv := ParsePiece(pieces[0]);
      ParsePieceWellFormed(pieces[0]);
      var acc' := if Skipped(kv.0) then acc else Set(acc, kv.0, kv.1);
      if !Skipped(kv.0) {
        SetDistinct(acc, kv.0, kv.1);
        SetWellFormed(acc, kv.0, kv.1);
      }
      ParsePiecesWellFormed(acc', pieces[1..]);
    }
  }

  lemma {:induction false} SetWellFormed(m: Params, k: string, v: string)
    requires WellFormed(m)
    requires !Skipped(k) && KeyName(k) == k && '&' !in k && '=' !in k && '#' !in k && '&' !in v && '#' !in v
    ensures WellFormed(Set(m, k, v))
  {
    if m != [] && m[0].0 != k {
      SetWellFormed(m[1..], k, v);
    }
  }

  /** Whatever `parse_str` reads from a fragment-free query can be written back unchanged. */
  lemma ParseQueryWellFormed(q: string)
    requires '#' !in q
    ensures WellFormed(ParseQuery(q)) && Distinct(ParseQuery(q))
  {
    SplitParts(q, '&');
    ParsePiecesWellFormed([], Split(q, '&'));
  }

  lemma AppendHead<T>(acc: seq<T>, m: seq<T>)
    requires m != []
    ensures acc + [m[0]] + m[1..] == acc + m
  {
    assert [m[0]] + m[1..] == m;
  }

  lemma ParsePieceOfPair(k: string, v: string)
    requires '=' !in k
    ensures ParsePiece(k + "=" + v) == (KeyName(k), v)
  {
    var piece := k + "=" + v;
    FirstIndexIs(piece, '=', |k|);
    assert piece[..|k|] == k && piece[|k| + 1..] == v;
  }

  lemma {:induction false} ParsePiecesOfPairs(acc: Params, m: Params)
    requires WellFormed(m) && Distinct(m)
    requires forall i :: 0 <= i < |m| ==> m[i].0 !in Keys(acc)
    ensures ParsePieces(acc, Pieces(m)) == acc + m
    decreases |m|
  {
    if m != [] {
      var k, v := m[0].0, m[0].1;
      assert ParsePiece(Pieces(m)[0]) == (k, v) by { ParsePieceOfPair(k, v); }
      assert Set(acc, k, v) == acc + [(k, v)] by { SetFreshKey(acc, k, v); }
      assert ParsePieces(acc, Pieces(m)) == ParsePieces(acc + [(k, v)], Pieces(m[1..])) by {
        assert Pieces(m)[1..] == Pieces(m[1..]);
      }
      assert forall i :: 0 <= i < |m[1..]| ==> m[1..][i].0 !in Keys(acc + [(k, v)]) by {
        SetKeys(acc, k, v);
        DistinctTail(m);
        KeysAt(m[1..]);
      }
      assert WellFormed(m[1..]) && Distinct(m[1..]) by { DistinctTail(m); }
      ParsePiecesOfPairs(acc + [(k, v)], m[1..]);
      AppendHead(acc, m);
    }
  }

  /** `parse_str(http_build_query($m))` gives `$m` back for well-formed flat maps. */
  lemma {:induction false} ParseBuild(m: Params)
    requires WellFormed(m) && Distinct(m)
    ensures ParseQuery(BuildQuery(m)) == m
  {
    if m == [] {
      assert Split("", '&') == [""];
      assert ParsePiece("") == ("", "");
    } else {
      forall i | 0 <= i < |Pieces(m)| ensures '&' !in Pieces(m)[i] {
        assert Pieces(m)[i] == m[i].0 + "=" + m[i].1;
      }
      SplitJoin(Pieces(m), '&');
      ParsePiecesOfPairs([], m);
      assert [] + m == m;
    }
  }

  lemma {:induction false} MergeWellFormed(a: Params, b: Params)
    requires WellFormed(a) && WellFormed(b)
    ensures WellFormed(Merge(a, b))
    decreases |b|
  {
    if b != [] {
      SetWellFormed(a, b[0].0, b[0].1);
      MergeWellFormed(Set(a, b[0].0, b[0].1), b[1..]);
    }
  }

  lemma BuildQueryHasNoHash(m: Params)
    requires WellFormed(m)
    ensures '#' !in BuildQuery(m)
  {
    JoinChars(Pieces(m), '&', '#');
  }

  lemma {:induction false} JoinChars(parts: seq<string>, c: char, x: char)
    requires c != x
    requires forall i :: 0 <= i < |parts| ==> x !in parts[i]
    ensures x !in Join(parts, c)
  {
    if |parts| > 1 {
      JoinChars(parts[1..], c, x);
    }
  }

  lemma OriginalParamsWellFormed(url: string)
    ensures WellFormed(OriginalParams(url)) && Distinct(OriginalParams(url))
  {
    var p := ParseUrl(url);
    if p.query.Some? && p.query.value != "" {
      ParseQueryWellFormed(p.query.value);
    }
  }

  /**
   * The intended merge keeps the text before the query (scheme, host, port,
   * path) and the fragment, and the new query reads back as the original
   * pairs with the given pairs assigned over them.
   */
  lemma MergeSemantics(url: string, params: Params)
    requires !Empty(url) && params != []
    requires WellFormed(params) && Distinct(params)
    ensures UrlQueryMerge(url, params).Some?
    ensures var p, p' := ParseUrl(url), ParseUrl(UrlQueryMerge(url, params).value);
      && p'.beforeQuery == p.beforeQuery
      && p'.fragment == p.fragment
      && p'.query.Some?
      && ParseQuery(p'.query.value) == Merge(OriginalParams(url), params)
  {
    var p := ParseUrl(url);
    var m := Merge(OriginalParams(url), params);
    OriginalParamsWellFormed(url);
    MergeWellFormed(OriginalParams(url), params);
    MergeDistinct(OriginalParams(url), params);
    BuildQueryHasNoHash(m);
    ParseAssemble(UrlParts(p.beforeQuery, Some(BuildQuery(m)), p.fragment));
    ParseBuild(m);
  }

  /**
   * For keys given in both, the new value wins; keys only in the URL keep
   * their value and their position; new keys follow in the order given.
   */
  lemma MergedPairs(url: string, params: Params, k: string)
    requires Distinct(params)
    ensures var m := Merge(OriginalParams(url), params);
      && Get(m, k) == (if k in Keys(params) then Get(params, k) else Get(OriginalParams(url), k))
      && Keys(m) == Keys(OriginalParams(url)) + Fresh(Keys(OriginalParams(url)), Keys(params))
  {
    MergeGet(OriginalParams(url), params, k);
    MergeKeys(OriginalParams(url), params);
  }

  /**
   * The helper as written, for a URL given by its parts: the query text is
   * replaced only when parse_url accepts the URL; a refused URL gets the new
   * query appended even when it has one.
   */
  lemma AsWrittenOfParts(p: UrlParts, params: Params)
    requires ValidParts(p) && !Empty(Assemble(p)) && params != []
    ensures UrlQueryMergeAsWritten(Assemble(p), params)
         == if p.query.Some? && !Empty(p.query.value) && !Rejected(Assemble(p))
            then Some(ReplaceAll(Assemble(p), p.query.value, BuildQuery(Merge(ParseQuery(p.query.value), params))))
            else Some(Assemble(p) + "?" + BuildQuery(params))
  {
    ParseAssemble(p);
  }

  /**
   * Where parse_url accepts the URL and its query text occurs nowhere else
   * in it, the code as written and the intended merge agree.
   */
  lemma AsWrittenAgreesWhenQueryUnique(p: UrlParts, params: Params)
    requires ValidParts(p) && p.query.Some? && !Empty(p.query.value) && params != [] && !Rejected(Assemble(p))
    requires OccursOnlyAt(Assemble(p), p.query.value, |p.beforeQuery| + 1)
    ensures UrlQueryMergeAsWritten(Assemble(p), params) == UrlQueryMerge(Assemble(p), params)
  {
    var url := Assemble(p);
    var q := p.query.value;
    var k := |p.beforeQuery| + 1;
    var nq := BuildQuery(Merge(ParseQuery(q), params));
    var merged := p.beforeQuery + "?" + nq + p.fragment;
    AssembleWithQuery(p.beforeQuery, q, p.fragment);
    AssembleWithQuery(p.beforeQuery, nq, p.fragment);
    assert UrlQueryMerge(url, params) == Some(merged) by {
      MergeOfParts(p, params);
    }
    assert ReplaceAll(url, q, nq) == merged by {
      ReplaceUnique(url, q, nq, k);
      assert url[..k] == p.beforeQuery + "?";
      assert url[k + |q|..] == p.fragment;
    }
    AsWrittenOfParts(p, params);
  }

  /** As written, a URL without a query but with a fragment gets the new query inside the fragment. */
  lemma AsWrittenAppendsIntoFragment(url: string, params: Params)
    requires !Empty(url) && params != [] && ParseUrl(url).query.None? && ParseUrl(url).fragment != ""
    ensures ParseUrl(UrlQueryMergeAsWritten(url, params).value).query.None?
    ensures ParseUrl(UrlQueryMergeAsWritten(url, params).value).fragment
         == ParseUrl(url).fragment + "?" + BuildQuery(params)
  {
    var p := ParseUrl(url);
    var p' := UrlParts(p.beforeQuery, None, p.fragment + "?" + BuildQuery(params));
    assert !HasQuery(url);
    assert url == p.beforeQuery + p.fragment;
    assert Assemble(p') == url + "?" + BuildQuery(params);
    ParseAssemble(p');
  }

  /** `parse_str` reads a bare key as its name with the empty value. */
  lemma ParseQueryBareKey(k: string)
    requires '&' !in k && '=' !in k && !Skipped(KeyName(k))
    ensures ParseQuery(k) == [(KeyName(k), "")]
  {
    SplitNoSeparator(k, '&');
    FirstIndexIs(k, '=', |k|);
    assert k[..|k|] == k;
    assert ParsePiece(k) == (KeyName(k), "");
    assert ParsePieces([], [k]) == ParsePieces([(KeyName(k), "")], []);
  }

  /** `http_build_query` writes the first pair, then `&` and the rest. */
  lemma BuildQueryCons(m: Params)
    requires m != []
    ensures BuildQuery(m) == m[0].0 + "=" + m[0].1 + (if |m| == 1 then "" else "&" + BuildQuery(m[1..]))
  {
    assert Pieces(m)[1..] == Pieces(m[1..]);
  }

  /** The intended merge, for a URL given by its parts. */
  lemma MergeOfParts(p: UrlParts, params: Params)
    requires ValidParts(p) && !Empty(Assemble(p)) && params != []
    ensures UrlQueryMerge(Assemble(p), params)
         == Some(Assemble(UrlParts(p.beforeQuery,
              Some(BuildQuery(Merge(if p.query.Some? && p.query.value != "" then ParseQuery(p.query.value) else [], params))),
              p.fragment)))
  {
    ParseAssemble(p);
  }

  /**
   * As written, a URL with a fragment and no query comes back different from
   * the intended merge: the new pairs land inside the fragment.
   */
  lemma AsWrittenDiffersWithFragment(url: string, params: Params)
    requires !Empty(url) && params != [] && WellFormed(params)
    requires ParseUrl(url).query.None? && ParseUrl(url).fragment != ""
    ensures UrlQueryMergeAsWritten(url, params) != UrlQueryMerge(url, params)
  {
    AsWrittenAppendsIntoFragment(url, params);
    var p := ParseUrl(url);
    var m := Merge(OriginalParams(url), params);
    assert OriginalParams(url) == [];
    MergeWellFormed([], params);
    BuildQueryHasNoHash(m);
    ParseAssemble(UrlParts(p.beforeQuery, Some(BuildQuery(m)), p.fragment));
  }
}
