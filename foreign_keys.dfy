/**
 * The foreign-key name that both CRUD controllers pull out of a database
 * error message with the pattern /CONSTRAINT `(.*)` FOREIGN/. The group is
 * greedy and `.` stops at a line feed, so the match starts at the first
 * "CONSTRAINT `" that has a closing "` FOREIGN" later on the same line, and
 * the name runs to the last such closing text on that line.
 */
module ForeignKeys {

  import opened Wrappers
  import opened Strings

  const Open: string := "CONSTRAINT `"
  const Close: string := "` FOREIGN"

  /** `n` starts at position i of `s` (the executable twin of OccursAt). */
  predicate StartsAt(s: string, n: string, i: nat) {
    i + |n| <= |s| && s[i..i + |n|] == n
  }

  /**
   * Scanning from position j (the text before j being on the match's line),
   * the last position, still on the same line, where "` FOREIGN" starts.
   */
  function LastClose(msg: string, j: nat): (k: Option<nat>)
    requires j <= |msg|
    ensures k.Some? ==> j <= k.value && OccursAt(msg, Close, k.value) && '\n' !in msg[j..k.value]
    decreases |msg| - j
  {
    var later := if j < |msg| && msg[j] != '\n' then LastClose(msg, j + 1) else None;
    if later.Some? then
      assert msg[j..later.value] == [msg[j]] + msg[j + 1..later.value];
      later
    else if StartsAt(msg, Close, j) then Some(j)
    else None
  }

  /** The first start position at or after i that has a closing text on its line. */
  function MatchFrom(msg: string, i: nat): (r: Option<string>)
    requires i <= |msg|
    decreases |msg| - i
  {
    if i + |Open| > |msg| then None
    else if StartsAt(msg, Open, i) then
      match LastClose(msg, i + |Open|)
      case Some(k) => Some(msg[i + |Open|..k])
      case None => MatchFrom(msg, i + 1)
    else MatchFrom(msg, i + 1)
  }

  /** `$matches[1]` when `preg_match` returns 1, None when it returns 0. */
  function ForeignKeyName(msg: string): Option<string> {
    MatchFrom(msg, 0)
  }

  /** The text the pattern matches, for a captured name `c`. */
  function Matched(c: string): string {
    Open + c + Close
  }

  /** Every later closing text on the line is at or before the one LastClose picks. */
  lemma {:induction false} LastCloseMax(msg: string, j: nat, k: nat)
    requires j <= k && OccursAt(msg, Close, k) && '\n' !in msg[j..k]
    ensures LastClose(msg, j).Some? && k <= LastClose(msg, j).value
    decreases |msg| - j
  {
    if j < k {
      assert msg[j] == msg[j..k][0];
      assert msg[j + 1..k] == msg[j..k][1..];
      LastCloseMax(msg, j + 1, k);
    } else {
      assert StartsAt(msg, Close, j);
    }
  }

  lemma {:induction false} MatchFromSound(msg: string, i: nat)
    requires i <= |msg|
    ensures var r := MatchFrom(msg, i);
      r.Some? ==> '\n' !in r.value && exists p :: i <= p && OccursAt(msg, Matched(r.value), p)
    decreases |msg| - i
  {
    if i + |Open| <= |msg| {
      if StartsAt(msg, Open, i) && LastClose(msg, i + |Open|).Some? {
        var k := LastClose(msg, i + |Open|).value;
        var c := msg[i + |Open|..k];
        assert msg[i..k + |Close|] == msg[i..i + |Open|] + c + msg[k..k + |Close|];
        assert OccursAt(msg, Matched(c), i);
      } else {
        MatchFromSound(msg, i + 1);
      }
    }
  }

  /** The three pieces of a match at p: the opening text, the name, the closing text. */
  lemma MatchedParts(msg: string, p: nat, c: string)
    requires OccursAt(msg, Matched(c), p)
    ensures var s := p + |Open|;
      var k := s + |c|;
      && msg[p..s] == Open && msg[s..k] == c && msg[k..k + |Close|] == Close
  {
    var s := p + |Open|;
    var k := s + |c|;
    var w := msg[p..k + |Close|];
    assert w == Open + c + Close;
    forall i | 0 <= i < |Open| ensures msg[p..s][i] == Open[i] {
      assert msg[p..s][i] == w[i];
    }
    forall i | 0 <= i < |c| ensures msg[s..k][i] == c[i] {
      assert msg[s..k][i] == w[|Open| + i];
    }
    forall i | 0 <= i < |Close| ensures msg[k..k + |Close|][i] == Close[i] {
      assert msg[k..k + |Close|][i] == w[|Open| + |c| + i];
    }
  }

  lemma {:induction false} MatchFromComplete(msg: string, i: nat, p: nat, c: string)
    requires i <= p && '\n' !in c && OccursAt(msg, Matched(c), p)
    ensures MatchFrom(msg, i).Some?
    decreases |msg| - i
  {
    var k := p + |Open| + |c|;
    MatchedParts(msg, p, c);
    if i == p {
      LastCloseMax(msg, p + |Open|, k);
    } else if !(StartsAt(msg, Open, i) && LastClose(msg, i + |Open|).Some?) {
      MatchFromComplete(msg, i + 1, p, c);
    }
  }

  /**
   * `preg_match` succeeds exactly when the message holds "CONSTRAINT `",
   * a name on one line and "` FOREIGN"; the name it captures is such a name.
   */
  lemma ForeignKeyNameMatches(msg: string)
    ensures var r := ForeignKeyName(msg);
      (r.Some? ==> '\n' !in r.value && exists p :: OccursAt(msg, Matched(r.value), p))
      && ((exists p, c :: '\n' !in c && OccursAt(msg, Matched(c), p)) ==> r.Some?)
  {
    MatchFromSound(msg, 0);
    if exists p, c :: '\n' !in c && OccursAt(msg, Matched(c), p) {
      var p, c :| '\n' !in c && OccursAt(msg, Matched(c), p);
      MatchFromComplete(msg, 0, p, c);
    }
  }

  /** No start position in [i, p) begins the opening text: the scan skips them. */
  lemma {:induction false} MatchSkip(msg: string, i: nat, p: nat)
    requires i <= p <= |msg|
    requires forall q :: i <= q < p ==> !StartsAt(msg, Open, q)
    ensures MatchFrom(msg, i) == MatchFrom(msg, p)
    decreases p - i
  {
    if i < p {
      MatchSkip(msg, i + 1, p);
    }
  }

  /** The closing text holds its only backtick at the front. */
  lemma CloseBacktick()
    ensures |Close| == 9 && Close[0] == '`'
    ensures forall d :: 0 < d < |Close| ==> Close[d] != '`'
  {
  }

  /** Where every piece of `pre + Matched(c) + post` sits. */
  lemma Layout(pre: string, c: string, post: string)
    ensures var msg := pre + Matched(c) + post;
      var s := |pre| + |Open|;
      var k := s + |c|;
      && |msg| == k + |Close| + |post|
      && msg[..|pre|] == pre
      && msg[|pre|..s] == Open
      && msg[s..k] == c
      && msg[k..k + |Close|] == Close
      && msg[k + |Close|..] == post
  {
    var msg := pre + Matched(c) + post;
    assert msg == pre + (Open + (c + (Close + post)));
  }

  /**
   * A message of the usual shape "… CONSTRAINT `name` FOREIGN …" with no
   * earlier opening text and no later closing text yields exactly `name`.
   */
  lemma ForeignKeyOfMessage(pre: string, c: string, post: string)
    requires '\n' !in c && '`' !in c
    requires forall q :: 0 <= q < |pre| ==> !StartsAt(pre + Matched(c) + post, Open, q)
    requires forall q :: !OccursAt(post, Close, q)
    ensures ForeignKeyName(pre + Matched(c) + post) == Some(c)
  {
    var msg := pre + Matched(c) + post;
    var p := |pre|;
    var s := p + |Open|;
    var k := s + |c|;
    Layout(pre, c, post);
    assert LastClose(msg, s) == Some(k) by {
      assert OccursAt(msg, Close, k);
      LastCloseMax(msg, s, k);
      OnlyClose(msg, c, post, s, k, LastClose(msg, s).value);
    }
    assert MatchFrom(msg, p) == Some(c) by {
      assert StartsAt(msg, Open, p);
      MatchAt(msg, p, k);
    }
    MatchSkip(msg, 0, p);
  }

  /** At a start position whose line has a closing text, the match is found there. */
  lemma MatchAt(msg: string, p: nat, k: nat)
    requires p + |Open| <= k <= |msg| && StartsAt(msg, Open, p) && LastClose(msg, p + |Open|) == Some(k)
    ensures MatchFrom(msg, p) == Some(msg[p + |Open|..k])
  {
  }

  /** Past the name, the closing text starts nowhere but at k. */
  lemma OnlyClose(msg: string, c: string, post: string, s: nat, k: nat, m: nat)
    requires s <= k && k == s + |c| && |msg| == k + |Close| + |post|
    requires msg[s..k] == c && msg[k..k + |Close|] == Close && msg[k + |Close|..] == post
    requires '`' !in c
    requires forall q :: !OccursAt(post, Close, q)
    requires k <= m && OccursAt(msg, Close, m)
    ensures m == k
  {
    var e := k + |Close|;
    CloseBacktick();
    NoCloseAfter(msg, post, e);
    forall q | k < q < e ensures msg[q] != '`' {
      assert msg[q] == msg[k..e][q - k];
    }
    assert msg[m] == '`';
  }

  lemma NoCloseAfter(msg: string, post: string, e: nat)
    requires e <= |msg| && msg[e..] == post
    requires forall q :: !OccursAt(post, Close, q)
    ensures forall m :: e <= m ==> !OccursAt(msg, Close, m)
  {
    forall m | e <= m ensures !OccursAt(msg, Close, m) {
      if m + |Close| <= |msg| {
        assert !OccursAt(post, Close, m - e);
        var a, b := msg[m..m + |Close|], post[m - e..m - e + |Close|];
        forall i | 0 <= i < |Close| ensures a[i] == b[i] {
          assert post[m - e + i] == msg[m + i];
        }
        assert a == b;
      }
    }
  }
}
