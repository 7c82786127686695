/**
 * The breadcrumbs the hierarchy links add for their parent records. Each
 * labelled breadcrumb definition of a link whose record is loaded gives
 * one crumb; its URL has every `{field}` placeholder (the lazy pattern
 * /\{(.*?)\}/, which stays on one line) replaced by the record's field
 * value, one `strtr` per placeholder in order of appearance.
 */
module HierarchyCrumbs {

  import opened Wrappers
  import opened OrderedMaps
  import opened Strings
  import opened Breadcrumbs
  import opened HierarchyLinks

  /** One match of /\{(.*?)\}/: the whole text and the field name inside. */
  datatype Placeholder = Placeholder(whole: string, name: string)

  /** The first '}' at or after i, if one comes before a line feed. */
  function CloseBrace(s: string, i: nat): (j: Option<nat>)
    requires i <= |s|
    ensures j.Some? ==> i <= j.value < |s| && s[j.value] == '}'
    ensures j.Some? ==> forall q :: i <= q < j.value ==> s[q] != '}' && s[q] != '\n'
    decreases |s| - i
  {
    if i == |s| || s[i] == '\n' then None
    else if s[i] == '}' then Some(i)
    else CloseBrace(s, i + 1)
  }

  /** `preg_match_all('/\{(.*?)\}/', $s)`: the matches, left to right, not overlapping. */
  function Placeholders(s: string): (ps: seq<Placeholder>)
    ensures forall p <- ps :: p.whole == "{" + p.name + "}" && '}' !in p.name && '\n' !in p.name
    decreases |s|
  {
    if s == [] then []
    else if s[0] == '{' && CloseBrace(s, 1).Some? then
      var j := CloseBrace(s, 1).value;
      assert s[..j + 1] == "{" + s[1..j] + "}";
      assert forall q :: 0 <= q < |s[1..j]| ==> s[1..j][q] == s[q + 1];
      [Placeholder(s[..j + 1], s[1..j])] + Placeholders(s[j + 1..])
    else Placeholders(s[1..])
  }

  /** The field values a record gives for field names (ArrayHelper::getValue or `$model->{$name}`, as text). */
  type Attr<!R> = (R, string) -> string

  /** The `strtr` loop: each placeholder in turn, replaced in the URL as it stands. */
  function SubstituteWith<R>(url: string, ps: seq<Placeholder>, m: R, attr: Attr<R>): string
    decreases |ps|
  {
    if ps == [] then url else SubstituteWith(ReplaceAll(url, ps[0].whole, attr(m, ps[0].name)), ps[1..], m, attr)
  }

  function SubstituteUrl<R>(url: string, m: R, attr: Attr<R>): string {
    SubstituteWith(url, Placeholders(url), m, attr)
  }

  /** The label text: the closure's result, the template with {model_name} filled in, or the fixed text. */
  function LabelText<R>(l: Label<R>, m: R, attr: Attr<R>): string {
    match l
    case Computed(f) => f(m)
    case Named(t, nameField) => ReplaceAll(t, "{model_name}", attr(m, nameField))
    case Fixed(t) => t
  }

  /** The crumbs of one record's breadcrumb definitions; unlabelled definitions give none. */
  function DefCrumbs<R>(defs: seq<CrumbDef<R>>, m: R, attr: Attr<R>): seq<Crumb>
    decreases |defs|
  {
    if defs == [] then []
    else
      var d := defs[|defs| - 1];
      DefCrumbs(defs[..|defs| - 1], m, attr)
        + (if d.caption.Some? then
             [Crumb(LabelText(d.caption.value, m, attr), if d.url.Some? then Some(SubstituteUrl(d.url.value, m, attr)) else None)]
           else [])
  }

  /** The crumbs of one loaded record: none when it is null or its link has no breadcrumbs. */
  function EntryCrumbs<R>(field: string, record: Option<R>, links: Links<R>, attr: Attr<R>): seq<Crumb> {
    match Get(links, field)
    case Some(l) => if l.breadcrumbs.Some? && record.Some? then DefCrumbs(l.breadcrumbs.value, record.value, attr) else []
    case None => []
  }

  /** The hierarchy crumbs, in the order of the loaded records. */
  function LinkCrumbs<R>(records: Records<R>, links: Links<R>, attr: Attr<R>): seq<Crumb>
    decreases |records|
  {
    if records == [] then []
    else
      var (field, record) := records[|records| - 1];
      LinkCrumbs(records[..|records| - 1], links, attr) + EntryCrumbs(field, record, links, attr)
  }

  // ---------------------------------------------------------------------
  // Loops

  /** The placeholder loop of the URL. */
  method ExpandUrl<R>(url: string, m: R, attr: Attr<R>) returns (u: string)
    ensures u == SubstituteUrl(url, m, attr)
  {
    var ps := Placeholders(url);
    u := url;
    var i := 0;
    while i < |ps|
      invariant 0 <= i <= |ps|
      invariant SubstituteWith(u, ps[i..], m, attr) == SubstituteUrl(url, m, attr)
    {
      assert ps[i..][1..] == ps[i + 1..];
      u := ReplaceAll(u, ps[i].whole, attr(m, ps[i].name));
      i := i + 1;
    }
  }

  /** The loop over one link's breadcrumb definitions. */
  method CollectDefCrumbs<R>(defs: seq<CrumbDef<R>>, m: R, attr: Attr<R>) returns (crumbs: seq<Crumb>)
    ensures crumbs == DefCrumbs(defs, m, attr)
  {
    crumbs := [];
    var i := 0;
    while i < |defs|
      invariant 0 <= i <= |defs|
      invariant crumbs == DefCrumbs(defs[..i], m, attr)
    {
      assert defs[..i + 1][..i] == defs[..i];
      var d := defs[i];
      if d.caption.Some? {
        var text := LabelText(d.caption.value, m, attr);
        var url: Option<string> := None;
        if d.url.Some? {
          var u := ExpandUrl(d.url.value, m, attr);
          url := Some(u);
        }
        crumbs := crumbs + [Crumb(text, url)];
      }
      i := i + 1;
    }
    assert defs[..i] == defs;
  }

  /** The loop over the loaded records. */
  method CollectCrumbs<R>(records: Records<R>, links: Links<R>, attr: Attr<R>) returns (crumbs: seq<Crumb>)
    ensures crumbs == LinkCrumbs(records, links, attr)
  {
    crumbs := [];
    var i := 0;
    while i < |records|
      invariant 0 <= i <= |records|
      invariant crumbs == LinkCrumbs(records[..i], links, attr)
    {
      var entry := records[i];
      var more: seq<Crumb> := [];
      var link := Get(links, entry.0);
      if link.Some? && link.value.breadcrumbs.Some? && entry.1.Some? {
        more := CollectDefCrumbs(link.value.breadcrumbs.value, entry.1.value, attr);
      }
      assert more == EntryCrumbs(entry.0, entry.1, links, attr);
      assert LinkCrumbs(records[..i + 1], links, attr) == LinkCrumbs(records[..i], links, attr) + more by {
        assert records[..i + 1][..i] == records[..i];
        assert records[..i + 1][i] == entry;
      }
      crumbs := crumbs + more;
      i := i + 1;
    }
    assert records[..i] == records;
  }

  // ---------------------------------------------------------------------
  // Properties

  /** A URL without '{' has no placeholder and is kept as it is. */
  lemma {:induction false} NoPlaceholders<R>(url: string, m: R, attr: Attr<R>)
    requires '{' !in url
    ensures Placeholders(url) == []
    ensures SubstituteUrl(url, m, attr) == url
    decreases |url|
  {
    if url != [] {
      assert '{' !in url[1..];
      NoPlaceholders(url[1..], m, attr);
    }
  }

  /** CloseBrace finds the '}' that ends a name free of '}' and line feeds. */
  lemma {:induction false} CloseBraceAt(s: string, i: nat, j: nat)
    requires i <= j < |s| && s[j] == '}'
    requires forall q :: i <= q < j ==> s[q] != '}' && s[q] != '\n'
    ensures CloseBrace(s, i) == Some(j)
    decreases j - i
  {
    if i < j {
      CloseBraceAt(s, i + 1, j);
    }
  }

  /** The one placeholder of a URL like "/record/view?id={id}". */
  lemma {:induction false} SinglePlaceholder(pre: string, name: string, post: string)
    requires '{' !in pre && '{' !in post
    requires '}' !in name && '\n' !in name
    ensures Placeholders(pre + "{" + name + "}" + post) == [Placeholder("{" + name + "}", name)]
    decreases |pre|
  {
    var s := pre + "{" + name + "}" + post;
    if pre == [] {
      assert s == "{" + name + "}" + post;
      var j := |name| + 1;
      forall q | 1 <= q < j ensures s[q] != '}' && s[q] != '\n' {
        assert s[q] == name[q - 1];
      }
      CloseBraceAt(s, 1, j);
      assert s[..j + 1] == "{" + name + "}";
      assert s[1..j] == name;
      assert s[j + 1..] == post;
      NoPlaceholders(post, 0, (_, _) => "");
    } else {
      assert s[0] == pre[0];
      assert s[1..] == pre[1..] + "{" + name + "}" + post;
      SinglePlaceholder(pre[1..], name, post);
    }
  }

  /**
   * A URL with one placeholder becomes the URL with the record's field
   * value in its place.
   */
  lemma SubstituteSingle<R>(pre: string, name: string, post: string, m: R, attr: Attr<R>)
    requires '{' !in pre && '{' !in post
    requires '{' !in name && '}' !in name && '\n' !in name
    ensures SubstituteUrl(pre + "{" + name + "}" + post, m, attr) == pre + attr(m, name) + post
  {
    var n := "{" + name + "}";
    var s := pre + "{" + name + "}" + post;
    var v := attr(m, name);
    SinglePlaceholder(pre, name, post);
    BraceOnlyAt(pre, name, post);
    ReplaceUnique(s, n, v, |pre|);
    var ps := [Placeholder(n, name)];
    assert ps[1..] == [];
    assert SubstituteUrl(s, m, attr) == SubstituteWith(s, ps, m, attr);
    assert SubstituteWith(s, ps, m, attr) == SubstituteWith(ReplaceAll(s, n, v), [], m, attr);
  }

  /** The placeholder of `pre + "{name}" + post` occurs only right after `pre`. */
  lemma BraceOnlyAt(pre: string, name: string, post: string)
    requires '{' !in pre && '{' !in post && '{' !in name
    ensures var n := "{" + name + "}";
      var s := pre + "{" + name + "}" + post;
      OccursOnlyAt(s, n, |pre|) && s[..|pre|] == pre && s[|pre| + |n|..] == post
  {
    var n := "{" + name + "}";
    var s := pre + n + post;
    var k := |pre|;
    assert s == pre + "{" + name + "}" + post;
    forall q | 0 <= q < |s| && q != k ensures s[q] != '{' {
      if q < k {
        assert s[q] == pre[q];
      } else if q < k + |n| {
        OnlyOpenBrace(name, q - k);
        assert s[q] == n[q - k];
      } else {
        assert s[q] == post[q - k - |n|];
      }
    }
    forall i | i != k ensures !OccursAt(s, n, i) {
      if 0 <= i && i + |n| <= |s| {
        assert s[i..i + |n|][0] == s[i];
      }
    }
    assert s[k..k + |n|] == n;
  }

  /** In "{name}", '{' appears only at the front. */
  lemma OnlyOpenBrace(name: string, d: nat)
    requires '{' !in name && 0 < d < |name| + 2
    ensures ("{" + name + "}")[d] != '{'
  {
    if d <= |name| {
      assert ("{" + name + "}")[d] == name[d - 1];
    }
  }

  /**
   * With every definition labelled, one crumb per definition, in order,
   * with its label and its URL filled in.
   */
  lemma {:induction false} DefCrumbsLabelled<R>(defs: seq<CrumbDef<R>>, m: R, attr: Attr<R>)
    requires forall i :: 0 <= i < |defs| ==> defs[i].caption.Some?
    ensures |DefCrumbs(defs, m, attr)| == |defs|
    ensures forall i :: 0 <= i < |defs| ==>
      DefCrumbs(defs, m, attr)[i].text == LabelText(defs[i].caption.value, m, attr)
      && DefCrumbs(defs, m, attr)[i].url == if defs[i].url.Some? then Some(SubstituteUrl(defs[i].url.value, m, attr)) else None
    decreases |defs|
  {
    if defs != [] {
      DefCrumbsLabelled(defs[..|defs| - 1], m, attr);
    }
  }

  /** Definitions without a label give no crumbs. */
  lemma {:induction false} DefCrumbsUnlabelled<R>(defs: seq<CrumbDef<R>>, m: R, attr: Attr<R>)
    requires forall i :: 0 <= i < |defs| ==> defs[i].caption.None?
    ensures DefCrumbs(defs, m, attr) == []
    decreases |defs|
  {
    if defs != [] {
      DefCrumbsUnlabelled(defs[..|defs| - 1], m, attr);
    }
  }

  /** Links whose record is null contribute no crumbs. */
  lemma {:induction false} NullRecordsNoCrumbs<R>(records: Records<R>, links: Links<R>, attr: Attr<R>)
    requires forall i :: 0 <= i < |records| ==> records[i].1.None?
    ensures LinkCrumbs(records, links, attr) == []
    decreases |records|
  {
    if records != [] {
      NullRecordsNoCrumbs(records[..|records| - 1], links, attr);
    }
  }
}
