/**
 * The decision rules of RadCrudController that do not touch controller
 * state: grid PJAX ids and persistence keys, the classification of a delete
 * outcome, the routing of delete, success and bulk responses on
 * `return_url`, and the merging of redirect parameters.
 */
module RadCrudRules {

  import opened Wrappers
  import opened OrderedMaps
  import opened Php
  import opened ForeignKeys
  import opened UrlHelper

  // ---------------------------------------------------------------------
  // Ids and session keys

  const PersistGridSessionKey: string := "AjaxCrudDP"
  const GridPersistentResetParam: string := "reset_grid_persistence"

  /** `getModelId`: the search form name under dynagrid, else the ajaxcrud default. */
  function ModelId(useDynagrid: bool, searchFormName: string): string {
    if useDynagrid then searchFormName else "crud"
  }

  /** `getGridviewPjaxId`. */
  function GridviewPjaxId(useDynagrid: bool, searchFormName: string): string {
    "#" + ModelId(useDynagrid, searchFormName) + (if useDynagrid then "-gridview" else "-datatable") + "-pjax"
  }

  /**
   * Without dynagrid the id is the fixed one of yii2-ajaxcrud, and no
   * dynagrid grid, whatever its search form's name, reloads that container.
   */
  lemma PjaxIdsApart(a: string, b: string)
    ensures GridviewPjaxId(false, a) == "#crud-datatable-pjax"
    ensures GridviewPjaxId(true, b) != GridviewPjaxId(false, a)
  {
    var x := GridviewPjaxId(true, b);
    assert x[|x| - 6] == 'w';
  }

  /** Under dynagrid, two search forms share a PJAX id only if they share a name. */
  lemma PjaxIdInjective(a: string, b: string)
    requires GridviewPjaxId(true, a) == GridviewPjaxId(true, b)
    ensures a == b
  {
    var x, y := GridviewPjaxId(true, a), GridviewPjaxId(true, b);
    assert |a| == |b|;
    assert a == x[1..1 + |a|] && b == y[1..1 + |b|];
  }

  /** `dataProviderSessionKey`. */
  function DataProviderSessionKey(className: string): string {
    PersistGridSessionKey + "_" + className
  }

  /** The three values a grid persists. */
  datatype PersistKind = Filters | Page | Sorting

  function Suffix(k: PersistKind): string {
    match k
    case Filters => "_filters"
    case Page => "_page"
    case Sorting => "_sorting"
  }

  /** `$session_key . '_filters'` and its siblings, with `$session_key` of line 752. */
  function PersistKey(className: string, gridId: string, kind: PersistKind): string {
    DataProviderSessionKey(className) + gridId + Suffix(kind)
  }

  /** The query parameter that resets persistence for one grid. */
  function ResetParamName(gridId: string): string {
    gridId + GridPersistentResetParam
  }

  function PageParam(gridId: string): string {
    gridId + "_page"
  }

  function SortParam(gridId: string): string {
    gridId + "_sort"
  }

  lemma {:induction false} SameSuffix(x: string, y: string, s: string)
    requires x + s == y + s
    ensures x == y
  {
    assert x == (x + s)[..|x|];
    assert y == (y + s)[..|y|];
  }

  lemma SamePrefix(p: string, x: string, y: string)
    requires p + x == p + y
    ensures x == y
  {
    assert x == (p + x)[|p|..];
    assert y == (p + y)[|p|..];
  }

  /**
   * Within one controller, a persisted key names one grid and one kind:
   * no two grids, and no two of filters, page and sorting, share a key.
   */
  lemma PersistKeyInjective(className: string, g1: string, k1: PersistKind, g2: string, k2: PersistKind)
    requires PersistKey(className, g1, k1) == PersistKey(className, g2, k2)
    ensures g1 == g2 && k1 == k2
  {
    var p := DataProviderSessionKey(className);
    var t1, t2 := g1 + Suffix(k1), g2 + Suffix(k2);
    PersistKeyParts(className, g1, k1);
    PersistKeyParts(className, g2, k2);
    SamePrefix(p, t1, t2);
    KindFromTail(g1, k1, g2, k2);
    SameSuffix(g1, g2, Suffix(k1));
  }

  lemma PersistKeyParts(className: string, g: string, k: PersistKind)
    ensures PersistKey(className, g, k) == DataProviderSessionKey(className) + (g + Suffix(k))
  {
  }

  /** Two grid keys that end alike are of the same kind. */
  lemma KindFromTail(g1: string, k1: PersistKind, g2: string, k2: PersistKind)
    requires g1 + Suffix(k1) == g2 + Suffix(k2)
    ensures k1 == k2
  {
    SuffixLast(g1, k1);
    SuffixLast(g2, k2);
    LastDistinct(k1, k2);
  }

  lemma SuffixLast(g: string, k: PersistKind)
    ensures (g + Suffix(k))[|g + Suffix(k)| - 1] == Suffix(k)[|Suffix(k)| - 1]
  {
  }

  /** The three suffixes end in different letters. */
  lemma LastDistinct(k1: PersistKind, k2: PersistKind)
    requires Suffix(k1)[|Suffix(k1)| - 1] == Suffix(k2)[|Suffix(k2)| - 1]
    ensures k1 == k2
  {
  }

  // ---------------------------------------------------------------------
  // Delete classification

  /** What `$this->model->delete()` does: returns a row count, returns false, or throws. */
  datatype DeleteOutcome = Deleted(rows: int) | Refused | Threw(code: int, message: string)

  /** `deleteModel()`'s `false|int|string`. */
  datatype DeleteResult = Rows(n: int) | False | Text(text: string)

  const IntegrityViolation: int := 23000

  /**
   * `deleteModel`: a thrown integrity violation naming a foreign key becomes
   * the translated "linked with" text `linked(name)`; any other exception
   * becomes its message; otherwise the result of `delete()` passes through.
   */
  function DeleteModel(o: DeleteOutcome, linked: string -> string): (r: DeleteResult)
    ensures r.Text? <==> o.Threw?
  {
    match o
    case Deleted(n) => Rows(n)
    case Refused => False
    case Threw(code, msg) =>
      var fk := ForeignKeyName(msg);
      if code == IntegrityViolation && fk.Some? then Text(linked(fk.value)) else Text(msg)
  }

  /** How `actionDelete` reads the result of `deleteModel`. */
  datatype DeleteVerdict = FailedWith(reason: string) | Failed | Succeeded

  function ActionDeleteVerdict(r: DeleteResult): DeleteVerdict {
    match r
    case Text(t) => FailedWith(t)
    case False => Failed
    case Rows(_) => Succeeded
  }

  /**
   * A delete succeeds for `actionDelete` exactly when `delete()` returned a
   * count, 0 included; it fails with a reason exactly when it threw, and the
   * reason is the foreign-key text only for code 23000 with a matching message.
   */
  lemma DeleteVerdictOfOutcome(o: DeleteOutcome, linked: string -> string)
    ensures var v := ActionDeleteVerdict(DeleteModel(o, linked));
      && (v.Succeeded? <==> o.Deleted?)
      && (v.Failed? <==> o.Refused?)
      && (v.FailedWith? <==> o.Threw?)
      && (o.Threw? && o.code == IntegrityViolation && ForeignKeyName(o.message).Some? ==>
            v == FailedWith(linked(ForeignKeyName(o.message).value)))
      && (o.Threw? && (o.code != IntegrityViolation || ForeignKeyName(o.message).None?) ==>
            v == FailedWith(o.message))
  {
  }

  /**
   * The usual MySQL message for a referenced row reaches the user as the
   * "linked with" text for the constraint's name.
   */
  lemma DeleteModelForeignKey(pre: string, name: string, post: string, linked: string -> string)
    requires '\n' !in name && '`' !in name
    requires forall q :: 0 <= q < |pre| ==> !StartsAt(pre + Matched(name) + post, Open, q)
    requires forall q :: !Strings.OccursAt(post, Close, q)
    ensures DeleteModel(Threw(IntegrityViolation, pre + Matched(name) + post), linked) == Text(linked(name))
  {
    ForeignKeyOfMessage(pre, name, post);
  }

  // ---------------------------------------------------------------------
  // Return URLs and redirects

  /**
   * A `return_url`: a URL string, or a route array whose first element is
   * the route (absent for an empty array) and whose other string-keyed
   * entries are its parameters.
   */
  datatype ReturnUrl = Link(url: string) | Route(head: Option<string>, rest: Params)

  /** `$request->get('return_url', $default)`. */
  function ChosenReturnUrl(requested: Option<ReturnUrl>, default: ReturnUrl): (r: ReturnUrl)
    ensures requested.Some? ==> r == requested.value
    ensures requested.None? ==> r == default
  {
    if requested.Some? then requested.value else default
  }

  /**
   * The argument passed to `$this->redirect`: for a route, the two-element
   * array `[route, params]`, whose element 0 is the route and whose
   * element 1 is the merged parameter map; for a URL, the merged URL
   * (None for `false`).
   */
  datatype Redirect = ToRoute(route: Option<string>, params: Params) | ToUrl(url: Option<string>)

  /**
   * `redirectReturnUrl`: a route keeps its first element and lays its own
   * parameters over `base`; a URL gets `base` merged into it by
   * `Url::urlQueryMerge` as written (`false`, i.e. None, for an empty URL).
   */
  function RedirectReturnUrl(ret: ReturnUrl, base: Params): (r: Redirect)
    ensures ret.Route? ==> r.ToRoute? && r.route == ret.head
    ensures ret.Link? ==> r.ToUrl? && (r.url.None? <==> Empty(ret.url))
    ensures ret.Link? && !Empty(ret.url) && base != [] && !HasQuery(ret.url) ==>
              r.url == Some(ret.url + "?" + BuildQuery(base))
  {
    match ret
    case Route(head, rest) => ToRoute(head, Merge(base, rest))
    case Link(url) => ToUrl(UrlQueryMergeAsWritten(url, base))
  }

  // The route array as a PHP array. Yii reads an array route in the format
  // `[$route, ...name-value pairs...]`: element 0 is the route and every
  // other entry is a query parameter.

  function RouteValue(route: Option<string>): Value {
    if route.Some? then Str(route.value) else Null
  }

  function ParamValues(m: Params): (r: OMap<string, Value>)
    ensures |r| == |m| && forall i :: 0 <= i < |m| ==> r[i] == (m[i].0, Str(m[i].1))
  {
    seq(|m|, i requires 0 <= i < |m| => (m[i].0, Str(m[i].1)))
  }

  /** The array handed to `redirect` for a route, as written: `[route, params]`. */
  function RouteArrayAsWritten(route: Option<string>, params: Params): OMap<string, Value> {
    [("0", RouteValue(route)), ("1", Arr(ParamValues(params)))]
  }

  /** The array as evidently intended: the route followed by the parameters themselves. */
  function RouteArray(route: Option<string>, params: Params): OMap<string, Value> {
    [("0", RouteValue(route))] + ParamValues(params)
  }

  /** The name-value pairs Yii reads from a route array: every entry but element 0. */
  function RouteQueryPairs(a: OMap<string, Value>): OMap<string, Value> {
    Remove(a, "0")
  }

  /** A parameter given in the route array overrides the same base parameter. */
  lemma RedirectRouteParams(head: Option<string>, rest: Params, base: Params, k: string)
    requires Distinct(rest)
    ensures var r := RedirectReturnUrl(Route(head, rest), base);
      Get(r.params, k) == if k in Keys(rest) then Get(rest, k) else Get(base, k)
  {
    MergeGet(base, rest, k);
  }

  /** A URL without base parameters is left as it is (an empty one becomes `false`). */
  lemma RedirectLinkUnchanged(url: string)
    ensures RedirectReturnUrl(Link(url), []) == ToUrl(if Empty(url) then None else Some(url))
  {
  }

  // ---------------------------------------------------------------------
  // Response routing

  /** `$request->isAjax && ! $request->isPjax`: a request from an ajaxcrud modal. */
  predicate ModalRequest(isAjax: bool, isPjax: bool) {
    isAjax && !isPjax
  }

  predicate IsIndex(ret: ReturnUrl) {
    ret == Link("index")
  }

  predicate IsViewOrUpdate(ret: ReturnUrl) {
    ret == Link("view") || ret == Link("update")
  }

  /** The JSON a modal receives after a successful action. */
  datatype ModalResult =
    | ReloadAndClose(pjax: string)
    | ReloadWithView(pjax: string, view: string)
    | ForceRedirect(target: ReturnUrl)

  datatype Flash = Success(body: string) | Danger(body: string)

  datatype SuccessReply = ModalReply(result: ModalResult) | PageReply(flash: Flash, redirect: Redirect)

  /**
   * `crudActionSuccessResponse`: modal requests are routed on `return_url`;
   * page requests get a success flash and a redirect carrying the record id.
   */
  function CrudSuccessResponse(modal: bool, requested: Option<ReturnUrl>, default: ReturnUrl,
                               pjax: string, message: string, modelId: int): SuccessReply
  {
    var ret := ChosenReturnUrl(requested, default);
    if modal then
      ModalReply(
        if IsIndex(ret) then ReloadAndClose(pjax)
        else if IsViewOrUpdate(ret) then ReloadWithView(pjax, ret.url)
        else ForceRedirect(ret))
    else PageReply(Success(message), RedirectReturnUrl(ret, [("id", IntText(modelId))]))
  }

  /**
   * Modal routing: 'index' reloads the grid and closes; 'view' and 'update'
   * reload and render that view; anything else, every route array included,
   * is a forced redirect to the return URL itself.
   */
  lemma CrudSuccessRouting(requested: Option<ReturnUrl>, default: ReturnUrl, pjax: string, message: string, id: int)
    ensures var ret := ChosenReturnUrl(requested, default);
      var r := CrudSuccessResponse(true, requested, default, pjax, message, id).result;
      && (r.ReloadAndClose? <==> IsIndex(ret))
      && (r.ReloadWithView? <==> IsViewOrUpdate(ret))
      && (r.ForceRedirect? <==> !IsIndex(ret) && !IsViewOrUpdate(ret))
      && (r.ForceRedirect? ==> r.target == ret)
      && (ret.Route? ==> r.ForceRedirect?)
      && (!r.ForceRedirect? ==> r.pjax == pjax)
  {
  }

  /**
   * A page request redirects with the route array whose element 1, the
   * parameter map, has `id` set to the record's id, unless the route array
   * gives its own `id`.
   */
  lemma CrudSuccessPageId(head: Option<string>, rest: Params, pjax: string, message: string, id: int)
    requires Distinct(rest)
    ensures var r := CrudSuccessResponse(false, Some(Route(head, rest)), Link(""), pjax, message, id);
      && r.PageReply? && r.flash == Success(message) && r.redirect.ToRoute? && r.redirect.route == head
      && Get(r.redirect.params, "id") == if "id" in Keys(rest) then Get(rest, "id") else Some(IntText(id))
  {
    RedirectRouteParams(head, rest, [("id", IntText(id))], "id");
  }

  /**
   * A page request whose return URL has no query is sent to that URL with
   * `?id=` and the record's id appended at its very end, after any fragment.
   */
  lemma CrudSuccessPageLink(url: string, pjax: string, message: string, id: int)
    requires !Empty(url) && !HasQuery(url)
    ensures var r := CrudSuccessResponse(false, Some(Link(url)), Link(""), pjax, message, id);
      r == PageReply(Success(message), ToUrl(Some(url + "?id=" + IntText(id))))
  {
    BuildQueryCons([("id", IntText(id))]);
    assert url + "?" + ("id" + "=" + IntText(id)) == url + "?id=" + IntText(id);
  }

  /**
   * As written, the route array handed to `redirect` nests the parameters
   * under element 1, so the only query parameter Yii reads from it is `1`
   * and the record's `id` is not one of them.
   */
  lemma RouteIdNestedAsWritten(head: Option<string>, rest: Params, pjax: string, message: string, id: int)
    ensures var r := CrudSuccessResponse(false, Some(Route(head, rest)), Link(""), pjax, message, id).redirect;
      var q := RouteQueryPairs(RouteArrayAsWritten(r.route, r.params));
      Keys(q) == ["1"] && Get(q, "id") == None
  {
    var r := CrudSuccessResponse(false, Some(Route(head, rest)), Link(""), pjax, message, id).redirect;
    var a := RouteArrayAsWritten(r.route, r.params);
    assert a[1..][1..] == [];
    assert Remove(a[1..][1..], "0") == [];
    assert Remove(a[1..], "0") == [a[1]] + Remove(a[1..][1..], "0");
    assert RouteQueryPairs(a) == [a[1]];
  }

  /**
   * As intended, the parameters are entries of the route array itself, so
   * Yii reads the merged map as the query, `id` included.
   */
  lemma RouteIdIntended(head: Option<string>, rest: Params, pjax: string, message: string, id: int)
    requires Distinct(rest) && "0" !in Keys(rest)
    ensures var r := CrudSuccessResponse(false, Some(Route(head, rest)), Link(""), pjax, message, id).redirect;
      var q := RouteQueryPairs(RouteArray(r.route, r.params));
      q == ParamValues(r.params)
      && Get(q, "id") == Some(Str(if "id" in Keys(rest) then Get(rest, "id").value else IntText(id)))
  {
    RedirectRouteParams(head, rest, [("id", IntText(id))], "id");
    RedirectRouteParams(head, rest, [("id", IntText(id))], "0");
    var r := CrudSuccessResponse(false, Some(Route(head, rest)), Link(""), pjax, message, id).redirect;
    ParamValuesGet(r.params, "0");
    ParamValuesGet(r.params, "id");
    var a := RouteArray(r.route, r.params);
    assert a[1..] == ParamValues(r.params);
    RemoveAbsent(ParamValues(r.params), "0");
  }

  lemma {:induction false} ParamValuesGet(m: Params, k: string)
    ensures Get(ParamValues(m), k) == if Get(m, k).Some? then Some(Str(Get(m, k).value)) else None
  {
    if m != [] {
      assert ParamValues(m)[1..] == ParamValues(m[1..]);
      ParamValuesGet(m[1..], k);
    }
  }

  /** The reply of `actionDelete`, once the result is classified. */
  datatype DeleteReply =
    | DetailError(verdict: DeleteVerdict)
    | ModalError(verdict: DeleteVerdict)
    | ModalDone(result: ModalResult)
    | PageDone(flash: Flash, redirect: Redirect)

  /**
   * `actionDelete` after the delete: a detail view gets a JSON error on
   * failure (and on success goes on as if it had no detail view, since that
   * branch does not return); a modal gets the error, or a grid reload for
   * 'index' and a forced redirect otherwise; a page gets a flash and the
   * redirect. `message` stands for the translated text of the verdict.
   */
  function DeleteReplyOf(verdict: DeleteVerdict, message: string, useDetailView: bool, modal: bool,
                         requested: Option<ReturnUrl>, default: ReturnUrl, pjax: string): DeleteReply
  {
    var ret := ChosenReturnUrl(requested, default);
    var failed := !verdict.Succeeded?;
    if useDetailView && failed then DetailError(verdict)
    else if modal then
      if failed then ModalError(verdict)
      else if IsIndex(ret) then ModalDone(ReloadAndClose(pjax))
      else ModalDone(ForceRedirect(ret))
    else PageDone(if failed then Danger(message) else Success(message), RedirectReturnUrl(ret, []))
  }

  /** The controller's `deleteSuccessRedirect`, the array `['index']`. */
  const DeleteSuccessRedirect: ReturnUrl := Route(Some("index"), [])

  /**
   * Success under a detail view answers exactly as without one; failure
   * under a detail view is always the JSON error. Because the default return
   * URL is the array `['index']`, which never equals the string 'index', a
   * modal delete without `return_url` is a forced redirect, not a reload.
   */
  lemma DeleteReplyRouting(verdict: DeleteVerdict, message: string, modal: bool,
                           requested: Option<ReturnUrl>, pjax: string)
    ensures verdict.Succeeded? ==>
      DeleteReplyOf(verdict, message, true, modal, requested, DeleteSuccessRedirect, pjax)
      == DeleteReplyOf(verdict, message, false, modal, requested, DeleteSuccessRedirect, pjax)
    ensures !verdict.Succeeded? ==>
      DeleteReplyOf(verdict, message, true, modal, requested, DeleteSuccessRedirect, pjax) == DetailError(verdict)
    ensures verdict.Succeeded? ==>
      DeleteReplyOf(verdict, message, false, true, None, DeleteSuccessRedirect, pjax)
      == ModalDone(ForceRedirect(DeleteSuccessRedirect))
    ensures verdict.Succeeded? ==>
      DeleteReplyOf(verdict, message, false, true, Some(Link("index")), DeleteSuccessRedirect, pjax)
      == ModalDone(ReloadAndClose(pjax))
  {
  }

  // ---------------------------------------------------------------------
  // Bulk responses

  /** `$errors ? $title . Html::ul($errors) : null`, with `ul` the rendered list. */
  function ErrorString(title: string, errors: OMap<string, string>, ul: OMap<string, string> -> string): (r: Option<string>)
    ensures r.Some? <==> errors != []
  {
    if errors == [] then None else Some(title + ul(errors))
  }

  /** The `alert` flashes set in order: the success message, then the error string. */
  function FlashWrites(message: string, errorString: Option<string>): seq<Flash> {
    (if StrTruthy(message) then [Success(message)] else [])
    + (if errorString.Some? && StrTruthy(errorString.value) then [Danger(errorString.value)] else [])
  }

  /** A flash key keeps the last value set. */
  function LastFlash(writes: seq<Flash>): Option<Flash> {
    if writes == [] then None else Some(writes[|writes| - 1])
  }

  /** The reply of `bulkActionResponse`. */
  datatype BulkReply =
    | BulkModalClose(pjax: string, title: string, message: string)
    | BulkModalRedirect(flash: Option<Flash>, target: ReturnUrl)
    | BulkPageRedirect(flash: Option<Flash>, redirect: Redirect)

  function BulkActionResponse(title: string, message: string, default: ReturnUrl, errors: OMap<string, string>,
                              ul: OMap<string, string> -> string, requested: Option<ReturnUrl>,
                              modal: bool, pjax: string): BulkReply
  {
    var ret := ChosenReturnUrl(requested, default);
    var es := ErrorString(title, errors, ul);
    if modal && IsIndex(ret) then
      BulkModalClose(pjax, title, message + "<br/>" + (if es.Some? then es.value else ""))
    else if modal then BulkModalRedirect(LastFlash(FlashWrites(message, es)), ret)
    else BulkPageRedirect(LastFlash(FlashWrites(message, es)), RedirectReturnUrl(ret, []))
  }

  /**
   * The flash a bulk action leaves: the error list when there are errors
   * (it overwrites the success message), else the message if it is
   * non-empty, else none. The modal 'index' reply sets no flash and shows
   * both texts.
   */
  lemma BulkFlash(title: string, message: string, default: ReturnUrl, errors: OMap<string, string>,
                  ul: OMap<string, string> -> string, requested: Option<ReturnUrl>, modal: bool, pjax: string)
    ensures var r := BulkActionResponse(title, message, default, errors, ul, requested, modal, pjax);
      var es := title + ul(errors);
      var expected :=
        if errors != [] && StrTruthy(es) then Some(Danger(es))
        else if StrTruthy(message) then Some(Success(message))
        else None;
      && (r.BulkModalClose? <==> modal && IsIndex(ChosenReturnUrl(requested, default)))
      && (r.BulkModalClose? ==> r.message == message + "<br/>" + (if errors != [] then es else ""))
      && (!r.BulkModalClose? ==> r.flash == expected)
  {
  }
}
