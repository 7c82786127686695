/**
 * BaseAjaxCrudController: the yii2-ajaxcrud base controller. It keeps the
 * grid filters of a model in the session, deletes one record with a
 * foreign-key aware error message, and deletes a comma-separated list of
 * records, collecting the primary keys it could not delete.
 */
module BaseAjaxCrud {

  import opened Wrappers
  import opened Strings
  import opened Php
  import opened Sessions
  import opened Breadcrumbs
  import opened ForeignKeys
  import opened RadCrudRules

  // ---------------------------------------------------------------------
  // Ids and session keys

  const FiltersKeyPrefix: string := "AjaxCrudCont_filters_"
  const CrudDatatablePjax: string := "#crud-datatable-pjax"
  const FilterResetParam: string := "filter_reset"

  /** `filtersSessionKey`. */
  function FiltersSessionKey(modelName: string): string {
    FiltersKeyPrefix + modelName
  }

  /** `pjaxForceUpdateId`: the dynagrid table's PJAX container, or the ajaxcrud default. */
  function PjaxForceUpdateId(useDynagrid: bool, tableName: string): string {
    if useDynagrid then "#" + tableName + "-gridview-pjax" else CrudDatatablePjax
  }

  /** Two models share a filter key only if they share a name. */
  lemma FiltersSessionKeyInjective(a: string, b: string)
    requires FiltersSessionKey(a) == FiltersSessionKey(b)
    ensures a == b
  {
    var x, y := FiltersSessionKey(a), FiltersSessionKey(b);
    assert a == x[|FiltersKeyPrefix|..] && b == y[|FiltersKeyPrefix|..];
  }

  /** The filter key never collides with a key RadCrudController persists a grid under. */
  lemma FiltersKeyApartFromGridKeys(modelName: string, className: string, gridId: string, kind: PersistKind)
    ensures FiltersSessionKey(modelName) != PersistKey(className, gridId, kind)
  {
    var x, y := FiltersSessionKey(modelName), PersistKey(className, gridId, kind);
    assert x[8] == 'C' && y[8] == 'D';
  }

  /** Under dynagrid, two tables share a PJAX container only if they share a name. */
  lemma PjaxForceUpdateIdInjective(a: string, b: string)
    requires PjaxForceUpdateId(true, a) == PjaxForceUpdateId(true, b)
    ensures a == b
  {
    var x, y := PjaxForceUpdateId(true, a), PjaxForceUpdateId(true, b);
    assert |a| == |b|;
    assert a == x[1..1 + |a|] && b == y[1..1 + |b|];
  }

  // ---------------------------------------------------------------------
  // Filter persistence

  /** What `indexDataProvider` leaves in the session, and what it loads into the search model. */
  datatype FilterOutcome = FilterOutcome(session: map<string, Value>, loaded: Option<Value>)

  /**
   * `indexDataProvider`: a reset stores no filters; a request without the
   * search form loads the stored filters (null when none) into the search
   * model; a request with the search form stores the search model's
   * attributes after the search, `attributes(loaded)`.
   */
  function IndexFilters(data: map<string, Value>, key: string, reset: bool, formSet: bool,
                        attributes: Option<Value> -> Value): FilterOutcome
  {
    var loaded := if !reset && !formSet then Some(GetOrDefault(data, key, Null)) else None;
    var cleared := if reset then data[key := Arr([])] else data;
    FilterOutcome(if formSet then cleared[key := attributes(loaded)] else cleared, loaded)
  }

  /** Only the filter key changes. */
  lemma IndexFiltersFrame(data: map<string, Value>, key: string, reset: bool, formSet: bool,
                          attributes: Option<Value> -> Value, k: string)
    requires k != key
    ensures var out := IndexFilters(data, key, reset, formSet, attributes).session;
      (k in out <==> k in data) && (k in data ==> out[k] == data[k])
  {
  }

  /**
   * The filter key afterwards: the search attributes when the form was
   * sent, else `[]` after a reset, else unchanged; and the stored filters
   * are loaded exactly when neither a reset nor the form was sent.
   */
  lemma IndexFiltersKey(data: map<string, Value>, key: string, reset: bool, formSet: bool,
                        attributes: Option<Value> -> Value)
    ensures var out := IndexFilters(data, key, reset, formSet, attributes);
      && (formSet ==> key in out.session && out.session[key] == attributes(None))
      && (!formSet && reset ==> key in out.session && out.session[key] == Arr([]))
      && (!formSet && !reset ==> out.session == data)
      && (out.loaded.Some? <==> !reset && !formSet)
      && (out.loaded.Some? && IsSet(data, key) ==> out.loaded.value == data[key])
  {
  }

  /**
   * Filters sent with the search form come back on the next plain request:
   * the search model is loaded with the attributes stored by the first,
   * whatever they are (a stored null reads back as the default null).
   */
  lemma FiltersRoundTrip(data: map<string, Value>, key: string, reset: bool,
                         first: Option<Value> -> Value, second: Option<Value> -> Value)
    ensures var after := IndexFilters(data, key, reset, true, first).session;
      IndexFilters(after, key, false, false, second).loaded == Some(first(None))
  {
    GetAfterSet(data, key, first(None), key, Null);
  }

  /** After a reset the next plain request loads the empty filter list. */
  lemma ResetClearsFilters(data: map<string, Value>, key: string,
                           first: Option<Value> -> Value, second: Option<Value> -> Value)
    ensures var after := IndexFilters(data, key, true, false, first).session;
      IndexFilters(after, key, false, false, second).loaded == Some(Arr([]))
  {
  }

  // ---------------------------------------------------------------------
  // Deleting one record

  /** The error text of a failed delete: the "linked with" text for a foreign-key violation, else the message. */
  function DeleteError(code: int, message: string, linked: string -> string): string {
    var fk := ForeignKeyName(message);
    if code == IntegrityViolation && fk.Some? then linked(fk.value) else message
  }

  /** The reply of `actionDelete`. */
  datatype AjaxDeleteReply =
    | PageNotFound
    | Closed(forceReload: string)
    | FailedModal(error: string)
    | ToIndex(flashError: Option<string>)

  /**
   * `actionDelete` for the record `findModel` found (none: the 404
   * exception). Only a thrown exception counts as failure; an AJAX request
   * gets a modal, any other a redirect to 'index', with an error flash on
   * failure.
   */
  function ActionDeleteReply<R>(found: Option<R>, del: R -> DeleteOutcome, modal: bool,
                                linked: string -> string): AjaxDeleteReply
  {
    match found
    case None => PageNotFound
    case Some(m) =>
      match del(m)
      case Threw(code, message) =>
        var e := DeleteError(code, message, linked);
        if modal then FailedModal(e) else ToIndex(Some(e))
      case _ => if modal then Closed(CrudDatatablePjax) else ToIndex(None)
  }

  /** The error text is the one RadCrudController's `deleteModel` gives for the same exception. */
  lemma DeleteErrorAgrees(code: int, message: string, linked: string -> string)
    ensures DeleteModel(Threw(code, message), linked) == Text(DeleteError(code, message, linked))
  {
  }

  /**
   * The reply reports a failure exactly when `delete()` threw, with the
   * foreign-key text when it names a constraint; a `delete()` that returns
   * false is reported as a success.
   */
  lemma ActionDeleteOutcome<R>(m: R, del: R -> DeleteOutcome, modal: bool, linked: string -> string)
    ensures var r := ActionDeleteReply(Some(m), del, modal, linked);
      && ((r.FailedModal? || (r.ToIndex? && r.flashError.Some?)) <==> del(m).Threw?)
      && (r.FailedModal? <==> del(m).Threw? && modal)
      && (r.Closed? ==> r.forceReload == CrudDatatablePjax)
      && (del(m).Threw? && del(m).code == IntegrityViolation && ForeignKeyName(del(m).message).Some? ==>
            r == (if modal then FailedModal(linked(ForeignKeyName(del(m).message).value))
                  else ToIndex(Some(linked(ForeignKeyName(del(m).message).value)))))
      && (del(m).Refused? ==> r == (if modal then Closed(CrudDatatablePjax) else ToIndex(None)))
  {
  }

  // ---------------------------------------------------------------------
  // Bulk delete

  /** How one primary key fares: deleted (or refused), recorded as not found, or an exception escapes. */
  datatype Attempt = Removed | Missed | Uncaught

  /**
   * `findModel($pk); $this->model->delete();` inside `try ... catch
   * (yii\base\Exception)`: a missing record raises NotFoundHttpException,
   * which is caught; `caught(code, message)` says whether the exception
   * `delete()` throws is a `yii\base\Exception`.
   */
  function AttemptOf<R>(found: Option<R>, del: R -> DeleteOutcome, caught: (int, string) -> bool): Attempt {
    match found
    case None => Missed
    case Some(m) =>
      match del(m)
      case Threw(code, message) => if caught(code, message) then Missed else Uncaught
      case _ => Removed
  }

  /**
   * The loop's variables: the collected keys, `$this->model`, whether an
   * exception escaped, and the keys whose records earlier iterations deleted.
   */
  datatype BulkRun<R> = BulkRun(notFound: seq<string>, model: Option<R>, aborted: bool, gone: set<string>)

  /** `findOne($pk)` during the loop: a record deleted by an earlier iteration is not found again. */
  function Refind<R>(find: string -> Option<R>, gone: set<string>, pk: string): Option<R> {
    if pk in gone then None else find(pk)
  }

  /** The deleted keys once pk's iteration has run: a `delete()` that returns a row count removes the row. */
  function GoneAfterPk<R>(gone: set<string>, pk: string, find: string -> Option<R>, del: R -> DeleteOutcome): set<string> {
    var m := Refind(find, gone, pk);
    if m.Some? && del(m.value).Deleted? then gone + {pk} else gone
  }

  /** The deleted keys once every pk of `pks` has run. */
  function GoneAfterRun<R>(gone: set<string>, pks: seq<string>, find: string -> Option<R>,
                           del: R -> DeleteOutcome): set<string>
    decreases |pks|
  {
    if pks == [] then gone else GoneAfterRun(GoneAfterPk(gone, pks[0], find, del), pks[1..], find, del)
  }

  /** One iteration of the loop of lines 606-614. */
  function BulkDeleteStep<R>(st: BulkRun<R>, pk: string, find: string -> Option<R>,
                             del: R -> DeleteOutcome, caught: (int, string) -> bool): BulkRun<R>
  {
    var m := Refind(find, st.gone, pk);
    var a := AttemptOf(m, del, caught);
    BulkRun(if a.Missed? then st.notFound + [pk] else st.notFound, m, a.Uncaught?, GoneAfterPk(st.gone, pk, find, del))
  }

  /** The loop of `actionBulkDelete` from state `st` over the remaining pks. */
  function BulkDeleteFrom<R>(st: BulkRun<R>, pks: seq<string>, find: string -> Option<R>,
                             del: R -> DeleteOutcome, caught: (int, string) -> bool): BulkRun<R>
    decreases |pks|
  {
    if st.aborted || pks == [] then st
    else BulkDeleteFrom(BulkDeleteStep(st, pks[0], find, del, caught), pks[1..], find, del, caught)
  }

  /** How the pk at position i fares, given the records the pks before it deleted. */
  function AttemptAt<R>(pks: seq<string>, i: int, gone: set<string>, find: string -> Option<R>,
                        del: R -> DeleteOutcome, caught: (int, string) -> bool): Attempt
    requires 0 <= i < |pks|
  {
    AttemptOf(Refind(find, GoneAfterRun(gone, pks[..i], find, del), pks[i]), del, caught)
  }

  /** Position 0 sees the deletions from before the loop only. */
  lemma AttemptAtFirst<R>(pks: seq<string>, gone: set<string>, find: string -> Option<R>,
                          del: R -> DeleteOutcome, caught: (int, string) -> bool)
    requires pks != []
    ensures AttemptAt(pks, 0, gone, find, del, caught) == AttemptOf(Refind(find, gone, pks[0]), del, caught)
  {
    assert pks[..0] == [];
  }

  /** Position i + 1 of `pks` is position i of its tail, seen after the first pk's deletion. */
  lemma AttemptAtTail<R>(pks: seq<string>, i: int, gone: set<string>, find: string -> Option<R>,
                         del: R -> DeleteOutcome, caught: (int, string) -> bool)
    requires 0 <= i < |pks| - 1
    ensures AttemptAt(pks, i + 1, gone, find, del, caught)
         == AttemptAt(pks[1..], i, GoneAfterPk(gone, pks[0], find, del), find, del, caught)
  {
    assert pks[..i + 1][0] == pks[0] && pks[..i + 1][1..] == pks[1..][..i];
    assert pks[1..][i] == pks[i + 1];
  }

  /**
   * Without an escaping exception, a key is reported exactly when it was
   * reported before or is one of the pks whose record was missing (deleted
   * by an earlier pk included) or whose delete threw a caught exception;
   * the run is not aborted.
   */
  lemma {:induction false} BulkDeleteNotFound<R>(st: BulkRun<R>, pks: seq<string>, find: string -> Option<R>,
                                                  del: R -> DeleteOutcome, caught: (int, string) -> bool, x: string)
    requires !st.aborted
    requires forall i :: 0 <= i < |pks| ==> !AttemptAt(pks, i, st.gone, find, del, caught).Uncaught?
    ensures var out := BulkDeleteFrom(st, pks, find, del, caught);
      && !out.aborted
      && (x in out.notFound <==>
            x in st.notFound || exists i :: 0 <= i < |pks| && pks[i] == x && AttemptAt(pks, i, st.gone, find, del, caught).Missed?)
    decreases |pks|
  {
    if pks != [] {
      var st' := BulkDeleteStep(st, pks[0], find, del, caught);
      var rest := pks[1..];
      AttemptAtFirst(pks, st.gone, find, del, caught);
      forall i | 0 <= i < |rest|
        ensures AttemptAt(rest, i, st'.gone, find, del, caught) == AttemptAt(pks, i + 1, st.gone, find, del, caught)
      {
        AttemptAtTail(pks, i, st.gone, find, del, caught);
      }
      BulkDeleteNotFound(st', rest, find, del, caught, x);
      if exists i :: 0 <= i < |pks| && pks[i] == x && AttemptAt(pks, i, st.gone, find, del, caught).Missed? {
        var i :| 0 <= i < |pks| && pks[i] == x && AttemptAt(pks, i, st.gone, find, del, caught).Missed?;
        if i > 0 {
          assert rest[i - 1] == x;
        }
      }
      if exists i :: 0 <= i < |rest| && rest[i] == x && AttemptAt(rest, i, st'.gone, find, del, caught).Missed? {
        var i :| 0 <= i < |rest| && rest[i] == x && AttemptAt(rest, i, st'.gone, find, del, caught).Missed?;
        assert pks[i + 1] == x;
      }
    }
  }

  /** The keys already reported stay first, and each pk adds at most one key. */
  lemma {:induction false} BulkDeleteNotFoundBound<R>(st: BulkRun<R>, pks: seq<string>, find: string -> Option<R>,
                                                       del: R -> DeleteOutcome, caught: (int, string) -> bool)
    ensures var out := BulkDeleteFrom(st, pks, find, del, caught);
      && |st.notFound| <= |out.notFound| <= |st.notFound| + |pks|
      && out.notFound[..|st.notFound|] == st.notFound
    decreases |pks|
  {
    if !st.aborted && pks != [] {
      var st' := BulkDeleteStep(st, pks[0], find, del, caught);
      BulkDeleteNotFoundBound(st', pks[1..], find, del, caught);
      var out := BulkDeleteFrom(st', pks[1..], find, del, caught);
      assert st'.notFound[..|st.notFound|] == st.notFound;
      assert out.notFound[..|st.notFound|] == out.notFound[..|st'.notFound|][..|st.notFound|];
    }
  }

  /** The run is aborted exactly when some pk lets an exception escape. */
  lemma {:induction false} BulkDeleteAborts<R>(st: BulkRun<R>, pks: seq<string>, find: string -> Option<R>,
                                                del: R -> DeleteOutcome, caught: (int, string) -> bool)
    requires !st.aborted
    ensures BulkDeleteFrom(st, pks, find, del, caught).aborted <==>
      exists i :: 0 <= i < |pks| && AttemptAt(pks, i, st.gone, find, del, caught).Uncaught?
    decreases |pks|
  {
    if pks != [] {
      var st' := BulkDeleteStep(st, pks[0], find, del, caught);
      var rest := pks[1..];
      AttemptAtFirst(pks, st.gone, find, del, caught);
      if !st'.aborted {
        BulkDeleteAborts(st', rest, find, del, caught);
        if exists i :: 0 <= i < |pks| && AttemptAt(pks, i, st.gone, find, del, caught).Uncaught? {
          var i :| 0 <= i < |pks| && AttemptAt(pks, i, st.gone, find, del, caught).Uncaught?;
          AttemptAtTail(pks, i - 1, st.gone, find, del, caught);
        }
        if exists i :: 0 <= i < |rest| && AttemptAt(rest, i, st'.gone, find, del, caught).Uncaught? {
          var i :| 0 <= i < |rest| && AttemptAt(rest, i, st'.gone, find, del, caught).Uncaught?;
          AttemptAtTail(pks, i, st.gone, find, del, caught);
        }
      }
    }
  }

  /**
   * A pk repeated after its record was deleted: the second `findModel`
   * raises NotFoundHttpException, so the key is reported once.
   */
  lemma RepeatedPkReported<R>(pk: string, m: R, find: string -> Option<R>, del: R -> DeleteOutcome,
                              caught: (int, string) -> bool)
    requires find(pk) == Some(m) && del(m) == Deleted(1)
    ensures BulkDeleteFrom(BulkRun([], None, false, {}), [pk, pk], find, del, caught).notFound == [pk]
  {
    var st1 := BulkDeleteStep(BulkRun([], None, false, {}), pk, find, del, caught);
    assert st1 == BulkRun([], Some(m), false, {pk});
    var st2 := BulkDeleteStep(st1, pk, find, del, caught);
    assert st2 == BulkRun([pk], None, false, {pk});
    assert [pk, pk][1..] == [pk];
    assert BulkDeleteFrom(st1, [pk], find, del, caught) == BulkDeleteFrom(st2, [], find, del, caught);
  }

  /** `count($not_found) ? 'No found: ' . implode(',', $not_found) : ''`. */
  function NotFoundMessage(notFound: seq<string>): string {
    if notFound == [] then "" else "No found: " + Join(notFound, ',')
  }

  /** The reply of `actionBulkDelete`. */
  datatype AjaxBulkReply = BulkModal(forceReload: string, message: string) | BulkToIndex

  function BulkDeleteReply(modal: bool, pjax: string, notFound: seq<string>): AjaxBulkReply {
    if modal then BulkModal(pjax, NotFoundMessage(notFound)) else BulkToIndex
  }

  /** The message is empty exactly when nothing was reported, and lists the reported keys otherwise. */
  lemma NotFoundMessageLists(notFound: seq<string>)
    requires forall i :: 0 <= i < |notFound| ==> ',' !in notFound[i]
    ensures NotFoundMessage(notFound) == "" <==> notFound == []
    ensures notFound != [] ==>
      var m := NotFoundMessage(notFound);
      |m| >= 10 && m[..10] == "No found: " && Split(m[10..], ',') == notFound
  {
    if notFound != [] {
      SplitJoin(notFound, ',');
      var m := NotFoundMessage(notFound);
      assert m[10..] == Join(notFound, ',');
    }
  }

  // ---------------------------------------------------------------------
  // The controller

  class BaseAjaxCrudController<R> {
    /** `$model_name`. */
    const modelName: string
    /** `$useDynagrid`. */
    const useDynagrid: bool
    /** The search model's `tableName()`. */
    const tableName: string
    /** `$model`, set by `findModel`. */
    var model: Option<R>
    /** `$this->view->params['breadcrumbs']`. */
    var breadcrumbs: seq<Crumb>

    constructor (modelName: string, useDynagrid: bool, tableName: string)
      ensures this.modelName == modelName && this.useDynagrid == useDynagrid && this.tableName == tableName
      ensures model == None && breadcrumbs == []
    {
      this.modelName := modelName;
      this.useDynagrid := useDynagrid;
      this.tableName := tableName;
      model := None;
      breadcrumbs := [];
    }

    /** `findModel`: the record `findOne` gives, which is missing exactly when the 404 exception is raised. */
    method FindModel(id: string, find: string -> Option<R>) returns (found: bool)
      modifies this
      ensures model == find(id) && found == model.Some?
      ensures breadcrumbs == old(breadcrumbs)
    {
      model := find(id);
      found := model.Some?;
    }

    /** `addBreadCrumbs`: the crumbs are appended in order. */
    method AddBreadCrumbs(crumbs: seq<Crumb>)
      modifies this
      ensures breadcrumbs == old(breadcrumbs) + crumbs
      ensures model == old(model)
    {
      var i := 0;
      while i < |crumbs|
        invariant 0 <= i <= |crumbs|
        invariant breadcrumbs == old(breadcrumbs) + crumbs[..i]
        invariant model == old(model)
      {
        breadcrumbs := breadcrumbs + [crumbs[i]];
        i := i + 1;
      }
      assert crumbs[..i] == crumbs;
    }

    /**
     * The session handling of `indexDataProvider` for a request with query
     * parameters `query` and a search form `formName`; `attributes(loaded)`
     * is the search model's attributes after the stored filters `loaded`
     * (if any) were set and the search ran.
     */
    method IndexDataProvider(session: Session, query: map<string, Value>, formName: string,
                             attributes: Option<Value> -> Value)
      returns (loaded: Option<Value>)
      modifies session
      ensures var out := IndexFilters(old(session.data), FiltersSessionKey(modelName),
                                      Truthy(GetOrDefault(query, FilterResetParam, Bool(false))),
                                      IsSet(query, formName), attributes);
        session.data == out.session && loaded == out.loaded
    {
      var key := FiltersSessionKey(modelName);
      loaded := None;
      if Truthy(GetOrDefault(query, FilterResetParam, Bool(false))) {
        session.Set(key, Arr([]));
      } else if !IsSet(query, formName) {
        loaded := Some(session.Get(key, Null));
      }
      if IsSet(query, formName) {
        session.Set(key, attributes(loaded));
      }
    }

    /** `actionDelete`. */
    method ActionDelete(id: string, find: string -> Option<R>, del: R -> DeleteOutcome, modal: bool,
                        linked: string -> string)
      returns (reply: AjaxDeleteReply)
      modifies this
      ensures model == find(id)
      ensures reply == ActionDeleteReply(model, del, modal, linked)
      ensures breadcrumbs == old(breadcrumbs)
    {
      var found := FindModel(id, find);
      if !found {
        return PageNotFound;
      }
      match del(model.value)
      case Threw(code, message) =>
        var fk := ForeignKeyName(message);
        var e := if code == IntegrityViolation && fk.Some? then linked(fk.value) else message;
        reply := if modal then FailedModal(e) else ToIndex(Some(e));
      case _ =>
        reply := if modal then Closed(CrudDatatablePjax) else ToIndex(None);
    }

    /**
     * `actionBulkDelete` on the posted `pks`: each key is looked up and
     * deleted in turn, the keys of missing records and of caught failures
     * are collected, and an escaping exception ends the action.
     */
    method ActionBulkDelete(pksText: string, find: string -> Option<R>, del: R -> DeleteOutcome,
                            caught: (int, string) -> bool, modal: bool)
      returns (notFound: seq<string>, aborted: bool, reply: AjaxBulkReply)
      modifies this
      ensures var out := BulkDeleteFrom(BulkRun([], old(model), false, {}), Split(pksText, ','), find, del, caught);
        notFound == out.notFound && aborted == out.aborted && model == out.model
      ensures !aborted ==> reply == BulkDeleteReply(modal, PjaxForceUpdateId(useDynagrid, tableName), notFound)
      ensures breadcrumbs == old(breadcrumbs)
    {
      var pks := Split(pksText, ',');
      ghost var goal := BulkDeleteFrom(BulkRun([], model, false, {}), pks, find, del, caught);
      notFound, aborted := [], false;
      var gone: set<string> := {};
      var i := 0;
      while i < |pks| && !aborted
        invariant 0 <= i <= |pks|
        invariant BulkDeleteFrom(BulkRun(notFound, model, aborted, gone), pks[i..], find, del, caught) == goal
        invariant breadcrumbs == old(breadcrumbs)
      {
        var pk := pks[i];
        ghost var before := BulkRun(notFound, model, false, gone);
        assert pks[i..][0] == pk && pks[i..][1..] == pks[i + 1..];
        assert BulkDeleteFrom(before, pks[i..], find, del, caught)
            == BulkDeleteFrom(BulkDeleteStep(before, pk, find, del, caught), pks[i + 1..], find, del, caught);
        notFound, aborted, gone := DeleteOne(pk, notFound, gone, find, del, caught);
        i := i + 1;
      }
      reply := BulkToIndex;
      if !aborted {
        reply := if modal then BulkModal(PjaxForceUpdateId(useDynagrid, tableName), NotFoundMessage(notFound))
                 else BulkToIndex;
      }
    }

    /**
     * One iteration of the loop of `actionBulkDelete`; `gone` holds the keys
     * whose records earlier iterations deleted.
     */
    method DeleteOne(pk: string, notFound: seq<string>, gone: set<string>, find: string -> Option<R>,
                     del: R -> DeleteOutcome, caught: (int, string) -> bool)
      returns (notFound': seq<string>, aborted: bool, gone': set<string>)
      modifies this
      ensures BulkRun(notFound', model, aborted, gone')
           == BulkDeleteStep(BulkRun(notFound, old(model), false, gone), pk, find, del, caught)
      ensures breadcrumbs == old(breadcrumbs)
    {
      notFound', aborted, gone' := notFound, false, gone;
      var found := FindModel(pk, (k: string) => Refind(find, gone, k));
      if !found {
        notFound' := notFound + [pk];
        return;
      }
      match del(model.value)
      case Threw(code, message) =>
        if caught(code, message) {
          notFound' := notFound + [pk];
        } else {
          aborted := true;
        }
      case Deleted(_) =>
        gone' := gone + {pk};
      case Refused =>
    }
  }
}
