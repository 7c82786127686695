/**
 * RadCrudController's stateful parts: the current record `$this->model`,
 * the view's breadcrumbs, grid persistence in the session
 * (`setupDataProvider`), and the bulk delete and bulk update loops.
 * Records are of a type parameter R; finding, deleting, assigning and saving
 * them are passed in as functions.
 */
module RadCrud {

  import opened Wrappers
  import opened OrderedMaps
  import opened Strings
  import opened Php
  import opened Sessions
  import opened Breadcrumbs
  import opened RadCrudRules

  // ---------------------------------------------------------------------
  // Grid persistence

  /** What the request carries for one grid. */
  datatype GridRequest = GridRequest(
    reset: Value,          // $request->get($grid_id . 'reset_grid_persistence', false)
    formFilters: Value,    // $request->get($searchModel->formName(), false)
    page: Option<Value>    // the page query parameter, None when absent
  )

  /** What `setupDataProvider` did besides writing the session. */
  datatype GridOutcome = GridOutcome(
    session: map<string, Value>,
    loaded: Option<Value>,     // what was set into the search model before searching
    pageSet: Option<Value>,    // what was assigned to `pagination->page`
    orders: Option<Value>      // the attribute orders in force, when order persistence is on
  )

  /**
   * `$page_number <= $pageCount` with PHP 7's comparison rules: strings
   * compare by their numeric prefix, null and booleans as booleans, and an
   * array is greater than any number.
   */
  predicate PageWithin(page: Value, pageCount: int) {
    match page
    case Int(i) => i <= pageCount
    case Str(s) => IntCast(s) <= pageCount
    case Null => true
    case Bool(b) => !b || pageCount != 0
    case Arr(_) => false
  }

  /** The filter phase (lines 755-773), before the search. */
  function FilterPhase(data: map<string, Value>, key: string, formFilters: Value, reset: bool): (Option<Value>, map<string, Value>)
  {
    if reset then (None, data - {key + "_filters"})
    else if !Truthy(formFilters) then (Some(GetOrDefault(data, key + "_filters", Arr([]))), data)
    else (None, data - {key + "_page"})
  }

  /** The page phase (lines 793-816): the stored page and what is applied. */
  function PagePhase(data: map<string, Value>, key: string, page: Option<Value>, reset: bool, pageCount: int)
    : (Option<Value>, map<string, Value>)
  {
    var d := if reset then data - {key + "_page"} else data;
    if page.Some? then (None, d[key + "_page" := page.value])
    else
      var p := GetOrDefault(d, key + "_page", Int(0));
      (if PageWithin(p, pageCount) then Some(p) else None, d[key + "_page" := p])
  }

  /** The sort phase (lines 819-836): the orders in force, stored back. */
  function SortPhase(data: map<string, Value>, key: string, requestOrders: Value, reset: bool): (Value, map<string, Value>)
  {
    var d := if reset then data - {key + "_sorting"} else data;
    var o := if Truthy(requestOrders) then requestOrders else GetOrDefault(d, key + "_sorting", Arr([]));
    (o, d[key + "_sorting" := o])
  }

  /**
   * `setupDataProvider` on the session: filters, then the search (whose
   * resulting attributes `search` gives for what was loaded), then page and
   * order, each phase running only when its persistence flag is on.
   */
  function Grid(data: map<string, Value>, key: string, persistFilters: bool, persistPage: bool, persistOrder: bool,
                req: GridRequest, search: Option<Value> -> Value, pageCount: int, requestOrders: Value): GridOutcome
  {
    var reset := Truthy(req.reset);
    var (loaded, d1) := if persistFilters then FilterPhase(data, key, req.formFilters, reset) else (None, data);
    var d2 := if persistFilters then d1[key + "_filters" := search(loaded)] else d1;
    var (pageSet, d3) := if persistPage then PagePhase(d2, key, req.page, reset, pageCount) else (None, d2);
    var (orders, d4) := if persistOrder then SortPhase(d3, key, requestOrders, reset) else (requestOrders, d3);
    GridOutcome(d4, loaded, pageSet, if persistOrder then Some(orders) else None)
  }

  /** The filter phase and the search, on the session. */
  method PersistFilters(session: Session, key: string, formFilters: Value, reset: bool, search: Option<Value> -> Value)
    returns (loaded: Option<Value>)
    modifies session
    ensures var (l, d) := FilterPhase(old(session.data), key, formFilters, reset);
      loaded == l && session.data == d[key + "_filters" := search(l)]
  {
    loaded := None;
    if reset {
      session.Remove(key + "_filters");
    } else if !Truthy(formFilters) {
      loaded := Some(session.Get(key + "_filters", Arr([])));
    } else {
      session.Remove(key + "_page");
    }
    session.Set(key + "_filters", search(loaded));
  }

  /** The page phase, on the session. */
  method PersistPage(session: Session, key: string, page: Option<Value>, reset: bool, pageCount: int)
    returns (pageSet: Option<Value>)
    modifies session
    ensures var (p, d) := PagePhase(old(session.data), key, page, reset, pageCount);
      pageSet == p && session.data == d
  {
    if reset {
      session.Remove(key + "_page");
    }
    pageSet := None;
    var pageNumber: Value;
    if page.None? {
      pageNumber := session.Get(key + "_page", Int(0));
      if PageWithin(pageNumber, pageCount) {
        pageSet := Some(pageNumber);
      }
    } else {
      pageNumber := page.value;
    }
    session.Set(key + "_page", pageNumber);
  }

  /** The sort phase, on the session. */
  method PersistOrder(session: Session, key: string, requestOrders: Value, reset: bool) returns (current: Value)
    modifies session
    ensures var (o, d) := SortPhase(old(session.data), key, requestOrders, reset);
      current == o && session.data == d
  {
    if reset {
      session.Remove(key + "_sorting");
    }
    current := requestOrders;
    if !Truthy(current) {
      current := session.Get(key + "_sorting", Arr([]));
    }
    session.Set(key + "_sorting", current);
  }

  // ---------------------------------------------------------------------
  // Bulk delete

  /** `delete()` and what `getErrors()` reports after it. */
  datatype Deletion = Deletion(outcome: DeleteOutcome, hasErrors: bool)

  /** The translated texts of the bulk delete loop, per record. */
  datatype DeleteTexts<!R> = DeleteTexts(
    notFound: string,                // 'Record not found'
    summary: R -> string,            // Html::errorSummary of the record
    withReason: (R, string) -> string, // 'Cannot delete {name}: {result}'
    unknown: R -> string,            // 'Cannot delete {name}: reason unknown'
    linked: string -> string         // 'The record is linked with {foreign_key}…'
  )

  /**
   * The loop's variables: the error map, the count, `$this->model`,
   * whether a pk that is not numeric made `findModel` raise a TypeError,
   * and the ids of the records earlier iterations deleted, which `findOne`
   * no longer finds.
   */
  datatype BulkDeleteState<R> =
    BulkDeleteState(errors: OMap<string, string>, count: nat, model: Option<R>, aborted: bool, gone: set<int>)

  /** `findOne` during the loop: a record deleted by an earlier iteration is not found again. */
  function Refind<R>(find: int -> Option<R>, gone: set<int>, id: int): Option<R> {
    if id in gone then None else find(id)
  }

  /**
   * The deleted ids once pk's iteration has run: `delete()` returning a row
   * count leaves no row with that id, whatever the count and the errors.
   */
  function GoneAfterPk<R>(gone: set<int>, pk: string, find: int -> Option<R>, del: R -> Deletion): set<int> {
    var r := Refind(find, gone, IntCast(pk));
    if r.Some? && del(r.value).outcome.Deleted? then gone + {IntCast(pk)} else gone
  }

  /** The deleted ids once every pk of `pks` has run. */
  function GoneAfterRun<R>(gone: set<int>, pks: seq<string>, find: int -> Option<R>, del: R -> Deletion): set<int>
    decreases |pks|
  {
    if pks == [] then gone else GoneAfterRun(GoneAfterPk(gone, pks[0], find, del), pks[1..], find, del)
  }

  /** One iteration of the loop of lines 485-530, as written. */
  function BulkDeleteStep<R>(st: BulkDeleteState<R>, pk: string, find: int -> Option<R>,
                             del: R -> Deletion, texts: DeleteTexts<R>): BulkDeleteState<R>
  {
    if !IntArgument(pk) then st.(aborted := true)
    else
      var gone := GoneAfterPk(st.gone, pk, find, del);
      match Refind(find, st.gone, IntCast(pk))
      case None => st.(errors := Set(st.errors, pk, texts.notFound), model := None, gone := gone)
      case Some(r) =>
        var d := del(r);
        var result := DeleteModel(d.outcome, texts.linked);
        if d.hasErrors then st.(errors := Set(st.errors, pk, texts.summary(r)), model := Some(r), gone := gone)
        else
          var e := if result.Text? then texts.withReason(r, result.text) else texts.unknown(r);
          st.(errors := Set(st.errors, pk, e), count := st.count + 1, model := Some(r), gone := gone)
  }

  function BulkDeleteFrom<R>(st: BulkDeleteState<R>, pks: seq<string>, find: int -> Option<R>,
                             del: R -> Deletion, texts: DeleteTexts<R>): BulkDeleteState<R>
    decreases |pks|
  {
    if pks == [] || st.aborted then st
    else BulkDeleteFrom(BulkDeleteStep(st, pks[0], find, del, texts), pks[1..], find, del, texts)
  }

  /** A record found (and not deleted before) without validation errors, the only kind the loop counts. */
  predicate FoundClean<R>(pk: string, gone: set<int>, find: int -> Option<R>, del: R -> Deletion) {
    var r := Refind(find, gone, IntCast(pk));
    r.Some? && !del(r.value).hasErrors
  }

  /** How many of `pks` are found and without validation errors, each pk seeing the deletions before it. */
  function CleanCount<R>(pks: seq<string>, gone: set<int>, find: int -> Option<R>, del: R -> Deletion): nat
    decreases |pks|
  {
    if pks == [] then 0
    else (if FoundClean(pks[0], gone, find, del) then 1 else 0)
         + CleanCount(pks[1..], GoneAfterPk(gone, pks[0], find, del), find, del)
  }

  predicate AllIntArguments(pks: seq<string>) {
    forall i :: 0 <= i < |pks| ==> IntArgument(pks[i])
  }

  lemma AllIntArgumentsTail(pks: seq<string>)
    requires pks != [] && AllIntArguments(pks)
    ensures IntArgument(pks[0]) && AllIntArguments(pks[1..])
  {
    assert forall i :: 0 <= i < |pks| - 1 ==> pks[1..][i] == pks[i + 1];
  }

  lemma InCons<T>(xs: seq<T>, x: T)
    requires xs != []
    ensures x in xs <==> x == xs[0] || x in xs[1..]
  {
    assert xs == [xs[0]] + xs[1..];
  }

  /** One numeric pk's iteration records exactly that pk's deletion in `gone`. */
  lemma BulkDeleteStepGone<R>(st: BulkDeleteState<R>, pk: string, find: int -> Option<R>,
                              del: R -> Deletion, texts: DeleteTexts<R>)
    requires IntArgument(pk)
    ensures BulkDeleteStep(st, pk, find, del, texts).gone == GoneAfterPk(st.gone, pk, find, del)
    ensures !BulkDeleteStep(st, pk, find, del, texts).aborted <==> !st.aborted
  {
    match Refind(find, st.gone, IntCast(pk))
    case None =>
    case Some(r) =>
  }

  /**
   * As written, bulk delete counts every found record without validation
   * errors, whether `delete()` succeeded, failed or threw; records not found,
   * those deleted by an earlier pk included, are never counted. The ids
   * deleted afterwards are the ones the run removed.
   */
  lemma {:induction false} BulkDeleteCount<R>(st: BulkDeleteState<R>, pks: seq<string>, find: int -> Option<R>,
                                              del: R -> Deletion, texts: DeleteTexts<R>)
    requires !st.aborted && AllIntArguments(pks)
    ensures BulkDeleteFrom(st, pks, find, del, texts).count == st.count + CleanCount(pks, st.gone, find, del)
    ensures BulkDeleteFrom(st, pks, find, del, texts).gone == GoneAfterRun(st.gone, pks, find, del)
    ensures !BulkDeleteFrom(st, pks, find, del, texts).aborted
    decreases |pks|
  {
    if pks != [] {
      AllIntArgumentsTail(pks);
      BulkDeleteStepGone(st, pks[0], find, del, texts);
      BulkDeleteCount(BulkDeleteStep(st, pks[0], find, del, texts), pks[1..], find, del, texts);
    }
  }

  lemma {:induction false} CleanCountBound<R>(pks: seq<string>, gone: set<int>, find: int -> Option<R>, del: R -> Deletion)
    ensures CleanCount(pks, gone, find, del) <= |pks|
    decreases |pks|
  {
    if pks != [] {
      CleanCountBound(pks[1..], GoneAfterPk(gone, pks[0], find, del), find, del);
    }
  }

  /** One as-written iteration on a numeric pk writes an entry for that pk and no other. */
  lemma BulkDeleteStepErrors<R>(st: BulkDeleteState<R>, pk: string, find: int -> Option<R>,
                                del: R -> Deletion, texts: DeleteTexts<R>, k: string)
    requires IntArgument(pk)
    ensures Get(BulkDeleteStep(st, pk, find, del, texts).errors, k).Some? <==> Get(st.errors, k).Some? || k == pk
    ensures BulkDeleteStep(st, pk, find, del, texts).aborted == st.aborted
  {
    var e := BulkDeleteStepWrites(st, pk, find, del, texts);
    SetGet(st.errors, pk, e, k);
  }

  /** One as-written iteration on a numeric pk sets the entry of that pk, to the text it returns. */
  lemma BulkDeleteStepWrites<R>(st: BulkDeleteState<R>, pk: string, find: int -> Option<R>,
                                del: R -> Deletion, texts: DeleteTexts<R>) returns (e: string)
    requires IntArgument(pk)
    ensures BulkDeleteStep(st, pk, find, del, texts).errors == Set(st.errors, pk, e)
    ensures BulkDeleteStep(st, pk, find, del, texts).aborted == st.aborted
  {
    match Refind(find, st.gone, IntCast(pk))
    case None =>
      e := texts.notFound;
    case Some(r) =>
      var result := DeleteModel(del(r).outcome, texts.linked);
      e := if del(r).hasErrors then texts.summary(r)
           else if result.Text? then texts.withReason(r, result.text) else texts.unknown(r);
  }

  /**
   * As written, every processed pk ends up with an entry in the error map,
   * even one whose record was deleted: the success path falls into the
   * "reason unknown" branch. No other key gains an entry.
   */
  lemma {:induction false} BulkDeleteErrorForEveryPk<R>(st: BulkDeleteState<R>, pks: seq<string>, find: int -> Option<R>,
                                                        del: R -> Deletion, texts: DeleteTexts<R>, k: string)
    requires !st.aborted && AllIntArguments(pks)
    ensures Get(BulkDeleteFrom(st, pks, find, del, texts).errors, k).Some? <==> Get(st.errors, k).Some? || k in pks
    decreases |pks|
  {
    if pks != [] {
      var st' := BulkDeleteStep(st, pks[0], find, del, texts);
      BulkDeleteStepErrors(st, pks[0], find, del, texts, k);
      AllIntArgumentsTail(pks);
      BulkDeleteErrorForEveryPk(st', pks[1..], find, del, texts, k);
      InCons(pks, k);
    }
  }

  /**
   * A pk repeated after its record was deleted finds nothing the second
   * time: the record is counted once and its entry ends as 'Record not found'.
   */
  lemma RepeatedPkAfterDelete<R>(pk: string, r: R, find: int -> Option<R>, del: R -> Deletion, texts: DeleteTexts<R>)
    requires IntArgument(pk) && find(IntCast(pk)) == Some(r) && del(r) == Deletion(Deleted(1), false)
    ensures var out := BulkDeleteFrom(BulkDeleteState([], 0, None, false, {}), [pk, pk], find, del, texts);
      out.count == 1 && out.errors == [(pk, texts.notFound)] && out.model == None
  {
    var init := BulkDeleteState([], 0, None, false, {});
    var st1 := BulkDeleteStep(init, pk, find, del, texts);
    DeletedStep(init, pk, r, find, del, texts);
    var st2 := BulkDeleteStep(st1, pk, find, del, texts);
    NotFoundAgainStep(st1, pk, find, del, texts);
    assert [pk, pk][1..] == [pk];
    assert BulkDeleteFrom(init, [pk, pk], find, del, texts) == BulkDeleteFrom(st1, [pk], find, del, texts);
    assert BulkDeleteFrom(st1, [pk], find, del, texts) == BulkDeleteFrom(st2, [], find, del, texts);
  }

  /** A pk whose record is found and deleted without errors: counted, with the "reason unknown" entry. */
  lemma DeletedStep<R>(st: BulkDeleteState<R>, pk: string, r: R, find: int -> Option<R>, del: R -> Deletion,
                       texts: DeleteTexts<R>)
    requires IntArgument(pk) && Refind(find, st.gone, IntCast(pk)) == Some(r) && del(r) == Deletion(Deleted(1), false)
    ensures BulkDeleteStep(st, pk, find, del, texts)
         == st.(errors := Set(st.errors, pk, texts.unknown(r)), count := st.count + 1, model := Some(r),
                gone := st.gone + {IntCast(pk)})
  {
    assert DeleteModel(del(r).outcome, texts.linked) == Rows(1);
  }

  /** A pk whose record an earlier pk deleted: 'Record not found', nothing else changes but the model. */
  lemma NotFoundAgainStep<R>(st: BulkDeleteState<R>, pk: string, find: int -> Option<R>, del: R -> Deletion,
                             texts: DeleteTexts<R>)
    requires IntArgument(pk) && IntCast(pk) in st.gone
    ensures BulkDeleteStep(st, pk, find, del, texts)
         == st.(errors := Set(st.errors, pk, texts.notFound), model := None)
  {
    assert Refind(find, st.gone, IntCast(pk)) == None;
  }

  // ---------------------------------------------------------------------
  // Bulk delete, as evidently intended

  /** The deletion succeeded: `delete()` returned a count and reported no errors. */
  predicate Deletes<R>(pk: string, gone: set<int>, find: int -> Option<R>, del: R -> Deletion) {
    var r := Refind(find, gone, IntCast(pk));
    r.Some? && !del(r.value).hasErrors && del(r.value).outcome.Deleted?
  }

  /**
   * One iteration as intended: a failure (not found, validation errors, a
   * reason, or `false`) gets an error entry and is not counted; a success
   * is counted and gets no entry.
   */
  function IntendedDeleteStep<R>(st: BulkDeleteState<R>, pk: string, find: int -> Option<R>,
                                 del: R -> Deletion, texts: DeleteTexts<R>): BulkDeleteState<R>
  {
    if !IntArgument(pk) then st.(aborted := true)
    else
      var gone := GoneAfterPk(st.gone, pk, find, del);
      match Refind(find, st.gone, IntCast(pk))
      case None => st.(errors := Set(st.errors, pk, texts.notFound), model := None, gone := gone)
      case Some(r) =>
        var d := del(r);
        var result := DeleteModel(d.outcome, texts.linked);
        if d.hasErrors then st.(errors := Set(st.errors, pk, texts.summary(r)), model := Some(r), gone := gone)
        else if result.Text? then st.(errors := Set(st.errors, pk, texts.withReason(r, result.text)), model := Some(r), gone := gone)
        else if result.False? then st.(errors := Set(st.errors, pk, texts.unknown(r)), model := Some(r), gone := gone)
        else st.(count := st.count + 1, model := Some(r), gone := gone)
  }

  function IntendedDeleteFrom<R>(st: BulkDeleteState<R>, pks: seq<string>, find: int -> Option<R>,
                                 del: R -> Deletion, texts: DeleteTexts<R>): BulkDeleteState<R>
    decreases |pks|
  {
    if pks == [] || st.aborted then st
    else IntendedDeleteFrom(IntendedDeleteStep(st, pks[0], find, del, texts), pks[1..], find, del, texts)
  }

  /** One intended iteration on a numeric pk writes an entry for that pk exactly when it is not deleted. */
  lemma IntendedStepErrors<R>(st: BulkDeleteState<R>, pk: string, find: int -> Option<R>,
                              del: R -> Deletion, texts: DeleteTexts<R>, k: string)
    requires IntArgument(pk)
    ensures Get(IntendedDeleteStep(st, pk, find, del, texts).errors, k).Some?
        <==> Get(st.errors, k).Some? || (k == pk && !Deletes(pk, st.gone, find, del))
    ensures IntendedDeleteStep(st, pk, find, del, texts).aborted == st.aborted
  {
    var e := IntendedStepWrites(st, pk, find, del, texts);
    if e.Some? {
      SetGet(st.errors, pk, e.value, k);
    }
  }

  /**
   * One intended iteration on a numeric pk sets the entry of that pk to the
   * text it returns, and returns no text exactly when the record is deleted.
   */
  lemma IntendedStepWrites<R>(st: BulkDeleteState<R>, pk: string, find: int -> Option<R>,
                              del: R -> Deletion, texts: DeleteTexts<R>) returns (e: Option<string>)
    requires IntArgument(pk)
    ensures IntendedDeleteStep(st, pk, find, del, texts).errors
         == if e.Some? then Set(st.errors, pk, e.value) else st.errors
    ensures e.None? <==> Deletes(pk, st.gone, find, del)
    ensures IntendedDeleteStep(st, pk, find, del, texts).aborted == st.aborted
  {
    match Refind(find, st.gone, IntCast(pk))
    case None =>
      e := Some(texts.notFound);
    case Some(r) =>
      var o := del(r).outcome;
      var result := DeleteModel(o, texts.linked);
      assert o.Deleted? <==> result.Rows?;
      e := if del(r).hasErrors then Some(texts.summary(r))
           else if result.Text? then Some(texts.withReason(r, result.text))
           else if result.False? then Some(texts.unknown(r)) else None;
  }

  /**
   * One intended iteration on a numeric pk records that pk's deletion in
   * `gone`, and counts it exactly when it is deleted.
   */
  lemma IntendedStepGone<R>(st: BulkDeleteState<R>, pk: string, find: int -> Option<R>,
                            del: R -> Deletion, texts: DeleteTexts<R>)
    requires IntArgument(pk)
    ensures var st' := IntendedDeleteStep(st, pk, find, del, texts);
      && st'.gone == GoneAfterPk(st.gone, pk, find, del) && st'.aborted == st.aborted
      && st'.count == st.count + (if Deletes(pk, st.gone, find, del) then 1 else 0)
  {
    match Refind(find, st.gone, IntCast(pk))
    case None =>
    case Some(r) =>
      assert Deletes(pk, st.gone, find, del) <==> !del(r).hasErrors && del(r).outcome.Deleted?;
      var o := del(r).outcome;
      match o
      case Deleted(n) => assert DeleteModel(o, texts.linked) == Rows(n);
      case Refused => assert DeleteModel(o, texts.linked) == False;
      case Threw(_, _) => assert DeleteModel(o, texts.linked).Text?;
  }

  /**
   * The occurrence of k at position i of `pks` is not deleted, given the
   * records the pks before it deleted.
   */
  predicate FailsAt<R>(k: string, pks: seq<string>, i: int, gone: set<int>, find: int -> Option<R>, del: R -> Deletion)
    requires 0 <= i < |pks|
  {
    pks[i] == k && !Deletes(k, GoneAfterRun(gone, pks[..i], find, del), find, del)
  }

  /** Position i + 1 of `pks` is position i of its tail, seen after the first pk's deletion. */
  lemma FailsAtTail<R>(k: string, pks: seq<string>, i: int, gone: set<int>, find: int -> Option<R>, del: R -> Deletion)
    requires 0 <= i < |pks| - 1
    ensures FailsAt(k, pks, i + 1, gone, find, del) <==>
            FailsAt(k, pks[1..], i, GoneAfterPk(gone, pks[0], find, del), find, del)
  {
    assert pks[..i + 1][0] == pks[0] && pks[..i + 1][1..] == pks[1..][..i];
  }

  /**
   * As intended, a key has an error entry after the loop exactly when it had
   * one before or one of its occurrences among the pks is not deleted, each
   * seeing the deletions of the pks before it.
   */
  lemma {:induction false} IntendedDeleteErrors<R>(st: BulkDeleteState<R>, pks: seq<string>, find: int -> Option<R>,
                                                   del: R -> Deletion, texts: DeleteTexts<R>, k: string)
    requires !st.aborted && AllIntArguments(pks)
    ensures Get(IntendedDeleteFrom(st, pks, find, del, texts).errors, k).Some?
        <==> Get(st.errors, k).Some? || exists i :: 0 <= i < |pks| && FailsAt(k, pks, i, st.gone, find, del)
    decreases |pks|
  {
    if pks != [] {
      var st' := IntendedDeleteStep(st, pks[0], find, del, texts);
      IntendedStepErrors(st, pks[0], find, del, texts, k);
      IntendedStepGone(st, pks[0], find, del, texts);
      AllIntArgumentsTail(pks);
      IntendedDeleteErrors(st', pks[1..], find, del, texts, k);
      IntendedFailsSplit(k, pks, st.gone, find, del);
      FailsAtFirst(k, pks, st.gone, find, del);
    }
  }

  /** Some occurrence fails exactly when the first one does or one in the tail does. */
  lemma IntendedFailsSplit<R>(k: string, pks: seq<string>, gone: set<int>, find: int -> Option<R>, del: R -> Deletion)
    requires pks != []
    ensures (exists i :: 0 <= i < |pks| && FailsAt(k, pks, i, gone, find, del)) <==>
            FailsAt(k, pks, 0, gone, find, del)
            || exists i :: 0 <= i < |pks[1..]| && FailsAt(k, pks[1..], i, GoneAfterPk(gone, pks[0], find, del), find, del)
  {
    if exists i :: 0 <= i < |pks| && FailsAt(k, pks, i, gone, find, del) {
      var i :| 0 <= i < |pks| && FailsAt(k, pks, i, gone, find, del);
      FailsInWhole(k, pks, i, gone, find, del);
    }
    FailsInTail(k, pks, gone, find, del);
  }

  /** An occurrence that fails is the first one or one in the tail. */
  lemma FailsInWhole<R>(k: string, pks: seq<string>, i: int, gone: set<int>, find: int -> Option<R>, del: R -> Deletion)
    requires 0 <= i < |pks| && FailsAt(k, pks, i, gone, find, del)
    ensures FailsAt(k, pks, 0, gone, find, del)
            || exists j :: 0 <= j < |pks[1..]| && FailsAt(k, pks[1..], j, GoneAfterPk(gone, pks[0], find, del), find, del)
  {
    if i > 0 {
      FailsAtTail(k, pks, i - 1, gone, find, del);
    }
  }

  /** An occurrence that fails in the tail fails in the whole sequence. */
  lemma FailsInTail<R>(k: string, pks: seq<string>, gone: set<int>, find: int -> Option<R>, del: R -> Deletion)
    requires pks != []
    ensures (exists i :: 0 <= i < |pks[1..]| && FailsAt(k, pks[1..], i, GoneAfterPk(gone, pks[0], find, del), find, del)) ==>
            exists i :: 0 <= i < |pks| && FailsAt(k, pks, i, gone, find, del)
  {
    var gone' := GoneAfterPk(gone, pks[0], find, del);
    if exists i :: 0 <= i < |pks[1..]| && FailsAt(k, pks[1..], i, gone', find, del) {
      var i :| 0 <= i < |pks[1..]| && FailsAt(k, pks[1..], i, gone', find, del);
      FailsAtTail(k, pks, i, gone, find, del);
      assert FailsAt(k, pks, i + 1, gone, find, del);
    }
  }

  /** The first occurrence sees the deletions from before the loop only. */
  lemma FailsAtFirst<R>(k: string, pks: seq<string>, gone: set<int>, find: int -> Option<R>, del: R -> Deletion)
    requires pks != []
    ensures FailsAt(k, pks, 0, gone, find, del) <==> pks[0] == k && !Deletes(k, gone, find, del)
  {
    assert pks[..0] == [];
  }

  /** How many of `pks` are deleted, each pk seeing the deletions before it. */
  function DeleteCount<R>(pks: seq<string>, gone: set<int>, find: int -> Option<R>, del: R -> Deletion): nat
    decreases |pks|
  {
    if pks == [] then 0
    else (if Deletes(pks[0], gone, find, del) then 1 else 0)
         + DeleteCount(pks[1..], GoneAfterPk(gone, pks[0], find, del), find, del)
  }

  lemma {:induction false} IntendedDeleteCount<R>(st: BulkDeleteState<R>, pks: seq<string>, find: int -> Option<R>,
                                                  del: R -> Deletion, texts: DeleteTexts<R>)
    requires !st.aborted && AllIntArguments(pks)
    ensures IntendedDeleteFrom(st, pks, find, del, texts).count == st.count + DeleteCount(pks, st.gone, find, del)
    decreases |pks|
  {
    if pks != [] {
      AllIntArgumentsTail(pks);
      IntendedStepGone(st, pks[0], find, del, texts);
      IntendedDeleteCount(IntendedDeleteStep(st, pks[0], find, del, texts), pks[1..], find, del, texts);
    }
  }

  /** The numeric ids the pks name. */
  function PkIds(pks: seq<string>): set<int> {
    set i | 0 <= i < |pks| :: IntCast(pks[i])
  }

  /**
   * Every deletion removes a record nothing deleted before, so the intended
   * count never exceeds the number of distinct ids among the pks, however
   * often a pk repeats.
   */
  lemma {:induction false} IntendedCountDistinct<R>(st: BulkDeleteState<R>, pks: seq<string>, find: int -> Option<R>,
                                                    del: R -> Deletion, texts: DeleteTexts<R>)
    requires !st.aborted && AllIntArguments(pks)
    ensures var out := IntendedDeleteFrom(st, pks, find, del, texts);
      st.gone <= out.gone <= st.gone + PkIds(pks) && out.count - st.count <= |out.gone - st.gone|
    decreases |pks|
  {
    if pks != [] {
      AllIntArgumentsTail(pks);
      var st' := IntendedDeleteStep(st, pks[0], find, del, texts);
      IntendedStepGone(st, pks[0], find, del, texts);
      IntendedCountDistinct(st', pks[1..], find, del, texts);
      var out := IntendedDeleteFrom(st', pks[1..], find, del, texts);
      assert IntendedDeleteFrom(st, pks, find, del, texts) == out;
      GoneAfterPkBounds(st.gone, pks[0], find, del);
      PkIdsCons(pks);
      GoneGrowth(st, st', out, IntCast(pks[0]), PkIds(pks[1..]));
    }
  }

  lemma PkIdsCons(pks: seq<string>)
    requires pks != []
    ensures PkIds(pks) == {IntCast(pks[0])} + PkIds(pks[1..])
  {
    assert forall i :: 0 < i < |pks| ==> pks[i] == pks[1..][i - 1];
  }

  /** A pk's iteration removes at most its own id, and exactly that id when it deletes. */
  lemma GoneAfterPkBounds<R>(gone: set<int>, pk: string, find: int -> Option<R>, del: R -> Deletion)
    ensures gone <= GoneAfterPk(gone, pk, find, del) <= gone + {IntCast(pk)}
    ensures Deletes(pk, gone, find, del) ==> GoneAfterPk(gone, pk, find, del) - gone == {IntCast(pk)}
  {
  }

  /** The cardinality step of IntendedCountDistinct. */
  lemma GoneGrowth<R>(st: BulkDeleteState<R>, st': BulkDeleteState<R>, out: BulkDeleteState<R>, id: int, ids: set<int>)
    requires st.gone <= st'.gone <= st.gone + {id}
    requires st'.gone <= out.gone <= st'.gone + ids
    requires st'.count <= st.count + 1 && (st'.count == st.count + 1 ==> st'.gone - st.gone == {id})
    requires out.count - st'.count <= |out.gone - st'.gone|
    ensures st.gone <= out.gone <= st.gone + ({id} + ids)
    ensures out.count - st.count <= |out.gone - st.gone|
  {
    assert out.gone - st.gone == (out.gone - st'.gone) + (st'.gone - st.gone);
    assert (out.gone - st'.gone) * (st'.gone - st.gone) == {};
  }

  /**
   * One pk whose record is deleted: as written it gets a "reason unknown"
   * entry and is counted; as intended it is counted and gets no entry. One
   * pk whose delete throws: as written it is counted, as intended it is not.
   */
  lemma BulkDeleteAsWrittenCounterexample<R>(pk: string, r: R, find: int -> Option<R>, del: R -> Deletion,
                                             texts: DeleteTexts<R>, message: string)
    requires IntArgument(pk) && find(IntCast(pk)) == Some(r)
    ensures var init := BulkDeleteState([], 0, None, false, {});
      del(r) == Deletion(Deleted(1), false) ==>
        && BulkDeleteFrom(init, [pk], find, del, texts).errors == [(pk, texts.unknown(r))]
        && BulkDeleteFrom(init, [pk], find, del, texts).count == 1
        && IntendedDeleteFrom(init, [pk], find, del, texts).errors == []
        && IntendedDeleteFrom(init, [pk], find, del, texts).count == 1
    ensures var init := BulkDeleteState([], 0, None, false, {});
      del(r) == Deletion(Threw(0, message), false) ==>
        && BulkDeleteFrom(init, [pk], find, del, texts).count == 1
        && IntendedDeleteFrom(init, [pk], find, del, texts).count == 0
  {
  }

  // ---------------------------------------------------------------------
  // Bulk update

  /** The record operations of bulk update. */
  datatype UpdateOps<!R> = UpdateOps(
    assign: (R, OMap<string, Value>) -> R,  // $model->attributes = $values
    dirty: R -> bool,                       // getDirtyAttributes() is non-empty
    save: R -> bool,                        // save()
    summary: R -> string,                   // Html::errorSummary
    notFound: string -> string,             // 'Record {id} not found'
    noFields: string                        // 'No fields found to update.'
  )

  /** The posted values of the active attributes that were posted at all. */
  function UpdateValues(attrs: seq<string>, post: string -> Option<Value>): OMap<string, Value>
    decreases |attrs|
  {
    if attrs == [] then []
    else
      var v := UpdateValues(attrs[..|attrs| - 1], post);
      var a := attrs[|attrs| - 1];
      if post(a).Some? then Set(v, a, post(a).value) else v
  }

  /** An attribute is in the update set exactly when it is active and was posted, with the posted value. */
  lemma {:induction false} UpdateValuesGet(attrs: seq<string>, post: string -> Option<Value>, a: string)
    ensures Get(UpdateValues(attrs, post), a) == if a in attrs then post(a) else None
    decreases |attrs|
  {
    if attrs != [] {
      var init := attrs[..|attrs| - 1];
      var last := attrs[|attrs| - 1];
      UpdateValuesGet(init, post, a);
      var v := UpdateValues(init, post);
      if post(last).Some? {
        SetGet(v, last, post(last).value, a);
      }
      assert attrs == init + [last];
      assert a in attrs <==> a in init || a == last;
      if a == last && post(a).None? && a in init {
        assert Get(v, a) == post(a);
      }
    }
  }

  /**
   * The loop's variables: the error map, the count, `$this->model`, and the
   * records earlier iterations saved, by id, which `findOne` now returns.
   */
  datatype BulkUpdateState<R> =
    BulkUpdateState(errors: OMap<string, string>, count: nat, model: Option<R>, saved: map<int, R>)

  /** `findOne` during the loop: a record saved by an earlier iteration is found as saved. */
  function Refetch<R>(find: int -> Option<R>, saved: map<int, R>, id: int): Option<R> {
    if id in saved then Some(saved[id]) else find(id)
  }

  /** One iteration of the loop of lines 576-612. */
  function BulkUpdateStep<R>(st: BulkUpdateState<R>, id: string, values: OMap<string, Value>,
                             find: int -> Option<R>, ops: UpdateOps<R>): BulkUpdateState<R>
  {
    match Refetch(find, st.saved, IntCast(id))
    case None => st.(errors := Set(st.errors, id, ops.notFound(id)), model := None)
    case Some(r) =>
      var r' := ops.assign(r, values);
      if !ops.dirty(r') then st.(model := Some(r'))
      else if ops.save(r') then st.(count := st.count + 1, model := Some(r'), saved := st.saved[IntCast(id) := r'])
      else st.(errors := Set(st.errors, id, ops.summary(r')), model := Some(r'))
  }

  function BulkUpdateFrom<R>(st: BulkUpdateState<R>, ids: seq<string>, values: OMap<string, Value>,
                             find: int -> Option<R>, ops: UpdateOps<R>): BulkUpdateState<R>
    decreases |ids|
  {
    if ids == [] then st
    else BulkUpdateFrom(BulkUpdateStep(st, ids[0], values, find, ops), ids[1..], values, find, ops)
  }

  /** A record that is found (as last saved), changed by the assignment and saved. */
  predicate Updates<R>(id: string, saved: map<int, R>, values: OMap<string, Value>, find: int -> Option<R>,
                       ops: UpdateOps<R>)
  {
    var r := Refetch(find, saved, IntCast(id));
    r.Some? && ops.dirty(ops.assign(r.value, values)) && ops.save(ops.assign(r.value, values))
  }

  /** The saved records once id's iteration has run. */
  function SavedAfter<R>(saved: map<int, R>, id: string, values: OMap<string, Value>, find: int -> Option<R>,
                         ops: UpdateOps<R>): map<int, R>
  {
    if Updates(id, saved, values, find, ops)
    then saved[IntCast(id) := ops.assign(Refetch(find, saved, IntCast(id)).value, values)]
    else saved
  }

  /** How many of `ids` are updated, each id seeing the records saved before it. */
  function UpdateCount<R>(ids: seq<string>, saved: map<int, R>, values: OMap<string, Value>, find: int -> Option<R>,
                          ops: UpdateOps<R>): (n: nat)
    ensures n <= |ids|
    decreases |ids|
  {
    if ids == [] then 0
    else (if Updates(ids[0], saved, values, find, ops) then 1 else 0)
         + UpdateCount(ids[1..], SavedAfter(saved, ids[0], values, find, ops), values, find, ops)
  }

  /** One iteration records exactly that id's save. */
  lemma BulkUpdateStepSaved<R>(st: BulkUpdateState<R>, id: string, values: OMap<string, Value>,
                               find: int -> Option<R>, ops: UpdateOps<R>)
    ensures BulkUpdateStep(st, id, values, find, ops).saved == SavedAfter(st.saved, id, values, find, ops)
  {
  }

  /** The count grows only for records that are found, dirty and saved. */
  lemma {:induction false} BulkUpdateCount<R>(st: BulkUpdateState<R>, ids: seq<string>, values: OMap<string, Value>,
                                              find: int -> Option<R>, ops: UpdateOps<R>)
    ensures BulkUpdateFrom(st, ids, values, find, ops).count == st.count + UpdateCount(ids, st.saved, values, find, ops)
    decreases |ids|
  {
    if ids != [] {
      BulkUpdateStepSaved(st, ids[0], values, find, ops);
      BulkUpdateCount(BulkUpdateStep(st, ids[0], values, find, ops), ids[1..], values, find, ops);
    }
  }

  /**
   * A pk whose record is missing (and was not saved before) is reported as
   * 'Record {id} not found', and the entry stays so to the end of the run:
   * nothing can save a record under that id in between.
   */
  lemma {:induction false} BulkUpdateNotFound<R>(st: BulkUpdateState<R>, ids: seq<string>, id: string,
                                                 values: OMap<string, Value>, find: int -> Option<R>, ops: UpdateOps<R>)
    requires find(IntCast(id)).None? && IntCast(id) !in st.saved
    requires id in ids || Get(st.errors, id) == Some(ops.notFound(id))
    ensures Get(BulkUpdateFrom(st, ids, values, find, ops).errors, id) == Some(ops.notFound(id))
    decreases |ids|
  {
    if ids != [] {
      var st' := BulkUpdateStep(st, ids[0], values, find, ops);
      NotFoundStep(st, ids[0], id, values, find, ops);
      InCons(ids, id);
      BulkUpdateNotFound(st', ids[1..], id, values, find, ops);
    }
  }

  /** The step of BulkUpdateNotFound. */
  lemma NotFoundStep<R>(st: BulkUpdateState<R>, pk: string, id: string,
                        values: OMap<string, Value>, find: int -> Option<R>, ops: UpdateOps<R>)
    requires find(IntCast(id)).None? && IntCast(id) !in st.saved
    ensures var st' := BulkUpdateStep(st, pk, values, find, ops);
      && IntCast(id) !in st'.saved
      && Get(st'.errors, id) == if pk == id then Some(ops.notFound(id)) else Get(st.errors, id)
  {
    match Refetch(find, st.saved, IntCast(pk))
    case None => SetGet(st.errors, pk, ops.notFound(pk), id);
    case Some(r) =>
      SetGet(st.errors, pk, ops.summary(ops.assign(r, values)), id);
  }

  /**
   * A pk repeated after its record was saved finds the saved record: when
   * assigning the same values to it again changes nothing, the record is
   * updated and counted once.
   */
  lemma RepeatedPkSavedOnce<R>(id: string, r: R, values: OMap<string, Value>, find: int -> Option<R>, ops: UpdateOps<R>)
    requires find(IntCast(id)) == Some(r)
    requires ops.dirty(ops.assign(r, values)) && ops.save(ops.assign(r, values))
    requires !ops.dirty(ops.assign(ops.assign(r, values), values))
    ensures var out := BulkUpdateFrom(BulkUpdateState([], 0, None, map[]), [id, id], values, find, ops);
      out.count == 1 && out.errors == []
  {
    var init := BulkUpdateState([], 0, None, map[]);
    var r' := ops.assign(r, values);
    var st1 := BulkUpdateStep(init, id, values, find, ops);
    assert st1 == BulkUpdateState([], 1, Some(r'), map[IntCast(id) := r']);
    assert Refetch(find, st1.saved, IntCast(id)) == Some(r');
    var st2 := BulkUpdateStep(st1, id, values, find, ops);
    assert st2 == st1.(model := Some(ops.assign(r', values)));
    assert BulkUpdateFrom(st1, [id], values, find, ops) == BulkUpdateFrom(st2, [], values, find, ops);
    assert [id, id][1..] == [id];
  }

  // ---------------------------------------------------------------------
  // The controller

  class RadCrudController<R> {
    /** `$this->model`, the current record. */
    var model: Option<R>
    /** `$this->view->params['breadcrumbs']`. */
    var breadcrumbs: seq<Crumb>
    /** The class name `$this->className()`, fixed for the controller's lifetime. */
    const className: string
    /**
     * `$persist_grid_filters`, `$persist_grid_page` and `$persist_grid_order`:
     * the persistence flags `indexDataProvider` hands to `setupDataProvider`.
     */
    const persistFilters: bool
    const persistPage: bool
    const persistOrder: bool

    constructor (className: string, persistFilters: bool, persistPage: bool, persistOrder: bool)
      ensures this.className == className && this.persistFilters == persistFilters
      ensures this.persistPage == persistPage && this.persistOrder == persistOrder
      ensures model == None && breadcrumbs == []
    {
      this.className := className;
      this.persistFilters := persistFilters;
      this.persistPage := persistPage;
      this.persistOrder := persistOrder;
      model := None;
      breadcrumbs := [];
    }

    /** `findModel($id, false)`: the record with that id, or null. */
    method FindModel(id: int, find: int -> Option<R>)
      modifies this
      ensures model == find(id)
      ensures breadcrumbs == old(breadcrumbs)
    {
      model := find(id);
    }

    /** `addBreadCrumbs`: appends the crumbs in order. */
    method AddBreadCrumbs(crumbs: seq<Crumb>)
      modifies this
      ensures breadcrumbs == old(breadcrumbs) + crumbs
      ensures model == old(model)
    {
      var i := 0;
      while i < |crumbs|
        invariant 0 <= i <= |crumbs|
        invariant breadcrumbs == old(breadcrumbs) + crumbs[..i]
        invariant model == old(model)
      {
        breadcrumbs := breadcrumbs + [crumbs[i]];
        i := i + 1;
      }
      assert crumbs[..i] == crumbs;
    }

    /**
     * `setupDataProvider`: reads and writes the grid's `_filters`, `_page`
     * and `_sorting` session entries as Grid describes.
     */
    method SetupDataProvider(session: Session, gridId: string, withFilters: bool, withPage: bool,
                             withOrder: bool, req: GridRequest, search: Option<Value> -> Value,
                             pageCount: int, requestOrders: Value)
      returns (loaded: Option<Value>, pageSet: Option<Value>, orders: Option<Value>)
      modifies session
      ensures var g := Grid(old(session.data), DataProviderSessionKey(className) + gridId, withFilters,
                            withPage, withOrder, req, search, pageCount, requestOrders);
        session.data == g.session && loaded == g.loaded && pageSet == g.pageSet && orders == g.orders
    {
      var key := DataProviderSessionKey(className) + gridId;
      var reset := Truthy(req.reset);
      loaded := None;
      if withFilters {
        loaded := PersistFilters(session, key, req.formFilters, reset, search);
      }
      pageSet := None;
      if withPage {
        pageSet := PersistPage(session, key, req.page, reset, pageCount);
      }
      orders := None;
      if withOrder {
        var current := PersistOrder(session, key, requestOrders, reset);
        orders := Some(current);
      }
    }

    /**
     * `indexDataProvider`: the main grid (id '') with the controller's own
     * persistence flags; a grid whose flags are all off leaves the session
     * as it was.
     */
    method IndexDataProvider(session: Session, req: GridRequest, search: Option<Value> -> Value,
                             pageCount: int, requestOrders: Value)
      returns (loaded: Option<Value>, pageSet: Option<Value>, orders: Option<Value>)
      modifies session
      ensures var g := Grid(old(session.data), DataProviderSessionKey(className), persistFilters,
                            persistPage, persistOrder, req, search, pageCount, requestOrders);
        session.data == g.session && loaded == g.loaded && pageSet == g.pageSet && orders == g.orders
      ensures !persistFilters && !persistPage && !persistOrder ==>
        session.data == old(session.data) && loaded.None? && pageSet.None? && orders.None?
    {
      loaded, pageSet, orders := SetupDataProvider(session, "", persistFilters, persistPage, persistOrder,
                                                    req, search, pageCount, requestOrders);
      assert DataProviderSessionKey(className) + "" == DataProviderSessionKey(className);
    }

    /**
     * The loop of `actionBulkDelete` over the comma-separated pks, as
     * written. It stops when a pk that is not numeric makes `findModel`
     * raise a TypeError.
     */
    method BulkDelete(pksText: string, find: int -> Option<R>, del: R -> Deletion, texts: DeleteTexts<R>)
      returns (errors: OMap<string, string>, count: nat, aborted: bool)
      modifies this
      ensures var out := BulkDeleteFrom(BulkDeleteState([], 0, old(model), false, {}), Split(pksText, ','), find, del, texts);
        errors == out.errors && count == out.count && aborted == out.aborted && model == out.model
      ensures breadcrumbs == old(breadcrumbs)
    {
      var pks := Split(pksText, ',');
      ghost var goal := BulkDeleteFrom(BulkDeleteState([], 0, model, false, {}), pks, find, del, texts);
      errors, count, aborted := [], 0, false;
      var gone: set<int> := {};
      var i := 0;
      while i < |pks| && !aborted
        invariant 0 <= i <= |pks|
        invariant BulkDeleteFrom(BulkDeleteState(errors, count, model, aborted, gone), pks[i..], find, del, texts) == goal
        invariant breadcrumbs == old(breadcrumbs)
      {
        var pk := pks[i];
        ghost var before := BulkDeleteState(errors, count, model, false, gone);
        assert pks[i..][0] == pk && pks[i..][1..] == pks[i + 1..];
        assert BulkDeleteFrom(before, pks[i..], find, del, texts)
            == BulkDeleteFrom(BulkDeleteStep(before, pk, find, del, texts), pks[i + 1..], find, del, texts);
        errors, count, aborted, gone := DeleteOne(pk, errors, count, gone, find, del, texts);
        i := i + 1;
      }
    }

    /**
     * One iteration of the loop of `actionBulkDelete`, as written; `gone`
     * holds the ids of the records earlier iterations deleted.
     */
    method DeleteOne(pk: string, errors: OMap<string, string>, count: nat, gone: set<int>, find: int -> Option<R>,
                     del: R -> Deletion, texts: DeleteTexts<R>)
      returns (errors': OMap<string, string>, count': nat, aborted: bool, gone': set<int>)
      modifies this
      ensures BulkDeleteState(errors', count', model, aborted, gone')
           == BulkDeleteStep(BulkDeleteState(errors, count, old(model), false, gone), pk, find, del, texts)
      ensures breadcrumbs == old(breadcrumbs)
    {
      errors', count', aborted, gone' := errors, count, false, gone;
      if !IntArgument(pk) {
        aborted := true;
        return;
      }
      var key := IntCast(pk);
      var refind := (id: int) => Refind(find, gone, id);
      assert refind(key) == Refind(find, gone, key);
      FindModel(key, refind);
      if model.None? {
        errors' := Set(errors, pk, texts.notFound);
        return;
      }
      var r := model.value;
      var d := del(r);
      if d.outcome.Deleted? {
        gone' := gone + {key};
      }
      var result := DeleteModel(d.outcome, texts.linked);
      if d.hasErrors {
        errors' := Set(errors, pk, texts.summary(r));
      } else {
        errors' := Set(errors, pk, if result.Text? then texts.withReason(r, result.text) else texts.unknown(r));
        count' := count + 1;
      }
    }

    /** Collects the update set: the loop of lines 560-565. */
    static method CollectUpdateValues(attrs: seq<string>, post: string -> Option<Value>) returns (values: OMap<string, Value>)
      ensures values == UpdateValues(attrs, post)
    {
      values := [];
      var i := 0;
      while i < |attrs|
        invariant 0 <= i <= |attrs|
        invariant values == UpdateValues(attrs[..i], post)
      {
        assert attrs[..i + 1][..i] == attrs[..i];
        if post(attrs[i]).Some? {
          values := Set(values, attrs[i], post(attrs[i]).value);
        }
        i := i + 1;
      }
      assert attrs[..i] == attrs;
    }

    /**
     * `actionBulkUpdate`'s loops: with nothing to update a single error under
     * key 0 and no record touched; otherwise each pk's record is found by
     * `(int)` of the pk, assigned, and saved when dirty.
     */
    method BulkUpdate(attrs: seq<string>, post: string -> Option<Value>, pksText: string,
                      find: int -> Option<R>, ops: UpdateOps<R>)
      returns (errors: OMap<string, string>, count: nat)
      modifies this
      ensures var values := UpdateValues(attrs, post);
        values == [] ==> errors == [("0", ops.noFields)] && count == 0 && model == old(model)
      ensures var values := UpdateValues(attrs, post);
        var out := BulkUpdateFrom(BulkUpdateState([], 0, old(model), map[]), Split(pksText, ','), values, find, ops);
        values != [] ==> errors == out.errors && count == out.count && model == out.model
      ensures breadcrumbs == old(breadcrumbs)
    {
      var values := CollectUpdateValues(attrs, post);
      errors, count := [], 0;
      if values == [] {
        errors := [("0", ops.noFields)];
        return;
      }
      errors, count := UpdateRecords(Split(pksText, ','), values, find, ops);
    }

    /**
     * One iteration of the loop of `actionBulkUpdate`; `saved` holds the
     * records earlier iterations saved.
     */
    method UpdateOne(id: string, errors: OMap<string, string>, count: nat, saved: map<int, R>,
                     values: OMap<string, Value>, find: int -> Option<R>, ops: UpdateOps<R>)
      returns (errors': OMap<string, string>, count': nat, saved': map<int, R>)
      modifies this
      ensures BulkUpdateState(errors', count', model, saved')
           == BulkUpdateStep(BulkUpdateState(errors, count, old(model), saved), id, values, find, ops)
      ensures breadcrumbs == old(breadcrumbs)
    {
      errors', count', saved' := errors, count, saved;
      var key := IntCast(id);
      var refetch := (i: int) => Refetch(find, saved, i);
      assert refetch(key) == Refetch(find, saved, key);
      FindModel(key, refetch);
      var found := model;
      ghost var st := BulkUpdateState(errors, count, old(model), saved);
      if found.None? {
        errors' := Set(errors, id, ops.notFound(id));
        assert BulkUpdateStep(st, id, values, find, ops) == st.(errors := errors', model := None);
        return;
      }
      var r := ops.assign(found.value, values);
      model := Some(r);
      assert Refetch(find, saved, key) == Some(found.value);
      if ops.dirty(r) {
        if !ops.save(r) {
          errors' := Set(errors, id, ops.summary(r));
        } else {
          count' := count + 1;
          saved' := saved[key := r];
        }
      }
    }

    /** The loop over the pks of `actionBulkUpdate`. */
    method UpdateRecords(ids: seq<string>, values: OMap<string, Value>, find: int -> Option<R>, ops: UpdateOps<R>)
      returns (errors: OMap<string, string>, count: nat)
      modifies this
      ensures var out := BulkUpdateFrom(BulkUpdateState([], 0, old(model), map[]), ids, values, find, ops);
        errors == out.errors && count == out.count && model == out.model
      ensures breadcrumbs == old(breadcrumbs)
    {
      errors, count := [], 0;
      var saved: map<int, R> := map[];
      ghost var goal := BulkUpdateFrom(BulkUpdateState([], 0, model, saved), ids, values, find, ops);
      var i := 0;
      while i < |ids|
        invariant 0 <= i <= |ids|
        invariant BulkUpdateFrom(BulkUpdateState(errors, count, model, saved), ids[i..], values, find, ops) == goal
        invariant breadcrumbs == old(breadcrumbs)
      {
        var id := ids[i];
        ghost var before := BulkUpdateState(errors, count, model, saved);
        assert ids[i..][0] == id && ids[i..][1..] == ids[i + 1..];
        assert BulkUpdateFrom(before, ids[i..], values, find, ops)
            == BulkUpdateFrom(BulkUpdateStep(before, id, values, find, ops), ids[i + 1..], values, find, ops);
        errors, count, saved := UpdateOne(id, errors, count, saved, values, find, ops);
        i := i + 1;
      }
    }
  }

  // ---------------------------------------------------------------------
  // Properties of grid persistence

  /** The session entries besides the grid's three keys are left as they were. */
  lemma GridKeepsOtherKeys(data: map<string, Value>, key: string, pf: bool, pp: bool, po: bool, req: GridRequest,
                           search: Option<Value> -> Value, pageCount: int, requestOrders: Value, other: string)
    requires other != key + "_filters" && other != key + "_page" && other != key + "_sorting"
    ensures var s := Grid(data, key, pf, pp, po, req, search, pageCount, requestOrders).session;
      (other in s <==> other in data) && (other in data ==> s[other] == data[other])
  {
  }

  /**
   * With filter persistence, the stored filters are the search model's
   * attributes after the search, and the session filters are loaded into
   * the search model only when there is no reset and no filter in the query.
   */
  lemma GridFilters(data: map<string, Value>, key: string, pp: bool, po: bool, req: GridRequest,
                    search: Option<Value> -> Value, pageCount: int, requestOrders: Value)
    ensures var g := Grid(data, key, true, pp, po, req, search, pageCount, requestOrders);
      && key + "_filters" in g.session && g.session[key + "_filters"] == search(g.loaded)
      && (g.loaded.Some? <==> !Truthy(req.reset) && !Truthy(req.formFilters))
      && (g.loaded.Some? ==> g.loaded.value == GetOrDefault(data, key + "_filters", Arr([])))
  {
    assert key + "_filters" != key + "_page" by {
      assert (key + "_filters")[|key| + 1] != (key + "_page")[|key| + 1];
    }
    assert key + "_filters" != key + "_sorting" by {
      assert (key + "_filters")[|key| + 1] != (key + "_sorting")[|key| + 1];
    }
  }

  /**
   * With page persistence, a page in the query is what is stored (and
   * pagination reads it itself); without one, the stored page (0 when there
   * is none or after a reset, or after the filters changed) is stored back
   * and applied only when it is within the page count.
   */
  lemma GridPage(data: map<string, Value>, key: string, pf: bool, po: bool, req: GridRequest,
                 search: Option<Value> -> Value, pageCount: int, requestOrders: Value)
    ensures var g := Grid(data, key, pf, true, po, req, search, pageCount, requestOrders);
      var pageKey := key + "_page";
      var cleared := Truthy(req.reset) || (pf && Truthy(req.formFilters));
      var stored := if cleared then Int(0) else GetOrDefault(data, pageKey, Int(0));
      && pageKey in g.session
      && (req.page.Some? ==> g.session[pageKey] == req.page.value && g.pageSet.None?)
      && (req.page.None? ==>
            g.session[pageKey] == stored && g.pageSet == if PageWithin(stored, pageCount) then Some(stored) else None)
  {
    assert key + "_filters" != key + "_page" by {
      assert (key + "_filters")[|key| + 1] != (key + "_page")[|key| + 1];
    }
    assert key + "_page" != key + "_sorting" by {
      assert (key + "_page")[|key| + 1] != (key + "_sorting")[|key| + 1];
    }
  }

  /**
   * With order persistence, the session order is applied only when the
   * request gives none, and afterwards the session holds the order in force.
   */
  lemma GridSort(data: map<string, Value>, key: string, pf: bool, pp: bool, req: GridRequest,
                 search: Option<Value> -> Value, pageCount: int, requestOrders: Value)
    ensures var g := Grid(data, key, pf, pp, true, req, search, pageCount, requestOrders);
      var sortKey := key + "_sorting";
      var stored := if Truthy(req.reset) then Arr([]) else GetOrDefault(data, sortKey, Arr([]));
      && g.orders == Some(if Truthy(requestOrders) then requestOrders else stored)
      && sortKey in g.session && g.session[sortKey] == g.orders.value
  {
    assert key + "_filters" != key + "_sorting" by {
      assert (key + "_filters")[|key| + 1] != (key + "_sorting")[|key| + 1];
    }
    assert key + "_page" != key + "_sorting" by {
      assert (key + "_page")[|key| + 1] != (key + "_sorting")[|key| + 1];
    }
  }
}
