/**
 * What the three hierarchy-link implementations share: the link
 * definitions of a controller, the active hierarchy filters kept in the
 * session, how the `hierarchy_filter[...]` query parameter updates them,
 * and the linked parent records loaded for them. Records are of a type parameter,
 * R; `findOne` and the relation from a record to its parent are
 * functions supplied with each link.
 */
module HierarchyLinks {

  import opened Wrappers
  import opened OrderedMaps
  import opened Php

  /** A breadcrumb label: fixed text, text with {model_name}, or a closure on the parent record. */
  datatype Label<!R> =
    | Fixed(text: string)
    | Named(template: string, nameField: string)
    | Computed(f: R -> string)

  /** One entry of a link's 'breadcrumbs' list. */
  datatype CrumbDef<!R> = CrumbDef(caption: Option<Label<R>>, url: Option<string>)

  /** A model class as the query side sees it: its table and its active attributes. */
  datatype ModelInfo = ModelInfo(table: string, active: set<string>)

  /** One hierarchy link definition, the value under a field name in `hierarchy_links`. */
  datatype LinkDef<!R> = LinkDef(
    find: Value -> Option<R>,                // 'model'::findOne($value)
    linked: R -> Option<R>,                  // the 'linked_model' relation of a current record, None when empty
    breadcrumbs: Option<seq<CrumbDef<R>>>,   // 'breadcrumbs'
    resetFields: Option<seq<string>>,        // 'reset_hierarchy_fields' / 'reset_fields'
    externalModel: Option<ModelInfo>,        // 'index_query_external_model'
    fieldname: Option<string>                // 'fieldname' (used by RadHierarchyLinkController only)
  )

  type Links<!R> = OMap<string, LinkDef<R>>
  type Filters = OMap<string, Value>
  type Records<R> = OMap<string, Option<R>>

  /** `isset($filters[$k])`. */
  predicate Active(filters: Filters, k: string) {
    Get(filters, k).Some? && Get(filters, k).value != Null
  }

  function FilterValue(filters: Filters, k: string): Value
    requires Active(filters, k)
  {
    Get(filters, k).value
  }

  /** The filters array stored in the session, as `get($key, [])` returns it. */
  function StoredFilters(stored: Value): Filters {
    if stored.Arr? then stored.entries else []
  }

  /**
   * The pairs `foreach` visits in an incoming filter value: an array's
   * entries, and none for null (a missing parameter). Any other value ends
   * the request before the loop runs (ForeachFails).
   */
  function Entries(v: Value): OMap<string, Value> {
    if v.Arr? then v.entries else []
  }

  /**
   * `foreach` over a value that is not an array raises the warning
   * "Invalid argument supplied for foreach()", which Yii's error handler
   * rethrows as an ErrorException: the request ends at the loop.
   */
  predicate ForeachFails(v: Value) {
    !v.Arr?
  }

  // ---------------------------------------------------------------------
  // Removing filters

  /** `unset($filters[$k])` for each k in turn. */
  function WithoutKeys(filters: Filters, ks: seq<string>): Filters
    decreases |ks|
  {
    if ks == [] then filters else WithoutKeys(Remove(filters, ks[0]), ks[1..])
  }

  /** After the removals exactly the listed keys are gone; the others keep their values. */
  lemma {:induction false} WithoutKeysGet(filters: Filters, ks: seq<string>, k: string)
    ensures Get(WithoutKeys(filters, ks), k) == if k in ks then None else Get(filters, k)
    decreases |ks|
  {
    if ks != [] {
      WithoutKeysGet(Remove(filters, ks[0]), ks[1..], k);
      RemoveGet(filters, ks[0], k);
      assert k in ks <==> k == ks[0] || k in ks[1..] by {
        assert ks == [ks[0]] + ks[1..];
      }
    }
  }

  /** The reset loop: `unset` of every listed key. */
  method ResetFilters(filters: Filters, ks: seq<string>) returns (r: Filters)
    ensures r == WithoutKeys(filters, ks)
  {
    r := filters;
    var i := 0;
    while i < |ks|
      invariant 0 <= i <= |ks|
      invariant WithoutKeys(r, ks[i..]) == WithoutKeys(filters, ks)
    {
      assert ks[i..][1..] == ks[i + 1..];
      r := Remove(r, ks[i]);
      i := i + 1;
    }
  }

  // ---------------------------------------------------------------------
  // Incoming hierarchy filters

  function ResetFieldsOf<R>(links: Links<R>, field: string): seq<string> {
    match Get(links, field)
    case Some(l) => if l.resetFields.Some? then l.resetFields.value else []
    case None => []
  }

  /**
   * RadHierarchyLinkController's manual override: the grid's search form
   * sets the same field to a loosely different value.
   */
  predicate Overridden(search: Value, field: string, value: Value) {
    search.Arr? && Active(search.entries, field) && !LooseEquals(value, FilterValue(search.entries, field))
  }

  /** "No value given": null or the empty string. */
  predicate NoValue(v: Value) {
    v == Null || v == Str("")
  }

  /**
   * The value guard as written, `!is_null($v) || $v !== ''`: it holds for
   * every value, since no value is both null and the empty string.
   */
  predicate StoreGuardAsWritten(v: Value) {
    v != Null || v != Str("")
  }

  /**
   * One incoming filter AS WRITTEN: for a recognised field, the fields it
   * resets are removed, then the value is stored when the guard holds and
   * unset otherwise; a manual override of the search form finally drops it.
   * `search` is the search form's value when the override check applies.
   */
  function IncomingStepAsWritten<R>(filters: Filters, links: Links<R>, field: string, value: Value,
                                    search: Option<Value>): Filters
  {
    if field !in Keys(links) then filters
    else
      var reset := WithoutKeys(filters, ResetFieldsOf(links, field));
      var f := if StoreGuardAsWritten(value) then Set(reset, field, value) else Remove(reset, field);
      if search.Some? && Overridden(search.value, field, value) then Remove(f, field) else f
  }

  /**
   * One incoming filter as evidently intended: an empty value unsets the
   * filter instead of storing it.
   */
  function IncomingStep<R>(filters: Filters, links: Links<R>, field: string, value: Value,
                           search: Option<Value>): Filters
  {
    if field !in Keys(links) then filters
    else
      var reset := WithoutKeys(filters, ResetFieldsOf(links, field));
      var f := if NoValue(value) then Remove(reset, field) else Set(reset, field, value);
      if search.Some? && Overridden(search.value, field, value) then Remove(f, field) else f
  }

  function IncomingFrom<R>(filters: Filters, links: Links<R>, entries: OMap<string, Value>,
                           search: Option<Value>): Filters
    decreases |entries|
  {
    if entries == [] then filters
    else IncomingFrom(IncomingStepAsWritten(filters, links, entries[0].0, entries[0].1, search), links, entries[1..], search)
  }

  /**
   * One incoming filter for a recognised field, as written: the field gets
   * the value, empty or not, unless the search form overrides it; the
   * fields it resets are gone; every other filter is kept. An unrecognised
   * field changes nothing.
   */
  lemma IncomingStepGet<R>(filters: Filters, links: Links<R>, field: string, value: Value,
                           search: Option<Value>, k: string)
    ensures var r := IncomingStepAsWritten(filters, links, field, value, search);
      && (field !in Keys(links) ==> r == filters)
      && (field in Keys(links) ==>
            Get(r, k) == (if k == field then
                            (if search.Some? && Overridden(search.value, field, value) then None else Some(value))
                          else if k in ResetFieldsOf(links, field) then None
                          else Get(filters, k)))
  {
    if field in Keys(links) {
      var reset := WithoutKeys(filters, ResetFieldsOf(links, field));
      WithoutKeysGet(filters, ResetFieldsOf(links, field), k);
      SetGet(reset, field, value, k);
      RemoveGet(Set(reset, field, value), field, k);
    }
  }

  /**
   * The same for the intended step: the field gets the value unless it is
   * empty or overridden by the search form.
   */
  lemma IntendedStepGet<R>(filters: Filters, links: Links<R>, field: string, value: Value,
                           search: Option<Value>, k: string)
    ensures var r := IncomingStep(filters, links, field, value, search);
      && (field !in Keys(links) ==> r == filters)
      && (field in Keys(links) ==>
            Get(r, k) == (if k == field then
                            (if NoValue(value) || (search.Some? && Overridden(search.value, field, value)) then None else Some(value))
                          else if k in ResetFieldsOf(links, field) then None
                          else Get(filters, k)))
  {
    if field in Keys(links) {
      var reset := WithoutKeys(filters, ResetFieldsOf(links, field));
      WithoutKeysGet(filters, ResetFieldsOf(links, field), k);
      RemoveGet(reset, field, k);
      SetGet(reset, field, value, k);
      var f := if NoValue(value) then Remove(reset, field) else Set(reset, field, value);
      RemoveGet(f, field, k);
    }
  }

  /** Whether processing incoming `field` can change the filter under k. */
  predicate Touches<R>(links: Links<R>, field: string, k: string) {
    field in Keys(links) && (k == field || k in ResetFieldsOf(links, field))
  }

  /** A filter no incoming field touches survives the whole loop unchanged. */
  lemma {:induction false} IncomingFrame<R>(filters: Filters, links: Links<R>, entries: OMap<string, Value>,
                                            search: Option<Value>, k: string)
    requires forall i :: 0 <= i < |entries| ==> !Touches(links, entries[i].0, k)
    ensures Get(IncomingFrom(filters, links, entries, search), k) == Get(filters, k)
    decreases |entries|
  {
    if entries != [] {
      assert !Touches(links, entries[0].0, k);
      IncomingStepGet(filters, links, entries[0].0, entries[0].1, search, k);
      var f := IncomingStepAsWritten(filters, links, entries[0].0, entries[0].1, search);
      forall i | 0 <= i < |entries[1..]| ensures !Touches(links, entries[1..][i].0, k) {
        assert entries[1..][i] == entries[i + 1];
      }
      IncomingFrame(f, links, entries[1..], search, k);
    }
  }

  /**
   * The last incoming value for a field decides it: when no later entry
   * touches the field, it holds that value, the empty string included, or
   * nothing when the search form overrides it.
   */
  lemma LastIncomingWins<R>(filters: Filters, links: Links<R>, entries: OMap<string, Value>,
                            search: Option<Value>, j: nat)
    requires j < |entries| && entries[j].0 in Keys(links)
    requires forall i :: j < i < |entries| ==> !Touches(links, entries[i].0, entries[j].0)
    ensures var (field, value) := entries[j];
      Get(IncomingFrom(filters, links, entries, search), field) ==
        if search.Some? && Overridden(search.value, field, value) then None else Some(value)
  {
    IncomingSplit(filters, links, entries, search, j);
    var before := IncomingFrom(filters, links, entries[..j], search);
    var (field, value) := entries[j];
    IncomingStepGet(before, links, field, value, search, field);
    var after := IncomingStepAsWritten(before, links, field, value, search);
    var rest := entries[j + 1..];
    forall i | 0 <= i < |rest| ensures !Touches(links, rest[i].0, field) {
      assert rest[i] == entries[j + 1 + i];
    }
    IncomingFrame(after, links, rest, search, field);
  }

  /** The loop over a prefix, one entry, then the rest. */
  lemma {:induction false} IncomingSplit<R>(filters: Filters, links: Links<R>, entries: OMap<string, Value>,
                                            search: Option<Value>, j: nat)
    requires j < |entries|
    ensures IncomingFrom(filters, links, entries, search) ==
      IncomingFrom(IncomingStepAsWritten(IncomingFrom(filters, links, entries[..j], search), links, entries[j].0, entries[j].1, search),
                   links, entries[j + 1..], search)
    decreases j
  {
    if j > 0 {
      var f := IncomingStepAsWritten(filters, links, entries[0].0, entries[0].1, search);
      IncomingSplit(f, links, entries[1..], search, j - 1);
      assert entries[1..][..j - 1] == entries[..j][1..];
      assert entries[1..][j - 1] == entries[j];
      assert entries[1..][j..] == entries[j + 1..];
    }
  }

  /** The incoming loop, on the filters value. */
  method ApplyIncoming<R>(filters: Filters, links: Links<R>, entries: OMap<string, Value>, search: Option<Value>)
    returns (r: Filters)
    ensures r == IncomingFrom(filters, links, entries, search)
  {
    r := filters;
    var i := 0;
    while i < |entries|
      invariant 0 <= i <= |entries|
      invariant IncomingFrom(r, links, entries[i..], search) == IncomingFrom(filters, links, entries, search)
    {
      assert entries[i..][1..] == entries[i + 1..];
      var (field, value) := entries[i];
      if field in Keys(links) {
        var reset := ResetFilters(r, ResetFieldsOf(links, field));
        if StoreGuardAsWritten(value) {
          r := Set(reset, field, value);
        } else {
          r := Remove(reset, field);
        }
        if search.Some? && Overridden(search.value, field, value) {
          r := Remove(r, field);
        }
      }
      i := i + 1;
    }
  }

  /**
   * The parsed filters: the stored ones, without the controller's link
   * fields on a reset request, updated by the incoming entries.
   */
  function ParsedFilters<R>(stored: Filters, links: Links<R>, reset: bool, entries: OMap<string, Value>,
                            search: Option<Value>): (r: Filters)
  {
    IncomingFrom(if reset then WithoutKeys(stored, Keys(links)) else stored, links, entries, search)
  }

  /**
   * A reset request drops every link field's stored filter unless an
   * incoming entry sets it again; filters of other controllers, which no
   * entry touches, are kept.
   */
  lemma ParsedFiltersReset<R>(stored: Filters, links: Links<R>, entries: OMap<string, Value>,
                              search: Option<Value>, k: string)
    requires forall i :: 0 <= i < |entries| ==> !Touches(links, entries[i].0, k)
    ensures Get(ParsedFilters(stored, links, true, entries, search), k) == if k in Keys(links) then None else Get(stored, k)
    ensures Get(ParsedFilters(stored, links, false, entries, search), k) == Get(stored, k)
  {
    IncomingFrame(WithoutKeys(stored, Keys(links)), links, entries, search, k);
    IncomingFrame(stored, links, entries, search, k);
    WithoutKeysGet(stored, Keys(links), k);
  }

  /**
   * The always-true guard as written: `hierarchy_filter[f]=` with an empty
   * value keeps '' as an active filter, where the code's own comment says
   * the filter is to be unset.
   */
  lemma EmptyFilterKeptAsWritten<R>(filters: Filters, links: Links<R>, field: string)
    requires field in Keys(links)
    ensures Active(IncomingStepAsWritten(filters, links, field, Str(""), None), field)
    ensures !Active(IncomingStep(filters, links, field, Str(""), None), field)
  {
    IncomingStepGet(filters, links, field, Str(""), None, field);
    IntendedStepGet(filters, links, field, Str(""), None, field);
  }

  // ---------------------------------------------------------------------
  // Linked records

  /**
   * What one link contributes to the loaded records: the record found by
   * the active filter, else the current record's linked parent, else
   * nothing.
   */
  function RecordStep<R>(acc: Records<R>, field: string, link: LinkDef<R>, filters: Filters,
                         current: Option<R>): Records<R>
  {
    if Active(filters, field) then Set(acc, field, link.find(FilterValue(filters, field)))
    else if current.Some? && link.linked(current.value).Some? then Set(acc, field, link.linked(current.value))
    else acc
  }

  function RecordsFrom<R>(acc: Records<R>, links: Links<R>, filters: Filters, current: Option<R>): Records<R>
    decreases |links|
  {
    if links == [] then acc
    else RecordsFrom(RecordStep(acc, links[0].0, links[0].1, filters, current), links[1..], filters, current)
  }

  /** `$active_hierarchy_records` as the loading loop builds it from scratch. */
  function LinkedRecords<R>(links: Links<R>, filters: Filters, current: Option<R>): Records<R> {
    RecordsFrom([], links, filters, current)
  }

  /** The entry a link contributes for its own field, when it contributes one. */
  function RecordOf<R>(field: string, link: LinkDef<R>, filters: Filters, current: Option<R>): Option<Option<R>> {
    if Active(filters, field) then Some(link.find(FilterValue(filters, field)))
    else if current.Some? && link.linked(current.value).Some? then Some(link.linked(current.value))
    else None
  }

  lemma RecordStepGet<R>(acc: Records<R>, field: string, link: LinkDef<R>, filters: Filters,
                         current: Option<R>, k: string)
    ensures Get(RecordStep(acc, field, link, filters, current), k) ==
      if k == field && RecordOf(field, link, filters, current).Some? then RecordOf(field, link, filters, current)
      else Get(acc, k)
  {
    SetGet(acc, field, link.find(if Active(filters, field) then FilterValue(filters, field) else Null), k);
    if current.Some? {
      SetGet(acc, field, link.linked(current.value), k);
    }
  }

  /**
   * On a links array (distinct field names), a field has a loaded record
   * exactly when its link contributes one, and then it is that one; fields
   * that are not links keep what the accumulator had.
   */
  lemma {:induction false} RecordsFromGet<R>(acc: Records<R>, links: Links<R>, filters: Filters,
                                             current: Option<R>, k: string)
    requires Distinct(links)
    ensures Get(RecordsFrom(acc, links, filters, current), k) ==
      match Get(links, k)
      case Some(l) => if RecordOf(k, l, filters, current).Some? then RecordOf(k, l, filters, current) else Get(acc, k)
      case None => Get(acc, k)
    decreases |links|
  {
    if links != [] {
      DistinctTail(links);
      var (field, link) := links[0];
      RecordStepGet(acc, field, link, filters, current, k);
      RecordsFromGet(RecordStep(acc, field, link, filters, current), links[1..], filters, current, k);
    }
  }

  /** The records loaded from scratch, field by field. */
  lemma LinkedRecordsGet<R>(links: Links<R>, filters: Filters, current: Option<R>, k: string)
    requires Distinct(links)
    ensures Get(LinkedRecords(links, filters, current), k) ==
      match Get(links, k)
      case Some(l) => RecordOf(k, l, filters, current)
      case None => None
  {
    RecordsFromGet([], links, filters, current, k);
  }

  /** The loading loop of getActiveLinkedModels / getLinkedModels. */
  method LoadRecords<R>(links: Links<R>, filters: Filters, current: Option<R>) returns (records: Records<R>)
    ensures records == LinkedRecords(links, filters, current)
  {
    records := [];
    var i := 0;
    while i < |links|
      invariant 0 <= i <= |links|
      invariant RecordsFrom(records, links[i..], filters, current) == LinkedRecords(links, filters, current)
    {
      assert links[i..][1..] == links[i + 1..];
      var (field, link) := links[i];
      if Active(filters, field) {
        records := Set(records, field, link.find(FilterValue(filters, field)));
      } else if current.Some? && link.linked(current.value).Some? {
        records := Set(records, field, link.linked(current.value));
      }
      i := i + 1;
    }
  }

  /** `isset($records[$k]) ? $records[$k] : null`. */
  function RecordAt<R>(records: Records<R>, k: string): Option<R> {
    match Get(records, k)
    case Some(r) => r
    case None => None
  }
}
