/**
 * How active hierarchy filters restrict the index grid and prefill a new
 * record: one `andWhere` condition per active filter whose field is an
 * active attribute of the link's model (the search model class, or the
 * link's external model), and the filter values copied onto the active
 * attributes of the search model or of the new record.
 */
module HierarchyQuery {

  import opened Wrappers
  import opened OrderedMaps
  import opened Php
  import opened HierarchyLinks

  /** `andWhere([$column => $value])`, remembering the link field it came from. */
  datatype Condition = Condition(field: string, column: string, value: Value)

  /** The model the condition is on: the link's external model, or the search model class. */
  function TargetModel<R>(link: LinkDef<R>, native: ModelInfo): ModelInfo {
    if link.externalModel.Some? then link.externalModel.value else native
  }

  /**
   * The condition's column: `tableName() . '.' . $field`, or the link's
   * 'fieldname' where that is honoured (RadHierarchyLinkController).
   */
  function Column<R>(field: string, link: LinkDef<R>, native: ModelInfo, useFieldname: bool): string {
    if useFieldname && link.fieldname.Some? then link.fieldname.value
    else TargetModel(link, native).table + "." + field
  }

  /** Whether a link restricts the query: its filter is active and its field is active on the target model. */
  predicate Restricts<R>(field: string, link: LinkDef<R>, filters: Filters, native: ModelInfo) {
    Active(filters, field) && field in TargetModel(link, native).active
  }

  /** The condition one link adds, if any. */
  function LinkCondition<R>(field: string, link: LinkDef<R>, filters: Filters, native: ModelInfo, useFieldname: bool)
    : seq<Condition>
  {
    if Restricts(field, link, filters, native)
    then [Condition(field, Column(field, link, native, useFieldname), FilterValue(filters, field))]
    else []
  }

  function Conditions<R>(links: Links<R>, filters: Filters, native: ModelInfo, useFieldname: bool): seq<Condition>
    decreases |links|
  {
    if links == [] then []
    else LinkCondition(links[0].0, links[0].1, filters, native, useFieldname) + Conditions(links[1..], filters, native, useFieldname)
  }

  /** `$target->$field = $filters[$field]` for each link field that is active on the target. */
  function AssignFrom<R>(acc: Filters, links: Links<R>, filters: Filters, active: set<string>): Filters
    decreases |links|
  {
    if links == [] then acc
    else
      var field := links[0].0;
      var acc' := if Active(filters, field) && field in active then Set(acc, field, FilterValue(filters, field)) else acc;
      AssignFrom(acc', links[1..], filters, active)
  }

  function Assignments<R>(links: Links<R>, filters: Filters, active: set<string>): Filters {
    AssignFrom([], links, filters, active)
  }

  // ---------------------------------------------------------------------
  // Loops

  /** The condition for one link, as the loop body builds it. */
  method ConditionFor<R>(field: string, link: LinkDef<R>, filters: Filters, native: ModelInfo, useFieldname: bool)
    returns (cond: seq<Condition>)
    ensures cond == LinkCondition(field, link, filters, native, useFieldname)
  {
    cond := [];
    if Active(filters, field) {
      var target := TargetModel(link, native);
      if field in target.active {
        var column := if useFieldname && link.fieldname.Some? then link.fieldname.value else target.table + "." + field;
        cond := [Condition(field, column, FilterValue(filters, field))];
      }
    }
  }

  /**
   * The loop of indexDataProvider: the query conditions and the values set
   * on the search model.
   */
  method IndexConditions<R>(links: Links<R>, filters: Filters, native: ModelInfo, searchActive: set<string>,
                            useFieldname: bool)
    returns (conds: seq<Condition>, assigns: Filters)
    ensures conds == Conditions(links, filters, native, useFieldname)
    ensures assigns == Assignments(links, filters, searchActive)
  {
    conds, assigns := [], [];
    var i := 0;
    while i < |links|
      invariant 0 <= i <= |links|
      invariant conds + Conditions(links[i..], filters, native, useFieldname) == Conditions(links, filters, native, useFieldname)
      invariant AssignFrom(assigns, links[i..], filters, searchActive) == Assignments(links, filters, searchActive)
    {
      assert links[i..][1..] == links[i + 1..];
      var field := links[i].0;
      var cond := ConditionFor(field, links[i].1, filters, native, useFieldname);
      var rest := Conditions(links[i + 1..], filters, native, useFieldname);
      assert conds + (cond + rest) == (conds + cond) + rest;
      conds := conds + cond;
      if Active(filters, field) && field in searchActive {
        assigns := Set(assigns, field, FilterValue(filters, field));
      }
      i := i + 1;
    }
  }

  /** The loop of newModel: the active filters copied onto the new record's active attributes. */
  method NewModelDefaults<R>(links: Links<R>, filters: Filters, active: set<string>) returns (assigns: Filters)
    ensures assigns == Assignments(links, filters, active)
  {
    assigns := [];
    var i := 0;
    while i < |links|
      invariant 0 <= i <= |links|
      invariant AssignFrom(assigns, links[i..], filters, active) == Assignments(links, filters, active)
    {
      assert links[i..][1..] == links[i + 1..];
      var field := links[i].0;
      if Active(filters, field) && field in active {
        assigns := Set(assigns, field, FilterValue(filters, field));
      }
      i := i + 1;
    }
  }

  // ---------------------------------------------------------------------
  // Properties

  /**
   * An attribute is assigned exactly when it is a link field with an
   * active filter and active on the target, and it gets the filter value.
   */
  lemma {:induction false} AssignFromGet<R>(acc: Filters, links: Links<R>, filters: Filters, active: set<string>, k: string)
    ensures Get(AssignFrom(acc, links, filters, active), k) ==
      if k in Keys(links) && Active(filters, k) && k in active then Some(FilterValue(filters, k)) else Get(acc, k)
    decreases |links|
  {
    if links != [] {
      var field := links[0].0;
      if Active(filters, field) {
        SetGet(acc, field, FilterValue(filters, field), k);
      }
      var acc' := if Active(filters, field) && field in active then Set(acc, field, FilterValue(filters, field)) else acc;
      AssignFromGet(acc', links[1..], filters, active, k);
    }
  }

  lemma AssignmentsGet<R>(links: Links<R>, filters: Filters, active: set<string>, k: string)
    ensures Get(Assignments(links, filters, active), k) ==
      if k in Keys(links) && Active(filters, k) && k in active then Some(FilterValue(filters, k)) else None
  {
    AssignFromGet([], links, filters, active, k);
  }

  /**
   * Every condition belongs to a link whose filter is active and whose
   * field is active on the link's model, filters on that link's column and
   * compares with the filter value.
   */
  lemma {:induction false} ConditionAt<R>(links: Links<R>, filters: Filters, native: ModelInfo, useFieldname: bool, i: nat)
    requires Distinct(links) && i < |Conditions(links, filters, native, useFieldname)|
    ensures var c := Conditions(links, filters, native, useFieldname)[i];
      && Get(links, c.field).Some?
      && Restricts(c.field, Get(links, c.field).value, filters, native)
      && c.column == Column(c.field, Get(links, c.field).value, native, useFieldname)
      && c.value == FilterValue(filters, c.field)
    decreases |links|
  {
    var (field, link) := links[0];
    var head := LinkCondition(field, link, filters, native, useFieldname);
    var tail := Conditions(links[1..], filters, native, useFieldname);
    var cs := Conditions(links, filters, native, useFieldname);
    assert cs == head + tail;
    if i >= |head| {
      DistinctTail(links);
      ConditionAt(links[1..], filters, native, useFieldname, i - |head|);
      assert cs[i] == tail[i - |head|];
      assert cs[i].field in Keys(links[1..]);
    }
  }

  lemma ConditionsSound<R>(links: Links<R>, filters: Filters, native: ModelInfo, useFieldname: bool)
    requires Distinct(links)
    ensures var cs := Conditions(links, filters, native, useFieldname);
      forall i :: 0 <= i < |cs| ==>
        && Get(links, cs[i].field).Some?
        && Restricts(cs[i].field, Get(links, cs[i].field).value, filters, native)
        && cs[i].column == Column(cs[i].field, Get(links, cs[i].field).value, native, useFieldname)
        && cs[i].value == FilterValue(filters, cs[i].field)
  {
    var cs := Conditions(links, filters, native, useFieldname);
    forall i | 0 <= i < |cs|
      ensures && Get(links, cs[i].field).Some?
              && Restricts(cs[i].field, Get(links, cs[i].field).value, filters, native)
              && cs[i].column == Column(cs[i].field, Get(links, cs[i].field).value, native, useFieldname)
              && cs[i].value == FilterValue(filters, cs[i].field)
    {
      ConditionAt(links, filters, native, useFieldname, i);
    }
  }

  /** Every link that restricts the query gives a condition. */
  lemma {:induction false} ConditionsComplete<R>(links: Links<R>, filters: Filters, native: ModelInfo,
                                                 useFieldname: bool, k: string)
    requires Get(links, k).Some? && Restricts(k, Get(links, k).value, filters, native)
    ensures exists i :: 0 <= i < |Conditions(links, filters, native, useFieldname)|
                        && Conditions(links, filters, native, useFieldname)[i].field == k
    decreases |links|
  {
    var field := links[0].0;
    var head := LinkCondition(field, links[0].1, filters, native, useFieldname);
    var tail := Conditions(links[1..], filters, native, useFieldname);
    var all := Conditions(links, filters, native, useFieldname);
    assert all == head + tail;
    if field == k {
      assert all[0] == head[0];
    } else {
      ConditionsComplete(links[1..], filters, native, useFieldname, k);
      var j :| 0 <= j < |tail| && tail[j].field == k;
      assert all[|head| + j] == tail[j];
    }
  }

  /** With no active filter, the query is not restricted and nothing is assigned. */
  lemma {:induction false} NoActiveFilters<R>(links: Links<R>, filters: Filters, native: ModelInfo,
                                              useFieldname: bool, active: set<string>)
    requires forall k :: !Active(filters, k)
    ensures Conditions(links, filters, native, useFieldname) == []
    ensures Assignments(links, filters, active) == []
    decreases |links|
  {
    if links != [] {
      NoActiveFilters(links[1..], filters, native, useFieldname, active);
      NoAssign([], links, filters, active);
    }
  }

  lemma {:induction false} NoAssign<R>(acc: Filters, links: Links<R>, filters: Filters, active: set<string>)
    requires forall k :: !Active(filters, k)
    ensures AssignFrom(acc, links, filters, active) == acc
    decreases |links|
  {
    if links != [] {
      NoAssign(acc, links[1..], filters, active);
    }
  }
}
