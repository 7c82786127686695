/**
 * HierarchyLinkTrait, as mixed into a controller: the same hierarchy links
 * with fixed parameter names, a host class that may leave
 * `$hierarchy_links` undefined (then every operation does nothing), and
 * conditions always on `table.field`.
 */
module HierarchyLinkTrait {

  import opened Wrappers
  import opened OrderedMaps
  import opened Php
  import opened Sessions
  import opened Breadcrumbs
  import opened HierarchyLinks
  import opened HierarchyCrumbs
  import opened HierarchyQuery

  const GetParam: string := "hierarchy_filter"
  const ResetParam: string := "hierarchy_filter_reset"
  const SessionKey: string := "HierarchyLink"

  /**
   * The filter part of `parseLinks`: the stored filters, cleared for the
   * links on a reset request and updated by a truthy incoming filter array (each value
   * stored as it is, the empty string included);
   * the session is written back only when either happened. A truthy
   * incoming value that is not an array ends the request at the loop, after
   * the reset was stored.
   */
  method StoreFilters<R>(session: Session, links: Links<R>, reset: bool, incoming: Value)
    returns (filters: Filters, failed: bool)
    modifies session
    ensures failed <==> Truthy(incoming) && ForeachFails(incoming)
    ensures filters == ParsedFilters(StoredFilters(old(session.Get(SessionKey, Arr([])))), links, reset,
                                     if Truthy(incoming) && !failed then Entries(incoming) else [], None)
    ensures session.data == if reset || (Truthy(incoming) && !failed) then old(session.data)[SessionKey := Arr(filters)]
                            else old(session.data)
  {
    filters := if session.Has(SessionKey) then StoredFilters(session.Get(SessionKey, Null)) else [];
    if reset {
      filters := ResetFilters(filters, Keys(links));
      session.Set(SessionKey, Arr(filters));
    }
    failed := Truthy(incoming) && ForeachFails(incoming);
    if Truthy(incoming) && !failed {
      filters := ApplyIncoming(filters, links, Entries(incoming), None);
      session.Set(SessionKey, Arr(filters));
    }
  }

  /** A controller using the trait. */
  class HierarchyLinkedController<R> {
    /** The host's `$hierarchy_links`, None when it is not set. */
    const links: Option<Links<R>>
    /** `$hierarchy_filters`. */
    var filters: Filters
    /** `$hierarchy_records`, loaded once. */
    var records: Records<R>
    /** `$this->view->params['hierarchy_records']`. */
    var viewRecords: Records<R>
    /** `$this->view->params['breadcrumbs']`. */
    var breadcrumbs: seq<Crumb>

    constructor (links: Option<Links<R>>)
      ensures this.links == links
      ensures filters == [] && records == [] && viewRecords == [] && breadcrumbs == []
    {
      this.links := links;
      filters := [];
      records := [];
      viewRecords := [];
      breadcrumbs := [];
    }

    /** The links, or none when the host defines none. */
    function LinkList(): Links<R> {
      if links.Some? then links.value else []
    }

    /** `isLinkActive`. */
    predicate IsLinkActive(linkId: string)
      reads this
    {
      Active(filters, linkId)
    }

    /**
     * `getLinkedModels`: the records already loaded, or else nothing when
     * the host has no links, or else the records loaded now.
     */
    method GetLinkedModels(current: Option<R>) returns (rs: Records<R>)
      modifies this
      ensures old(records) != [] ==> rs == old(records) && records == old(records)
      ensures old(records) == [] && links.None? ==> rs == [] && records == []
      ensures old(records) == [] && links.Some? ==> records == LinkedRecords(links.value, filters, current) && rs == records
      ensures filters == old(filters) && viewRecords == old(viewRecords) && breadcrumbs == old(breadcrumbs)
    {
      if records != [] {
        return records;
      }
      if links.None? {
        return [];
      }
      records := LoadRecords(links.value, filters, current);
      rs := records;
    }

    /**
     * `parseLinks`: nothing when the host has no links; otherwise as in
     * AjaxCrudHierarchyLinkController, with the parameters
     * 'hierarchy_filter_reset' and 'hierarchy_filter'; a truthy scalar
     * 'hierarchy_filter' ends the request at the loop (`failed`).
     */
    method ParseLinks(session: Session, query: string -> Value) returns (failed: bool)
      modifies this, session
      ensures links.None? ==>
        && !failed
        && session.data == old(session.data) && filters == old(filters)
        && records == old(records) && viewRecords == old(viewRecords)
      ensures links.Some? ==>
        var reset := Truthy(query(ResetParam));
        var incoming := query(GetParam);
        && (failed <==> Truthy(incoming) && ForeachFails(incoming))
        && filters == ParsedFilters(StoredFilters(old(session.Get(SessionKey, Arr([])))), links.value, reset,
                                    if Truthy(incoming) && !failed then Entries(incoming) else [], None)
        && session.data == (if reset || (Truthy(incoming) && !failed) then old(session.data)[SessionKey := Arr(filters)]
                            else old(session.data))
        && (failed ==> records == old(records) && viewRecords == old(viewRecords))
        && (!failed ==> records == (if old(records) == [] then LinkedRecords(links.value, filters, None) else old(records)))
        && (!failed ==> viewRecords == records)
      ensures breadcrumbs == old(breadcrumbs)
    {
      if links.None? {
        return false;
      }
      filters, failed := StoreFilters(session, links.value, Truthy(query(ResetParam)), query(GetParam));
      if failed {
        return;
      }
      viewRecords := GetLinkedModels(None);
    }

    /** `getLinkedModel`: for an active link, the record loaded under it. */
    method GetLinkedModel(linkId: string) returns (r: Option<R>)
      modifies this
      ensures !Active(filters, linkId) ==> r == None
      ensures Active(filters, linkId) ==> r == RecordAt(records, linkId)
      ensures records == if Active(filters, linkId) && old(records) == []
                         then LinkedRecords(LinkList(), filters, None) else old(records)
      ensures Active(filters, linkId) && old(records) == [] && Distinct(LinkList()) ==>
        r == match Get(LinkList(), linkId) case Some(l) => l.find(FilterValue(filters, linkId)) case None => None
      ensures filters == old(filters) && viewRecords == old(viewRecords) && breadcrumbs == old(breadcrumbs)
    {
      r := None;
      if IsLinkActive(linkId) {
        var _ := GetLinkedModels(None);
        r := RecordAt(records, linkId);
        if old(records) == [] && Distinct(LinkList()) {
          LinkedRecordsGet(LinkList(), filters, None, linkId);
        }
      }
    }

    /** `addBreadCrumbs`: the crumbs of the loaded records' links, then the additional crumbs. */
    method AddBreadCrumbs(additional: seq<Crumb>, attr: Attr<R>)
      modifies this
      ensures breadcrumbs == old(breadcrumbs) + LinkCrumbs(records, LinkList(), attr) + additional
      ensures records == if old(records) == [] then LinkedRecords(LinkList(), filters, None) else old(records)
      ensures filters == old(filters) && viewRecords == old(viewRecords)
    {
      var rs := GetLinkedModels(None);
      var crumbs := CollectCrumbs(rs, LinkList(), attr);
      breadcrumbs := AppendCrumbs(breadcrumbs + crumbs, additional);
    }

    /** `indexDataProvider` beyond the parent's: conditions on `table.field` and the search model values. */
    method IndexDataProvider(native: ModelInfo, searchActive: set<string>)
      returns (conds: seq<Condition>, assigns: Filters)
      ensures conds == Conditions(LinkList(), filters, native, false)
      ensures assigns == Assignments(LinkList(), filters, searchActive)
    {
      if links.None? {
        return [], [];
      }
      conds, assigns := IndexConditions(links.value, filters, native, searchActive, false);
    }

    /** `newModel` beyond the parent's: the attribute values copied from the active filters. */
    method NewModel(active: set<string>) returns (defaults: Filters)
      ensures defaults == Assignments(LinkList(), filters, active)
    {
      if links.None? || links.value == [] {
        return [];
      }
      defaults := NewModelDefaults(links.value, filters, active);
    }
  }
}
