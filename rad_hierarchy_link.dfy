/**
 * RadHierarchyLinkController: a RadCrudController whose index grid,
 * breadcrumbs and new records follow the hierarchy filters given in the
 * `hierarchy_filter[...]` query parameter and persisted in the session.
 */
module RadHierarchyLink {

  import opened Wrappers
  import opened OrderedMaps
  import opened Php
  import opened Sessions
  import opened Breadcrumbs
  import opened HierarchyLinks
  import opened HierarchyCrumbs
  import opened HierarchyQuery

  /** The default names of the query parameters and of the session key. */
  const GetParam: string := "hierarchy_filter"
  const ResetParam: string := "reset_grid_hierarchy"
  const SessionKey: string := "HierarchyLink"

  /**
   * The filter part of `parseLinksFromUrl`: the stored filters, cleared for
   * the links on a reset request, then updated by the incoming filters with
   * the manual-override check against the search form, always stored back.
   * An incoming value that is neither null (the default []) nor an array
   * ends the request at the loop, before anything is stored.
   */
  method StoreFilters<R>(session: Session, links: Links<R>, reset: bool, incoming: Value, search: Value)
    returns (filters: Filters, failed: bool)
    modifies session
    ensures failed <==> incoming != Null && ForeachFails(incoming)
    ensures filters == ParsedFilters(StoredFilters(old(session.Get(SessionKey, Arr([])))), links, reset,
                                     if failed then [] else Entries(incoming), Some(search))
    ensures session.data == if failed then old(session.data) else old(session.data)[SessionKey := Arr(filters)]
  {
    filters := StoredFilters(session.Get(SessionKey, Arr([])));
    if reset {
      filters := ResetFilters(filters, Keys(links));
    }
    failed := incoming != Null && ForeachFails(incoming);
    if failed {
      return;
    }
    filters := ApplyIncoming(filters, links, Entries(incoming), Some(search));
    session.Set(SessionKey, Arr(filters));
  }

  class RadHierarchyLinkController<R> {
    /** `$hierarchy_links`. */
    const links: Links<R>
    /** `$active_hierarchy_filters`. */
    var filters: Filters
    /** `$active_hierarchy_records`, loaded once. */
    var records: Records<R>
    /** `$this->view->params['hierarchy_records']`. */
    var viewRecords: Records<R>
    /** `$this->view->params['breadcrumbs']`. */
    var breadcrumbs: seq<Crumb>

    constructor (links: Links<R>)
      ensures this.links == links
      ensures filters == [] && records == [] && viewRecords == [] && breadcrumbs == []
    {
      this.links := links;
      filters := [];
      records := [];
      viewRecords := [];
      breadcrumbs := [];
    }

    /** `isLinkActive`: the link has an active filter. */
    predicate IsLinkActive(linkId: string)
      reads this
    {
      Active(filters, linkId)
    }

    /**
     * `getActiveLinkedModels`: nothing without links; otherwise the records
     * already loaded, or else the records loaded now for the current record.
     */
    method GetActiveLinkedModels(current: Option<R>) returns (rs: Records<R>)
      modifies this
      ensures links == [] ==> rs == [] && records == old(records)
      ensures links != [] && old(records) != [] ==> rs == old(records) && records == old(records)
      ensures links != [] && old(records) == [] ==> records == LinkedRecords(links, filters, current) && rs == records
      ensures filters == old(filters) && viewRecords == old(viewRecords) && breadcrumbs == old(breadcrumbs)
    {
      if links == [] {
        return [];
      }
      if records != [] {
        return records;
      }
      records := LoadRecords(links, filters, current);
      rs := records;
    }

    /**
     * `parseLinksFromUrl`: the stored filters, cleared for this controller's
     * links on a reset request, then updated by the incoming filters (with
     * the manual-override check against the search form), are stored back
     * in the session, and the linked records are made available to the view.
     * A scalar `hierarchy_filter` ends the request at the loop (`failed`):
     * the session, the records and the view are left as they were.
     */
    method ParseLinksFromUrl(session: Session, query: string -> Value, searchFormName: string)
      returns (failed: bool)
      modifies this, session
      ensures failed <==> query(GetParam) != Null && ForeachFails(query(GetParam))
      ensures filters == ParsedFilters(StoredFilters(old(session.Get(SessionKey, Arr([])))), links,
                                       Truthy(query(ResetParam)), if failed then [] else Entries(query(GetParam)),
                                       Some(query(searchFormName)))
      ensures session.data == if failed then old(session.data) else old(session.data)[SessionKey := Arr(filters)]
      ensures failed ==> records == old(records) && viewRecords == old(viewRecords)
      ensures !failed ==> records == if links != [] && old(records) == [] then LinkedRecords(links, filters, None) else old(records)
      ensures !failed ==> viewRecords == if links == [] then [] else records
      ensures breadcrumbs == old(breadcrumbs)
    {
      filters, failed := StoreFilters(session, links, Truthy(query(ResetParam)), query(GetParam), query(searchFormName));
      if failed {
        return;
      }
      viewRecords := GetActiveLinkedModels(None);
    }

    /**
     * `getActiveLinkedModel`: for an active link, the record the memo holds
     * under it; when the records are loaded now, the record found by the
     * link's filter value.
     */
    method GetActiveLinkedModel(linkId: string) returns (r: Option<R>)
      modifies this
      ensures !Active(filters, linkId) ==> r == None
      ensures Active(filters, linkId) ==> r == RecordAt(records, linkId)
      ensures records == if Active(filters, linkId) && links != [] && old(records) == []
                         then LinkedRecords(links, filters, None) else old(records)
      ensures Active(filters, linkId) && old(records) == [] && Distinct(links) ==>
        r == match Get(links, linkId) case Some(l) => l.find(FilterValue(filters, linkId)) case None => None
      ensures filters == old(filters) && viewRecords == old(viewRecords) && breadcrumbs == old(breadcrumbs)
    {
      r := None;
      if IsLinkActive(linkId) {
        var _ := GetActiveLinkedModels(None);
        r := RecordAt(records, linkId);
        if old(records) == [] && Distinct(links) {
          LinkedRecordsGet(links, filters, None, linkId);
        }
      }
    }

    /**
     * `addBreadCrumbs`: the crumbs of the loaded records' links, then the
     * additional crumbs.
     */
    method AddBreadCrumbs(additional: seq<Crumb>, attr: Attr<R>)
      modifies this
      ensures breadcrumbs == old(breadcrumbs)
        + LinkCrumbs(if links == [] then [] else records, links, attr) + additional
      ensures records == if links != [] && old(records) == [] then LinkedRecords(links, filters, None) else old(records)
      ensures filters == old(filters) && viewRecords == old(viewRecords)
    {
      var rs := GetActiveLinkedModels(None);
      var crumbs := CollectCrumbs(rs, links, attr);
      breadcrumbs := AppendCrumbs(breadcrumbs + crumbs, additional);
    }

    /**
     * `indexDataProvider` beyond the parent's: the conditions added to the
     * query (on the link's 'fieldname' when it has one) and the values set
     * on the search model.
     */
    method IndexDataProvider(native: ModelInfo, searchActive: set<string>)
      returns (conds: seq<Condition>, assigns: Filters)
      ensures conds == Conditions(links, filters, native, true)
      ensures assigns == Assignments(links, filters, searchActive)
    {
      if links == [] {
        return [], [];
      }
      conds, assigns := IndexConditions(links, filters, native, searchActive, true);
    }

    /** `newModel` beyond the parent's: the attribute values copied from the active filters. */
    method NewModel(active: set<string>) returns (defaults: Filters)
      ensures defaults == Assignments(links, filters, active)
    {
      if links == [] {
        return [];
      }
      defaults := NewModelDefaults(links, filters, active);
    }
  }
}
