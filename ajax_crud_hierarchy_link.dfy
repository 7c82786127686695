/**
 * AjaxCrudHierarchyLinkController: the hierarchy links on top of
 * BaseAjaxCrudController. Unlike RadHierarchyLinkController it writes the
 * session only on a reset or when incoming filters are given, has no
 * manual-override check, reads the loaded records before anything else,
 * and always filters on `table.field`.
 */
module AjaxCrudHierarchyLink {

  import opened Wrappers
  import opened OrderedMaps
  import opened Php
  import opened Sessions
  import opened Breadcrumbs
  import opened HierarchyLinks
  import opened HierarchyCrumbs
  import opened HierarchyQuery

  /** The default names of the query parameters and of the session key. */
  const GetParam: string := "hierarchy_filter"
  const ResetParam: string := "reset_grid_hierarchy"
  const SessionKey: string := "HierarchyLink"

  /**
   * The filter part of `parseLinksFromUrl`: the stored filters, cleared for
   * the links on a reset request and updated by a truthy incoming filter array
   * (each value stored as it is, the empty string included);
   * the session is written after each of the two updates that happens. A
   * truthy incoming value that is not an array ends the request at the loop,
   * after the reset was stored.
   */
  method StoreFilters<R>(session: Session, links: Links<R>, reset: bool, incoming: Value)
    returns (filters: Filters, failed: bool)
    modifies session
    ensures failed <==> Truthy(incoming) && ForeachFails(incoming)
    ensures filters == ParsedFilters(StoredFilters(old(session.Get(SessionKey, Arr([])))), links, reset,
                                     if Truthy(incoming) && !failed then Entries(incoming) else [], None)
    ensures session.data == if reset || (Truthy(incoming) && !failed) then old(session.data)[SessionKey := Arr(filters)]
                            else old(session.data)
  {
    filters := StoredFilters(session.Get(SessionKey, Arr([])));
    if reset {
      filters := ResetFilters(filters, Keys(links));
      session.Set(SessionKey, Arr(filters));
    }
    failed := Truthy(incoming) && ForeachFails(incoming);
    if Truthy(incoming) && !failed {
      filters := ApplyIncoming(filters, links, Entries(incoming), None);
      session.Set(SessionKey, Arr(filters));
    }
  }

  class AjaxCrudHierarchyLinkController<R> {
    /** `$hierarchy_links`. */
    const links: Links<R>
    /** `$active_hierarchy_filters`. */
    var filters: Filters
    /** `$active_hierarchy_records`, loaded once. */
    var records: Records<R>
    /** `$this->view->params['hierarchy_records']`. */
    var viewRecords: Records<R>
    /** `$this->view->params['breadcrumbs']`. */
    var breadcrumbs: seq<Crumb>

    constructor (links: Links<R>)
      ensures this.links == links
      ensures filters == [] && records == [] && viewRecords == [] && breadcrumbs == []
    {
      this.links := links;
      filters := [];
      records := [];
      viewRecords := [];
      breadcrumbs := [];
    }

    /** `isLinkActive`: the link has an active filter. */
    predicate IsLinkActive(linkId: string)
      reads this
    {
      Active(filters, linkId)
    }

    /**
     * `getActiveLinkedModels`: the records already loaded, or else the
     * records loaded now for the current record.
     */
    method GetActiveLinkedModels(current: Option<R>) returns (rs: Records<R>)
      modifies this
      ensures old(records) != [] ==> rs == old(records) && records == old(records)
      ensures old(records) == [] ==> records == LinkedRecords(links, filters, current) && rs == records
      ensures filters == old(filters) && viewRecords == old(viewRecords) && breadcrumbs == old(breadcrumbs)
    {
      if records != [] {
        return records;
      }
      records := LoadRecords(links, filters, current);
      rs := records;
    }

    /**
     * `parseLinksFromUrl`: the stored filters, cleared for this controller's
     * links on a reset request (and stored), then, when the query carries
     * hierarchy filters, updated by them (and stored); the linked records
     * are made available to the view. A truthy scalar `hierarchy_filter`
     * ends the request at the loop (`failed`), with only the reset stored.
     */
    method ParseLinksFromUrl(session: Session, query: string -> Value) returns (failed: bool)
      modifies this, session
      ensures failed <==> Truthy(query(GetParam)) && ForeachFails(query(GetParam))
      ensures var reset := Truthy(query(ResetParam));
        var incoming := query(GetParam);
        && filters == ParsedFilters(StoredFilters(old(session.Get(SessionKey, Arr([])))), links, reset,
                                    if Truthy(incoming) && !failed then Entries(incoming) else [], None)
        && session.data == if reset || (Truthy(incoming) && !failed) then old(session.data)[SessionKey := Arr(filters)]
                           else old(session.data)
      ensures failed ==> records == old(records) && viewRecords == old(viewRecords)
      ensures !failed ==> records == if old(records) == [] then LinkedRecords(links, filters, None) else old(records)
      ensures !failed ==> viewRecords == records
      ensures breadcrumbs == old(breadcrumbs)
    {
      filters, failed := StoreFilters(session, links, Truthy(query(ResetParam)), query(GetParam));
      if failed {
        return;
      }
      viewRecords := GetActiveLinkedModels(None);
    }

    /**
     * `getActiveLinkedModel`: for an active link, the record the memo holds
     * under it; when the records are loaded now, the record found by the
     * link's filter value.
     */
    method GetActiveLinkedModel(linkId: string) returns (r: Option<R>)
      modifies this
      ensures !Active(filters, linkId) ==> r == None
      ensures Active(filters, linkId) ==> r == RecordAt(records, linkId)
      ensures records == if Active(filters, linkId) && old(records) == []
                         then LinkedRecords(links, filters, None) else old(records)
      ensures Active(filters, linkId) && old(records) == [] && Distinct(links) ==>
        r == match Get(links, linkId) case Some(l) => l.find(FilterValue(filters, linkId)) case None => None
      ensures filters == old(filters) && viewRecords == old(viewRecords) && breadcrumbs == old(breadcrumbs)
    {
      r := None;
      if IsLinkActive(linkId) {
        var _ := GetActiveLinkedModels(None);
        r := RecordAt(records, linkId);
        if old(records) == [] && Distinct(links) {
          LinkedRecordsGet(links, filters, None, linkId);
        }
      }
    }

    /**
     * `addBreadCrumbs`: the crumbs of the loaded records' links, then the
     * additional crumbs.
     */
    method AddBreadCrumbs(additional: seq<Crumb>, attr: Attr<R>)
      modifies this
      ensures breadcrumbs == old(breadcrumbs)
        + LinkCrumbs(records, links, attr) + additional
      ensures records == if old(records) == [] then LinkedRecords(links, filters, None) else old(records)
      ensures filters == old(filters) && viewRecords == old(viewRecords)
    {
      var rs := GetActiveLinkedModels(None);
      var crumbs := CollectCrumbs(rs, links, attr);
      breadcrumbs := AppendCrumbs(breadcrumbs + crumbs, additional);
    }

    /**
     * `indexDataProvider` beyond the parent's: the conditions added to the
     * query, always on `table.field`, and the values set on the search model.
     */
    method IndexDataProvider(native: ModelInfo, searchActive: set<string>)
      returns (conds: seq<Condition>, assigns: Filters)
      ensures conds == Conditions(links, filters, native, false)
      ensures assigns == Assignments(links, filters, searchActive)
    {
      conds, assigns := IndexConditions(links, filters, native, searchActive, false);
    }

    /** `newModel` beyond the parent's: the attribute values copied from the active filters. */
    method NewModel(active: set<string>) returns (defaults: Filters)
      ensures defaults == Assignments(links, filters, active)
    {
      if links == [] {
        return [];
      }
      defaults := NewModelDefaults(links, filters, active);
    }
  }
}
