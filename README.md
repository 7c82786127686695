# yii2-radtools: a verified model of its controller logic

yii2-radtools is a Yii2 CRUD scaffolding layer. Most of it hands work to the
ORM, the session, the request and the views. This project models the logic
underneath it, where the controllers themselves decide what happens.

- **URL query merge** (`Url::urlQueryMerge`): merges a flat map of query
  parameters into a URL.
- **Grid persistence**:
  - `RadCrudController::setupDataProvider` decides which grid filters, page
    and sort order are read from the session and written back to it;
  - `BaseAjaxCrudController::indexDataProvider` does the same for filters.
- **Delete and bulk actions**:
  - `deleteModel` and `actionDelete` classify a delete result, including the
    SQL 23000 foreign-key message;
  - `actionBulkDelete` and `actionBulkUpdate` keep counters and per-key
    error maps;
  - the AJAX and page responses are routed on `return_url`;
  - `redirectReturnUrl` merges redirect parameters;
  - PJAX ids and session keys are built from fixed parts.
- **Hierarchy links**, in three variants: `RadHierarchyLinkController`,
  `AjaxCrudHierarchyLinkController` and `HierarchyLinkTrait`.
  - A session-held map `field => value` of hierarchy filters is updated from
    a reset flag and an ordered incoming map.
  - The linked records are memoised.
  - Breadcrumbs are built with `{field}` URL placeholders.
  - Query conditions and new-record defaults come from the active filters.

Framework calls are function-typed parameters, and the model states what is
done with their results:

- `findOne`, `delete`, `save`, `getErrors`, `getDirtyAttributes` and
  `search()`;
- the search model's attributes, `isAttributeActive` and `tableName()`;
- `Yii::t`, `Html::ul` and `Html::errorSummary`.

The request comes in as parameters: query values, `isAjax`/`isPjax`, and the
posted `pks`. The Yii session is a small class over a `map<string, Value>`.
PHP values are a datatype:

- `Value` holds null, bool, int, string, and array as an ordered map.

PHP behaviour that the controllers rely on is written out:

- truthiness;
- `isset`;
- PHP 7 loose `==`;
- `(int)` casts with 64-bit saturation;
- weak-mode `int` parameter coercion;
- `explode`/`implode`;
- `str_replace`/`strtr` with one pair;
- `preg_match` with `/CONSTRAINT `(.*)` FOREIGN/`;
- `preg_match_all` with `/\{(.*?)\}/`;
- the URLs `parse_url` refuses, and the key names `parse_str` writes.

The PHP version assumed throughout is 7.0 or 7.1.

Modules, one per source file or shared concept:

| module | file | models |
|---|---|---|
| Wrappers, OrderedMaps, Strings, Php, Sessions, Breadcrumbs | wrappers.dfy, ordered_maps.dfy, strings.dfy, php.dfy, session.dfy, breadcrumbs.dfy | PHP arrays as ordered maps, string functions, PHP value semantics, the session |
| UrlHelper, UrlHelperExamples | url.dfy, url_examples.dfy | helpers/Url.php and the worked example of its unit test |
| ForeignKeys, RadCrudRules | foreign_keys.dfy, rad_crud_rules.dfy | the pure decision rules of RadCrudController.php |
| RadCrud | rad_crud.dfy | the stateful parts of RadCrudController.php: grid persistence, bulk loops, the controller class |
| HierarchyLinks, HierarchyCrumbs, HierarchyQuery | hierarchy_links.dfy, hierarchy_crumbs.dfy, hierarchy_query.dfy | the filter, record, breadcrumb and query logic the three hierarchy variants share |
| RadHierarchyLink, AjaxCrudHierarchyLink, HierarchyLinkTrait | rad_hierarchy_link.dfy, ajax_crud_hierarchy_link.dfy, hierarchy_link_trait.dfy | one class per variant, with its own parameter names and control flow |
| BaseAjaxCrud | base_ajax_crud.dfy | BaseAjaxCrudController.php |

## Model

| member | source | states |
|---|---|---|
| UrlHelper.ParseUrl | helpers/Url.php:37 | on a URL it accepts, `parse_url` splits it into the text before the query, an optional query and the fragment; reassembling the parts gives the URL back |
| UrlHelper.PathAccepted | helpers/Url.php:37 | a URL with no ':' that does not start with `//` is never refused by `parse_url` |
| UrlHelper.EmptyHostRejected | helpers/Url.php:37 | `parse_url` refuses a scheme followed by `///`, whose host is empty (a `file` scheme excepted) |
| UrlHelper.SchemeAuthority | helpers/Url.php:37 | after a scheme and `//`, `parse_url` refuses the URL exactly when it refuses the authority that follows |
| UrlHelper.HostPortAccepted | helpers/Url.php:37 | `parse_url` accepts a scheme, `//`, a plain host and a port of one to five digits in 1-65535, followed by nothing or a path, query or fragment |
| UrlHelper.KeyNameChars | helpers/Url.php:46 | the name `parse_str` gives a key holds only characters of the key and '_' |
| UrlHelper.KeyNameIdempotent | helpers/Url.php:46 | a name `parse_str` gives is its own name: renaming it again changes nothing |
| UrlHelper.KeyNamePlain | helpers/Url.php:46 | a key with no space and no dot keeps its name |
| UrlHelper.ParseAssemble | helpers/Url.php:37 | splitting an assembled URL gives back exactly its parts, so the parts and the URL determine each other |
| UrlHelper.UrlQueryMergeAsWritten | helpers/Url.php:23-59 | as written: `false` exactly for an empty URL ("" or "0"), whatever the parameters; the URL itself for no parameters; `url + "?" + http_build_query(params)` when the URL has no non-empty query, and also when `parse_url` refuses the URL |
| UrlHelper.AsWrittenOfParts | helpers/Url.php:37-58 | as written, a URL that `parse_url` accepts and whose query is non-empty gets every occurrence of its query text replaced by the merged query; otherwise, a refused URL with a query included, the new query is appended at the very end |
| UrlHelper.AsWrittenAgreesWhenQueryUnique | helpers/Url.php:49-58 | when `parse_url` accepts the URL and the query text occurs only at the query's own position, the helper as written gives exactly the intended merge |
| UrlHelper.AsWrittenAppendsIntoFragment | helpers/Url.php:41-43 | as written, a URL without a query but with a fragment ends up with no query; the new parameters are inside the fragment |
| UrlHelper.AsWrittenDiffersWithFragment | helpers/Url.php:41-43 | for such a URL the helper as written and the intended merge give different URLs |
| UrlHelper.UrlQueryMerge | helpers/Url.php:23-59 | the intended merge: `false` exactly for an empty URL; the URL unchanged for no parameters; otherwise only the query component is rewritten |
| UrlHelper.MergeOfParts | helpers/Url.php:37-58 | the intended merge keeps the text before the query and the fragment, and puts the merged query between them |
| UrlHelper.MergeSemantics | helpers/Url.php:49-58 | after the intended merge, the scheme, host, port and path are unchanged, the fragment is unchanged, and the query parses back as the original pairs merged with the given ones |
| UrlHelper.MergedPairs | helpers/Url.php:52-55 | a key given in both maps takes the new value; keys only in the URL keep their value and position; new keys follow in the order given |
| UrlHelper.ParseBuild | helpers/Url.php:46-51 | `parse_str(http_build_query(m))` gives back `m` for a flat map whose keys are their own `parse_str` names and whose keys and values survive encoding |
| UrlHelper.ParseQueryWellFormed | helpers/Url.php:46 | `parse_str` of a query without '#' gives distinct keys, each its own name, whose pairs `http_build_query` writes back unchanged |
| UrlHelper.ParseQueryBareKey | helpers/Url.php:46 | `parse_str` reads a bare key as its name with the empty value |
| UrlHelper.BuildQueryCons | helpers/Url.php:51 | `http_build_query` writes the first pair as `k=v`, then `&` and the rest |
| UrlHelperExamples.MergeExample | tests/unit/UrlHelperTest.php:13-20 | the test's URL `…/page?a=123&b=456&c=abc#hyperlink` merged with b and d gives `…/page?a=123&b=new_value&c=abc&d=new_value#hyperlink` |
| UrlHelperExamples.ExampleMerge | tests/unit/UrlHelperTest.php:15-17 | merging b and d into a, b, c overwrites b in place and appends d |
| UrlHelperExamples.MergeExampleAsWritten | tests/unit/UrlHelperTest.php:13-20 | the helper as written gives the same result for the test's URL, whose path and fragment hold no '=' |
| UrlHelperExamples.AsWrittenAgreesOnceOnly | helpers/Url.php:49-58 | for a URL that `parse_url` accepts, whose query holds a '=' and whose path and fragment hold none, the helper as written gives exactly the intended merge |
| UrlHelperExamples.QueryOccursOnce | helpers/Url.php:49 | such a query text occurs in the URL only at the query's own position, so `str_replace` touches only the query |
| UrlHelperExamples.TestUrlAccepted | tests/unit/UrlHelperTest.php:13-20 | `parse_url` accepts the test's URL `https://testurl.com:999…`, whatever path, query and fragment follow |
| UrlHelperExamples.RefusedUrlAppended | helpers/Url.php:37-43 | as written, a URL refused for its empty host keeps its own query and gets a second `?` and the new query appended: "http:///x?a=1" with x=2 gives "http:///x?a=1?x=2" |
| UrlHelperExamples.DottedKeyRenamed | helpers/Url.php:46-58 | as written, a dotted key comes back renamed: "/p?a.b=1" with x=2 gives "/p?a_b=1&x=2" |
| UrlHelperExamples.DottedParse | helpers/Url.php:46 | "k1.k2=v" reads as the one pair named "k1_k2" |
| UrlHelperExamples.DottedName | helpers/Url.php:46 | the dot between two plain keys becomes '_' |
| UrlHelperExamples.AsWrittenReplacesInPath | helpers/Url.php:49-58 | for "/a?a" and x=1 the helper as written returns "/a=&x=1?a=&x=1"; the intended merge gives "/a?a=&x=1" |
| Php.IntCast | RadCrudController.php:577 | `(int)` of a string lies within the 64-bit bounds and is 0 for a string without a leading number |
| Php.IntCastText | RadCrudController.php:577 | `(int)` reads back every 64-bit int from the text PHP writes for it, and that text is accepted as an `int` argument |
| Php.IntCastNat | RadCrudController.php:577 | the decimal text of a natural number reads as a positive sign and those digits, and casts back to the number |
| Php.NegativeText | RadCrudController.php:577 | "-" followed by the digits of n casts to -n |
| Php.IntCastIgnoresSuffix | RadCrudController.php:577 | text after the digits does not change the cast |
| Php.IntArgumentCast | RadCrudController.php:1291 | a string that `findModel(int $id)` takes cleanly has a leading number, and the id it receives is exactly the value of its sign and digits, as `(int)` would read it |
| Php.TrailingTextNotIntArgument | RadCrudController.php:1291 | digits followed by other text ("1abc", "1 ") are read by `(int)`, but passing them to `findModel(int $id)` raises the notice that ends the action |
| Php.TooLargeNotIntArgument | RadCrudController.php:1291 | a number beyond 64 bits saturates under `(int)`, but is not an `int` argument: PHP reads it as a float, which the parameter refuses |
| Php.LooseEqualsEquivalence | RadHierarchyLinkController.php:124 | PHP 7 loose `==` on the modelled values is reflexive and symmetric |
| Php.LooseEqualsNumeric | RadHierarchyLinkController.php:124 | an integer numeric string loosely equals the decimal text of its value ("007" == "7"), so the manual-override check compares such values as numbers |
| ForeignKeys.LastClose | RadCrudController.php:698-699 | the greedy group ends at a "` FOREIGN" found on the same line as the match start |
| ForeignKeys.LastCloseMax | RadCrudController.php:698-699 | that end is the last "` FOREIGN" on the line |
| ForeignKeys.MatchFromSound | RadCrudController.php:698-699 | a match starts with "CONSTRAINT `", ends with "` FOREIGN" and contains no line feed |
| ForeignKeys.MatchFromComplete | RadCrudController.php:698-699 | a message that contains such a text on one line always matches |
| ForeignKeys.ForeignKeyNameMatches | RadCrudController.php:698-699 | `$matches[1]` sits between "CONSTRAINT `" and "` FOREIGN" in the message, on one line |
| ForeignKeys.ForeignKeyOfMessage | RadCrudController.php:698-699 | for a message with one ``CONSTRAINT `name` FOREIGN`` on one line, no earlier opening text and no later closing text, the captured name is `name` |
| RadCrudRules.PjaxIdsApart | RadCrudController.php:1246-1251 | without dynagrid the grid's PJAX id is `#crud-datatable-pjax`, and no dynagrid id, whatever the model id, equals it |
| RadCrudRules.PjaxIdInjective | RadCrudController.php:1246-1251 | under dynagrid, two search forms share a PJAX id only if they share a form name |
| RadCrudRules.PersistKeyInjective | RadCrudController.php:752-835 | the `AjaxCrudDP_<class><grid>_filters/_page/_sorting` keys of one controller name one grid and one kind each |
| RadCrudRules.DeleteModel | RadCrudController.php:693-708 | `deleteModel` returns a string exactly when `delete()` threw |
| RadCrudRules.DeleteVerdictOfOutcome | RadCrudController.php:350-371 | a delete succeeds exactly when `delete()` returned a count (0 included); it fails generically exactly on `false`; it fails with a reason exactly when `delete()` threw; the reason is the "linked with" text only for code 23000 with a matching message, otherwise the raw message |
| RadCrudRules.DeleteModelForeignKey | RadCrudController.php:693-708 | an integrity violation whose message names a constraint becomes the "linked with" text for that name |
| RadCrudRules.RedirectReturnUrl | RadCrudController.php:1025-1040 | a route array keeps its first element as the route; a URL string is query-merged with the base parameters by `Url::urlQueryMerge` as written: `false` exactly for an empty URL, and a URL without a query gets `?` and the base parameters appended at its very end |
| RadCrudRules.RedirectRouteParams | RadCrudController.php:1027-1031 | a parameter in the route array overrides the base parameter with the same key; other base parameters are kept |
| RadCrudRules.RedirectLinkUnchanged | RadCrudController.php:1035-1038 | a URL with no base parameters is kept as it is; an empty one becomes `false` |
| RadCrudRules.CrudSuccessRouting | RadCrudController.php:1098-1126 | for a modal request, exactly one of three replies: 'index' reloads and closes; 'view' or 'update' reloads and renders that view; anything else, every route array included, forces a redirect to the return URL |
| RadCrudRules.CrudSuccessPageId | RadCrudController.php:1137-1147 | a page request gets the success flash and a redirect with the route array whose element 1, the parameter map, has `id` set to the record's id, unless the route array gives its own `id` |
| RadCrudRules.CrudSuccessPageLink | RadCrudController.php:1033-1038 | a page request whose return URL has no query is redirected to that URL with `?id=` and the record's id appended at its very end, after any fragment |
| RadCrudRules.RouteIdNestedAsWritten | RadCrudController.php:1027-1031 | as written, the only name-value pair of the route array handed to `redirect` is its element 1, so the record's `id` is not a query parameter |
| RadCrudRules.RouteIdIntended | RadCrudController.php:1027-1031 | as intended, with the parameters as entries of the route array, its name-value pairs are the merged parameters, `id` included |
| RadCrudRules.DeleteReplyRouting | RadCrudController.php:372-469 | behind a detail view, success answers as without one and failure is the JSON error; without `return_url`, a successful modal delete is a forced redirect to `['index']`; with `return_url=index` it reloads the grid |
| RadCrudRules.ErrorString | RadCrudController.php:1174-1177 | the error string is present exactly when there are errors |
| RadCrudRules.BulkFlash | RadCrudController.php:1183-1231 | a modal 'index' request shows the message and the errors and sets no flash; otherwise the remaining `alert` flash is the error list when there are errors (the second `setFlash` overwrites the first), else the message when it is non-empty |
| Php.GetOrDefault | RadCrudController.php:764 | `$session->get($key, $default)` and `$request->get($name, $default)` test with `isset`: a missing key and a key stored with null both give the default; any other stored value is returned |
| Php.GetAfterSet | RadCrudController.php:764-780 | a get after a set under the same key gives the value set, or the default when that value is null; a set under another key does not change what a get sees |
| RadCrud.PersistFilters | RadCrudController.php:755-781 | the session after the filter phase of setupDataProvider, and what is loaded into the search model |
| RadCrud.PersistPage | RadCrudController.php:793-816 | the session after the page phase, and the page applied to pagination |
| RadCrud.PersistOrder | RadCrudController.php:819-836 | the session after the sort phase, and the orders in force |
| RadCrud.GridKeepsOtherKeys | RadCrudController.php:740-839 | setupDataProvider touches no session entry besides the grid's `_filters`, `_page` and `_sorting` |
| RadCrud.GridFilters | RadCrudController.php:755-781 | with filter persistence, `_filters` afterwards holds the search model's attributes; the stored filters are loaded only when there is no reset and no filter in the query |
| RadCrud.GridPage | RadCrudController.php:793-816 | with page persistence, a page in the query is what is stored; otherwise the stored page (0 when absent, after a reset or after new filters) is stored back and applied only when `<= pageCount` |
| RadCrud.GridSort | RadCrudController.php:819-836 | with order persistence, the stored order is applied only when the request gives none, and afterwards the session holds the order in force |
| RadCrud.BulkDeleteCount | RadCrudController.php:485-530 | as written, the count grows by one for every found record without validation errors, whatever `delete()` did; records not found, those deleted by an earlier repeat of the pk included, are never counted; the ids deleted are the ones the run removed |
| RadCrud.CleanCountBound | RadCrudController.php:485-530 | the count never exceeds the number of pks |
| RadCrud.RepeatedPkAfterDelete | RadCrudController.php:486-529 | a pk given twice whose record is deleted the first time is found no more the second time: the record is counted once and its entry ends as "not found" |
| RadCrud.BulkDeleteStepErrors | RadCrudController.php:485-528 | one as-written iteration writes the error entry of its own pk and of no other |
| RadCrud.BulkDeleteErrorForEveryPk | RadCrudController.php:498-526 | as written, after the loop a key has an error entry exactly when it had one before or is one of the pks, including pks whose record was deleted |
| RadCrud.IntendedStepErrors | RadCrudController.php:485-530 | one intended iteration writes an entry for its pk exactly when the record is not deleted |
| RadCrud.IntendedDeleteErrors | RadCrudController.php:485-530 | as intended, a key has an error entry exactly when it had one before or is a pk whose record was not deleted at some position of the run (missing, deleted by an earlier pk, failed or with errors) |
| RadCrud.IntendedDeleteCount | RadCrudController.php:485-530 | as intended, the count is the number of pks whose record was deleted at their turn, each pk seeing the deletions before it |
| RadCrud.IntendedCountDistinct | RadCrudController.php:485-530 | as intended, the ids deleted grow only by ids the pks name, and the count never exceeds the number of ids deleted, however often a pk repeats |
| RadCrud.BulkDeleteAsWrittenCounterexample | RadCrudController.php:498-529 | as written, a deleted record gets a "reason unknown" entry, and a delete that throws is counted; as intended, neither happens |
| RadCrud.UpdateValuesGet | RadCrudController.php:560-565 | an attribute is in the update set exactly when it is active and was posted, with the posted value |
| RadCrud.UpdateCount | RadCrudController.php:576-612 | the number of records updated never exceeds the number of pks |
| RadCrud.BulkUpdateCount | RadCrudController.php:576-612 | the count grows exactly for the pks whose record, as last saved, is found, changed by the assignment and saved |
| RadCrud.RepeatedPkSavedOnce | RadCrudController.php:576-612 | a pk given twice finds the record it saved the first time; when assigning the values again changes nothing, it is counted once and no error is reported |
| RadCrud.BulkUpdateNotFound | RadCrudController.php:580-583 | a pk whose record is missing gets the "not found" entry, and it keeps it to the end of the run |
| RadCrud.RadCrudController.FindModel | RadCrudController.php:1291-1297 | `$this->model` becomes the record found, or null |
| RadCrud.RadCrudController.AddBreadCrumbs | RadCrudController.php:666-670 | the crumbs are appended in order |
| RadCrud.RadCrudController.SetupDataProvider | RadCrudController.php:740-839 | the session and the loaded filters, page and orders are as Grid describes for the key `dataProviderSessionKey() . grid_id` |
| RadCrud.RadCrudController.IndexDataProvider | RadCrudController.php:852-861 | the main grid (id '') with the controller's `$persist_grid_*` flags; with every flag off the session is left as it was and nothing is loaded |
| RadCrud.RadCrudController.BulkDelete | RadCrudController.php:477-530 | the loop over `explode(',', pks)` leaves the errors, the count and `$this->model` as BulkDeleteFrom describes; a pk that `findModel(int $id)` does not take cleanly ends the action at that pk: no digits or a value beyond 64 bits (a TypeError), or text after the digits such as "1abc" or "1 " (a notice that Yii's error handler rethrows) |
| RadCrud.RadCrudController.DeleteOne | RadCrudController.php:486-529 | one pk of the delete loop changes the errors, the count, `$this->model` and the early end exactly as one BulkDeleteStep: the action ends at a pk that is not a clean `int` argument (TypeError or rethrown notice), and otherwise the record with that id is looked up |
| RadCrud.RadCrudController.BulkUpdate | RadCrudController.php:553-612 | an empty update set gives the single error under key 0 and touches no record; otherwise the records are updated as BulkUpdateFrom describes |
| RadCrud.RadCrudController.UpdateRecords | RadCrudController.php:576-612 | the loop over the pks leaves the errors, the count and `$this->model` as BulkUpdateFrom describes |
| RadCrud.RadCrudController.UpdateOne | RadCrudController.php:577-611 | one pk of the update loop changes the errors, the count and `$this->model` exactly as one BulkUpdateStep |
| HierarchyLinks.WithoutKeysGet | RadHierarchyLinkController.php:79-86 | after the reset loop exactly the listed keys are gone and every other filter keeps its value |
| HierarchyLinks.ResetFilters | RadHierarchyLinkController.php:79-86 | the reset loop removes exactly this controller's link keys |
| HierarchyLinks.IncomingStepGet | RadHierarchyLinkController.php:97-131 | one incoming filter for a recognised field, as written: the field gets the value, the empty string and null included, unless a loosely different search value overrides it; its reset fields are removed, and every other filter is kept; an unrecognised field changes nothing |
| HierarchyLinks.IntendedStepGet | RadHierarchyLinkController.php:107-119 | the intended step: as above, except that an empty or null value unsets the field, as the unset branch's comment says |
| HierarchyLinks.IncomingFrame | RadHierarchyLinkController.php:93-131 | a filter that no incoming field touches survives the incoming loop unchanged |
| HierarchyLinks.LastIncomingWins | RadHierarchyLinkController.php:93-131 | the last incoming value for a field decides it, when no later entry touches the field: the field holds that value, an empty one included, unless the search form overrides it |
| HierarchyLinks.IncomingSplit | RadHierarchyLinkController.php:93-131 | the incoming loop over the entries is the loop over a prefix, then one entry, then the rest |
| HierarchyLinks.ApplyIncoming | RadHierarchyLinkController.php:93-131 | the incoming loop computes the filters IncomingFrom describes |
| HierarchyLinks.ParsedFiltersReset | RadHierarchyLinkController.php:79-131 | a reset drops every link field's stored filter unless an incoming entry sets it again; other controllers' filters are kept |
| HierarchyLinks.EmptyFilterKeptAsWritten | RadHierarchyLinkController.php:109-119 | as written, `hierarchy_filter[f]=` keeps '' as an active filter; as intended, the filter is unset |
| HierarchyLinks.RecordStepGet | RadHierarchyLinkController.php:164-178 | one link contributes the record found by its active filter, else the current record's linked parent, else nothing |
| HierarchyLinks.RecordsFromGet | RadHierarchyLinkController.php:164-178 | on distinct link fields, a field has a loaded record exactly when its link contributes one, and then it is that one; fields that are not links keep what was there before |
| HierarchyLinks.LinkedRecordsGet | RadHierarchyLinkController.php:160-180 | the records loaded from scratch, key by key: the keys are link fields, and an active filter wins over the linked record |
| HierarchyLinks.LoadRecords | RadHierarchyLinkController.php:160-180 | the loading loop computes LinkedRecords |
| HierarchyCrumbs.CloseBrace | RadHierarchyLinkController.php:254 | the lazy group ends at the first '}' on the same line |
| HierarchyCrumbs.Placeholders | RadHierarchyLinkController.php:254 | every match is "{" + name + "}", with a name free of '}' and line feeds |
| HierarchyCrumbs.ExpandUrl | RadHierarchyLinkController.php:254-262 | the replacement loop computes SubstituteUrl |
| HierarchyCrumbs.CollectDefCrumbs | RadHierarchyLinkController.php:222-268 | the loop over one link's breadcrumb definitions computes DefCrumbs |
| HierarchyCrumbs.CollectCrumbs | RadHierarchyLinkController.php:217-269 | the loop over the loaded records computes LinkCrumbs |
| HierarchyCrumbs.NoPlaceholders | RadHierarchyLinkController.php:254-262 | a URL without '{' is kept as it is |
| HierarchyCrumbs.CloseBraceAt | RadHierarchyLinkController.php:254 | the match ends at the '}' that closes a name free of '}' and line feeds |
| HierarchyCrumbs.SinglePlaceholder | RadHierarchyLinkController.php:254 | a URL like "/x?id={id}" has exactly the one placeholder |
| HierarchyCrumbs.SubstituteSingle | RadHierarchyLinkController.php:254-262 | a URL with one placeholder becomes the URL with the record's field value in its place |
| HierarchyCrumbs.DefCrumbsLabelled | RadHierarchyLinkController.php:222-268 | with every definition labelled, there is one crumb per definition, in order, with its label and its filled-in URL |
| HierarchyCrumbs.DefCrumbsUnlabelled | RadHierarchyLinkController.php:224 | definitions without a label give no crumbs |
| HierarchyCrumbs.NullRecordsNoCrumbs | RadHierarchyLinkController.php:218 | links whose record is null contribute no crumbs |
| HierarchyQuery.ConditionFor | RadHierarchyLinkController.php:292-321 | the loop body adds LinkCondition's condition |
| HierarchyQuery.IndexConditions | RadHierarchyLinkController.php:292-327 | the loop computes the conditions and the search-model assignments |
| HierarchyQuery.NewModelDefaults | RadHierarchyLinkController.php:347-354 | the newModel loop computes Assignments |
| HierarchyQuery.AssignFromGet | RadHierarchyLinkController.php:324-326 | an attribute is assigned exactly when it is a link field with an active filter and active on the model, and it gets the filter value |
| HierarchyQuery.AssignmentsGet | RadHierarchyLinkController.php:347-354 | a new record's attribute is set exactly when it is a link field with an active filter and active on the record, and every other attribute is untouched |
| HierarchyQuery.ConditionAt | RadHierarchyLinkController.php:292-321 | each condition belongs to a link whose filter is active and whose field is active on its model; it uses that link's column and the filter value |
| HierarchyQuery.ConditionsSound | RadHierarchyLinkController.php:292-321 | every condition belongs to a link that restricts the query, with the column `fieldname` when configured, else `tableName.field`, and the filter value |
| HierarchyQuery.ConditionsComplete | RadHierarchyLinkController.php:292-321 | every link that restricts the query gives a condition |
| HierarchyQuery.NoActiveFilters | RadHierarchyLinkController.php:292-327 | with no active filter the query is not restricted and nothing is assigned |
| HierarchyQuery.NoAssign | RadHierarchyLinkController.php:324-326 | with no active filter no attribute is assigned |
| RadHierarchyLink.RadHierarchyLinkController.GetActiveLinkedModels | RadHierarchyLinkController.php:150-181 | no links gives []; loaded records are memoised and returned unchanged; otherwise the records are loaded for the current record |
| RadHierarchyLink.StoreFilters | RadHierarchyLinkController.php:72-135 | the filters are the stored ones, reset for the links on request, then updated by the incoming entries as written (an empty value is stored as well) with the search-form override; the session then holds the result; an incoming value that is neither null nor an array ends the request at the loop, with nothing stored |
| RadHierarchyLink.RadHierarchyLinkController.ParseLinksFromUrl | RadHierarchyLinkController.php:66-141 | the stored filters, reset for this controller's links on `reset_grid_hierarchy` and updated by `hierarchy_filter` with the search-form override, are written back under 'HierarchyLink' and the linked records are passed to the view; a scalar `hierarchy_filter` ends the request before the write, leaving the session, the records and the view as they were |
| RadHierarchyLink.RadHierarchyLinkController.GetActiveLinkedModel | RadHierarchyLinkController.php:191-197 | null for an inactive link; for an active one, the memo's record, which is the one found by the filter value when loaded now |
| Breadcrumbs.AppendCrumbs | RadHierarchyLinkController.php:272-274 | the additional crumbs end up after the existing ones, in their order |
| RadHierarchyLink.RadHierarchyLinkController.AddBreadCrumbs | RadHierarchyLinkController.php:215-274 | the hierarchy crumbs of the loaded records come first, then the additional crumbs in order |
| RadHierarchyLink.RadHierarchyLinkController.IndexDataProvider | RadHierarchyLinkController.php:282-330 | the conditions use the link's `fieldname` when it has one; the search model receives the active filters |
| RadHierarchyLink.RadHierarchyLinkController.NewModel | RadHierarchyLinkController.php:337-357 | the new record receives only active filters on active attributes |
| AjaxCrudHierarchyLink.AjaxCrudHierarchyLinkController.GetActiveLinkedModels | AjaxCrudHierarchyLinkController.php:129-156 | the memo is checked before the links; otherwise the records are loaded |
| AjaxCrudHierarchyLink.StoreFilters | AjaxCrudHierarchyLinkController.php:72-111 | the filters are the stored ones, reset for the links on request, then updated by a truthy incoming filter array; the session changes only in those two cases, and then holds the result; a truthy incoming value that is not an array ends the request at the loop, after the reset was stored |
| AjaxCrudHierarchyLink.AjaxCrudHierarchyLinkController.ParseLinksFromUrl | AjaxCrudHierarchyLinkController.php:66-120 | a reset removes this controller's link keys; a truthy `hierarchy_filter` array is applied without a search override; the session is written only in those two cases; a truthy scalar ends the request at the loop, with only the reset stored and the records and view untouched |
| AjaxCrudHierarchyLink.AjaxCrudHierarchyLinkController.GetActiveLinkedModel | AjaxCrudHierarchyLinkController.php:165-171 | null for an inactive link; for an active one, the memo's record |
| AjaxCrudHierarchyLink.AjaxCrudHierarchyLinkController.AddBreadCrumbs | AjaxCrudHierarchyLinkController.php:189-249 | the hierarchy crumbs come first, then the additional crumbs |
| AjaxCrudHierarchyLink.AjaxCrudHierarchyLinkController.IndexDataProvider | AjaxCrudHierarchyLinkController.php:256-296 | the conditions are always on `tableName.field`; the search model receives the active filters |
| AjaxCrudHierarchyLink.AjaxCrudHierarchyLinkController.NewModel | AjaxCrudHierarchyLinkController.php:303-323 | the new record receives only active filters on active attributes |
| HierarchyLinkTrait.HierarchyLinkedController.GetLinkedModels | HierarchyLinkTrait.php:164-189 | the memo first; [] when the host has no links; otherwise the records are loaded |
| HierarchyLinkTrait.StoreFilters | HierarchyLinkTrait.php:46-83 | the filters are the stored ones (none when nothing is stored), reset on request and updated by a truthy `hierarchy_filter` array; the session changes only in those two cases, and then holds the result; a truthy scalar ends the request at the loop, after the reset was stored |
| HierarchyLinkTrait.HierarchyLinkedController.ParseLinks | HierarchyLinkTrait.php:40-91 | nothing happens without links; otherwise the filters come from the session if stored, else []; a reset on `hierarchy_filter_reset` and a truthy `hierarchy_filter` array update them, each storing the result; a truthy scalar ends the request at the loop |
| HierarchyLinkTrait.HierarchyLinkedController.GetLinkedModel | HierarchyLinkTrait.php:151-156 | null for an inactive link; for an active one, the memo's record |
| HierarchyLinkTrait.HierarchyLinkedController.AddBreadCrumbs | HierarchyLinkTrait.php:196-250 | the hierarchy crumbs come first, then the additional crumbs |
| HierarchyLinkTrait.HierarchyLinkedController.IndexDataProvider | HierarchyLinkTrait.php:96-130 | no conditions without links; otherwise conditions on `tableName.field` for active filters on active attributes |
| HierarchyLinkTrait.HierarchyLinkedController.NewModel | HierarchyLinkTrait.php:257-273 | the new record receives only active filters on active attributes |
| BaseAjaxCrud.FiltersSessionKeyInjective | BaseAjaxCrudController.php:51-53 | two models share the key `AjaxCrudCont_filters_<model>` only if they share a name |
| BaseAjaxCrud.FiltersKeyApartFromGridKeys | BaseAjaxCrudController.php:51-53 | the filter key never collides with a key under which RadCrudController persists a grid |
| BaseAjaxCrud.PjaxForceUpdateIdInjective | BaseAjaxCrudController.php:37-44 | under dynagrid, two tables share `#<table>-gridview-pjax` only if they share a name |
| BaseAjaxCrud.IndexFiltersFrame | BaseAjaxCrudController.php:140-162 | indexDataProvider changes no session entry but the filter key |
| BaseAjaxCrud.IndexFiltersKey | BaseAjaxCrudController.php:145-158 | with the search form present, the key holds the search attributes; after a reset without the form it holds []; otherwise the session is unchanged; the stored filters are loaded exactly when there is neither a reset nor the form |
| BaseAjaxCrud.FiltersRoundTrip | BaseAjaxCrudController.php:145-158 | whatever the search form stores is loaded into the search model on the next request without it, a stored null included, because `get` without a default also gives null |
| BaseAjaxCrud.ResetClearsFilters | BaseAjaxCrudController.php:145-150 | after a reset, the next request without the form loads an empty filter list |
| BaseAjaxCrud.DeleteErrorAgrees | BaseAjaxCrudController.php:557-565 | the error text of a failed delete is the one RadCrudController's `deleteModel` gives for the same exception |
| BaseAjaxCrud.ActionDeleteOutcome | BaseAjaxCrudController.php:543-590 | the reply reports a failure exactly when `delete()` threw, as a modal exactly for AJAX requests, with the foreign-key text when the message names a constraint; a `delete()` returning false is reported as a success |
| BaseAjaxCrud.BulkDeleteNotFound | BaseAjaxCrudController.php:605-615 | when no pk lets an exception escape, the run is not aborted, and a key is reported exactly when it was reported before or is a pk whose record was missing at its turn (deleted by an earlier pk included) or whose delete threw a caught exception |
| BaseAjaxCrud.RepeatedPkReported | BaseAjaxCrudController.php:605-615 | a pk given twice whose record is deleted the first time is reported once, by the second `findModel` |
| BaseAjaxCrud.BulkDeleteNotFoundBound | BaseAjaxCrudController.php:605-615 | the keys already reported stay first, in order, and each pk adds at most one key |
| BaseAjaxCrud.BulkDeleteAborts | BaseAjaxCrudController.php:605-615 | the action ends early exactly when some pk's delete throws an exception outside `yii\base\Exception` |
| BaseAjaxCrud.NotFoundMessageLists | BaseAjaxCrudController.php:623 | the message is '' exactly when no pk was reported, that is none was missing or raised a caught exception; otherwise it is "No found: " followed by the keys, which `explode(',')` reads back |
| BaseAjaxCrud.BaseAjaxCrudController.FindModel | BaseAjaxCrudController.php:639-644 | `$this->model` becomes `findOne($id)`, and the 404 exception is raised exactly when that is null |
| BaseAjaxCrud.BaseAjaxCrudController.AddBreadCrumbs | BaseAjaxCrudController.php:60-64 | the crumbs are appended in order |
| BaseAjaxCrud.BaseAjaxCrudController.IndexDataProvider | BaseAjaxCrudController.php:140-162 | the session and the loaded filters are as IndexFilters describes for `filter_reset` and the search form's presence |
| BaseAjaxCrud.BaseAjaxCrudController.ActionDelete | BaseAjaxCrudController.php:543-590 | `$this->model` is the record found, and the reply is ActionDeleteReply's |
| BaseAjaxCrud.BaseAjaxCrudController.ActionBulkDelete | BaseAjaxCrudController.php:599-629 | the pks not found, the early end and `$this->model` are as BulkDeleteFrom describes; the reply reloads `pjaxForceUpdateId` with the not-found message |
| BaseAjaxCrud.BaseAjaxCrudController.DeleteOne | BaseAjaxCrudController.php:606-614 | one pk of the loop changes the reported keys, `$this->model`, the early end and the deleted keys exactly as one BulkDeleteStep |

## Left out

- HTML and views are not modelled: rendering, `Html::button`, `Html::a`, modal footers and `view->title`. Rendered texts are function parameters.
- Translation is not modelled: `Yii::t` messages are function parameters or the raw error text. The one `{model_name}` label is the only substitution written out.
- Searches, pagination and sorting are function parameters, treated as oracles, and so are `findOne`, `delete`, `save`, `getErrors` and `getDirtyAttributes`. This covers the ORM records, `search()`, `Pagination::getPageCount` and `Sort::getAttributeOrders`.
- The interpretation of `base_where_filter` in `indexDataProvider` is not modelled, and neither are the sort attribute validation inside Yii's `Sort` nor the parent data provider of each hierarchy `indexDataProvider`. The parent's persistence is modelled by RadCrud and BaseAjaxCrud.
- Events are not modelled: `afterCrudSuccess`, RadCrudEvent and afterCrudEvent are data holders, and the model keeps only the response they pass through.
- `getModelObjectName` is not modelled. It only feeds translated messages.
- `init()` wiring is not modelled: each parse method is modelled as the method `init()` calls.
- `Yii::trace` and other logging are not modelled.
- Floating-point and exponent numeric strings are not modelled, and integer strings beyond 64 bits are compared by their saturated value. `(int)`, weak-mode `int` parameters and loose `==` cover only leading signs and decimal digits.
- RadCrud.BulkDeleteStep: a pk written as a float or with an exponent ("1.0", "1e3") is taken by a weak-mode `int` parameter when its value fits, but ends the loop in the model; only integer strings are clean `int` arguments here.
- Php.LooseEquals: array-to-array `==` is modelled as structural equality, not PHP's key-set comparison with loose values.
- UrlHelper.ParseUrl: `parse_url` replaces control characters in the query with '_' before `str_replace` looks for it; that replacement is not modelled.
- UrlHelper.ParseQuery: a key with '[' is kept as a plain key, where PHP builds an array from it, and a key is not cut at a NUL byte as PHP cuts it.
- The query helpers are modelled only on flat string maps: `urldecode`, percent-encoding in `http_build_query`/`parse_str`, nested query arrays, and the recursive `common\helpers\ArrayHelper::merge` are not modelled. `urldecode` is treated as the identity.
- Integer-keyed entries of a route array are not modelled: only string keys are parameters.
- The test's third "overrule" argument and its second expectation are not modelled, because `urlQueryMerge` takes two parameters.
- `count($replacement) > 0` in the breadcrumb loops is treated as always true: `count` of a string is 1 in PHP 7.0 and 7.1, the versions assumed here. From PHP 7.2 it also raises a warning, which Yii's error handler would turn into an exception at the first placeholder; that is not modelled.
- `ArrayHelper::getValue` with dotted paths is not modelled: a record's field value is the function parameter `attr`.
- The scenario set on records in `actionBulkUpdate` is not modelled.
- HierarchyLinks.StoredFilters: a session value that is not an array is read as no filters.
- HierarchyLinks.Overridden: a search form value that is not an array is read as having no fields.
- HierarchyLinks.ForeachFails: the early end on a scalar `hierarchy_filter` follows Yii's error handler, which rethrows the "Invalid argument supplied for foreach()" warning as an exception; the handler itself and the error response are not part of this model.
- The hierarchy parameter names (`grid_hierarchy_get_param`, the reset parameter and the session key) are fixed to their defaults.
- A subclass that sets `$hierarchy_links` to null in RadHierarchyLinkController or AjaxCrudHierarchyLinkController is not modelled: the property defaults to []. HierarchyLinkTrait, whose host may leave it unset, models that case.
- HierarchyLinks.RecordStep: a current record's parent is read as `$current_model->{$link['linked_model']}`. PHP 7 reads `$current_model->$filter_model['linked_model']` in AjaxCrudHierarchyLinkController and HierarchyLinkTrait differently. Every caller in these files passes no current record.
- RadCrud.RadCrudController.BulkUpdate: each pk goes through an explicit `(int)`, which raises nothing, so no pk ends this loop early; the early end of `actionBulkDelete` comes from its passing the raw pk to `findModel(int $id)`.
- BaseAjaxCrud.BaseAjaxCrudController.ActionBulkDelete: which exceptions are `yii\base\Exception` is a function parameter.
- BaseAjaxCrud.BulkDeleteFrom: a deleted record is remembered by the text of its pk, so "1" and "01" are looked up independently; how `findOne` reads a key text is a function parameter.
- RadCrud.BulkDeleteFrom and RadCrud.BulkUpdateFrom: the database is seen through `find` plus the records the run itself deleted or saved; changes made by other requests during the loop are not modelled.

## Findings

| source | as written | input that shows it | evidently intended | confidence | as-written member | corrected member |
|---|---|---|---|---|---|---|
| helpers/Url.php:49-58 | `str_replace` replaces the query text wherever it occurs in the URL, the path included | "/a?a" merged with x=1 gives "/a=&x=1?a=&x=1" | only the query component is replaced: "/a?a=&x=1" | high; not executed | UrlHelperExamples.AsWrittenReplacesInPath | UrlHelper.UrlQueryMerge |
| helpers/Url.php:41-43 | a URL without a query gets `?` + query appended at the very end, after any fragment | "/p#top" merged with x=1 gives "/p#top?x=1", whose query is empty and whose fragment holds the parameters | the query goes before the fragment: "/p?x=1#top" | medium; not executed | UrlHelper.AsWrittenDiffersWithFragment | UrlHelper.MergeSemantics |
| RadCrudController.php:498-529 | once `deleteModel` has run, `$this->model` is still set, so every found record without validation errors gets an error entry, "reason unknown" after a successful delete, and is counted even when `delete()` failed or threw | pks "1" where record 1 is deleted: the response reports "Cannot delete …: reason unknown" and One deleted; a record whose delete throws is also counted | an error only when the delete failed, and a count of the records actually deleted | high; not executed | RadCrud.BulkDeleteAsWrittenCounterexample | RadCrud.IntendedDeleteErrors |
| RadCrudController.php:1027-1031 | the route array handed to `redirect` is `[route, merged]`, so the merged parameters are element 1 of the array instead of its name-value pairs | `return_url` ['view'] after saving record 5: the array ['view', ['id' => '5']] has no `id` pair, and Yii builds the query from the pair `1` | the route followed by the merged pairs, ['view', 'id' => '5'] | medium; not executed | RadCrudRules.RouteIdNestedAsWritten | RadCrudRules.RouteIdIntended |
| RadHierarchyLinkController.php:109-119 | the guard `! is_null($v) \|\| $v !== ''` holds for every value, so the unset branch never runs (also AjaxCrudHierarchyLinkController.php:101 and HierarchyLinkTrait.php:73) | `hierarchy_filter[f]=` stores '' as an active filter for f | an empty value unsets the filter, as the branch's comment says | high; not executed | HierarchyLinks.EmptyFilterKeptAsWritten | HierarchyLinks.IntendedStepGet |
