# Rijksmuseum Explorer — a Dafny model of the data core

This project models the three non-UI components of the Rijksmuseum Explorer
Streamlit app and proves what they promise.

- **The Rijksmuseum Data Services adapter** (`rijks_api.py`), in
  `rijks_api.dfy`:
  - the content-negotiation URLs of a persistent identifier;
  - the field-by-field fallback of the Search API id lookup;
  - the mapping of a Linked Art record to the nine-key legacy artwork dict;
  - `extract_year` and `get_best_image_url`;
  - the parameter normalisation, local sort and 1-based slice of
    `search_artworks`.

  HTTP is a parameter:
  - `answer(field, query)` is the Search API's response for one field;
  - `fetch(pid)` is the resolver's record, or `None` when `_fetch_object_json`
    raised `RijksAPIError`.
- **The offline collection backend** (`local_collection.py`), in
  `local_collection.dfy`. It is a pipeline:
  - the shape filter of `load_collection`;
  - filtering by `_matches_query` and `_matches_object_type`;
  - a stable sort by `_sort_key`;
  - 1-based pagination with clamps.

  The file read is a parameter: missing, unreadable, or a decoded document.
- **Session analytics** (`analytics.py`), in `analytics.dfy`. A `Session`
  class holds:
  - the event list and the once-key set of the session state, each `None`
    until `_ensure_state` creates it;
  - the lines written to the JSONL log.

  The timestamp is a parameter. Whether the file append succeeds is also a
  parameter, and it affects only the log.

Python's semantics that the code relies on are written out in small supporting
modules:

- `json.dfy`: a tagged JSON value; truthiness and `a or b`; `dict.get`;
  `str()` of a JSON value.
- `text.dfy`: `str.strip` with Python's whitespace set; ASCII `lower` and
  `isdigit`; `int()` of digits; `in` on strings; `str.join`.
- `ordering.dfy`: tuple keys compared lexicographically. `list.sort` is a
  stable insertion sort, proved sorted, a permutation and stable. It is also
  proved to be the only sort with those three properties.
- `paging.dfy`: Python slicing, including negative bounds, and 1-based pages.
- `wrappers.dfy`: `Option` and `Result`, which stand for the exceptions the
  code raises.

Behaviours of the code that a reader might not expect, each modelled as
written:

- Under `achronologic`, a record without a year sorts FIRST
  (rijks_api.py:430 and :439): its year defaults to `10**9`, and the key
  negates it to `-(10**9)`.
- A non-success Search API status raises `RijksAPIError` (rijks_api.py:144-147).
  Nothing in `search_artworks` catches it, so the whole search fails with
  `Err(ApiError(field))`.
- `search_artworks` accepts `object_type` and never uses it
  (rijks_api.py:361-367 and :391-397). This is proved as
  `SearchIgnoresObjectType`.
- For `page_size >= 0`, `_search_ids` keeps at most `page_size` ids
  (rijks_api.py:150-152; a negative `page_size` drops items from the end, as
  Python slicing does), and
  `search_artworks` then slices the page out of those (rijks_api.py:448-450).
  Every page after the first is therefore empty. This is proved as
  `RijksApi.SearchPaging`.
- The local `year_asc` and `year_desc` keys use `year or 10**9` and
  `-(year or -10**9)` (local_collection.py:160-164). A year of 0 is falsy,
  so under either mode its records come after every other dated record,
  though still before the undated ones. This is proved as
  `LocalCollection.YearAscOrder` and `LocalCollection.YearDescOrder`.
- Neither search clamps the page from above (rijks_api.py:396,
  local_collection.py:197-198). A page past the last is empty.
- The mapper raises `AttributeError` on a JSON value that is not a dict.
  `search_artworks` catches every mapping exception and drops the record
  (rijks_api.py:420-424).

## Model

| member | source | states |
|---|---|---|
| RijksApi.BaseOf | rijks_api.py:108 | the base is the longest '?'-free prefix of the PID, followed in the PID by '?' or by nothing |
| RijksApi.RepresentationsIdempotent | rijks_api.py:104-112 | building the representations of either output URL gives back the same pair; a PID without '?' is kept whole before each fixed query string |
| RijksApi.StringIdsSpec | rijks_api.py:151-156 | when no item raises, an id is returned exactly when some item's "id" is that str; never more ids than items; every item was a dict |
| RijksApi.StringIdsStopsAt | rijks_api.py:152-153 | an item that is not a dict makes `item.get` raise, whatever follows it |
| RijksApi.FieldIdsOf | rijks_api.py:141-156 | the loop of `_do(field)`: a non-success status is an API error, a body of the wrong shape a malformed-body error, else the str ids among the first page_size items of "orderedItems", else "items" |
| RijksApi.SearchIdsFallback | rijks_api.py:158-163 | the result is [] exactly when every field answers no ids; otherwise it is the answer (ids or error) of the first field that did not answer [], every earlier field having answered [] |
| RijksApi.FieldIdsBound | rijks_api.py:152 | one field never yields more than page_size ids |
| RijksApi.SearchIdsBound | rijks_api.py:158-163 | `_search_ids` returns at most page_size ids |
| RijksApi.SearchIds | rijks_api.py:130-163 | the loop over creator, title, description returns what the fallback specification says |
| RijksApi.FirstContentSpec | rijks_api.py:221-229 | the first-name scan answers None exactly when no entry is a dict with non-blank str content, else the stripped content of the first such entry |
| RijksApi.FirstContentOf | rijks_api.py:221-229 | the `identified_by` loop with `continue` and `break` computes the first name |
| RijksApi.MakerStep | rijks_api.py:234-254 | the maker block computes the first agent's first name, or "Unknown artist" |
| RijksApi.DateStep | rijks_api.py:259-277 | the loop over (begin_of_the_begin, end_of_the_end) sets year and presentingDate together, from the first boundary whose first four characters are digits |
| RijksApi.MapLinkedArtToLegacy | rijks_api.py:195-319 | the mapper as written, step by step, answers None for a non-dict (raw.get raises) and the legacy record for every dict |
| RijksApi.LegacyFields | rijks_api.py:309-319 | each of objectNumber, title, principalOrFirstMaker, dating and webImage is found in the record as built |
| RijksApi.MapperShape | rijks_api.py:286-319 | every dict maps to exactly the nine legacy keys in order; materials, techniques and productionPlaces are [], links and webImage are {} |
| RijksApi.ObjectNumberFallback | rijks_api.py:212 | objectNumber is "@id" when truthy, else "id" when truthy, else "unknown-id", and is never falsy |
| RijksApi.NameOrDefault | rijks_api.py:217-254 | a first name or a default is never blank and has no surrounding whitespace; it is the default when no entry names anything, and otherwise the stripped content of the first naming entry |
| RijksApi.TitleIsFirstName | rijks_api.py:217-229 | the title is the stripped content of the first naming `identified_by` entry whenever there is one, and "Untitled" when there is none; never blank, no surrounding whitespace |
| RijksApi.MakerNeverEmpty | rijks_api.py:234-254 | principalOrFirstMaker is never blank; when produced_by is a dict whose carried_out_by list starts with a dict agent, it is the stripped content of the agent's first naming entry, or "Unknown artist" when none names; in every other case it is "Unknown artist" |
| RijksApi.FirstDateSpec | rijks_api.py:267-277 | a date is found iff some boundary is a str of length >= 4 starting with four digits; the year lies in 0..9999 and is the value of the first ten characters' four leading digits, taken from the first such boundary |
| RijksApi.DatingSpec | rijks_api.py:259-281 | dating.year is non-null iff a boundary carries a year, and then lies in 0..9999; presentingDate is present iff the year is, is the first ten characters of the FIRST year-like boundary (begin before end), and begins with the year's four digits |
| RijksApi.MissingFieldsGiveDefaults | rijks_api.py:195-319 | a dict without "@id", "id", "identified_by" and "produced_by" maps to "unknown-id", "Untitled", "Unknown artist", no year and no image URL |
| RijksApi.ExtractYear | rijks_api.py:325-340 | None for a non-dict; an int year as is; otherwise a str presentingDate whose first (up to four) characters are digits gives exactly their value, in 0..9999, and any other dating gives None |
| RijksApi.ExtractYearOfMapped | rijks_api.py:279-281 | extract_year reads back exactly the year the mapper stored |
| RijksApi.ExtractYearExamples | rijks_api.py:325-340 | {"year": 1642} gives 1642; {} and presentingDate "" give None |
| RijksApi.ExtractYearDateExample | rijks_api.py:334-337 | presentingDate "1650-03-01" gives 1650 |
| RijksApi.ExtractYearShortDateExample | rijks_api.py:334-337 | presentingDate "12" gives 12 |
| RijksApi.GetBestImageUrl | rijks_api.py:343-358 | returns u exactly when webImage is a dict whose "url" is the str u with non-whitespace text; u is returned unstripped |
| RijksApi.NormalizeParams | rijks_api.py:391-397 | page is max(page, 1); page_size is min(page_size, 100); the query is empty exactly when it was blank; an empty sort becomes "relevance", any other is lower-cased character by character; object_type is kept |
| RijksApi.FetchRecords | rijks_api.py:408-416 | the fetch loop keeps every fetched record in id order and skips the failed ones |
| RijksApi.MapRecords | rijks_api.py:419-424 | the mapping loop keeps every mapped record in order and skips the ones whose mapping raised |
| RijksApi.SearchArtworks | rijks_api.py:361-453 | search_artworks as written returns the normalise, search, fetch, map, sort, count and slice specification, or the search error it raises |
| RijksApi.SortArtworksSpec | rijks_api.py:426-443 | the local sort is a permutation of the mapped records, ordered by the mode's key, and records with equal keys keep their order |
| RijksApi.ChronologicOrder | rijks_api.py:430-437 | under chronologic, the sort years ascend; a missing or 0 year counts as 10**9 and its records come after all dated ones |
| RijksApi.AchronologicOrder | rijks_api.py:430-439 | under achronologic, the sort years descend, and the records without a year come first |
| RijksApi.OtherModesSortByArtist | rijks_api.py:432-441 | relevance and every unknown mode sort exactly as artist does |
| RijksApi.MappedYearsBounded | rijks_api.py:273-277 | every mapped record is undated or sorts by a year in 1..9999 |
| RijksApi.SearchBlankQuery | rijks_api.py:399-400 | a blank query returns ([], 0) |
| RijksApi.SearchIgnoresObjectType | rijks_api.py:391-397 | the object type has no effect on the result |
| RijksApi.SearchPaging | rijks_api.py:443-450 | with page_size >= 1, total is the number of mapped records, at most min(page_size, 100); page 1 is a permutation of them, and every later page is empty |
| RijksApi.SearchChronologic | rijks_api.py:426-450 | a chronologic search returns its page in ascending year order, with the undated records last |
| RijksApi.PageKeepsYearOrder | rijks_api.py:447-450 | a slice of a year-ordered list is year-ordered |
| LocalCollection.DictsSpec | local_collection.py:62-64 | the comprehension is the subsequence of the dict positions: every dict, in order, as often as it occurs, and nothing else; the whole list when all are dicts |
| LocalCollection.LoadCollectionSpec | local_collection.py:55-74 | a list gives the subsequence of its dicts and a dict that of its dict values, in order; anything else, a missing file or an unreadable file gives [] |
| LocalCollection.NormalizeText | local_collection.py:77-80 | a str is lower-cased character by character; anything else gives "" |
| LocalCollection.GetYear | local_collection.py:83-96 | raises exactly when dating is truthy and not a dict; an int year is returned as is; otherwise a str presentingDate whose first (up to four) characters are digits gives exactly their value, in 0..9999, and anything else gives None |
| LocalCollection.GetYearAgreesWithExtractYear | local_collection.py:83-96 | wherever _get_year does not raise, it answers what extract_year answers on the same dating |
| LocalCollection.MatchesQuery | local_collection.py:99-124 | returns true for a blank query, else whether the normalised query occurs in the " \| "-joined fields |
| LocalCollection.CollectFields | local_collection.py:113-121 | the fields list is built in the source's order: the three text fields, then every list element |
| LocalCollection.CollectTextFields | local_collection.py:115-116 | one normalised text per title, longTitle, principalOrFirstMaker |
| LocalCollection.CollectListFields | local_collection.py:118-121 | the normalised elements of materials, techniques, productionPlaces and objectTypes, when each is a list |
| LocalCollection.ExtendNormalized | local_collection.py:121 | `fields.extend(...)` appends one normalised text per value, in order |
| LocalCollection.QueryFieldsStart | local_collection.py:115-116 | the searched fields always start with the normalised title, long title and maker |
| LocalCollection.BlankQueryMatches | local_collection.py:109-111 | a blank or whitespace-only query matches every record |
| LocalCollection.FieldContainingQueryMatches | local_collection.py:123-124 | a record one of whose fields (in particular its title) contains the query matches it |
| LocalCollection.PlainQueryMatchesWithinField | local_collection.py:109-124 | for a query without ' ' or '\|', matching holds iff the query is blank or some single field contains it |
| LocalCollection.PipeQueryMatchesEverything | local_collection.py:123-124 | the query "\|" matches every record through the separator |
| LocalCollection.ObjectTypeCases | local_collection.py:127-137 | None or "" matches everything; a non-list objectTypes never matches a type; a whitespace-only type matches exactly the non-empty lists |
| LocalCollection.SortModeCases | local_collection.py:151-167 | the sort name is case-insensitive and defaults to relevance; relevance and unknown names key as artist |
| LocalCollection.KeyAll | local_collection.py:192 | computing every key fails exactly when some record's key raises; otherwise each record gets its own key |
| LocalCollection.SortCollectionSpec | local_collection.py:192 | the in-place sort fails exactly when some key raises, and otherwise is a permutation |
| LocalCollection.SortCollectionOrdered | local_collection.py:192 | the sorted records ascend by _sort_key |
| LocalCollection.SortedKeysAreKeys | local_collection.py:192 | every sorted entry carries its own record's key |
| LocalCollection.SortCollectionStable | local_collection.py:192 | the records sharing a key keep their collection order |
| LocalCollection.YearAscKey | local_collection.py:160-162 | the year_asc key is (year is None, year or 10**9) |
| LocalCollection.YearDescKey | local_collection.py:163-164 | the year_desc key is (year is None, -(year or -10**9)) |
| LocalCollection.YearAscPair | local_collection.py:160-162 | of two records in year_asc key order, an undated one is followed only by undated ones, and `year or 10**9` ascends: a year of 0 counts as 10**9, so its records come after every other dated record |
| LocalCollection.YearDescPair | local_collection.py:163-164 | of two records in year_desc key order, an undated one is followed only by undated ones, and `year or -10**9` descends among dated records: a year of 0 counts as -10**9, so its records come after every other dated record |
| LocalCollection.YearAscOrder | local_collection.py:160-162 | under year_asc, every undated record comes after every dated one, and `year or 10**9` ascends: a year of 0 counts as 10**9, so its records come after every other dated record |
| LocalCollection.YearDescOrder | local_collection.py:163-164 | under year_desc, every undated record comes after every dated one, and `year or -10**9` descends among dated records: a year of 0 counts as -10**9, so its records come after every other dated record |
| LocalCollection.FilterBySpec | local_collection.py:185-189 | a comprehension with a test is the subsequence of the passing positions: each passing element in order and as often as it occurs, no failing one |
| LocalCollection.FilterBySnoc | local_collection.py:185-189 | one more element is kept at the end exactly when it passes |
| LocalCollection.FilterSpec | local_collection.py:185-189 | the filter is the subsequence of the records matching the query and the object type, in collection order and with their repetitions |
| LocalCollection.FilterCollection | local_collection.py:185-189 | the filtering loop computes that filter |
| LocalCollection.SearchCollection | local_collection.py:170-206 | search_collection as written returns the filter, sort, count, clamp and slice specification, or the sort's error |
| LocalCollection.SearchReturnsMatches | local_collection.py:182-194 | every returned record is a dict of the collection matching both predicates, and total counts all matches before slicing |
| LocalCollection.SearchPaging | local_collection.py:196-204 | page < 1 counts as 1 and page_size <= 0 as 12; at most that many records come back; pages 1..ceil(total/ps) concatenate to the sorted matches; later pages are empty; the others are not |
| Text.Strip | local_collection.py:109 | str.strip: no surrounding whitespace, and empty exactly when the input is blank |
| Text.StripRemovesSurroundingSpace | local_collection.py:109 | str.strip removes exactly the surrounding whitespace: the result is the stretch between a blank prefix and a blank suffix, with non-space ends |
| Text.JoinContainsIff | local_collection.py:123-124 | a needle sharing no character with the separator occurs in the join iff it occurs in one part |
| Ordering.SortByKeyIsTheStableSort | local_collection.py:192 | the insertion sort is the only sequence that is a sorted, stable permutation, which is what list.sort promises |
| Ordering.SortStable | rijks_api.py:443 | sorting keeps the order of equal-key entries |
| Paging.PagesPartition | local_collection.py:202-204 | the pages 1..ceil(n/size) concatenate to the whole list |
| Paging.PageBeyondLast | local_collection.py:202-204 | a page after the last is empty |
| Paging.PageWithinRangeNonEmpty | local_collection.py:202-204 | every page from the first to the last is non-empty |
| Analytics.Ensured | analytics.py:35-38 | setdefault creates an absent entry as [] or {} and keeps a present one |
| Analytics.MakePayload | analytics.py:69-74 | the payload carries the timestamp, and props or {} when props are falsy |
| Analytics.EnsureStateIdempotent | analytics.py:35-38 | a second _ensure_state changes nothing, and the contents are unchanged |
| Analytics.TrackAppendsOne | analytics.py:67-77 | track_event appends exactly one payload at the end, with str(event) and str(page), and leaves the keys unchanged |
| Analytics.TrackOnceKnownKey | analytics.py:97-98 | a known key adds no event and no key |
| Analytics.TrackOnceNewKey | analytics.py:100-101 | a new key is added and exactly one event is appended |
| Analytics.TrackOnceIdempotent | analytics.py:83-101 | a second call with the same key, whatever its other arguments, leaves the state the first call left |
| Analytics.NothingIsForgotten | analytics.py:54-101 | neither operation removes a key or an event; track_event_once adds at most one event |
| Analytics.RunOnceOneEventPerKey | analytics.py:83-101 | over any run of calls, the keys become the old ones plus the run's, old events stay a prefix, and exactly one event is added per new key |
| Analytics.Session.EnsureState | analytics.py:35-38 | the session state becomes the setdefault result; the log is untouched |
| Analytics.Session.AppendToFile | analytics.py:41-51 | a successful append adds the line; a failed one is swallowed; the session state is never touched |
| Analytics.Session.TrackEvent | analytics.py:54-80 | the state becomes the track_event state; the log gains the payload only when the append succeeds |
| Analytics.Session.TrackEventOnce | analytics.py:83-101 | the state becomes the track_event_once state; the log gains the payload only for a new key and a successful append |

## Left out

- HTTP is not modelled: `_get_session`, `resolve_objectnumber_to_pid`, `_fetch_object_json` and the requests made by `_search_ids` and `search_artworks`. Search answers and fetched records are parameters. Lines 96-102 of `rijks_api.py` are unreachable and are not modelled.
- The `print` warnings of `search_artworks` are not modelled. A fetch that raised `RijksAPIError` and a mapping that raised are modelled only as dropped records.
- Transport exceptions of `requests` (a timeout or a refused connection in `session.get`, rijks_api.py:143 and :179) are not modelled. They propagate out of `search_artworks` and abort the whole search. A search body that is not JSON (`resp.json()`, rijks_api.py:149) is modelled: it is the `Undecodable` response, which aborts the search with `Err(Malformed(field))`.
- Neither the reading of the collection file nor the `lru_cache` of `load_collection` is modelled. The read's outcome is a parameter.
- `ui_theme.py`, `app_paths.py`, `debug_rijks_new_api.py` and the Streamlit pages are not part of this model.
- `_utc_now_iso` is not modelled: the timestamp is a parameter. `json.dumps` and the file write of `_append_to_file` are reduced to a success flag and a list of logged payloads.
- Python's `bool` is a subclass of `int`, but JSON booleans are kept apart here. A boolean "year" counts as no year in `ExtractYear` and `GetYear`, and a boolean sort year is never produced.
- `str.isdigit` and `str.lower` are ASCII-only here. Python also accepts non-ASCII digits and lower-cases non-ASCII letters.
- JSON floats are not modelled. A float "year" or "id" would take the non-int, non-str paths.
- Sort keys of mixed types are given a fixed order (bool < int < str) instead of Python's `TypeError`. The keys of both sorts never mix types at one position.
- `Json.PyStr` renders `str()` of nested values without Python's quote escaping.
- Dict keys are assumed distinct. A lookup finds the first entry with the key.
- RijksApi.BuildRepresentations: has no contract of its own. Its properties are stated in `RepresentationsIdempotent`, and `BaseOf` carries the split.
- RijksApi.SearchPaging: proved for `page_size >= 1` only. A zero or negative page size follows Python's slicing, which `Paging.PySlice` models, but no property is stated for it.
