/** The Rijksmuseum Data Services adapter: content-negotiation URLs for a
    persistent identifier (PID), the search for candidate PIDs field by
    field, the mapping of a Linked Art record to the legacy artwork dict the
    app renders, the two public helpers on such dicts, and the local sort
    and 1-based pagination of search_artworks.

    HTTP is not modelled: the answer of the Search API for a field and a
    query, and the record the resolver returns for a PID, are parameters. */
module RijksApi {
  import opened Text
  import opened Json
  import opened Wrappers
  import opened Ordering
  import opened Paging

  const MAX_RESULTS_PER_SEARCH := 100
  /** The Search API fields tried in order by _search_ids. */
  const SEARCH_FIELDS: seq<string> := ["creator", "title", "description"]
  const SCHEMA_QUERY := "?_profile=schema&_mediatype=application/json"
  const LINKED_ART_QUERY := "?_profile=la&_mediatype=application/ld+json"
  const UNTITLED := "Untitled"
  const UNKNOWN_ARTIST := "Unknown artist"
  const UNKNOWN_ID := "unknown-id"
  /** Sort position of a record without a year: 10**9. */
  const NO_YEAR := 1_000_000_000
  /** The nine keys of a legacy artwork dict, in the order they are built. */
  const LEGACY_KEYS: seq<string> :=
    ["objectNumber", "title", "principalOrFirstMaker", "dating", "materials",
     "techniques", "productionPlaces", "links", "webImage"]

  // -------------------------------------------------------------------
  // build_representations
  // -------------------------------------------------------------------

  /** pid.split("?")[0]: the text of pid before its first '?'. */
  function BaseOf(pid: string): (base: string)
    ensures |base| <= |pid| && base == pid[..|base|]
    ensures forall i :: 0 <= i < |base| ==> base[i] != '?'
    ensures |base| < |pid| ==> pid[|base|] == '?'
  {
    if pid == [] || pid[0] == '?' then [] else [pid[0]] + BaseOf(pid[1..])
  }

  datatype Representations = Representations(schemaJson: string, linkedArtJsonLd: string)

  /** The schema.org JSON and Linked Art JSON-LD URLs of a PID. */
  function BuildRepresentations(pidUrl: string): Representations {
    var base := BaseOf(pidUrl);
    Representations(base + SCHEMA_QUERY, base + LINKED_ART_QUERY)
  }

  /** The base of a '?'-free text followed by a query string is that text. */
  lemma {:induction false} BaseOfBeforeQuery(base: string, query: string)
    requires forall i :: 0 <= i < |base| ==> base[i] != '?'
    requires query != [] && query[0] == '?'
    ensures BaseOf(base + query) == base
  {
    if base != [] {
      assert (base + query)[1..] == base[1..] + query;
      BaseOfBeforeQuery(base[1..], query);
    }
  }

  /** Building the representations of either output URL gives back the same
      pair, and a PID without a query string is kept whole. */
  lemma RepresentationsIdempotent(pidUrl: string)
    ensures BuildRepresentations(BuildRepresentations(pidUrl).schemaJson) == BuildRepresentations(pidUrl)
    ensures BuildRepresentations(BuildRepresentations(pidUrl).linkedArtJsonLd) == BuildRepresentations(pidUrl)
    ensures (forall i :: 0 <= i < |pidUrl| ==> pidUrl[i] != '?') ==>
              BuildRepresentations(pidUrl) == Representations(pidUrl + SCHEMA_QUERY, pidUrl + LINKED_ART_QUERY)
  {
    var base := BaseOf(pidUrl);
    BaseOfBeforeQuery(base, SCHEMA_QUERY);
    BaseOfBeforeQuery(base, LINKED_ART_QUERY);
    if forall i :: 0 <= i < |pidUrl| ==> pidUrl[i] != '?' {
      BaseOfBeforeQuery(pidUrl, "?");
      assert pidUrl + "?" == pidUrl + "?";
      assert BaseOf(pidUrl) == pidUrl;
    }
  }

  // -------------------------------------------------------------------
  // _search_ids
  // -------------------------------------------------------------------

  /** The Search API's answer to one GET: a non-success status, a body that
      is not JSON, or a decoded JSON body. */
  datatype FieldResponse = NotOk(status: int) | Undecodable | Body(data: Json)

  /** Why a search raised: a RijksAPIError for a non-success status, or a
      Python error on a body of an unexpected shape. Neither is caught. */
  datatype SearchError = ApiError(field: string) | Malformed(field: string)

  /** The ids of a list of search items: the "id" of every item whose id is
      a str, in order. None when some item is not a dict (item.get raises). */
  function StringIds(items: seq<Json>): Option<seq<string>> {
    if items == [] then Some([])
    else
      var last := items[|items| - 1];
      match StringIds(items[..|items| - 1])
      case None => None
      case Some(ids) =>
        if !last.Obj? then None
        else if Get(last, "id").Str? then Some(ids + [Get(last, "id").s])
        else Some(ids)
  }

  /** An id belongs to the result exactly when some item carries it, and
      there are never more ids than items. */
  lemma {:induction false} StringIdsSpec(items: seq<Json>, s: string)
    requires StringIds(items).Some?
    ensures |StringIds(items).value| <= |items|
    ensures s in StringIds(items).value <==> exists j :: 0 <= j < |items| && Get(items[j], "id") == Str(s)
    ensures forall j :: 0 <= j < |items| ==> items[j].Obj?
  {
    if items != [] {
      var init := items[..|items| - 1];
      StringIdsSpec(init, s);
      assert forall j :: 0 <= j < |init| ==> init[j] == items[j];
      if exists j :: 0 <= j < |items| && Get(items[j], "id") == Str(s) {
        var j :| 0 <= j < |items| && Get(items[j], "id") == Str(s);
        if j < |init| { assert Get(init[j], "id") == Str(s); }
      }
    }
  }

  /** Once an item is not a dict, every longer list raises as well. */
  lemma {:induction false} StringIdsStopsAt(items: seq<Json>, i: nat)
    requires i < |items| && !items[i].Obj?
    ensures StringIds(items) == None
    decreases |items|
  {
    var init := items[..|items| - 1];
    if i < |items| - 1 {
      assert init[i] == items[i];
      StringIdsStopsAt(init, i);
    }
  }

  /** One search call `_do(field)`: the string ids among the first
      `pageSize` items of "orderedItems" (else "items", else none). */
  function FieldIds(field: string, resp: FieldResponse, pageSize: int): Result<seq<string>, SearchError> {
    match resp
    case NotOk(_) => Err(ApiError(field))
    case Undecodable => Err(Malformed(field))
    case Body(data) =>
      if !data.Obj? then Err(Malformed(field))
      else
        var items := Or(Or(Get(data, "orderedItems"), Get(data, "items")), Arr([]));
        match items
        case Arr(xs) =>
          (match StringIds(PySlice(xs, 0, pageSize))
           case Some(ids) => Ok(ids)
           case None => Err(Malformed(field)))
        // a str is sliced into characters, and a character has no .get
        case Str(s) => if PySlice(s, 0, pageSize) == [] then Ok([]) else Err(Malformed(field))
        // a dict, int or bool cannot be sliced
        case _ => Err(Malformed(field))
  }

  /** The fields from index f on, tried in order: the first non-empty id list
      wins, an error stops the search, and no ids at all gives []. */
  function SearchIdsFrom(answer: (string, string) -> FieldResponse, query: string, pageSize: int, f: nat): Result<seq<string>, SearchError>
    decreases |SEARCH_FIELDS| - f
  {
    if f >= |SEARCH_FIELDS| then Ok([])
    else
      var field := SEARCH_FIELDS[f];
      match FieldIds(field, answer(field, query), pageSize)
      case Err(e) => Err(e)
      case Ok(ids) => if ids != [] then Ok(ids) else SearchIdsFrom(answer, query, pageSize, f + 1)
  }

  /** What _search_ids returns, or the error it raises. */
  function SearchIdsSpec(answer: (string, string) -> FieldResponse, query: string, pageSize: int): Result<seq<string>, SearchError> {
    SearchIdsFrom(answer, query, pageSize, 0)
  }

  /** The answer of field f for the query. */
  function FieldAnswer(answer: (string, string) -> FieldResponse, query: string, pageSize: int, f: nat): Result<seq<string>, SearchError>
    requires f < |SEARCH_FIELDS|
  {
    FieldIds(SEARCH_FIELDS[f], answer(SEARCH_FIELDS[f], query), pageSize)
  }

  /** The field fallback of _search_ids: the result is the first field's
      non-empty id list, or the first field's error, every earlier field
      having answered with no ids; it is [] exactly when all three fields
      answered with no ids. With a non-negative page size it holds at most
      page-size ids. */
  lemma {:induction false} SearchIdsFallback(answer: (string, string) -> FieldResponse, query: string, pageSize: int, f: nat)
    requires f <= |SEARCH_FIELDS|
    ensures var r := SearchIdsFrom(answer, query, pageSize, f);
            (r == Ok([]) <==> forall g :: f <= g < |SEARCH_FIELDS| ==> FieldAnswer(answer, query, pageSize, g) == Ok([]))
            && (r != Ok([]) ==>
                 exists g :: f <= g < |SEARCH_FIELDS| && FieldAnswer(answer, query, pageSize, g) == r
                   && forall h :: f <= h < g ==> FieldAnswer(answer, query, pageSize, h) == Ok([]))
    decreases |SEARCH_FIELDS| - f
  {
    if f < |SEARCH_FIELDS| {
      SearchIdsFallback(answer, query, pageSize, f + 1);
      var here := FieldAnswer(answer, query, pageSize, f);
      var r := SearchIdsFrom(answer, query, pageSize, f);
      if here == Ok([]) {
        assert r == SearchIdsFrom(answer, query, pageSize, f + 1);
        if r != Ok([]) {
          var g :| f + 1 <= g < |SEARCH_FIELDS| && FieldAnswer(answer, query, pageSize, g) == r
                   && forall h :: f + 1 <= h < g ==> FieldAnswer(answer, query, pageSize, h) == Ok([]);
          assert forall h :: f <= h < g ==> FieldAnswer(answer, query, pageSize, h) == Ok([]);
        }
      } else {
        assert r == here;
      }
    }
  }

  /** A field never yields more ids than the page size asks for. */
  lemma FieldIdsBound(field: string, resp: FieldResponse, pageSize: int)
    requires pageSize >= 0 && FieldIds(field, resp, pageSize).Ok?
    ensures |FieldIds(field, resp, pageSize).value| <= pageSize
  {
    var data := resp.data;
    var items := Or(Or(Get(data, "orderedItems"), Get(data, "items")), Arr([]));
    if items.Arr? {
      var w := PySlice(items.items, 0, pageSize);
      StringIdsSpec(w, "");
    }
  }

  /** The ids _search_ids returns are at most page-size many. */
  lemma {:induction false} SearchIdsBound(answer: (string, string) -> FieldResponse, query: string, pageSize: int, f: nat)
    requires pageSize >= 0 && SearchIdsFrom(answer, query, pageSize, f).Ok?
    ensures |SearchIdsFrom(answer, query, pageSize, f).value| <= pageSize
    decreases |SEARCH_FIELDS| - f
  {
    if f < |SEARCH_FIELDS| {
      var field := SEARCH_FIELDS[f];
      var here := FieldIds(field, answer(field, query), pageSize);
      if here.Ok? {
        FieldIdsBound(field, answer(field, query), pageSize);
        if here.value == [] {
          SearchIdsBound(answer, query, pageSize, f + 1);
        }
      }
    }
  }

  /** `_do(field)`: one Search API answer turned into ids. */
  method FieldIdsOf(field: string, resp: FieldResponse, pageSize: int) returns (r: Result<seq<string>, SearchError>)
    ensures r == FieldIds(field, resp, pageSize)
  {
    match resp {
      case NotOk(_) =>
        return Err(ApiError(field));
      case Undecodable =>
        return Err(Malformed(field));
      case Body(data) =>
        if !data.Obj? {
          return Err(Malformed(field));
        }
        var items := Or(Or(Get(data, "orderedItems"), Get(data, "items")), Arr([]));
        if items.Str? {
          return if PySlice(items.s, 0, pageSize) == [] then Ok([]) else Err(Malformed(field));
        }
        if !items.Arr? {
          return Err(Malformed(field));
        }
        var window := PySlice(items.items, 0, pageSize);
        var ids: seq<string> := [];
        var i := 0;
        while i < |window|
          invariant 0 <= i <= |window|
          invariant StringIds(window[..i]) == Some(ids)
        {
          var item := window[i];
          if !item.Obj? {
            StringIdsStopsAt(window, i);
            return Err(Malformed(field));
          }
          var pid := Get(item, "id");
          if pid.Str? {
            ids := ids + [pid.s];
          }
          assert window[..i + 1][..i] == window[..i];
          i := i + 1;
        }
        assert window[..i] == window;
        return Ok(ids);
    }
  }

  /** _search_ids: the fields creator, title, description in turn. */
  method SearchIds(answer: (string, string) -> FieldResponse, query: string, pageSize: int) returns (r: Result<seq<string>, SearchError>)
    ensures r == SearchIdsSpec(answer, query, pageSize)
  {
    var f := 0;
    while f < |SEARCH_FIELDS|
      invariant 0 <= f <= |SEARCH_FIELDS|
      invariant SearchIdsFrom(answer, query, pageSize, f) == SearchIdsSpec(answer, query, pageSize)
    {
      var field := SEARCH_FIELDS[f];
      var ids := FieldIdsOf(field, answer(field, query), pageSize);
      if ids.Err? {
        return Err(ids.error);
      }
      if ids.value != [] {
        return ids;
      }
      f := f + 1;
    }
    return Ok([]);
  }

  // -------------------------------------------------------------------
  // _map_linked_art_to_legacy_dict
  // -------------------------------------------------------------------

  /** An "identified_by" entry that names something: a dict whose
      "content" is a str with non-whitespace text. */
  predicate Names(ident: Json) {
    ident.Obj? && Get(ident, "content").Str? && !Blank(Get(ident, "content").s)
  }

  /** The stripped content of the first entry that names something. */
  function FirstContent(idents: seq<Json>): Option<string> {
    if idents == [] then None
    else if Names(idents[0]) then Some(Strip(Get(idents[0], "content").s))
    else FirstContent(idents[1..])
  }

  /** FirstContent finds the first naming entry: it answers its stripped
      content, and it answers None exactly when no entry names anything. */
  lemma {:induction false} FirstContentSpec(idents: seq<Json>)
    ensures FirstContent(idents) == None <==> forall i :: 0 <= i < |idents| ==> !Names(idents[i])
    ensures FirstContent(idents).Some? ==>
              exists i :: 0 <= i < |idents| && Names(idents[i])
                && (forall j :: 0 <= j < i ==> !Names(idents[j]))
                && FirstContent(idents).value == Strip(Get(idents[i], "content").s)
  {
    if idents != [] {
      var rest := idents[1..];
      FirstContentSpec(rest);
      if !Names(idents[0]) {
        assert forall i :: 1 <= i < |idents| ==> idents[i] == rest[i - 1];
        if FirstContent(rest).Some? {
          var i :| 0 <= i < |rest| && Names(rest[i])
                   && (forall j :: 0 <= j < i ==> !Names(rest[j]))
                   && FirstContent(rest).value == Strip(Get(rest[i], "content").s);
          assert Names(idents[i + 1]);
        }
      }
    }
  }

  /** `x.get("identified_by") or []`, looked at only when it is a list. */
  function IdentsOf(x: Json): seq<Json> {
    var v := Or(Get(x, "identified_by"), Arr([]));
    if v.Arr? then v.items else []
  }

  /** objectNumber: "@id", else "id", else "unknown-id". */
  function ObjectNumber(raw: Json): Json {
    Or(Or(Get(raw, "@id"), Get(raw, "id")), Str(UNKNOWN_ID))
  }

  /** title: the first naming entry of "identified_by", else "Untitled". */
  function TitleOf(raw: Json): string {
    FirstContent(IdentsOf(raw)).GetOr(UNTITLED)
  }

  /** The first agent of the production: produced_by.carried_out_by[0],
      when produced_by is a dict and carried_out_by a non-empty list. */
  function FirstAgent(raw: Json): Option<Json> {
    var producedBy := Get(raw, "produced_by");
    if !producedBy.Obj? then None
    else
      var carriedOutBy := Or(Get(producedBy, "carried_out_by"), Arr([]));
      if carriedOutBy.Arr? && carriedOutBy.items != [] then Some(carriedOutBy.items[0]) else None
  }

  /** principalOrFirstMaker: the first naming entry of the first agent when
      that agent is a dict, else "Unknown artist". */
  function MakerOf(raw: Json): string {
    match FirstAgent(raw)
    case None => UNKNOWN_ARTIST
    case Some(agent) => if agent.Obj? then FirstContent(IdentsOf(agent)).GetOr(UNKNOWN_ARTIST) else UNKNOWN_ARTIST
  }

  /** A time-span boundary that carries a year: a str of at least four
      characters that begin with four digits. */
  predicate YearLike(c: Json) {
    c.Str? && |c.s| >= 4 && AllDigits(c.s[..4])
  }

  /** The year and the presenting date (the first ten characters) of the
      first boundary that carries a year. */
  function FirstDate(candidates: seq<Json>): Option<(nat, string)> {
    if candidates == [] then None
    else if YearLike(candidates[0]) then
      Some((DigitsValue(candidates[0].s[..4]), Prefix(candidates[0].s, 10)))
    else FirstDate(candidates[1..])
  }

  /** The boundaries begin_of_the_begin and end_of_the_end of
      produced_by.timespan, when both are dicts. */
  function Boundaries(raw: Json): seq<Json> {
    var producedBy := Get(raw, "produced_by");
    var timespan := if producedBy.Obj? then Get(producedBy, "timespan") else Null;
    if timespan.Obj? then [Get(timespan, "begin_of_the_begin"), Get(timespan, "end_of_the_end")] else []
  }

  function DateOf(raw: Json): Option<(nat, string)> {
    FirstDate(Boundaries(raw))
  }

  /** The "dating" dict: "year" always (None when unknown), then
      "presentingDate" when one was found and it is non-empty. */
  function DatingOf(raw: Json): Json {
    match DateOf(raw)
    case None => Obj([("year", Null)])
    case Some((y, pd)) =>
      Obj([("year", Int(y))] + (if pd != "" then [("presentingDate", Str(pd))] else []))
  }

  /** The legacy artwork dict built from a Linked Art dict. */
  function LegacyRecord(raw: Json): Json {
    Obj(LegacyEntries(ObjectNumber(raw), Str(TitleOf(raw)), Str(MakerOf(raw)), DatingOf(raw)))
  }

  /** _map_linked_art_to_legacy_dict: a legacy dict for every dict; any
      other JSON value makes raw.get raise, which search_artworks catches. */
  function MapLinkedArt(raw: Json): Option<Json> {
    if raw.Obj? then Some(LegacyRecord(raw)) else None
  }

  /** The first loop of the mapper (and the agent-name loop): scan the
      entries, skip the ones that are not dicts or have no text, stop at
      the first that names something. */
  method FirstContentOf(idents: seq<Json>) returns (found: Option<string>)
    ensures found == FirstContent(idents)
  {
    var i := 0;
    while i < |idents|
      invariant 0 <= i <= |idents|
      invariant FirstContent(idents[i..]) == FirstContent(idents)
    {
      var ident := idents[i];
      if !ident.Obj? {
        assert idents[i..][1..] == idents[i + 1..];
        i := i + 1;
        continue;
      }
      var content := Get(ident, "content");
      if content.Str? && !Blank(content.s) {
        return Some(Strip(content.s));
      }
      assert idents[i..][1..] == idents[i + 1..];
      i := i + 1;
    }
    return None;
  }

  /** The maker block of the mapper: the first naming entry of the first
      agent of the production, else "Unknown artist". */
  method MakerStep(raw: Json) returns (maker: string)
    ensures maker == MakerOf(raw)
  {
    maker := UNKNOWN_ARTIST;
    var producedBy := Get(raw, "produced_by");
    if producedBy.Obj? {
      var carriedOutBy := Or(Get(producedBy, "carried_out_by"), Arr([]));
      if carriedOutBy.Arr? && carriedOutBy.items != [] {
        var firstAgent := carriedOutBy.items[0];
        if firstAgent.Obj? {
          var agentName := FirstContentOf(IdentsOf(firstAgent));
          if agentName.Some? {
            maker := agentName.value;
          }
        }
      }
    }
  }

  /** The dating block of the mapper: the first time-span boundary that
      begins with four digits gives the year and the presenting date. */
  method DateStep(raw: Json) returns (year: Option<nat>, presentingDate: Option<string>)
    ensures year.Some? <==> presentingDate.Some?
    ensures year.None? ==> DateOf(raw).None?
    ensures year.Some? ==> DateOf(raw) == Some((year.value, presentingDate.value))
  {
    year := None;
    presentingDate := None;
    var producedBy := Get(raw, "produced_by");
    var timespan := if producedBy.Obj? then Get(producedBy, "timespan") else Null;
    if timespan.Obj? {
      var candidates := [Get(timespan, "begin_of_the_begin"), Get(timespan, "end_of_the_end")];
      var i := 0;
      while i < |candidates|
        invariant 0 <= i <= |candidates|
        invariant year == None && presentingDate == None
        invariant FirstDate(candidates[i..]) == FirstDate(candidates)
      {
        var candidate := candidates[i];
        if candidate.Str? && |candidate.s| >= 4 && AllDigits(candidate.s[..4]) {
          year := Some(DigitsValue(candidate.s[..4]));
          presentingDate := Some(Prefix(candidate.s, 10));
          break;
        }
        assert candidates[i..][1..] == candidates[i + 1..];
        i := i + 1;
      }
    }
  }

  /** _map_linked_art_to_legacy_dict, step by step as the source does it. */
  method MapLinkedArtToLegacy(raw: Json) returns (r: Option<Json>)
    ensures r == MapLinkedArt(raw)
  {
    if !raw.Obj? {
      return None;
    }
    var objectNumber := Or(Or(Get(raw, "@id"), Get(raw, "id")), Str(UNKNOWN_ID));

    var title := UNTITLED;
    var titleFound := FirstContentOf(IdentsOf(raw));
    if titleFound.Some? {
      title := titleFound.value;
    }

    var maker := MakerStep(raw);
    var year, presentingDate := DateStep(raw);

    var datingEntries := [("year", if year.Some? then Int(year.value) else Null)];
    if presentingDate.Some? && presentingDate.value != "" {
      datingEntries := datingEntries + [("presentingDate", Str(presentingDate.value))];
    }
    assert Obj(datingEntries) == DatingOf(raw);
    assert title == TitleOf(raw);

    return Some(Obj([("objectNumber", objectNumber),
                     ("title", Str(title)),
                     ("principalOrFirstMaker", Str(maker)),
                     ("dating", Obj(datingEntries)),
                     ("materials", Arr([])),
                     ("techniques", Arr([])),
                     ("productionPlaces", Arr([])),
                     ("links", Obj([])),
                     ("webImage", Obj([]))]));
  }

  /** The nine entries of a legacy dict around its four computed values. */
  function LegacyEntries(objectNumber: Json, title: Json, maker: Json, dating: Json): seq<(string, Json)> {
    [("objectNumber", objectNumber),
     ("title", title),
     ("principalOrFirstMaker", maker),
     ("dating", dating),
     ("materials", Arr([])),
     ("techniques", Arr([])),
     ("productionPlaces", Arr([])),
     ("links", Obj([])),
     ("webImage", Obj([]))]
  }

  /** The legacy keys are distinct, so each lookup finds its own entry. */
  lemma LegacyLookups(objectNumber: Json, title: Json, maker: Json, dating: Json)
    ensures var es := LegacyEntries(objectNumber, title, maker, dating);
            && Lookup(es, "objectNumber") == objectNumber
            && Lookup(es, "title") == title
            && Lookup(es, "principalOrFirstMaker") == maker
            && Lookup(es, "dating") == dating
            && Lookup(es, "webImage") == Obj([])
  {
    var es := LegacyEntries(objectNumber, title, maker, dating);
    LookupAt(es, 0);
    LookupAt(es, 1);
    LookupAt(es, 2);
    LookupAt(es, 3);
    LookupAt(es, 8);
  }

  /** Looking up each key of a legacy dict finds the value built for it. */
  lemma LegacyFields(raw: Json)
    ensures var rec := LegacyRecord(raw);
            && Get(rec, "objectNumber") == ObjectNumber(raw)
            && Get(rec, "title") == Str(TitleOf(raw))
            && Get(rec, "principalOrFirstMaker") == Str(MakerOf(raw))
            && Get(rec, "dating") == DatingOf(raw)
            && Get(rec, "webImage") == Obj([])
  {
    LegacyLookups(ObjectNumber(raw), Str(TitleOf(raw)), Str(MakerOf(raw)), DatingOf(raw));
  }

  /** The mapper answers every dict with exactly the nine legacy keys; the
      lists are empty and links and webImage are empty dicts. */
  lemma MapperShape(raw: Json)
    requires raw.Obj?
    ensures MapLinkedArt(raw).Some?
    ensures Keys(MapLinkedArt(raw).value) == LEGACY_KEYS
    ensures var es := MapLinkedArt(raw).value.entries;
            es[4].1 == Arr([]) && es[5].1 == Arr([]) && es[6].1 == Arr([])
            && es[7].1 == Obj([]) && es[8].1 == Obj([])
  {
  }

  /** objectNumber is "@id" when that is truthy, else "id" when that is
      truthy, else "unknown-id"; it is never falsy. */
  lemma ObjectNumberFallback(raw: Json)
    requires raw.Obj?
    ensures var on := Get(MapLinkedArt(raw).value, "objectNumber");
            && Truthy(on)
            && (Truthy(Get(raw, "@id")) ==> on == Get(raw, "@id"))
            && (!Truthy(Get(raw, "@id")) && Truthy(Get(raw, "id")) ==> on == Get(raw, "id"))
            && (!Truthy(Get(raw, "@id")) && !Truthy(Get(raw, "id")) ==> on == Str(UNKNOWN_ID))
  {
    LegacyFields(raw);
  }

  /** The first name of a list of entries, or a default with no
      surrounding whitespace when none names anything, is never blank and
      carries no surrounding whitespace; it differs from the default only
      as the stripped content of the first naming entry. */
  lemma NameOrDefault(idents: seq<Json>, dflt: string)
    requires dflt != [] && !IsSpace(dflt[0]) && !IsSpace(dflt[|dflt| - 1])
    ensures var t := FirstContent(idents).GetOr(dflt);
            && t != [] && !IsSpace(t[0]) && !IsSpace(t[|t| - 1])
            && ((forall i :: 0 <= i < |idents| ==> !Names(idents[i])) ==> t == dflt)
            && (forall i :: 0 <= i < |idents| && Names(idents[i]) && (forall j :: 0 <= j < i ==> !Names(idents[j]))
                  ==> t == Strip(Get(idents[i], "content").s))
            && (t != dflt ==>
                  exists i :: 0 <= i < |idents| && Names(idents[i])
                    && (forall j :: 0 <= j < i ==> !Names(idents[j]))
                    && t == Strip(Get(idents[i], "content").s))
  {
    FirstContentSpec(idents);
    if FirstContent(idents).Some? {
      var i :| 0 <= i < |idents| && Names(idents[i])
               && (forall j :: 0 <= j < i ==> !Names(idents[j]))
               && FirstContent(idents).value == Strip(Get(idents[i], "content").s);
      assert Strip(Get(idents[i], "content").s) != [];
      forall k | 0 <= k < |idents| && Names(idents[k]) && (forall j :: 0 <= j < k ==> !Names(idents[j]))
        ensures k == i
      {
        FirstNamingUnique(idents, i, k);
      }
    }
  }

  /** There is only one first naming entry. */
  lemma FirstNamingUnique(idents: seq<Json>, i: nat, k: nat)
    requires i < |idents| && Names(idents[i]) && forall j :: 0 <= j < i ==> !Names(idents[j])
    requires k < |idents| && Names(idents[k]) && forall j :: 0 <= j < k ==> !Names(idents[j])
    ensures i == k
  {
  }

  /** The title is the stripped content of the first "identified_by" entry
      that names something, or "Untitled" when none does; it is never
      blank and carries no surrounding whitespace. */
  lemma TitleIsFirstName(raw: Json)
    requires raw.Obj?
    ensures var t := Get(MapLinkedArt(raw).value, "title");
            && t.Str? && !Blank(t.s) && !IsSpace(t.s[0]) && !IsSpace(t.s[|t.s| - 1])
            && ((forall i :: 0 <= i < |IdentsOf(raw)| ==> !Names(IdentsOf(raw)[i])) ==> t.s == UNTITLED)
            && (forall i :: 0 <= i < |IdentsOf(raw)| && Names(IdentsOf(raw)[i])
                  && (forall j :: 0 <= j < i ==> !Names(IdentsOf(raw)[j]))
                  ==> t.s == Strip(Get(IdentsOf(raw)[i], "content").s))
            && (t.s != UNTITLED ==>
                  exists i :: 0 <= i < |IdentsOf(raw)| && Names(IdentsOf(raw)[i])
                    && (forall j :: 0 <= j < i ==> !Names(IdentsOf(raw)[j]))
                    && t.s == Strip(Get(IdentsOf(raw)[i], "content").s))
  {
    assert Get(MapLinkedArt(raw).value, "title") == Str(TitleOf(raw)) by { LegacyFields(raw); }
    NameOrDefault(IdentsOf(raw), UNTITLED);
  }

  /** principalOrFirstMaker is never blank. When the first agent (the dict
      at the head of a non-empty carried_out_by list of a dict produced_by)
      has a naming entry, the maker is the stripped content of its first
      one; in every other case it is "Unknown artist". */
  lemma MakerNeverEmpty(raw: Json)
    requires raw.Obj?
    ensures var m := Get(MapLinkedArt(raw).value, "principalOrFirstMaker");
            && m.Str? && m.s != "" && !Blank(m.s)
            && (m.s != UNKNOWN_ARTIST ==>
                  && Get(raw, "produced_by").Obj?
                  && FirstAgent(raw).Some? && FirstAgent(raw).value.Obj?
                  && exists i :: 0 <= i < |IdentsOf(FirstAgent(raw).value)|
                       && Names(IdentsOf(FirstAgent(raw).value)[i])
                       && (forall j :: 0 <= j < i ==> !Names(IdentsOf(FirstAgent(raw).value)[j]))
                       && m.s == Strip(Get(IdentsOf(FirstAgent(raw).value)[i], "content").s))
    ensures var m := Get(MapLinkedArt(raw).value, "principalOrFirstMaker");
            && (FirstAgent(raw).None? || !FirstAgent(raw).value.Obj? ==> m.s == UNKNOWN_ARTIST)
            && (FirstAgent(raw).Some? && FirstAgent(raw).value.Obj? ==>
                  var ids := IdentsOf(FirstAgent(raw).value);
                  && ((forall i :: 0 <= i < |ids| ==> !Names(ids[i])) ==> m.s == UNKNOWN_ARTIST)
                  && (forall i :: 0 <= i < |ids| && Names(ids[i]) && (forall j :: 0 <= j < i ==> !Names(ids[j]))
                        ==> m.s == Strip(Get(ids[i], "content").s)))
  {
    assert Get(MapLinkedArt(raw).value, "principalOrFirstMaker") == Str(MakerOf(raw)) by { LegacyFields(raw); }
    var m := MakerOf(raw);
    if FirstAgent(raw).Some? && FirstAgent(raw).value.Obj? {
      NameOrDefault(IdentsOf(FirstAgent(raw).value), UNKNOWN_ARTIST);
    } else {
      assert !IsSpace(m[0]);
    }
  }

  /** The year found in the boundaries is the value of four leading digits,
      so it lies in 0..9999; the presenting date is the first ten
      characters of the same boundary. */
  lemma {:induction false} FirstDateSpec(candidates: seq<Json>)
    ensures FirstDate(candidates).Some? <==> exists i :: 0 <= i < |candidates| && YearLike(candidates[i])
    ensures FirstDate(candidates).Some? ==>
              var (y, pd) := FirstDate(candidates).value;
              && 0 <= y <= 9999
              && 4 <= |pd| <= 10 && AllDigits(pd[..4]) && DigitsValue(pd[..4]) == y
              && exists i :: 0 <= i < |candidates| && YearLike(candidates[i])
                   && (forall j :: 0 <= j < i ==> !YearLike(candidates[j]))
                   && pd == Prefix(candidates[i].s, 10)
  {
    if candidates != [] {
      FirstDateSpec(candidates[1..]);
      assert forall i :: 1 <= i < |candidates| ==> candidates[i] == candidates[1..][i - 1];
      if YearLike(candidates[0]) {
        var s := candidates[0].s;
        var pd := Prefix(s, 10);
        assert pd[..4] == s[..4];
        assert Pow10(4) == 10000;
      } else if FirstDate(candidates).Some? {
        var pd := FirstDate(candidates).value.1;
        var i :| 0 <= i < |candidates[1..]| && YearLike(candidates[1..][i])
                 && (forall j :: 0 <= j < i ==> !YearLike(candidates[1..][j]))
                 && pd == Prefix(candidates[1..][i].s, 10);
        assert YearLike(candidates[i + 1]);
      }
    }
  }

  /** dating.year is present exactly when a boundary carries a year; it
      then lies in 0..9999, and presentingDate is present exactly when the
      year is, holding the first ten characters of that boundary, which
      begin with the year's four digits. */
  lemma DatingSpec(raw: Json)
    requires raw.Obj?
    ensures var d := Get(MapLinkedArt(raw).value, "dating");
            && d.Obj?
            && (Get(d, "year") != Null <==> exists i :: 0 <= i < |Boundaries(raw)| && YearLike(Boundaries(raw)[i]))
    ensures var d := Get(MapLinkedArt(raw).value, "dating");
            && (Get(d, "year") == Null || (Get(d, "year").Int? && 0 <= Get(d, "year").i <= 9999))
            && (Get(d, "presentingDate") != Null <==> Get(d, "year") != Null)
            && (Get(d, "presentingDate") != Null ==>
                  var pd := Get(d, "presentingDate");
                  pd.Str? && 4 <= |pd.s| <= 10 && AllDigits(pd.s[..4])
                  && DigitsValue(pd.s[..4]) == Get(d, "year").i)
    ensures var d := Get(MapLinkedArt(raw).value, "dating");
            Get(d, "presentingDate") != Null ==>
              exists i :: 0 <= i < |Boundaries(raw)| && YearLike(Boundaries(raw)[i])
                && (forall j :: 0 <= j < i ==> !YearLike(Boundaries(raw)[j]))
                && Get(d, "presentingDate") == Str(Prefix(Boundaries(raw)[i].s, 10))
  {
    LegacyFields(raw);
    FirstDateSpec(Boundaries(raw));
    var d := DatingOf(raw);
    if DateOf(raw).Some? {
      LookupAt(d.entries, 0);
      LookupAt(d.entries, 1);
    } else {
      LookupAt(d.entries, 0);
      LookupMissing(d.entries, "presentingDate");
    }
  }

  /** A dict that has none of "@id", "id", "identified_by" and
      "produced_by" maps to the defaults: "unknown-id", "Untitled",
      "Unknown artist", no year, and no image URL. */
  lemma MissingFieldsGiveDefaults(raw: Json)
    requires raw.Obj?
    requires forall i :: 0 <= i < |raw.entries| ==>
               raw.entries[i].0 !in ["@id", "id", "identified_by", "produced_by"]
    ensures var rec := MapLinkedArt(raw).value;
            && Get(rec, "objectNumber") == Str(UNKNOWN_ID)
            && Get(rec, "title") == Str(UNTITLED)
            && Get(rec, "principalOrFirstMaker") == Str(UNKNOWN_ARTIST)
            && ExtractYear(Get(rec, "dating")) == None
            && GetBestImageUrl(rec) == None
  {
    LegacyFields(raw);
    LookupMissing(raw.entries, "@id");
    LookupMissing(raw.entries, "id");
    LookupMissing(raw.entries, "identified_by");
    LookupMissing(raw.entries, "produced_by");
    LookupMissing([("year", Null)], "presentingDate");
  }

  // -------------------------------------------------------------------
  // extract_year and get_best_image_url
  // -------------------------------------------------------------------

  /** extract_year: an int "year" as it is; else the int value of the first
      four characters of a str "presentingDate" when they are all digits
      (a shorter non-empty all-digit date counts); else None. A non-dict
      has no year. */
  function ExtractYear(dating: Json): (r: Option<int>)
    ensures !dating.Obj? ==> r == None
    ensures Get(dating, "year").Int? ==> r == Some(Get(dating, "year").i)
    ensures r.Some? && !Get(dating, "year").Int? ==>
              var p := Get(dating, "presentingDate");
              && p.Str? && AllDigits(Prefix(p.s, 4))
              && 0 <= r.value < 10000 && r.value == DigitsValue(Prefix(p.s, 4))
    ensures var p := Get(dating, "presentingDate");
            dating.Obj? && !Get(dating, "year").Int? && p.Str? && AllDigits(Prefix(p.s, 4)) ==>
              r == Some(DigitsValue(Prefix(p.s, 4)))
  {
    if !dating.Obj? then None
    else
      var y := Get(dating, "year");
      if y.Int? then Some(y.i)
      else
        var presenting := Get(dating, "presentingDate");
        if presenting.Str? && AllDigits(Prefix(presenting.s, 4)) then
          var v := DigitsValue(Prefix(presenting.s, 4));
          assert v < Pow10(4) == 10000 by { assert Pow10(|Prefix(presenting.s, 4)|) <= Pow10(4); }
          Some(v)
        else None
  }

  /** The year the mapper stores is the year extract_year reads back. */
  lemma ExtractYearOfMapped(raw: Json)
    requires raw.Obj?
    ensures ExtractYear(Get(MapLinkedArt(raw).value, "dating"))
            == (if DateOf(raw).Some? then Some(DateOf(raw).value.0 as int) else None)
  {
    LegacyFields(raw);
    LookupAt(DatingOf(raw).entries, 0);
    if DateOf(raw).None? {
      LookupMissing([("year", Null)], "presentingDate");
    }
  }

  /** Worked values of extract_year: {"year": 1642} gives 1642, and {} or
      an empty date give None. */
  lemma ExtractYearExamples()
    ensures ExtractYear(Obj([("year", Int(1642))])) == Some(1642)
    ensures ExtractYear(Obj([])) == None
    ensures ExtractYear(Obj([("presentingDate", Str(""))])) == None
  {
    assert !AllDigits(Prefix("", 4));
  }

  /** A presenting date gives the value of its leading four digits:
      "1650-03-01" gives 1650. */
  lemma ExtractYearDateExample()
    ensures ExtractYear(Obj([("presentingDate", Str("1650-03-01"))])) == Some(1650)
  {
    assert Prefix("1650-03-01", 4) == "1650";
    assert DigitsValue("1650") == 1650 by {
      assert "1650"[..3] == "165" && "165"[..2] == "16" && "16"[..1] == "1" && "1"[..0] == "";
    }
  }

  /** A shorter all-digit presenting date counts too: "12" gives 12. */
  lemma ExtractYearShortDateExample()
    ensures ExtractYear(Obj([("presentingDate", Str("12"))])) == Some(12)
  {
    assert DigitsValue("12") == 12 by {
      assert "12"[..1] == "1" && "1"[..0] == "";
    }
  }

  /** get_best_image_url: webImage.url exactly as stored when it is a str
      with non-whitespace text, else None. */
  function GetBestImageUrl(art: Json): (r: Option<string>)
    requires art.Obj?
    ensures r.Some? ==> !Blank(r.value)
    ensures forall u :: r == Some(u) <==>
              (Get(art, "webImage").Obj? && Get(Get(art, "webImage"), "url") == Str(u) && !Blank(u))
  {
    var webImage := Or(Get(art, "webImage"), Obj([]));
    if webImage.Obj? then
      var url := Get(webImage, "url");
      if url.Str? && !Blank(url.s) then Some(url.s) else None
    else None
  }

  // -------------------------------------------------------------------
  // search_artworks
  // -------------------------------------------------------------------

  /** SearchParams after normalisation. */
  datatype SearchParams = SearchParams(query: string, objectType: Option<string>, sort: string, pageSize: int, page: int)

  /** The normalisation at the top of search_artworks: the query stripped,
      the sort name lower-cased (empty means "relevance"), the page size
      capped at 100 and the page raised to at least 1. */
  function NormalizeParams(query: string, objectType: Option<string>, sort: string, pageSize: int, page: int): (p: SearchParams)
    ensures p.page >= 1 && (page >= 1 ==> p.page == page) && (page < 1 ==> p.page == 1)
    ensures p.pageSize <= MAX_RESULTS_PER_SEARCH && p.pageSize <= pageSize
    ensures pageSize <= MAX_RESULTS_PER_SEARCH ==> p.pageSize == pageSize
    ensures p.query == "" <==> Blank(query)
    ensures sort == "" ==> p.sort == "relevance"
    ensures sort != "" ==> |p.sort| == |sort| && forall i :: 0 <= i < |sort| ==> p.sort[i] == LowerChar(sort[i])
    ensures p.objectType == objectType
  {
    assert Lower("relevance") == "relevance" by {
      forall i | 0 <= i < |"relevance"| ensures !('A' <= "relevance"[i] <= 'Z') {
      }
    }
    SearchParams(Strip(query), objectType,
                 Lower(if sort == "" then "relevance" else sort),
                 if pageSize < MAX_RESULTS_PER_SEARCH then pageSize else MAX_RESULTS_PER_SEARCH,
                 if page < 1 then 1 else page)
  }

  /** The year used for sorting: extract_year's answer, where a missing
      year and the year 0 both count as 10**9 (`or 10**9`). */
  function SortYear(art: Json): int {
    var y := ExtractYear(Or(Get(art, "dating"), Obj([])));
    if y.Some? && y.value != 0 then y.value else NO_YEAR
  }

  /** A record that sorts by a real year. */
  predicate Dated(art: Json) {
    var y := ExtractYear(Or(Get(art, "dating"), Obj([])));
    y.Some? && y.value != 0
  }

  /** The local sort key of search_artworks for a sort mode. */
  function ArtworkSortKey(art: Json, mode: string): Key {
    var artist := Lower(PyStr(Or(Get(art, "principalOrFirstMaker"), Str(""))));
    var title := Lower(PyStr(Or(Get(art, "title"), Str(""))));
    if mode == "relevance" || mode == "artist" then [S(artist), S(title)]
    else if mode == "title" then [S(title), S(artist)]
    else if mode == "chronologic" then [I(SortYear(art)), S(artist), S(title)]
    else if mode == "achronologic" then [I(-SortYear(art)), S(artist), S(title)]
    else [S(artist), S(title)]
  }

  function Decorate(arts: seq<Json>, mode: string): (r: seq<Keyed<Json>>)
    ensures |r| == |arts|
  {
    seq(|arts|, i requires 0 <= i < |arts| => Keyed(ArtworkSortKey(arts[i], mode), arts[i]))
  }

  /** mapped.sort(key=_sort_key). */
  function SortArtworks(arts: seq<Json>, mode: string): seq<Json> {
    Items(SortByKey(Decorate(arts, mode)))
  }

  /** The records the resolver returned for the ids, in order; an id whose
      fetch raised RijksAPIError (None) is skipped. */
  function FetchAll(ids: seq<string>, fetch: string -> Option<Json>): (r: seq<Json>)
    ensures |r| <= |ids|
  {
    if ids == [] then []
    else
      var obj := fetch(ids[|ids| - 1]);
      FetchAll(ids[..|ids| - 1], fetch) + (if obj.Some? then [obj.value] else [])
  }

  /** The mapped records, in order; a record whose mapping raised is
      skipped. */
  function MapAll(raws: seq<Json>): (r: seq<Json>)
    ensures |r| <= |raws|
  {
    if raws == [] then []
    else
      var m := MapLinkedArt(raws[|raws| - 1]);
      MapAll(raws[..|raws| - 1]) + (if m.Some? then [m.value] else [])
  }

  /** What search_artworks returns, or the error it raises. The object
      type is accepted and not used. */
  function SearchArtworksSpec(query: string, objectType: Option<string>, sort: string, pageSize: int, page: int,
                              answer: (string, string) -> FieldResponse, fetch: string -> Option<Json>): Result<(seq<Json>, int), SearchError> {
    var p := NormalizeParams(query, objectType, sort, pageSize, page);
    if p.query == "" then Ok(([], 0))
    else
      match SearchIdsSpec(answer, p.query, p.pageSize)
      case Err(e) => Err(e)
      case Ok(ids) =>
        if ids == [] then Ok(([], 0))
        else
          var sorted := SortArtworks(MapAll(FetchAll(ids, fetch)), p.sort);
          Ok((Page(sorted, p.page, p.pageSize), |sorted|))
  }

  /** The fetch loop of search_artworks. */
  method FetchRecords(ids: seq<string>, fetch: string -> Option<Json>) returns (rawObjects: seq<Json>)
    ensures rawObjects == FetchAll(ids, fetch)
  {
    rawObjects := [];
    for i := 0 to |ids|
      invariant rawObjects == FetchAll(ids[..i], fetch)
    {
      var obj := fetch(ids[i]);
      if obj.Some? {
        rawObjects := rawObjects + [obj.value];
      }
      assert ids[..i + 1][..i] == ids[..i];
    }
    assert ids[..|ids|] == ids;
  }

  /** The mapping loop of search_artworks: a record whose mapping raises is
      skipped. */
  method MapRecords(rawObjects: seq<Json>) returns (mapped: seq<Json>)
    ensures mapped == MapAll(rawObjects)
  {
    mapped := [];
    for i := 0 to |rawObjects|
      invariant mapped == MapAll(rawObjects[..i])
    {
      var m := MapLinkedArtToLegacy(rawObjects[i]);
      if m.Some? {
        mapped := mapped + [m.value];
      }
      assert rawObjects[..i + 1][..i] == rawObjects[..i];
    }
    assert rawObjects[..|rawObjects|] == rawObjects;
  }

  /** search_artworks, with the Search API and the resolver as parameters. */
  method SearchArtworks(query: string, objectType: Option<string>, sort: string, pageSize: int, page: int,
                        answer: (string, string) -> FieldResponse, fetch: string -> Option<Json>)
    returns (r: Result<(seq<Json>, int), SearchError>)
    ensures r == SearchArtworksSpec(query, objectType, sort, pageSize, page, answer, fetch)
  {
    var norm := NormalizeParams(query, objectType, sort, pageSize, page);
    if norm.query == "" {
      return Ok(([], 0));
    }

    // Step 1: find ids
    var found := SearchIds(answer, norm.query, norm.pageSize);
    if found.Err? {
      return Err(found.error);
    }
    var ids := found.value;
    if ids == [] {
      return Ok(([], 0));
    }
    assert SearchIdsSpec(answer, norm.query, norm.pageSize) == Ok(ids);

    // Step 2: fetch the record of each id
    var rawObjects := FetchRecords(ids, fetch);

    // Step 3: map to legacy dicts
    var mapped := MapRecords(rawObjects);

    // Step 4: local sort
    mapped := SortArtworks(mapped, norm.sort);
    var total := |mapped|;

    // Step 5: local pagination (1-based)
    var pageItems := Page(mapped, norm.page, norm.pageSize);
    return Ok((pageItems, total));
  }
  // -------------------------------------------------------------------
  // Properties of the local sort and of search_artworks
  // -------------------------------------------------------------------

  /** Every entry of the sorted list pairs a record of the input with that
      record's own key. */
  lemma SortedEntriesKeepTheirKeys(arts: seq<Json>, mode: string)
    ensures forall x :: x in SortByKey(Decorate(arts, mode)) ==>
              x.key == ArtworkSortKey(x.item, mode) && x.item in arts
  {
    var d := Decorate(arts, mode);
    SortPermutes(d);
    forall x | x in SortByKey(d) ensures x.key == ArtworkSortKey(x.item, mode) && x.item in arts {
      assert x in multiset(SortByKey(d));
      var j :| 0 <= j < |d| && d[j] == x;
    }
  }

  /** mapped.sort(key=_sort_key) rearranges the records: the result is a
      permutation of the input, ordered by the mode's key, and records with
      equal keys keep their relative order. */
  lemma SortArtworksSpec(arts: seq<Json>, mode: string)
    ensures multiset(SortArtworks(arts, mode)) == multiset(arts)
    ensures |SortArtworks(arts, mode)| == |arts|
    ensures forall i, j :: 0 <= i < j < |SortArtworks(arts, mode)| ==>
              KeyLe(ArtworkSortKey(SortArtworks(arts, mode)[i], mode), ArtworkSortKey(SortArtworks(arts, mode)[j], mode))
    ensures forall k :: Items(Select(SortByKey(Decorate(arts, mode)), k)) == Items(Select(Decorate(arts, mode), k))
  {
    var d := Decorate(arts, mode);
    var t := SortByKey(d);
    SortItems(d);
    assert Items(d) == arts;
    SortPermutes(d);
    SortSorted(d);
    SortedEntriesKeepTheirKeys(arts, mode);
    forall i, j | 0 <= i < j < |t| ensures KeyLe(ArtworkSortKey(Items(t)[i], mode), ArtworkSortKey(Items(t)[j], mode)) {
      assert t[i] in t && t[j] in t;
    }
    forall k ensures Items(Select(t, k)) == Items(Select(d, k)) {
      SortStable(d, k);
    }
  }

  /** "chronologic" lists records by ascending sort year, so when every
      real year is below 10**9 the records without a year come last. */
  lemma ChronologicOrder(arts: seq<Json>)
    requires forall a :: a in arts && Dated(a) ==> SortYear(a) < NO_YEAR
    ensures var s := SortArtworks(arts, "chronologic");
            forall i, j :: 0 <= i < j < |s| ==> SortYear(s[i]) <= SortYear(s[j]) && (!Dated(s[i]) ==> !Dated(s[j]))
  {
    var s := SortArtworks(arts, "chronologic");
    SortArtworksSpec(arts, "chronologic");
    forall i, j | 0 <= i < j < |s| ensures SortYear(s[i]) <= SortYear(s[j]) && (!Dated(s[i]) ==> !Dated(s[j])) {
      var ki, kj := ArtworkSortKey(s[i], "chronologic"), ArtworkSortKey(s[j], "chronologic");
      assert KeyLe(ki, kj);
      assert ki[0] == I(SortYear(s[i])) && kj[0] == I(SortYear(s[j]));
      assert s[j] in multiset(arts);
    }
  }

  /** "achronologic" lists records by descending sort year, and since a
      missing year counts as 10**9 before negation, the records without a
      year come first. */
  lemma AchronologicOrder(arts: seq<Json>)
    requires forall a :: a in arts && Dated(a) ==> SortYear(a) < NO_YEAR
    ensures var s := SortArtworks(arts, "achronologic");
            forall i, j :: 0 <= i < j < |s| ==> SortYear(s[i]) >= SortYear(s[j]) && (!Dated(s[j]) ==> !Dated(s[i]))
  {
    var s := SortArtworks(arts, "achronologic");
    SortArtworksSpec(arts, "achronologic");
    forall i, j | 0 <= i < j < |s| ensures SortYear(s[i]) >= SortYear(s[j]) && (!Dated(s[j]) ==> !Dated(s[i])) {
      var ki, kj := ArtworkSortKey(s[i], "achronologic"), ArtworkSortKey(s[j], "achronologic");
      assert KeyLe(ki, kj);
      assert ki[0] == I(-SortYear(s[i])) && kj[0] == I(-SortYear(s[j]));
      assert s[i] in multiset(arts);
    }
  }

  /** "relevance" and every unknown mode sort exactly as "artist" does. */
  lemma OtherModesSortByArtist(arts: seq<Json>, mode: string)
    requires mode !in ["title", "chronologic", "achronologic"]
    ensures SortArtworks(arts, mode) == SortArtworks(arts, "artist")
  {
    assert Decorate(arts, mode) == Decorate(arts, "artist");
  }

  /** Every record the mapper produces sorts by a year of at most 9999,
      or has no year. */
  lemma {:induction false} MappedYearsBounded(raws: seq<Json>)
    ensures forall a :: a in MapAll(raws) && Dated(a) ==> 0 < SortYear(a) <= 9999
  {
    if raws != [] {
      var init, last := raws[..|raws| - 1], raws[|raws| - 1];
      MappedYearsBounded(init);
      if last.Obj? {
        var rec := LegacyRecord(last);
        LegacyFields(last);
        ExtractYearOfMapped(last);
        FirstDateSpec(Boundaries(last));
        assert Or(Get(rec, "dating"), Obj([])) == Get(rec, "dating");
      }
    }
  }

  /** A blank query answers ([], 0) without asking the API. */
  lemma SearchBlankQuery(query: string, objectType: Option<string>, sort: string, pageSize: int, page: int,
                         answer: (string, string) -> FieldResponse, fetch: string -> Option<Json>)
    requires Blank(query)
    ensures SearchArtworksSpec(query, objectType, sort, pageSize, page, answer, fetch) == Ok(([], 0))
  {
  }

  /** The object type is accepted and has no effect on the result. */
  lemma SearchIgnoresObjectType(query: string, t1: Option<string>, t2: Option<string>, sort: string, pageSize: int, page: int,
                                answer: (string, string) -> FieldResponse, fetch: string -> Option<Json>)
    ensures SearchArtworksSpec(query, t1, sort, pageSize, page, answer, fetch)
            == SearchArtworksSpec(query, t2, sort, pageSize, page, answer, fetch)
  {
  }

  /** The records search_artworks sorts and pages: none for a blank query,
      else one legacy dict per id whose record was fetched and is a dict. */
  function SearchRecords(query: string, pageSize: int, answer: (string, string) -> FieldResponse, fetch: string -> Option<Json>): seq<Json>
  {
    var ps := if pageSize < MAX_RESULTS_PER_SEARCH then pageSize else MAX_RESULTS_PER_SEARCH;
    if Strip(query) == "" then []
    else
      match SearchIdsSpec(answer, Strip(query), ps)
      case Ok(ids) => MapAll(FetchAll(ids, fetch))
      case Err(_) => []
  }

  /** With a positive page size, the total is the number of records found
      and never exceeds min(page_size, 100); page 1 holds all of them, as a
      permutation, and every later page is empty, because the ids are
      capped at one page before the local pagination. */
  lemma SearchPaging(query: string, objectType: Option<string>, sort: string, pageSize: int, page: int,
                     answer: (string, string) -> FieldResponse, fetch: string -> Option<Json>)
    requires pageSize >= 1
    requires SearchArtworksSpec(query, objectType, sort, pageSize, page, answer, fetch).Ok?
    ensures var (items, total) := SearchArtworksSpec(query, objectType, sort, pageSize, page, answer, fetch).value;
            && total == |SearchRecords(query, pageSize, answer, fetch)|
            && total <= pageSize && total <= MAX_RESULTS_PER_SEARCH
            && (page <= 1 ==> multiset(items) == multiset(SearchRecords(query, pageSize, answer, fetch)))
            && (page >= 2 ==> items == [])
  {
    var p := NormalizeParams(query, objectType, sort, pageSize, page);
    var r := SearchArtworksSpec(query, objectType, sort, pageSize, page, answer, fetch);
    if p.query != "" && SearchIdsSpec(answer, p.query, p.pageSize).value != [] {
      var ids := SearchIdsSpec(answer, p.query, p.pageSize).value;
      SearchIdsBound(answer, p.query, p.pageSize, 0);
      var recs := MapAll(FetchAll(ids, fetch));
      assert SearchRecords(query, pageSize, answer, fetch) == recs;
      var sorted := SortArtworks(recs, p.sort);
      SortArtworksSpec(recs, p.sort);
      assert r.value == (Page(sorted, p.page, p.pageSize), |sorted|);
      PageOfOnePage(sorted, p.page, p.pageSize);
    }
  }

  /** A "chronologic" search returns its records by ascending year, the
      records without a year after all the dated ones. */
  lemma SearchChronologic(query: string, objectType: Option<string>, sort: string, pageSize: int, page: int,
                          answer: (string, string) -> FieldResponse, fetch: string -> Option<Json>)
    requires pageSize >= 1
    requires NormalizeParams(query, objectType, sort, pageSize, page).sort == "chronologic"
    requires SearchArtworksSpec(query, objectType, sort, pageSize, page, answer, fetch).Ok?
    ensures var items := SearchArtworksSpec(query, objectType, sort, pageSize, page, answer, fetch).value.0;
            forall i, j :: 0 <= i < j < |items| ==> SortYear(items[i]) <= SortYear(items[j]) && (!Dated(items[i]) ==> !Dated(items[j]))
  {
    var p := NormalizeParams(query, objectType, sort, pageSize, page);
    var r := SearchArtworksSpec(query, objectType, sort, pageSize, page, answer, fetch);
    if p.query != "" && SearchIdsSpec(answer, p.query, p.pageSize).value != [] {
      var ids := SearchIdsSpec(answer, p.query, p.pageSize).value;
      var raws := FetchAll(ids, fetch);
      var sorted := SortArtworks(MapAll(raws), "chronologic");
      assert r.value.0 == Page(sorted, p.page, p.pageSize);
      MappedYearsBounded(raws);
      ChronologicOrder(MapAll(raws));
      PageKeepsYearOrder(sorted, p.page, p.pageSize);
    }
  }

  /** A page of a list ordered by ascending year, undated last, is ordered
      the same way. */
  lemma PageKeepsYearOrder(sorted: seq<Json>, page: int, size: int)
    requires page >= 1 && size >= 1
    requires forall i, j :: 0 <= i < j < |sorted| ==> SortYear(sorted[i]) <= SortYear(sorted[j]) && (!Dated(sorted[i]) ==> !Dated(sorted[j]))
    ensures var items := Page(sorted, page, size);
            forall i, j :: 0 <= i < j < |items| ==> SortYear(items[i]) <= SortYear(items[j]) && (!Dated(items[i]) ==> !Dated(items[j]))
  {
    PageWindow(sorted, page, size);
    var a, b := Min((page - 1) * size, |sorted|), Min(page * size, |sorted|);
    assert forall i :: 0 <= i < b - a ==> sorted[a..b][i] == sorted[a + i];
  }
}
