/** The offline backend: a collection of artwork dicts read from a JSON
    file, searched by a free-text query and an object type, sorted by one of
    five modes and cut into 1-based pages.

    Reading the file is not modelled: its outcome is a parameter. */
module LocalCollection {
  import opened Wrappers
  import opened Text
  import opened Json
  import opened Ordering
  import opened Paging
  import RijksApi

  const DEFAULT_PAGE_SIZE := 12
  /** Sort position of a missing year: 10**9. */
  const NO_YEAR := 1_000_000_000
  /** The single-text fields searched by a query. */
  const TEXT_KEYS: seq<string> := ["title", "longTitle", "principalOrFirstMaker"]
  /** The list fields searched by a query. */
  const LIST_KEYS: seq<string> := ["materials", "techniques", "productionPlaces", "objectTypes"]
  /** The text between two searched fields. */
  const FIELD_SEPARATOR := " | "

  /** The outcome of reading the collection file: absent, unreadable (bad
      JSON or an I/O error, which load_collection swallows), or a decoded
      JSON document. */
  datatype Source = Missing | Unreadable | Loaded(data: Json)

  /** Why a search raises: a truthy "dating" that is not a dict, or a truthy
      artist or title that is not a str where the sort lower-cases it. */
  datatype Fault = DatingNotDict | NotText(key: string)

  // -------------------------------------------------------------------
  // List comprehensions with a test
  // -------------------------------------------------------------------

  /** `[x for x in xs if keep(x)]`. */
  function FilterBy<T>(xs: seq<T>, keep: T -> bool): seq<T> {
    if xs == [] then []
    else FilterBy(xs[..|xs| - 1], keep) + (if keep(xs[|xs| - 1]) then [xs[|xs| - 1]] else [])
  }

  /** r is xs with the failing elements removed: r lists, in increasing
      order of position, exactly the elements of xs that pass keep. */
  ghost predicate IsFilterOf<T>(r: seq<T>, xs: seq<T>, keep: T -> bool) {
    exists idx: seq<nat> ::
      && |idx| == |r|
      && (forall k :: 0 <= k < |idx| ==> idx[k] < |xs| && r[k] == xs[idx[k]])
      && (forall k, l :: 0 <= k < l < |idx| ==> idx[k] < idx[l])
      && (forall j :: 0 <= j < |xs| ==> (j in idx <==> keep(xs[j])))
  }

  /** The positions of xs whose elements pass keep, ascending. */
  function KeptIndices<T>(xs: seq<T>, keep: T -> bool): seq<nat> {
    if xs == [] then []
    else KeptIndices(xs[..|xs| - 1], keep) + (if keep(xs[|xs| - 1]) then [|xs| - 1] else [])
  }

  lemma KeptIndicesSpec<T>(xs: seq<T>, keep: T -> bool)
    ensures |KeptIndices(xs, keep)| == |FilterBy(xs, keep)|
    ensures forall k :: 0 <= k < |KeptIndices(xs, keep)| ==>
              KeptIndices(xs, keep)[k] < |xs| && FilterBy(xs, keep)[k] == xs[KeptIndices(xs, keep)[k]]
    ensures forall k, l :: 0 <= k < l < |KeptIndices(xs, keep)| ==> KeptIndices(xs, keep)[k] < KeptIndices(xs, keep)[l]
    ensures forall j :: 0 <= j < |xs| ==> (j in KeptIndices(xs, keep) <==> keep(xs[j]))
  {
    KeptIndicesBounds(xs, keep);
    KeptIndicesPick(xs, keep);
    KeptIndicesMembers(xs, keep);
  }

  /** The kept positions are in range and ascending. */
  lemma {:induction false} KeptIndicesBounds<T>(xs: seq<T>, keep: T -> bool)
    ensures forall k :: 0 <= k < |KeptIndices(xs, keep)| ==> KeptIndices(xs, keep)[k] < |xs|
    ensures forall k, l :: 0 <= k < l < |KeptIndices(xs, keep)| ==> KeptIndices(xs, keep)[k] < KeptIndices(xs, keep)[l]
  {
    if xs != [] {
      var init := xs[..|xs| - 1];
      KeptIndicesBounds(init, keep);
    }
  }

  /** The kept positions pick out the kept elements. */
  lemma {:induction false} KeptIndicesPick<T>(xs: seq<T>, keep: T -> bool)
    ensures |KeptIndices(xs, keep)| == |FilterBy(xs, keep)|
    ensures forall k :: 0 <= k < |KeptIndices(xs, keep)| ==>
              KeptIndices(xs, keep)[k] < |xs| && FilterBy(xs, keep)[k] == xs[KeptIndices(xs, keep)[k]]
  {
    if xs != [] {
      var init := xs[..|xs| - 1];
      KeptIndicesPick(init, keep);
      KeptIndicesBounds(init, keep);
      var idx0, r0 := KeptIndices(init, keep), FilterBy(init, keep);
      var idx, r := KeptIndices(xs, keep), FilterBy(xs, keep);
      forall k | 0 <= k < |idx0| ensures idx[k] < |xs| && r[k] == xs[idx[k]] {
        assert idx[k] == idx0[k] && r[k] == r0[k];
        assert init[idx0[k]] == xs[idx0[k]];
      }
    }
  }

  /** A position is kept exactly when its element passes. */
  lemma {:induction false} KeptIndicesMembers<T>(xs: seq<T>, keep: T -> bool)
    ensures forall j :: 0 <= j < |xs| ==> (j in KeptIndices(xs, keep) <==> keep(xs[j]))
  {
    if xs != [] {
      var n := |xs| - 1;
      var init := xs[..n];
      KeptIndicesMembers(init, keep);
      KeptIndicesBounds(init, keep);
      var idx0 := KeptIndices(init, keep);
      assert forall k :: 0 <= k < |idx0| ==> idx0[k] < n;
      assert n !in idx0;
      forall j | 0 <= j < n ensures j in KeptIndices(xs, keep) <==> keep(xs[j]) {
        assert init[j] == xs[j];
      }
    }
  }

  /** Each element is kept as often as it occurs when it passes, and not at
      all when it fails. */
  lemma {:induction false} FilterByCount<T>(xs: seq<T>, keep: T -> bool, a: T)
    ensures multiset(FilterBy(xs, keep))[a] == if keep(a) then multiset(xs)[a] else 0
  {
    if xs != [] {
      var init := xs[..|xs| - 1];
      FilterByCount(init, keep, a);
      assert xs == init + [xs[|xs| - 1]];
    }
  }

  /** The comprehension keeps exactly the passing elements, in order and as
      often as they occur: it is the subsequence of the passing positions,
      never longer than the input, and the whole input when every element
      passes. */
  lemma FilterBySpec<T>(xs: seq<T>, keep: T -> bool)
    ensures IsFilterOf(FilterBy(xs, keep), xs, keep)
    ensures forall a :: multiset(FilterBy(xs, keep))[a] == if keep(a) then multiset(xs)[a] else 0
    ensures |FilterBy(xs, keep)| <= |xs|
    ensures forall a :: a in FilterBy(xs, keep) <==> a in xs && keep(a)
    ensures (forall i :: 0 <= i < |xs| ==> keep(xs[i])) ==> FilterBy(xs, keep) == xs
  {
    FilterByIsFilter(xs, keep);
    FilterByCounts(xs, keep);
    FilterByLength(xs, keep);
    if forall i :: 0 <= i < |xs| ==> keep(xs[i]) {
      FilterByAll(xs, keep);
    }
  }

  lemma FilterByIsFilter<T>(xs: seq<T>, keep: T -> bool)
    ensures IsFilterOf(FilterBy(xs, keep), xs, keep)
  {
    KeptIndicesSpec(xs, keep);
    var idx := KeptIndices(xs, keep);
  }

  lemma FilterByCounts<T>(xs: seq<T>, keep: T -> bool)
    ensures forall a :: multiset(FilterBy(xs, keep))[a] == if keep(a) then multiset(xs)[a] else 0
    ensures forall a :: a in FilterBy(xs, keep) <==> a in xs && keep(a)
  {
    forall a ensures multiset(FilterBy(xs, keep))[a] == if keep(a) then multiset(xs)[a] else 0 {
      FilterByCount(xs, keep, a);
    }
  }

  lemma {:induction false} FilterByLength<T>(xs: seq<T>, keep: T -> bool)
    ensures |FilterBy(xs, keep)| <= |xs|
  {
    if xs != [] {
      FilterByLength(xs[..|xs| - 1], keep);
    }
  }

  /** A list whose every element passes is kept whole. */
  lemma {:induction false} FilterByAll<T>(xs: seq<T>, keep: T -> bool)
    requires forall i :: 0 <= i < |xs| ==> keep(xs[i])
    ensures FilterBy(xs, keep) == xs
  {
    if xs != [] {
      var init := xs[..|xs| - 1];
      FilterByAll(init, keep);
      assert xs == init + [xs[|xs| - 1]];
    }
  }

  /** Filtering one element more adds it at the end when it passes. */
  lemma FilterBySnoc<T>(xs: seq<T>, i: nat, keep: T -> bool)
    requires i < |xs|
    ensures FilterBy(xs[..i + 1], keep) == FilterBy(xs[..i], keep) + (if keep(xs[i]) then [xs[i]] else [])
  {
    assert xs[..i + 1][..i] == xs[..i];
  }

  // -------------------------------------------------------------------
  // load_collection
  // -------------------------------------------------------------------

  /** A JSON value that is a dict. */
  predicate IsDict(a: Json) {
    a.Obj?
  }

  /** `[x for x in items if isinstance(x, dict)]`. */
  function Dicts(items: seq<Json>): seq<Json> {
    FilterBy(items, IsDict)
  }

  /** Keeping the dicts keeps exactly the dicts, in their order and with
      their repetitions: the result is the subsequence of the dict
      positions, never longer, and the whole input when every element is a
      dict. */
  lemma DictsSpec(items: seq<Json>)
    ensures IsFilterOf(Dicts(items), items, IsDict)
    ensures forall a :: multiset(Dicts(items))[a] == if a.Obj? then multiset(items)[a] else 0
    ensures |Dicts(items)| <= |items|
    ensures forall a :: a in Dicts(items) <==> a in items && a.Obj?
    ensures (forall i :: 0 <= i < |items| ==> items[i].Obj?) ==> Dicts(items) == items
  {
    FilterBySpec(items, IsDict);
  }

  /** The values of a dict's entries, in order. */
  function Values(entries: seq<(string, Json)>): (vs: seq<Json>)
    ensures |vs| == |entries| && forall i :: 0 <= i < |entries| ==> vs[i] == entries[i].1
  {
    seq(|entries|, i requires 0 <= i < |entries| => entries[i].1)
  }

  /** The shape filter of load_collection. */
  function LoadCollection(src: Source): seq<Json> {
    match src
    case Loaded(Arr(items)) => Dicts(items)
    case Loaded(Obj(entries)) => Dicts(Values(entries))
    case _ => []
  }

  /** load_collection answers a list with its dict elements, a dict with its
      dict values, and anything else, including a missing or unreadable
      file, with []. */
  lemma LoadCollectionSpec(src: Source)
    ensures forall a :: a in LoadCollection(src) ==> a.Obj?
    ensures src.Loaded? && src.data.Arr? ==>
              IsFilterOf(LoadCollection(src), src.data.items, IsDict)
              && forall a :: a in LoadCollection(src) <==> a in src.data.items && a.Obj?
    ensures src.Loaded? && src.data.Obj? ==>
              IsFilterOf(LoadCollection(src), Values(src.data.entries), IsDict)
              && forall a :: a in LoadCollection(src) <==> a in Values(src.data.entries) && a.Obj?
    ensures !(src.Loaded? && (src.data.Arr? || src.data.Obj?)) ==> LoadCollection(src) == []
  {
    if src.Loaded? && src.data.Arr? {
      DictsSpec(src.data.items);
    } else if src.Loaded? && src.data.Obj? {
      DictsSpec(Values(src.data.entries));
    }
  }

  // -------------------------------------------------------------------
  // _normalize_text and _get_year
  // -------------------------------------------------------------------

  /** _normalize_text: a str lower-cased, anything else "". */
  function NormalizeText(v: Json): (r: string)
    ensures !v.Str? ==> r == ""
    ensures v.Str? ==> |r| == |v.s| && forall i :: 0 <= i < |r| ==> r[i] == LowerChar(v.s[i])
  {
    if v.Str? then Lower(v.s) else ""
  }

  /** _get_year: an int "year" of the dating dict; else the value of the
      first four characters of a str "presentingDate" when they are digits;
      else None. A truthy non-dict dating makes dating.get raise. */
  function GetYear(art: Json): (r: Result<Option<int>, Fault>)
    ensures r.Err? <==> Truthy(Get(art, "dating")) && !Get(art, "dating").Obj?
    ensures r.Ok? && Get(Get(art, "dating"), "year").Int? ==> r.value == Some(Get(Get(art, "dating"), "year").i)
    ensures r.Ok? && r.value.Some? && !Get(Get(art, "dating"), "year").Int? ==>
              var p := Get(Get(art, "dating"), "presentingDate");
              && p.Str? && AllDigits(Prefix(p.s, 4))
              && 0 <= r.value.value < 10000 && r.value.value == DigitsValue(Prefix(p.s, 4))
    ensures var d := Get(art, "dating");
            var p := Get(d, "presentingDate");
            d.Obj? && !Get(d, "year").Int? && p.Str? && AllDigits(Prefix(p.s, 4)) ==>
              r == Ok(Some(DigitsValue(Prefix(p.s, 4))))
  {
    var dating := Or(Get(art, "dating"), Obj([]));
    if !dating.Obj? then Err(DatingNotDict)
    else
      var y := Get(dating, "year");
      if y.Int? then Ok(Some(y.i))
      else
        var presenting := Get(dating, "presentingDate");
        if presenting.Str? && AllDigits(Prefix(presenting.s, 4)) then
          var v := DigitsValue(Prefix(presenting.s, 4));
          assert v < 10000 by { assert Pow10(|Prefix(presenting.s, 4)|) <= Pow10(4) == 10000; }
          Ok(Some(v))
        else Ok(None)
  }

  /** The local _get_year and the API adapter's extract_year read the same
      year from every dating they both accept. */
  lemma GetYearAgreesWithExtractYear(art: Json)
    requires GetYear(art).Ok?
    ensures GetYear(art).value == RijksApi.ExtractYear(Or(Get(art, "dating"), Obj([])))
  {
  }

  // -------------------------------------------------------------------
  // _matches_query
  // -------------------------------------------------------------------

  /** The normalised text of the single-text fields named by keys. */
  function TextFields(art: Json, keys: seq<string>): (r: seq<string>)
    ensures |r| == |keys|
  {
    if keys == [] then []
    else TextFields(art, keys[..|keys| - 1]) + [NormalizeText(Get(art, keys[|keys| - 1]))]
  }

  /** The normalised texts of a list's elements. */
  function NormalizedAll(values: seq<Json>): seq<string> {
    if values == [] then []
    else NormalizedAll(values[..|values| - 1]) + [NormalizeText(values[|values| - 1])]
  }

  /** The texts one list field contributes: `art.get(key) or []`, when it is
      a list. */
  function ListTexts(art: Json, key: string): seq<string> {
    var values := Or(Get(art, key), Arr([]));
    if values.Arr? then NormalizedAll(values.items) else []
  }

  /** The texts of the list fields named by keys, in order. */
  function ListFields(art: Json, keys: seq<string>): seq<string> {
    if keys == [] then []
    else ListFields(art, keys[..|keys| - 1]) + ListTexts(art, keys[|keys| - 1])
  }

  /** The `fields` list _matches_query searches. */
  function QueryFields(art: Json): seq<string> {
    TextFields(art, TEXT_KEYS) + ListFields(art, LIST_KEYS)
  }

  /** What _matches_query answers: a blank query matches, otherwise the
      stripped, lower-cased query must occur in the " | "-joined fields. */
  predicate MatchesQuerySpec(art: Json, query: string) {
    var q := Lower(Strip(query));
    q == "" || Contains(Join(FIELD_SEPARATOR, QueryFields(art)), q)
  }

  /** _matches_query, building the fields list by append and extend. */
  method MatchesQuery(art: Json, query: string) returns (b: bool)
    ensures b == MatchesQuerySpec(art, query)
  {
    var q := Lower(Strip(query));
    if q == "" {
      return true;
    }
    var fields := CollectFields(art);
    return Contains(Join(FIELD_SEPARATOR, fields), q);
  }

  /** The two loops of _matches_query that build `fields`. */
  method CollectFields(art: Json) returns (fields: seq<string>)
    ensures fields == QueryFields(art)
  {
    fields := CollectTextFields(art);
    var listTexts := CollectListFields(art);
    fields := fields + listTexts;
  }

  /** The first loop: one normalised text per single-text field. */
  method CollectTextFields(art: Json) returns (fields: seq<string>)
    ensures fields == TextFields(art, TEXT_KEYS)
  {
    fields := [];
    for i := 0 to |TEXT_KEYS|
      invariant fields == TextFields(art, TEXT_KEYS[..i])
    {
      fields := fields + [NormalizeText(Get(art, TEXT_KEYS[i]))];
      assert TEXT_KEYS[..i + 1][..i] == TEXT_KEYS[..i];
    }
    assert TEXT_KEYS[..|TEXT_KEYS|] == TEXT_KEYS;
  }

  /** The second loop: the texts of every element of every list field, in
      the order `fields.extend` adds them. */
  method CollectListFields(art: Json) returns (texts: seq<string>)
    ensures texts == ListFields(art, LIST_KEYS)
  {
    texts := [];
    for i := 0 to |LIST_KEYS|
      invariant texts == ListFields(art, LIST_KEYS[..i])
    {
      var values := Or(Get(art, LIST_KEYS[i]), Arr([]));
      if values.Arr? {
        texts := ExtendNormalized(texts, values.items);
      }
      assert LIST_KEYS[..i + 1][..i] == LIST_KEYS[..i];
    }
    assert LIST_KEYS[..|LIST_KEYS|] == LIST_KEYS;
  }

  /** `fields.extend(_normalize_text(v) for v in values)`. */
  method ExtendNormalized(fields0: seq<string>, values: seq<Json>) returns (fields: seq<string>)
    ensures fields == fields0 + NormalizedAll(values)
  {
    fields := fields0;
    for j := 0 to |values|
      invariant fields == fields0 + NormalizedAll(values[..j])
    {
      fields := fields + [NormalizeText(values[j])];
      assert values[..j + 1][..j] == values[..j];
    }
    assert values[..|values|] == values;
  }

  /** The searched fields always begin with the title, the long title and
      the maker, so there are at least three of them. */
  lemma QueryFieldsStart(art: Json)
    ensures |QueryFields(art)| >= 3
    ensures QueryFields(art)[0] == NormalizeText(Get(art, "title"))
    ensures QueryFields(art)[1] == NormalizeText(Get(art, "longTitle"))
    ensures QueryFields(art)[2] == NormalizeText(Get(art, "principalOrFirstMaker"))
  {
    assert TextFields(art, ["title"]) == [NormalizeText(Get(art, "title"))] by {
      assert ["title"][..0] == [];
    }
    assert TextFields(art, ["title", "longTitle"]) == TextFields(art, ["title"]) + [NormalizeText(Get(art, "longTitle"))] by {
      assert ["title", "longTitle"][..1] == ["title"];
    }
    assert TextFields(art, TEXT_KEYS) == TextFields(art, ["title", "longTitle"]) + [NormalizeText(Get(art, "principalOrFirstMaker"))] by {
      assert TEXT_KEYS[..2] == ["title", "longTitle"];
    }
  }

  /** A blank or whitespace-only query matches every record. */
  lemma BlankQueryMatches(art: Json, query: string)
    requires Blank(query)
    ensures MatchesQuerySpec(art, query)
  {
  }

  /** A record one of whose searched fields contains the normalised query
      matches it; in particular a record whose lower-cased title contains
      it always does. */
  lemma FieldContainingQueryMatches(art: Json, query: string, k: nat)
    requires k < |QueryFields(art)| && Contains(QueryFields(art)[k], Lower(Strip(query)))
    ensures MatchesQuerySpec(art, query)
    ensures Contains(NormalizeText(Get(art, "title")), Lower(Strip(query))) ==> MatchesQuerySpec(art, query)
  {
    JoinContainsPart(FIELD_SEPARATOR, QueryFields(art), k, Lower(Strip(query)));
    QueryFieldsStart(art);
  }

  /** For a query without spaces or '|', matching is a per-field test: it
      matches exactly when one searched field contains it. */
  lemma PlainQueryMatchesWithinField(art: Json, query: string)
    requires forall i :: 0 <= i < |Lower(Strip(query))| ==> Lower(Strip(query))[i] != ' ' && Lower(Strip(query))[i] != '|'
    ensures MatchesQuerySpec(art, query) <==>
              Lower(Strip(query)) == "" ||
              exists k :: 0 <= k < |QueryFields(art)| && Contains(QueryFields(art)[k], Lower(Strip(query)))
  {
    var q := Lower(Strip(query));
    if q != "" {
      SeparatorFree(q);
      JoinContainsIff(FIELD_SEPARATOR, QueryFields(art), q);
    }
  }

  /** A text without ' ' and '|' shares no character with the separator. */
  lemma SeparatorFree(q: string)
    requires forall i :: 0 <= i < |q| ==> q[i] != ' ' && q[i] != '|'
    ensures forall i :: 0 <= i < |q| ==> q[i] !in FIELD_SEPARATOR
  {
  }

  /** The query "|" matches every record, whatever its fields hold: the
      separator between the always-present first three fields contains
      it. */
  lemma PipeQueryMatchesEverything(art: Json, query: string)
    requires Lower(Strip(query)) == "|"
    ensures MatchesQuerySpec(art, query)
  {
    var fields := QueryFields(art);
    QueryFieldsStart(art);
    var h := Join(FIELD_SEPARATOR, fields);
    assert h == fields[0] + FIELD_SEPARATOR + Join(FIELD_SEPARATOR, fields[1..]);
    assert h[|fields[0]| + 1..|fields[0]| + 2] == "|";
    assert OccursAt(h, "|", |fields[0]| + 1);
  }

  // -------------------------------------------------------------------
  // _matches_object_type
  // -------------------------------------------------------------------

  /** _matches_object_type: no type (None or "") matches everything; else
      `objectTypes` (or []) must be a list one of whose elements, as
      lower-cased text, contains the stripped, lower-cased type. */
  predicate MatchesObjectType(art: Json, objectType: Option<string>) {
    if objectType.None? || objectType.value == "" then true
    else
      var types := Or(Get(art, "objectTypes"), Arr([]));
      types.Arr? &&
      exists i :: 0 <= i < |types.items| && Contains(Lower(PyStr(types.items[i])), Lower(Strip(objectType.value)))
  }

  /** An empty or absent type matches everything, a non-list objectTypes
      never matches a type, and a whitespace-only type matches exactly the
      records whose objectTypes is a non-empty list. */
  lemma ObjectTypeCases(art: Json, objectType: Option<string>)
    ensures objectType.None? || objectType == Some("") ==> MatchesObjectType(art, objectType)
    ensures objectType.Some? && objectType.value != "" && !Or(Get(art, "objectTypes"), Arr([])).Arr? ==>
              !MatchesObjectType(art, objectType)
    ensures objectType.Some? && objectType.value != "" && Blank(objectType.value) ==>
              (MatchesObjectType(art, objectType) <==> Get(art, "objectTypes").Arr? && Get(art, "objectTypes").items != [])
  {
    if objectType.Some? && objectType.value != "" && Blank(objectType.value) {
      var types := Or(Get(art, "objectTypes"), Arr([]));
      if Get(art, "objectTypes").Arr? && Get(art, "objectTypes").items != [] {
        ContainsEmpty(Lower(PyStr(types.items[0])));
      }
    }
  }

  // -------------------------------------------------------------------
  // _sort_key
  // -------------------------------------------------------------------

  /** `year or fallback`: a missing year and the year 0 both give the
      fallback. */
  function YearOr(year: Option<int>, fallback: int): int {
    if year.Some? && year.value != 0 then year.value else fallback
  }

  /** The sort mode: the name lower-cased, empty meaning "relevance". */
  function SortMode(sort: string): string {
    Lower(if sort == "" then "relevance" else sort)
  }

  /** `(artist.lower(), title.lower())`, lower-casing the first-named field
      first; a truthy non-str raises. */
  function TextPair(art: Json, first: string, second: string): Result<Key, Fault> {
    var a := Or(Get(art, first), Str(""));
    var b := Or(Get(art, second), Str(""));
    if !a.Str? then Err(NotText(first))
    else if !b.Str? then Err(NotText(second))
    else Ok([S(Lower(a.s)), S(Lower(b.s))])
  }

  /** _sort_key: the key of a record under a sort mode, or the error
      computing it raises. */
  function SortKey(art: Json, sort: string): Result<Key, Fault> {
    var mode := SortMode(sort);
    match GetYear(art)
    case Err(f) => Err(f)
    case Ok(year) =>
      if mode == "relevance" || mode == "artist" then TextPair(art, "principalOrFirstMaker", "title")
      else if mode == "title" then TextPair(art, "title", "principalOrFirstMaker")
      else if mode == "year_asc" then Ok([B(year.None?), I(YearOr(year, NO_YEAR))])
      else if mode == "year_desc" then Ok([B(year.None?), I(-YearOr(year, -NO_YEAR))])
      else TextPair(art, "principalOrFirstMaker", "title")
  }

  /** The sort name is case-insensitive and defaults to "relevance";
      "relevance" and every unknown name order as "artist" does. */
  lemma SortModeCases(art: Json, sort: string)
    ensures SortKey(art, "") == SortKey(art, "relevance") == SortKey(art, "artist")
    ensures SortKey(art, sort) == SortKey(art, Lower(sort))
    ensures SortMode(sort) !in ["title", "year_asc", "year_desc"] ==> SortKey(art, sort) == SortKey(art, "artist")
  {
    LowerIdempotent(sort);
    assert Lower("relevance") == "relevance";
    assert Lower("artist") == "artist";
  }

  lemma LowerIdempotent(s: string)
    ensures Lower(Lower(s)) == Lower(s)
    ensures Lower(s) == "" <==> s == ""
  {
  }

  /** The keys of every record of a list, in order, or the first error. */
  function KeyAll(arts: seq<Json>, sort: string): (r: Result<seq<Keyed<Json>>, Fault>)
    ensures r.Ok? ==> |r.value| == |arts| && forall i :: 0 <= i < |arts| ==>
              r.value[i].item == arts[i] && SortKey(arts[i], sort) == Ok(r.value[i].key)
    ensures r.Err? <==> exists i :: 0 <= i < |arts| && SortKey(arts[i], sort).Err?
  {
    if arts == [] then Ok([])
    else
      match SortKey(arts[0], sort)
      case Err(f) => Err(f)
      case Ok(k) =>
        match KeyAll(arts[1..], sort)
        case Err(f) =>
          var i :| 0 <= i < |arts[1..]| && SortKey(arts[1..][i], sort).Err?;
          assert SortKey(arts[i + 1], sort).Err?;
          Err(f)
        case Ok(rest) =>
          var r := [Keyed(k, arts[0])] + rest;
          assert forall i :: 1 <= i < |arts| ==> arts[i] == arts[1..][i - 1];
          Ok(r)
  }

  /** `filtered.sort(key=lambda art: _sort_key(art, sort))`. */
  function SortCollection(arts: seq<Json>, sort: string): Result<seq<Json>, Fault> {
    match KeyAll(arts, sort)
    case Err(f) => Err(f)
    case Ok(keyed) => Ok(Items(SortByKey(keyed)))
  }

  /** The local sort is a permutation of the input, and it fails exactly
      when some key raises. */
  lemma SortCollectionSpec(arts: seq<Json>, sort: string)
    ensures SortCollection(arts, sort).Err? <==> exists i :: 0 <= i < |arts| && SortKey(arts[i], sort).Err?
    ensures SortCollection(arts, sort).Ok? ==>
              var s := SortCollection(arts, sort).value;
              multiset(s) == multiset(arts) && |s| == |arts|
  {
    if KeyAll(arts, sort).Ok? {
      var d := KeyAll(arts, sort).value;
      SortItems(d);
      assert Items(d) == arts;
      SortPermutes(d);
    }
  }

  /** The local sort orders the records by _sort_key. */
  lemma SortCollectionOrdered(arts: seq<Json>, sort: string)
    requires SortCollection(arts, sort).Ok?
    ensures var s := SortCollection(arts, sort).value;
            && (forall i :: 0 <= i < |s| ==> SortKey(s[i], sort).Ok?)
            && (forall i, j :: 0 <= i < j < |s| ==> KeyLe(SortKey(s[i], sort).value, SortKey(s[j], sort).value))
  {
    var d := KeyAll(arts, sort).value;
    var t := SortByKey(d);
    SortSorted(d);
    SortedKeysAreKeys(arts, sort);
    forall i, j | 0 <= i < j < |t| ensures KeyLe(SortKey(Items(t)[i], sort).value, SortKey(Items(t)[j], sort).value) {
      assert t[i] in t && t[j] in t;
    }
    forall i | 0 <= i < |t| ensures SortKey(Items(t)[i], sort).Ok? {
      assert t[i] in t;
    }
  }

  /** Every entry the sort produces carries its own record's key. */
  lemma SortedKeysAreKeys(arts: seq<Json>, sort: string)
    requires KeyAll(arts, sort).Ok?
    ensures forall x :: x in SortByKey(KeyAll(arts, sort).value) ==> SortKey(x.item, sort) == Ok(x.key)
  {
    var d := KeyAll(arts, sort).value;
    var t := SortByKey(d);
    SortPermutes(d);
    forall x | x in t ensures SortKey(x.item, sort) == Ok(x.key) {
      assert x in multiset(t);
      var j :| 0 <= j < |d| && d[j] == x;
    }
  }

  /** The local sort is stable: the records sharing any one key keep their
      collection order. */
  lemma SortCollectionStable(arts: seq<Json>, sort: string)
    requires SortCollection(arts, sort).Ok?
    ensures KeyAll(arts, sort).Ok?
    ensures SortCollection(arts, sort).value == Items(SortByKey(KeyAll(arts, sort).value))
    ensures forall k :: Items(Select(SortByKey(KeyAll(arts, sort).value), k)) == Items(Select(KeyAll(arts, sort).value, k))
  {
    var d := KeyAll(arts, sort).value;
    forall k ensures Items(Select(SortByKey(d), k)) == Items(Select(d, k)) {
      SortStable(d, k);
    }
  }

  /** Under "year_asc" a key is (no year?, year or 10**9). */
  lemma YearAscKey(a: Json, sort: string)
    requires SortMode(sort) == "year_asc" && SortKey(a, sort).Ok?
    ensures GetYear(a).Ok?
    ensures SortKey(a, sort).value == [B(GetYear(a).value.None?), I(YearOr(GetYear(a).value, NO_YEAR))]
  {
  }

  /** Under "year_desc" a key is (no year?, -(year or -10**9)). */
  lemma YearDescKey(a: Json, sort: string)
    requires SortMode(sort) == "year_desc" && SortKey(a, sort).Ok?
    ensures GetYear(a).Ok?
    ensures SortKey(a, sort).value == [B(GetYear(a).value.None?), I(-YearOr(GetYear(a).value, -NO_YEAR))]
  {
  }

  /** Two records in "year_asc" key order: an undated one is followed only
      by undated ones, and dated ones ascend by `year or 10**9`. */
  lemma YearAscPair(a: Json, b: Json, sort: string)
    requires SortMode(sort) == "year_asc" && SortKey(a, sort).Ok? && SortKey(b, sort).Ok?
    requires KeyLe(SortKey(a, sort).value, SortKey(b, sort).value)
    ensures GetYear(a).Ok? && GetYear(b).Ok?
    ensures GetYear(a).value.None? ==> GetYear(b).value.None?
    ensures GetYear(b).value.Some? ==> YearOr(GetYear(a).value, NO_YEAR) <= YearOr(GetYear(b).value, NO_YEAR)
  {
    YearAscKey(a, sort);
    YearAscKey(b, sort);
    var ya, yb := GetYear(a).value, GetYear(b).value;
    KeyLePair(B(ya.None?), I(YearOr(ya, NO_YEAR)), B(yb.None?), I(YearOr(yb, NO_YEAR)));
  }

  /** Two records in "year_desc" key order: an undated one is followed only
      by undated ones, and dated ones descend by `year or -10**9`. */
  lemma YearDescPair(a: Json, b: Json, sort: string)
    requires SortMode(sort) == "year_desc" && SortKey(a, sort).Ok? && SortKey(b, sort).Ok?
    requires KeyLe(SortKey(a, sort).value, SortKey(b, sort).value)
    ensures GetYear(a).Ok? && GetYear(b).Ok?
    ensures GetYear(a).value.None? ==> GetYear(b).value.None?
    ensures GetYear(a).value.Some? && GetYear(b).value.Some? ==>
              YearOr(GetYear(a).value, -NO_YEAR) >= YearOr(GetYear(b).value, -NO_YEAR)
  {
    YearDescKey(a, sort);
    YearDescKey(b, sort);
    var ya, yb := GetYear(a).value, GetYear(b).value;
    KeyLePair(B(ya.None?), I(-YearOr(ya, -NO_YEAR)), B(yb.None?), I(-YearOr(yb, -NO_YEAR)));
  }

  /** Under "year_asc" every record without a year comes after every dated
      one, and dated records ascend by `year or 10**9`. */
  lemma YearAscOrder(arts: seq<Json>, sort: string)
    requires SortMode(sort) == "year_asc" && SortCollection(arts, sort).Ok?
    ensures var s := SortCollection(arts, sort).value;
            (forall i :: 0 <= i < |s| ==> GetYear(s[i]).Ok?)
            && forall i, j :: 0 <= i < j < |s| ==>
                 (GetYear(s[i]).value.None? ==> GetYear(s[j]).value.None?)
                 && (GetYear(s[j]).value.Some? ==> YearOr(GetYear(s[i]).value, NO_YEAR) <= YearOr(GetYear(s[j]).value, NO_YEAR))
  {
    SortCollectionOrdered(arts, sort);
    var s := SortCollection(arts, sort).value;
    forall i | 0 <= i < |s| ensures GetYear(s[i]).Ok? {
      YearAscKey(s[i], sort);
    }
    forall i, j | 0 <= i < j < |s|
      ensures (GetYear(s[i]).value.None? ==> GetYear(s[j]).value.None?)
              && (GetYear(s[j]).value.Some? ==> YearOr(GetYear(s[i]).value, NO_YEAR) <= YearOr(GetYear(s[j]).value, NO_YEAR))
    {
      YearAscPair(s[i], s[j], sort);
    }
  }

  /** Under "year_desc" every record without a year also comes after every
      dated one, and dated records descend by `year or -10**9`. */
  lemma YearDescOrder(arts: seq<Json>, sort: string)
    requires SortMode(sort) == "year_desc" && SortCollection(arts, sort).Ok?
    ensures var s := SortCollection(arts, sort).value;
            (forall i :: 0 <= i < |s| ==> GetYear(s[i]).Ok?)
            && forall i, j :: 0 <= i < j < |s| ==>
                 (GetYear(s[i]).value.None? ==> GetYear(s[j]).value.None?)
                 && (GetYear(s[i]).value.Some? && GetYear(s[j]).value.Some? ==>
                       YearOr(GetYear(s[i]).value, -NO_YEAR) >= YearOr(GetYear(s[j]).value, -NO_YEAR))
  {
    SortCollectionOrdered(arts, sort);
    var s := SortCollection(arts, sort).value;
    forall i | 0 <= i < |s| ensures GetYear(s[i]).Ok? {
      YearDescKey(s[i], sort);
    }
    forall i, j | 0 <= i < j < |s|
      ensures (GetYear(s[i]).value.None? ==> GetYear(s[j]).value.None?)
              && (GetYear(s[i]).value.Some? && GetYear(s[j]).value.Some? ==>
                    YearOr(GetYear(s[i]).value, -NO_YEAR) >= YearOr(GetYear(s[j]).value, -NO_YEAR))
    {
      YearDescPair(s[i], s[j], sort);
    }
  }

  // -------------------------------------------------------------------
  // search_collection
  // -------------------------------------------------------------------

  /** The test of the search_collection comprehension: the record matches
      the query and the object type. */
  predicate Matches(art: Json, query: string, objectType: Option<string>) {
    MatchesQuerySpec(art, query) && MatchesObjectType(art, objectType)
  }

  /** The records matching both the query and the object type, in
      collection order. */
  function Filter(arts: seq<Json>, query: string, objectType: Option<string>): seq<Json> {
    FilterBy(arts, a => Matches(a, query, objectType))
  }

  /** The filter keeps exactly the matching records, in collection order
      and with their repetitions: every kept record matches both
      predicates, every matching record is kept, and a list of matching
      records is kept whole. */
  lemma FilterSpec(arts: seq<Json>, query: string, objectType: Option<string>)
    ensures IsFilterOf(Filter(arts, query, objectType), arts, a => Matches(a, query, objectType))
    ensures forall a :: multiset(Filter(arts, query, objectType))[a]
                        == if Matches(a, query, objectType) then multiset(arts)[a] else 0
    ensures |Filter(arts, query, objectType)| <= |arts|
    ensures forall a :: a in Filter(arts, query, objectType) <==> a in arts && Matches(a, query, objectType)
    ensures (forall i :: 0 <= i < |arts| ==> Matches(arts[i], query, objectType))
              ==> Filter(arts, query, objectType) == arts
  {
    FilterBySpec(arts, a => Matches(a, query, objectType));
  }

  /** What search_collection returns, or the error it raises. */
  function SearchCollectionSpec(src: Source, query: string, page: int, pageSize: int, sort: string, objectType: Option<string>): Result<(seq<Json>, int), Fault> {
    var filtered := Filter(LoadCollection(src), query, objectType);
    match SortCollection(filtered, sort)
    case Err(f) => Err(f)
    case Ok(sorted) =>
      var pg := if page < 1 then 1 else page;
      var ps := if pageSize <= 0 then DEFAULT_PAGE_SIZE else pageSize;
      Ok((Page(sorted, pg, ps), |sorted|))
  }

  /** The list comprehension of search_collection. */
  method FilterCollection(allItems: seq<Json>, query: string, objectType: Option<string>) returns (filtered: seq<Json>)
    ensures filtered == Filter(allItems, query, objectType)
  {
    ghost var keep := a => Matches(a, query, objectType);
    filtered := [];
    for i := 0 to |allItems|
      invariant filtered == FilterBy(allItems[..i], keep)
    {
      var art := allItems[i];
      var matches := MatchesQuery(art, query);
      FilterBySnoc(allItems, i, keep);
      if matches && MatchesObjectType(art, objectType) {
        filtered := filtered + [art];
      }
    }
    assert allItems[..|allItems|] == allItems;
  }

  /** search_collection: filter, sort in place, count, clamp, slice. */
  method SearchCollection(src: Source, query: string, page: int, pageSize: int, sort: string, objectType: Option<string>)
    returns (r: Result<(seq<Json>, int), Fault>)
    ensures r == SearchCollectionSpec(src, query, page, pageSize, sort, objectType)
  {
    var allItems := LoadCollection(src);
    var filtered := FilterCollection(allItems, query, objectType);

    var sorted := SortCollection(filtered, sort);
    if sorted.Err? {
      return Err(sorted.error);
    }
    filtered := sorted.value;

    var total := |filtered|;

    var pg := page;
    var ps := pageSize;
    if pg < 1 {
      pg := 1;
    }
    if ps <= 0 {
      ps := DEFAULT_PAGE_SIZE;
    }

    var pageItems := Page(filtered, pg, ps);
    return Ok((pageItems, total));
  }

  /** The records a search sorts and pages (when no key raises). */
  function SortedMatches(src: Source, query: string, sort: string, objectType: Option<string>): Result<seq<Json>, Fault> {
    SortCollection(Filter(LoadCollection(src), query, objectType), sort)
  }

  /** Every returned record is a dict of the collection matching the query
      and the object type, and the total counts every matching record
      before slicing. */
  lemma SearchReturnsMatches(src: Source, query: string, page: int, pageSize: int, sort: string, objectType: Option<string>)
    requires SearchCollectionSpec(src, query, page, pageSize, sort, objectType).Ok?
    ensures var (items, total) := SearchCollectionSpec(src, query, page, pageSize, sort, objectType).value;
            && total == |Filter(LoadCollection(src), query, objectType)|
            && forall a :: a in items ==>
                 a in LoadCollection(src) && a.Obj? && Matches(a, query, objectType)
  {
    var all := LoadCollection(src);
    var filtered := Filter(all, query, objectType);
    LoadCollectionSpec(src);
    FilterSpec(all, query, objectType);
    SortCollectionSpec(filtered, sort);
    var sorted := SortCollection(filtered, sort).value;
    var pg := if page < 1 then 1 else page;
    var ps := if pageSize <= 0 then DEFAULT_PAGE_SIZE else pageSize;
    PageWithin(sorted, pg, ps);
    forall a | a in Page(sorted, pg, ps) ensures a in filtered {
      assert a in multiset(sorted);
    }
  }

  /** Pagination: a page below 1 counts as 1 and a page size of 0 or less
      as 12; at most that many records come back; the pages 1 to
      ceil(total / size) concatenate to the whole sorted result, so no
      record is lost or repeated; and any later page is empty. */
  lemma SearchPaging(src: Source, query: string, page: int, pageSize: int, sort: string, objectType: Option<string>)
    requires SortedMatches(src, query, sort, objectType).Ok?
    ensures var sorted := SortedMatches(src, query, sort, objectType).value;
            var pg := if page < 1 then 1 else page;
            var ps := if pageSize <= 0 then DEFAULT_PAGE_SIZE else pageSize;
            var (items, total) := SearchCollectionSpec(src, query, page, pageSize, sort, objectType).value;
            && items == Page(sorted, pg, ps)
            && total == |sorted|
            && |items| <= ps
            && Pages(sorted, ps, PageCount(total, ps)) == sorted
            && (pg > PageCount(total, ps) ==> items == [])
            && (pg <= PageCount(total, ps) ==> items != [])
  {
    var sorted := SortedMatches(src, query, sort, objectType).value;
    var pg := if page < 1 then 1 else page;
    var ps := if pageSize <= 0 then DEFAULT_PAGE_SIZE else pageSize;
    PageWindow(sorted, pg, ps);
    PagesPartition(sorted, ps);
    if pg > PageCount(|sorted|, ps) {
      PageBeyondLast(sorted, pg, ps);
    } else {
      PageWithinRangeNonEmpty(sorted, pg, ps);
    }
  }
}
