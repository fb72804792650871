/**
  The publications feed: a paginated, filterable list. The list screen keeps
  the loaded publications, the last page fetched, whether the server said a
  next page exists, four loading flags and the selected category ids.

  Each fetch is split in two. The first part is the guard and the query; it
  returns the request. The query is built after the stored token is read, but
  from the selection and categories the call captured when it was made, so
  the first part reads the state of the moment. The second part applies the
  response (or the failure) and runs the `finally`. The network is therefore
  an input to `CompleteFetch`.
 */
module Publications {
  import opened Wrappers
  import Selection

  const PublicationsApiUrl: string := "https://clubdelamusica-pruebas.com/api/v1/publicaciones/"

  datatype Category = Category(id: int, nombre: string)

  datatype Publication = Publication(id: int, codigo: string, titulo: string, situacion: string)

  /** What the publications request produces: a page `{results, next}`, or a thrown error. */
  datatype FetchOutcome =
    | Fetched(results: seq<Publication>, next: Option<string>)
    | FetchFailed

  /** The query string of a publications request, before `encodeURIComponent`. */
  datatype PublicationsQuery = PublicationsQuery(page: nat, categoria: Option<string>)

  /** A started `fetchPublications(pageNumber, shouldRefresh)` and the query it sends. */
  datatype FetchRequest = FetchRequest(pageNumber: nat, shouldRefresh: bool, query: PublicationsQuery)

  // ---------------------------------------------------------------------
  // Resolving the selected ids to names

  /** `categories.find(cat => cat.id === id)?.nombre`: the first category with that id. */
  function FindCategoryName(categories: seq<Category>, id: int): (r: Option<string>)
    ensures r.None? <==> forall i :: 0 <= i < |categories| ==> categories[i].id != id
    ensures r.Some? ==> exists i :: 0 <= i < |categories| && categories[i].id == id &&
                           categories[i].nombre == r.value &&
                           forall j :: 0 <= j < i ==> categories[j].id != id
  {
    if categories == [] then None
    else if categories[0].id == id then Some(categories[0].nombre)
    else
      var r := FindCategoryName(categories[1..], id);
      assert forall i :: 1 <= i < |categories| ==> categories[i] == categories[1..][i - 1];
      r
  }

  /** The resolved name of an id, when it exists and is not empty (the `.filter(Boolean)`). */
  predicate Resolves(categories: seq<Category>, id: int, name: string) {
    FindCategoryName(categories, id) == Some(name) && name != ""
  }

  /** `.map(id => ...?.nombre).filter(Boolean)` over the selected ids. */
  function CategoryNames(selected: seq<int>, categories: seq<Category>): (names: seq<string>)
    ensures |names| <= |selected|
    ensures forall k :: 0 <= k < |names| ==> names[k] != ""
  {
    if selected == [] then []
    else
      var rest := CategoryNames(selected[1..], categories);
      match FindCategoryName(categories, selected[0])
      case Some(n) => if n != "" then [n] + rest else rest
      case None => rest
  }

  lemma {:induction false} CategoryNamesAppend(a: seq<int>, b: seq<int>, categories: seq<Category>)
    ensures CategoryNames(a + b, categories) == CategoryNames(a, categories) + CategoryNames(b, categories)
  {
    if a == [] {
      assert a + b == b;
    } else {
      assert (a + b)[0] == a[0] && (a + b)[1..] == a[1..] + b;
      CategoryNamesAppend(a[1..], b, categories);
    }
  }

  /** The id resolves to some non-empty name. */
  predicate Known(categories: seq<Category>, id: int) {
    FindCategoryName(categories, id).Some? && FindCategoryName(categories, id).value != ""
  }

  /** `name` is the resolved name of one of the selected ids. */
  ghost predicate NameOfSelected(selected: seq<int>, categories: seq<Category>, name: string) {
    exists j :: 0 <= j < |selected| && Resolves(categories, selected[j], name)
  }

  /** Every name sent is the resolved name of some selected id. */
  lemma {:induction false} CategoryNamesSound(selected: seq<int>, categories: seq<Category>)
    ensures forall k :: 0 <= k < |CategoryNames(selected, categories)| ==>
              NameOfSelected(selected, categories, CategoryNames(selected, categories)[k])
  {
    if selected != [] {
      var rest := selected[1..];
      CategoryNamesSound(rest, categories);
      var names := CategoryNames(selected, categories);
      var tail := CategoryNames(rest, categories);
      var shift: nat := if names == tail then 0 else 1;
      assert names == tail || (names == [names[0]] + tail && Resolves(categories, selected[0], names[0]));
      forall k | 0 <= k < |names|
        ensures NameOfSelected(selected, categories, names[k])
      {
        if shift == 1 && k == 0 {
          assert Resolves(categories, selected[0], names[0]);
        } else {
          var m := k - shift;
          assert 0 <= m < |tail| && names[k] == tail[m];
          assert NameOfSelected(rest, categories, tail[m]);
          var j :| 0 <= j < |rest| && Resolves(categories, rest[j], tail[m]);
          assert selected[j + 1] == rest[j];
        }
      }
    }
  }

  /** When every selected id resolves, the names are exactly theirs, one per id, in selection order. */
  lemma {:induction false} CategoryNamesAllKnown(selected: seq<int>, categories: seq<Category>)
    requires forall j :: 0 <= j < |selected| ==> Known(categories, selected[j])
    ensures var names := CategoryNames(selected, categories);
            |names| == |selected| &&
            forall k :: 0 <= k < |names| ==> Resolves(categories, selected[k], names[k])
  {
    if selected != [] {
      var rest := selected[1..];
      assert forall j :: 0 <= j < |rest| ==> rest[j] == selected[j + 1];
      CategoryNamesAllKnown(rest, categories);
      var names := CategoryNames(selected, categories);
      assert names == [FindCategoryName(categories, selected[0]).value] + CategoryNames(rest, categories);
    }
  }

  /** When no selected id resolves, there are no names at all. */
  lemma {:induction false} CategoryNamesNoneKnown(selected: seq<int>, categories: seq<Category>)
    requires forall j, n :: 0 <= j < |selected| ==> !Resolves(categories, selected[j], n)
    ensures CategoryNames(selected, categories) == []
  {
    if selected != [] {
      var rest := selected[1..];
      assert forall j :: 0 <= j < |rest| ==> rest[j] == selected[j + 1];
      CategoryNamesNoneKnown(rest, categories);
      match FindCategoryName(categories, selected[0])
      case Some(n) => assert !Resolves(categories, selected[0], n);
      case None =>
    }
  }

  // ---------------------------------------------------------------------
  // Joining the names, and reading them back

  /** `.join(',')`. */
  function JoinComma(names: seq<string>): string
  {
    if names == [] then ""
    else if |names| == 1 then names[0]
    else names[0] + "," + JoinComma(names[1..])
  }

  function FirstComma(s: string): (i: nat)
    requires ',' in s
    ensures i < |s| && s[i] == ',' && ',' !in s[..i]
  {
    if s[0] == ',' then 0
    else
      assert s == [s[0]] + s[1..];
      var i := FirstComma(s[1..]) + 1;
      assert s[..i] == [s[0]] + s[1..][..i - 1];
      i
  }

  /** Reading a comma-separated value back into its parts. */
  function SplitComma(s: string): (parts: seq<string>)
    ensures |parts| >= 1
    decreases |s|
  {
    if ',' !in s then [s]
    else
      var i := FirstComma(s);
      [s[..i]] + SplitComma(s[i + 1..])
  }

  lemma FirstCommaAfter(a: string, b: string)
    requires ',' !in a
    ensures var s := a + "," + b;
            ',' in s && FirstComma(s) == |a| && s[..|a|] == a && s[|a| + 1..] == b
  {
    var s := a + "," + b;
    assert s[|a|] == ',';
    assert forall j :: 0 <= j < |a| ==> s[j] == a[j];
    assert forall j :: |a| < j <= |s| ==> s[..j][|a|] == ',';
    assert s[..|a|] == a;
    assert s[|a| + 1..] == b;
  }

  /** Splitting a value with a comma: the part before it, then the split of the rest. */
  lemma SplitCommaAt(a: string, b: string)
    requires ',' !in a
    ensures SplitComma(a + "," + b) == [a] + SplitComma(b)
  {
    FirstCommaAfter(a, b);
  }

  /** Names without commas come back from the joined value unchanged. */
  lemma {:induction false} SplitJoin(names: seq<string>)
    requires |names| >= 1
    requires forall k :: 0 <= k < |names| ==> ',' !in names[k]
    ensures SplitComma(JoinComma(names)) == names
  {
    if |names| > 1 {
      var tail := names[1..];
      assert forall k :: 0 <= k < |tail| ==> tail[k] == names[k + 1];
      SplitJoin(tail);
      SplitCommaAt(names[0], JoinComma(tail));
      assert names == [names[0]] + tail;
    }
  }

  // ---------------------------------------------------------------------
  // The request

  /** The query of `fetchPublications`: the page, and the category names only when some are selected. */
  function BuildQuery(pageNumber: nat, selected: seq<int>, categories: seq<Category>): (q: PublicationsQuery)
    ensures q.page == pageNumber
    ensures q.categoria.Some? <==> |selected| > 0
  {
    if |selected| > 0 then PublicationsQuery(pageNumber, Some(JoinComma(CategoryNames(selected, categories))))
    else PublicationsQuery(pageNumber, None)
  }

  /**
    The server reads the selected, resolvable names back from the query, in
    selection order, provided no name contains a comma.
   */
  lemma QueryNamesRoundTrip(pageNumber: nat, selected: seq<int>, categories: seq<Category>)
    requires CategoryNames(selected, categories) != []
    requires forall id, n :: id in selected && Resolves(categories, id, n) ==> ',' !in n
    ensures var q := BuildQuery(pageNumber, selected, categories);
            q.categoria.Some? && SplitComma(q.categoria.value) == CategoryNames(selected, categories)
  {
    var names := CategoryNames(selected, categories);
    CategoryNamesSound(selected, categories);
    forall k | 0 <= k < |names| ensures ',' !in names[k] {
      assert NameOfSelected(selected, categories, names[k]);
      var j :| 0 <= j < |selected| && Resolves(categories, selected[j], names[k]);
      assert selected[j] in selected;
    }
    SplitJoin(names);
  }

  /** Selected ids none of which resolves still add the parameter, with an empty value. */
  lemma QueryWithUnknownIds(pageNumber: nat, selected: seq<int>, categories: seq<Category>)
    requires |selected| > 0
    requires forall j, n :: 0 <= j < |selected| ==> !Resolves(categories, selected[j], n)
    ensures BuildQuery(pageNumber, selected, categories).categoria == Some("")
  {
    CategoryNamesNoneKnown(selected, categories);
  }

  function DecimalDigit(d: nat): (c: char)
    requires d < 10
    ensures '0' <= c <= '9'
  {
    ('0' as int + d) as char
  }

  /** The page number as it appears in the URL. */
  function Decimal(n: nat): (s: string)
    ensures |s| >= 1 && forall i :: 0 <= i < |s| ==> '0' <= s[i] <= '9'
  {
    if n < 10 then [DecimalDigit(n)] else Decimal(n / 10) + [DecimalDigit(n % 10)]
  }

  /** Reading decimal digits back as a number. */
  function DecimalValue(s: string): nat
    requires forall i :: 0 <= i < |s| ==> '0' <= s[i] <= '9'
  {
    if s == [] then 0 else DecimalValue(s[..|s| - 1]) * 10 + (s[|s| - 1] as int - '0' as int)
  }

  lemma {:induction false} DecimalRoundTrip(n: nat)
    ensures DecimalValue(Decimal(n)) == n
  {
    if n >= 10 {
      DecimalRoundTrip(n / 10);
      var s := Decimal(n);
      assert s[..|s| - 1] == Decimal(n / 10);
    }
  }

  /**
    The request URL: `?page=<pageNumber>` always, `&categoria=<encoded names>`
    only with a category parameter; `encode` stands for `encodeURIComponent`.
   */
  function RequestUrl(q: PublicationsQuery, encode: string -> string): (url: string)
    ensures var prefix := PublicationsApiUrl + "?page=" + Decimal(q.page);
            |prefix| <= |url| && url[..|prefix|] == prefix &&
            (q.categoria.None? <==> url == prefix) &&
            (q.categoria.Some? ==> url[|prefix|..] == "&categoria=" + encode(q.categoria.value))
  {
    PublicationsApiUrl + "?page=" + Decimal(q.page) +
    match q.categoria
    case None => ""
    case Some(names) => "&categoria=" + encode(names)
  }

  /**
    The URL of a fetch: the `categoria` parameter follows the page exactly
    when some category is selected, and then carries the encoded join of the
    resolved names.
   */
  lemma UrlForSelection(pageNumber: nat, selected: seq<int>, categories: seq<Category>, encode: string -> string)
    ensures var prefix := PublicationsApiUrl + "?page=" + Decimal(pageNumber);
            var url := RequestUrl(BuildQuery(pageNumber, selected, categories), encode);
            url[..|prefix|] == prefix &&
            (|selected| > 0 <==> |url| > |prefix|) &&
            (|selected| > 0 ==>
               url[|prefix|..] == "&categoria=" + encode(JoinComma(CategoryNames(selected, categories))))
  {
  }

  /** The page number read back from the URL is the one requested. */
  lemma UrlCarriesPage(q: PublicationsQuery, encode: string -> string)
    ensures var start := |PublicationsApiUrl + "?page="|;
            var digits := RequestUrl(q, encode)[start..start + |Decimal(q.page)|];
            (forall i :: 0 <= i < |digits| ==> '0' <= digits[i] <= '9') && DecimalValue(digits) == q.page
  {
    var prefix := PublicationsApiUrl + "?page=" + Decimal(q.page);
    var url := RequestUrl(q, encode);
    var start := |PublicationsApiUrl + "?page="|;
    assert url[start..start + |Decimal(q.page)|] == prefix[start..];
    assert prefix[start..] == Decimal(q.page);
    DecimalRoundTrip(q.page);
  }

  // ---------------------------------------------------------------------
  // Status colour

  const ReceivedColor: string := "#FFA500"
  const InProgressColor: string := "#4CAF50"
  const PendingColor: string := "#FF5722"
  const DefaultColor: string := "#9E9E9E"

  /** `getSituationColor`. */
  function SituationColor(situation: string): string
  {
    match situation
    case "Recibido" => ReceivedColor
    case "En curso" => InProgressColor
    case "Pendiente" => PendingColor
    case _ => DefaultColor
  }

  /**
    Each known status has its own colour, no two alike, and the grey default
    marks exactly the statuses outside the three known ones.
   */
  lemma SituationColorTable(situation: string)
    ensures situation == "Recibido" ==> SituationColor(situation) == ReceivedColor
    ensures situation == "En curso" ==> SituationColor(situation) == InProgressColor
    ensures situation == "Pendiente" ==> SituationColor(situation) == PendingColor
    ensures SituationColor(situation) == DefaultColor <==>
              situation != "Recibido" && situation != "En curso" && situation != "Pendiente"
    ensures SituationColor(situation) in [ReceivedColor, InProgressColor, PendingColor, DefaultColor]
    ensures ReceivedColor != InProgressColor && ReceivedColor != PendingColor && InProgressColor != PendingColor
  {
  }

  // ---------------------------------------------------------------------
  // The list screen's state

  class Feed {
    var publications: seq<Publication>
    var categories: seq<Category>
    var page: nat
    var hasMore: bool
    var isLoading: bool
    var isLoadingMore: bool
    var refreshing: bool
    var isFilterLoading: bool
    var selectedCategories: seq<int>

    /** None of the four loading indicators is on. */
    predicate Idle()
      reads this
    {
      !isLoading && !isLoadingMore && !refreshing && !isFilterLoading
    }

    /** The state of a freshly mounted list screen. */
    constructor ()
      ensures publications == [] && categories == [] && selectedCategories == []
      ensures page == 1 && hasMore
      ensures isLoading && !isLoadingMore && !refreshing && !isFilterLoading
    {
      publications, categories, selectedCategories := [], [], [];
      page, hasMore := 1, true;
      isLoading, isLoadingMore, refreshing, isFilterLoading := true, false, false, false;
    }

    /**
      The part of `fetchPublications` before the response: the early return
      when no page is left and a page other than 1 is asked for, else the
      request built from the current page number and selection.
     */
    method StartFetch(pageNumber: nat, shouldRefresh: bool) returns (req: Option<FetchRequest>)
      ensures req.None? <==> !hasMore && pageNumber != 1
      ensures req.Some? ==>
                req.value == FetchRequest(pageNumber, shouldRefresh,
                                          BuildQuery(pageNumber, selectedCategories, categories))
    {
      if !hasMore && pageNumber != 1 {
        return None;
      }
      var query := BuildQuery(pageNumber, selectedCategories, categories);
      return Some(FetchRequest(pageNumber, shouldRefresh, query));
    }

    /**
      The part of `fetchPublications` after the response: a page replaces or
      extends the list and records `next` and the page number; a failure
      keeps them; the `finally` clears all four loading flags either way.
     */
    method CompleteFetch(req: FetchRequest, outcome: FetchOutcome)
      modifies this
      ensures Idle()
      ensures categories == old(categories) && selectedCategories == old(selectedCategories)
      ensures outcome.Fetched? ==>
                publications == (if req.shouldRefresh then outcome.results
                                 else old(publications) + outcome.results) &&
                hasMore == outcome.next.Some? && page == req.pageNumber
      ensures outcome.FetchFailed? ==>
                publications == old(publications) && hasMore == old(hasMore) && page == old(page)
    {
      match outcome {
        case Fetched(results, next) =>
          if req.shouldRefresh {
            publications := results;
          } else {
            publications := publications + results;
          }
          hasMore := next.Some?;
          page := req.pageNumber;
        case FetchFailed =>
      }
      isLoading := false;
      isLoadingMore := false;
      refreshing := false;
      isFilterLoading := false;
    }

    /** The mount effect's `fetchPublications()`: page 1 with the default append mode. */
    method Mount() returns (req: Option<FetchRequest>)
      ensures req == Some(FetchRequest(1, false, BuildQuery(1, selectedCategories, categories)))
    {
      req := StartFetch(1, false);
    }

    /** `fetchCategories`: the list arrives, or a failure leaves the old one. */
    method ApplyCategories(reply: Option<seq<Category>>)
      modifies this`categories
      ensures categories == if reply.Some? then reply.value else old(categories)
    {
      if reply.Some? {
        categories := reply.value;
      }
    }

    /** `toggleCategory` on the filter switches. */
    method ToggleCategory(id: int)
      modifies this`selectedCategories
      ensures selectedCategories == Selection.Toggle(old(selectedCategories), id)
    {
      selectedCategories := Selection.Toggle(selectedCategories, id);
    }

    /**
      `loadMore`: only when nothing is loading and a next page exists, mark
      the footer loading and ask for the next page in append mode.
     */
    method LoadMore() returns (req: Option<FetchRequest>)
      modifies this`isLoadingMore
      ensures req.Some? <==> old(!isLoading && !isLoadingMore && hasMore)
      ensures req.Some? ==>
                isLoadingMore &&
                req.value == FetchRequest(page + 1, false, BuildQuery(page + 1, selectedCategories, categories))
      ensures req.None? ==> isLoadingMore == old(isLoadingMore)
    {
      if !isLoading && !isLoadingMore && hasMore {
        isLoadingMore := true;
        req := StartFetch(page + 1, false);
      } else {
        req := None;
      }
    }

    /** `onRefresh`: show the spinner, start over at page 1 and replace the list. */
    method OnRefresh() returns (req: Option<FetchRequest>)
      modifies this`refreshing, this`page, this`hasMore
      ensures refreshing && page == 1 && hasMore
      ensures req == Some(FetchRequest(1, true, BuildQuery(1, selectedCategories, categories)))
    {
      refreshing := true;
      page := 1;
      hasMore := true;
      req := StartFetch(1, true);
    }

    /** `applyFilters`: the full-screen overlay, then page 1 in replace mode with the current selection. */
    method ApplyFilters() returns (req: Option<FetchRequest>)
      modifies this`isFilterLoading
      ensures isFilterLoading
      ensures req == Some(FetchRequest(1, true, BuildQuery(1, selectedCategories, categories)))
    {
      isFilterLoading := true;
      req := StartFetch(1, true);
    }
  }

  /**
    A first page `[a, b]` with a next link, one more page `[c]` without one,
    a further scroll that asks for nothing, then a pull-to-refresh that
    brings `[x]` and replaces everything.
   */
  method FeedWalkthrough(a: Publication, b: Publication, c: Publication, x: Publication)
    returns (first: seq<Publication>, more: seq<Publication>, moreAfterLast: bool,
             refreshed: seq<Publication>)
    ensures first == [a, b] && more == [a, b, c] && !moreAfterLast && refreshed == [x]
  {
    var feed := new Feed();
    var req := feed.Mount();
    feed.CompleteFetch(req.value, Fetched([a, b], Some("page=2")));
    first := feed.publications;
    assert feed.hasMore && feed.Idle();
    req := feed.LoadMore();
    feed.CompleteFetch(req.value, Fetched([c], None));
    more := feed.publications;
    req := feed.LoadMore();
    moreAfterLast := req.Some?;
    req := feed.OnRefresh();
    feed.CompleteFetch(req.value, Fetched([x], None));
    refreshed := feed.publications;
  }
}
