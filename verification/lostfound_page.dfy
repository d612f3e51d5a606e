/** The lost-and-found browsing page: the parameters it sends to the nearby
    query, when that query runs, and the client-side search and ordering of
    the rows that come back. */
module LostFoundPage {
  import opened Common
  import Sorting
  import Text
  import LostFound

  /** A row as the page reads it; any field may be missing. The creation
      time may come under two keys: `createdAt`, as the query builder names
      it, and `createdAtColumn`, the column name `created_at` that a raw SQL
      row carries. */
  datatype Row = Row(
    id: nat,
    title: Option<string>,
    description: Option<string>,
    category: Option<string>,
    location: Option<string>,
    createdAt: Option<int>,
    createdAtColumn: Option<int>,
    distance: Option<real>)

  /** A row of the nearby query as it reaches the page. The query is raw SQL,
      so the creation time arrives as `created_at` only. */
  function FromNearby(l: LostFound.Located): Row
  {
    Row(l.item.id, Some(l.item.title), Some(l.item.description), l.item.category,
        Some(l.item.location), None, Some(l.item.createdAt), Some(l.distance))
  }

  /** The page rows for the rows of the nearby query. */
  function FromNearbyAll(ls: seq<LostFound.Located>): (rows: seq<Row>)
    ensures |rows| == |ls|
    ensures forall i :: 0 <= i < |ls| ==> rows[i] == FromNearby(ls[i])
  {
    seq(|ls|, i requires 0 <= i < |ls| => FromNearby(ls[i]))
  }

  datatype Tab = AllTab | LostTab | FoundTab

  datatype SortOption = Recent | Nearest

  const DefaultDistanceKm: real := 1.0

  /** The `type` sent for a tab: none for "all". */
  function TabKind(tab: Tab): (k: Option<LostFound.KindFilter>)
    ensures k.None? <==> tab == AllTab
    ensures tab == LostTab ==> k == Some(LostFound.OnlyKind(LostFound.Lost))
    ensures tab == FoundTab ==> k == Some(LostFound.OnlyKind(LostFound.Found))
  {
    match tab
    case AllTab => None
    case LostTab => Some(LostFound.OnlyKind(LostFound.Lost))
    case FoundTab => Some(LostFound.OnlyKind(LostFound.Found))
  }

  /** Whether a row survives the search for `q` (already lower-cased). The
      chain of `??` stops at the first field that is present, so a present
      title alone decides; a row with none of the four fields is dropped. */
  predicate SearchMatches(r: Row, q: string)
  {
    if r.title.Some? then Text.Contains(Text.Lower(r.title.value), q)
    else if r.description.Some? then Text.Contains(Text.Lower(r.description.value), q)
    else if r.category.Some? then Text.Contains(Text.Lower(r.category.value), q)
    else if r.location.Some? then Text.Contains(Text.Lower(r.location.value), q)
    else false
  }

  /** The rows of `rows` that match `q`, in their order. */
  function Matching(rows: seq<Row>, q: string): seq<Row>
  {
    if rows == [] then []
    else
      var rest := Matching(rows[..|rows| - 1], q);
      if SearchMatches(rows[|rows| - 1], q) then rest + [rows[|rows| - 1]] else rest
  }

  /** The search step of the page: nothing is removed for an empty query. */
  function Search(rows: seq<Row>, query: string): seq<Row>
  {
    if query == "" then rows else Matching(rows, Text.Lower(query))
  }

  lemma {:induction false} MatchingExact(rows: seq<Row>, q: string)
    ensures forall r :: r in Matching(rows, q) <==> r in rows && SearchMatches(r, q)
    ensures |Matching(rows, q)| <= |rows|
  {
    if rows != [] {
      var init := rows[..|rows| - 1];
      MatchingExact(init, q);
      assert rows == init + [rows[|rows| - 1]];
    }
  }

  /** The search keeps exactly the rows that match a non-empty query, keeps
      every row for the empty one, and never adds a row. */
  lemma SearchExact(rows: seq<Row>, query: string)
    ensures query == "" ==> Search(rows, query) == rows
    ensures query != "" ==> forall r :: r in Search(rows, query) <==>
      r in rows && SearchMatches(r, Text.Lower(query))
    ensures forall r :: r in Search(rows, query) ==> r in rows
  {
    MatchingExact(rows, Text.Lower(query));
  }

  /** A row with a title is kept exactly when its title contains the query,
      whatever its other fields say. */
  lemma TitleDecides(rows: seq<Row>, r: Row, query: string)
    requires r in rows && query != "" && r.title.Some?
    ensures r in Search(rows, query) <==>
      Text.Contains(Text.Lower(r.title.value), Text.Lower(query))
  {
    SearchExact(rows, query);
  }

  /** The "recent" comparison as the page writes it: `createdAt ?? 0`. */
  predicate NewerOrSameAsWritten(a: Row, b: Row)
  {
    a.createdAt.GetOr(0) >= b.createdAt.GetOr(0)
  }

  /** The as-written "recent" comparison never sees a date on the rows of the
      nearby query: every pair compares equal, so every order of them, the
      oldest first included, passes for newest first. */
  lemma RecentAsWrittenIgnoresDates(ls: seq<LostFound.Located>)
    ensures forall i, j :: 0 <= i < |ls| && 0 <= j < |ls| ==>
      NewerOrSameAsWritten(FromNearbyAll(ls)[i], FromNearbyAll(ls)[j])
    ensures Sorting.SortedAll(FromNearbyAll(ls), NewerOrSameAsWritten)
  {
  }

  /** The creation time the page means: `createdAt ?? created_at`, as it
      reads it when showing the date, and 0 when both are missing. */
  function Posted(r: Row): int
  {
    r.createdAt.GetOr(r.createdAtColumn.GetOr(0))
  }

  /** "recent": newest first by `Posted`. */
  predicate NewerOrSame(a: Row, b: Row)
  {
    Posted(a) >= Posted(b)
  }

  /** On the rows of the nearby query, "recent" compares the stored creation
      times, so a list ordered by it is newest first by those times. */
  lemma RecentOrdersByDate(ls: seq<LostFound.Located>)
    ensures forall i, j :: 0 <= i < |ls| && 0 <= j < |ls| ==>
      (NewerOrSame(FromNearbyAll(ls)[i], FromNearbyAll(ls)[j]) <==>
       ls[i].item.createdAt >= ls[j].item.createdAt)
    ensures Sorting.SortedAll(FromNearbyAll(ls), NewerOrSame) ==>
      forall i, j :: 0 <= i < j < |ls| ==> ls[i].item.createdAt >= ls[j].item.createdAt
  {
  }

  /** "distance": nearest first, a missing distance counting as infinitely far. */
  predicate NearerOrSame(a: Row, b: Row)
  {
    match (a.distance, b.distance)
    case (Some(x), Some(y)) => x <= y
    case (Some(_), None) => true
    case (None, Some(_)) => false
    case (None, None) => true
  }

  function Order(sort: SortOption): (Row, Row) -> bool
  {
    match sort
    case Recent => NewerOrSame
    case Nearest => NearerOrSame
  }

  /** Both orders compare every pair and chain; a row without a date counts
      as time 0 and a row without a distance as infinitely far. */
  lemma OrderIsTotal(sort: SortOption)
    ensures Sorting.Total(Order(sort)) && Sorting.Transitive(Order(sort))
  {
  }

  /** The state of the page. `location` is the browser position already
      turned into text; `hasUserAddress` is whether the registered-address
      query returned a row. */
  class Page {
    var searchQuery: string
    var distanceFilter: real
    var appliedDistance: real
    var sortOption: SortOption
    var filtersApplied: bool
    var location: Option<(string, string)>
    var useRegisteredAddress: bool
    var hasUserAddress: bool
    var activeTab: Tab
    var selectedCategory: Option<string>
    var filteredItems: seq<Row>

    constructor ()
      ensures searchQuery == "" && distanceFilter == DefaultDistanceKm
      ensures appliedDistance == DefaultDistanceKm && sortOption == Recent
      ensures !filtersApplied && location.None? && !useRegisteredAddress && !hasUserAddress
      ensures activeTab == AllTab && selectedCategory.None? && filteredItems == []
    {
      searchQuery := "";
      distanceFilter := DefaultDistanceKm;
      appliedDistance := DefaultDistanceKm;
      sortOption := Recent;
      filtersApplied := false;
      location := None;
      useRegisteredAddress := false;
      hasUserAddress := false;
      activeTab := AllTab;
      selectedCategory := None;
      filteredItems := [];
    }

    /** `queryParams`: the browser position or "0"/"0"; the registered
        address only when the switch is on and there is one; the applied
        distance; no `type` on the "all" tab; the selected category. */
    function QueryParams(): (p: LostFound.NearbyInput)
      reads this
      ensures location.None? ==> p.latitude == "0" && p.longitude == "0"
      ensures location.Some? ==> p.latitude == location.value.0 && p.longitude == location.value.1
      ensures p.useRegisteredAddress == Some(useRegisteredAddress && hasUserAddress)
      ensures p.kind.None? <==> activeTab == AllTab
      ensures LostFound.KindOf(p.kind) == LostFound.AnyKind <==> activeTab == AllTab
      ensures p.category == selectedCategory
      ensures appliedDistance != 0.0 ==> LostFound.Radius(p.maxDistance) == appliedDistance
    {
      LostFound.NearbyInput(
        if location.Some? then location.value.0 else "0",
        if location.Some? then location.value.1 else "0",
        Some(appliedDistance),
        Some(useRegisteredAddress && hasUserAddress),
        TabKind(activeTab),
        selectedCategory)
    }

    /** The nearby query runs exactly when the browser position is known;
        the fallback to the registered address is never reached, because the
        left operand of `??` is a boolean. */
    function QueryEnabled(): (enabled: bool)
      reads this
      ensures enabled <==> location.Some?
    {
      var hasLocation := location.Some?;
      var fallback := hasUserAddress && useRegisteredAddress;
      Some(hasLocation).GetOr(fallback)
    }

    /** The effect on the nearby rows: with no rows nothing happens; otherwise
        the rows are searched, ordered by the sort option, and shown. */
    method RefreshFilteredItems(nearby: Option<seq<Row>>)
      modifies this`filteredItems
      ensures nearby.None? ==> filteredItems == old(filteredItems)
      ensures nearby.Some? ==>
        multiset(filteredItems) == multiset(Search(nearby.value, searchQuery))
      ensures nearby.Some? ==> Sorting.SortedAll(filteredItems, Order(sortOption))
    {
      if nearby.None? {
        return;
      }
      var items := nearby.value;
      if searchQuery != "" {
        items := Matching(items, Text.Lower(searchQuery));
      }
      var a := new Row[|items|](k requires 0 <= k < |items| => items[k]);
      assert a[..] == items;
      var order := Order(sortOption);
      OrderIsTotal(sortOption);
      Sorting.SortBy(a, order);
      Sorting.SortedIsSortedAll(a[..], order);
      filteredItems := a[..];
    }

    method SetSearchQuery(query: string)
      modifies this`searchQuery
      ensures searchQuery == query
    {
      searchQuery := query;
    }

    /** The slider moves `distanceFilter` only; nothing is sent yet. */
    method SetDistance(value: real)
      modifies this`distanceFilter
      ensures distanceFilter == value
    {
      distanceFilter := value;
    }

    /** `applyFilters`: the slider's distance becomes the one sent. */
    method ApplyFilters()
      modifies this`appliedDistance, this`filtersApplied
      ensures appliedDistance == distanceFilter && filtersApplied
    {
      appliedDistance := distanceFilter;
      filtersApplied := true;
    }

    /** `resetFilters`: back to 1 km and no category. */
    method ResetFilters()
      modifies this`distanceFilter, this`appliedDistance, this`filtersApplied,
               this`selectedCategory
      ensures distanceFilter == DefaultDistanceKm && appliedDistance == DefaultDistanceKm
      ensures !filtersApplied && selectedCategory.None?
    {
      distanceFilter := DefaultDistanceKm;
      appliedDistance := DefaultDistanceKm;
      filtersApplied := false;
      selectedCategory := None;
    }

    /** The category select: "all" clears the category. */
    method SelectCategory(value: string)
      modifies this`selectedCategory
      ensures selectedCategory == if value == "all" then None else Some(value)
    {
      selectedCategory := if value == "all" then None else Some(value);
    }

    method SetSortOption(sort: SortOption)
      modifies this`sortOption
      ensures sortOption == sort
    {
      sortOption := sort;
    }

    method SetActiveTab(tab: Tab)
      modifies this`activeTab
      ensures activeTab == tab
    {
      activeTab := tab;
    }

    /** The location switch. */
    method SetUseRegisteredAddress(on: bool)
      modifies this`useRegisteredAddress
      ensures useRegisteredAddress == on
    {
      useRegisteredAddress := on;
    }

    /** The geolocation callbacks: a position, or `None` on error. */
    method SetLocation(position: Option<(string, string)>)
      modifies this`location
      ensures location == position
    {
      location := position;
    }

    /** The registered-address query answered; a row switches the page to the
        registered address, no row leaves the switch as it was. */
    method ReceiveUserAddress(found: bool)
      modifies this`hasUserAddress, this`useRegisteredAddress
      ensures hasUserAddress == found
      ensures useRegisteredAddress == (found || old(useRegisteredAddress))
    {
      hasUserAddress := found;
      if found {
        useRegisteredAddress := true;
      }
    }
  }
}
