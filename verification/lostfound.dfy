/** The `lostFound` router over the `lost_found_items` table: listing an item,
    the nearby search, lookup by id, status changes by the owner, the owner's
    own listing, and the list of categories. */
module LostFound {
  import opened Common
  import opened Geo
  import Sorting
  import Text
  import Address
  import opened Columns

  datatype Kind = Lost | Found
  datatype Status = Active | Resolved | Expired
  datatype ContactMethod = Platform | Custom

  /** A row of `lost_found_items`. Coordinates are stored as text. */
  datatype Item = Item(
    id: nat,
    kind: Kind,
    title: string,
    description: string,
    category: Option<string>,
    date: int,
    location: string,
    latitude: string,
    longitude: string,
    imageUrl: Option<string>,
    contactMethod: ContactMethod,
    contactInfo: Option<string>,
    status: Status,
    userId: UserId,
    createdAt: int,
    updatedAt: int)

  /** The input of `create`. */
  datatype NewItem = NewItem(
    kind: Kind,
    title: string,
    description: string,
    category: Option<string>,
    location: string,
    latitude: string,
    longitude: string,
    imageUrl: Option<string>,
    contactMethod: ContactMethod,
    contactInfo: Option<string>)

  /** The `type` filters: `"all"` or one kind. */
  datatype KindFilter = AnyKind | OnlyKind(kind: Kind)

  /** The `status` filter of `getUserItems`: `"all"` or one status. */
  datatype StatusFilter = AnyStatus | OnlyStatus(status: Status)

  /** The input of `getNearbyItems`; absent optional fields are `None`. */
  datatype NearbyInput = NearbyInput(
    latitude: string,
    longitude: string,
    maxDistance: Option<real>,
    useRegisteredAddress: Option<bool>,
    kind: Option<KindFilter>,
    category: Option<string>)

  /** A row of the nearby query: the item and its distance from the origin. */
  datatype Located = Located(item: Item, distance: real)

  /** The result of `getById`. */
  datatype ItemView = ItemView(item: Item, distance: Option<real>, creatorName: string)

  const DefaultRadiusKm: real := 1.5

  /** The request schema's bounds on a title: 3 to 100 UTF-16 code units,
      JavaScript's measure of a string's length. */
  predicate WellFormed(input: NewItem)
  {
    3 <= Text.Utf16Length(input.title) <= 100
  }

  /** Every text of the new row fits its `varchar` column: title 100,
      category 50, location, coordinates, contact and owner 255, image URL
      1024; the description is unbounded `text`. */
  predicate FitsColumns(input: NewItem, owner: UserId)
  {
    && Fits(100, input.title)
    && FitsOpt(50, input.category)
    && Fits(255, input.location)
    && Fits(255, input.latitude)
    && Fits(255, input.longitude)
    && FitsOpt(1024, input.imageUrl)
    && FitsOpt(255, input.contactInfo)
    && Fits(255, owner)
  }

  /** A title the request schema accepts always fits its column, since a
      string has no more characters than UTF-16 code units. */
  lemma WellFormedTitleFits(input: NewItem)
    requires WellFormed(input)
    ensures Fits(100, input.title)
  {
  }

  /** The row `create` inserts for `owner`. */
  function Listed(id: nat, input: NewItem, owner: UserId, now: int): Item
  {
    Item(id, input.kind, input.title, input.description, input.category, now, input.location,
         input.latitude, input.longitude, input.imageUrl, input.contactMethod, input.contactInfo,
         Active, owner, now, now)
  }

  /** `input.maxDistance || 1.5`: absent and zero both give the default. */
  function Radius(maxDistance: Option<real>): real
  {
    if maxDistance.None? || maxDistance.value == 0.0 then DefaultRadiusKm else maxDistance.value
  }

  /** `input.type || "all"`. */
  function KindOf(kind: Option<KindFilter>): KindFilter
  {
    kind.GetOr(AnyKind)
  }

  /** `if (input.category)`: the empty string filters nothing. */
  predicate CategoryGiven(category: Option<string>)
  {
    category.Some? && category.value != ""
  }

  /** The inner `WHERE` of the nearby query. A row without a category never
      equals a given one. */
  predicate Selected(it: Item, kind: KindFilter, category: Option<string>)
  {
    && it.status == Active
    && (kind.OnlyKind? ==> it.kind == kind.kind)
    && (CategoryGiven(category) ==> it.category == Some(category.value))
  }

  /** The item's stored coordinates as `parseFloat` reads them. */
  function Locate(it: Item, parse: Parser): Option<Coord>
  {
    ParseCoord(parse, it.latitude, it.longitude)
  }

  /** The item's stored coordinates as the nearby query's `::numeric` cast
      reads them: `None` when either cast fails, `Some(None)` when either
      gives `NaN`. */
  function Place(it: Item, cast: Cast): Option<Option<Coord>>
  {
    var lat := cast(it.latitude);
    var lon := cast(it.longitude);
    if lat.None? || lon.None? then None
    else if lat.value.Number? && lon.value.Number? then Some(Some(Coord(lat.value.value, lon.value.value)))
    else Some(None)
  }

  /** Some selected row has a coordinate that is not a numeric literal, so
      the query's cast fails and the router answers with no rows. */
  predicate Unlocatable(rows: seq<Item>, kind: KindFilter, category: Option<string>, cast: Cast)
  {
    exists it :: it in rows && Selected(it, kind, category) && Place(it, cast).None?
  }

  /** The selected rows strictly within `radius` of `origin`, in table order,
      each with the distance the query computes for it. */
  function Nearby(rows: seq<Item>, kind: KindFilter, category: Option<string>, origin: Coord,
                  radius: real, cast: Cast, dist: Metric): seq<Located>
  {
    if rows == [] then []
    else
      var rest := Nearby(rows[..|rows| - 1], kind, category, origin, radius, cast, dist);
      var it := rows[|rows| - 1];
      var at := Place(it, cast);
      if Selected(it, kind, category) && at.Some? && SqlDistance(dist, Some(origin), at.value) < radius
      then rest + [Located(it, SqlDistance(dist, Some(origin), at.value))]
      else rest
  }

  /** Every row `Nearby` returns is active, passes the type and category
      filters, and lies strictly inside the radius at the distance it carries. */
  lemma {:induction false} NearbySound(rows: seq<Item>, kind: KindFilter, category: Option<string>,
                                       origin: Coord, radius: real, cast: Cast, dist: Metric)
    ensures forall l :: l in Nearby(rows, kind, category, origin, radius, cast, dist) ==>
      && l.item in rows
      && l.item.status == Active
      && Selected(l.item, kind, category)
      && Place(l.item, cast).Some?
      && l.distance == SqlDistance(dist, Some(origin), Place(l.item, cast).value)
      && l.distance < radius
  {
    if rows != [] {
      var init := rows[..|rows| - 1];
      NearbySound(init, kind, category, origin, radius, cast, dist);
      assert forall it :: it in init ==> it in rows;
    }
  }

  /** Every selected row the cast can place strictly inside the radius is
      returned. */
  lemma {:induction false} NearbyComplete(rows: seq<Item>, kind: KindFilter, category: Option<string>,
                                          origin: Coord, radius: real, cast: Cast, dist: Metric)
    ensures forall it :: it in rows && Selected(it, kind, category) && Place(it, cast).Some?
                         && SqlDistance(dist, Some(origin), Place(it, cast).value) < radius ==>
      Located(it, SqlDistance(dist, Some(origin), Place(it, cast).value))
        in Nearby(rows, kind, category, origin, radius, cast, dist)
  {
    if rows != [] {
      var init := rows[..|rows| - 1];
      NearbyComplete(init, kind, category, origin, radius, cast, dist);
      assert rows == init + [rows[|rows| - 1]];
    }
  }

  /** A selected row whose stored coordinate casts to `NaN` lies at distance 0
      from every origin, so any positive radius returns it. */
  lemma NotANumberIsNearby(rows: seq<Item>, kind: KindFilter, category: Option<string>,
                           origin: Coord, radius: real, cast: Cast, dist: Metric, it: Item)
    requires it in rows && Selected(it, kind, category)
    requires Place(it, cast) == Some(None)
    requires 0.0 < radius
    ensures Located(it, 0.0) in Nearby(rows, kind, category, origin, radius, cast, dist)
  {
    NearbyComplete(rows, kind, category, origin, radius, cast, dist);
  }

  /** The rows of `owner` that `getUserItems` keeps: an absent `type` means
      `"lost"` and an absent `status` means `"active"`, whichever branch of the
      router runs. */
  predicate Mine(it: Item, owner: UserId, kind: Option<KindFilter>, status: Option<StatusFilter>)
  {
    && it.userId == owner
    && (match kind.GetOr(OnlyKind(Lost))
        case AnyKind => true
        case OnlyKind(k) => it.kind == k)
    && (match status.GetOr(OnlyStatus(Active))
        case AnyStatus => true
        case OnlyStatus(s) => it.status == s)
  }

  function MineOf(rows: seq<Item>, owner: UserId, kind: Option<KindFilter>,
                  status: Option<StatusFilter>): seq<Item>
  {
    if rows == [] then []
    else
      var rest := MineOf(rows[..|rows| - 1], owner, kind, status);
      if Mine(rows[|rows| - 1], owner, kind, status) then rest + [rows[|rows| - 1]] else rest
  }

  /** `MineOf` keeps exactly the rows `Mine` accepts, and never invents one. */
  lemma {:induction false} MineOfExact(rows: seq<Item>, owner: UserId, kind: Option<KindFilter>,
                                       status: Option<StatusFilter>)
    ensures forall it :: it in MineOf(rows, owner, kind, status) <==>
      it in rows && Mine(it, owner, kind, status)
    ensures |MineOf(rows, owner, kind, status)| <= |rows|
  {
    if rows != [] {
      var init := rows[..|rows| - 1];
      MineOfExact(init, owner, kind, status);
      assert rows == init + [rows[|rows| - 1]];
    }
  }

  /** The non-null categories of `rows`. */
  function Categories(rows: seq<Item>): set<string>
  {
    if rows == [] then {}
    else
      var last := rows[|rows| - 1];
      Categories(rows[..|rows| - 1]) + (if last.category.Some? then {last.category.value} else {})
  }

  lemma {:induction false} CategoriesExact(rows: seq<Item>, c: string)
    ensures c in Categories(rows) <==> exists it :: it in rows && it.category == Some(c)
  {
    if rows != [] {
      var init := rows[..|rows| - 1];
      CategoriesExact(init, c);
      assert rows == init + [rows[|rows| - 1]];
    }
  }

  /** The first row with `id`, as `findFirst({where: eq(id, itemId)})`. */
  function WithId(rows: seq<Item>, id: int): (r: Option<Item>)
    ensures r.Some? ==> r.value in rows && r.value.id == id
    ensures r.None? <==> forall it :: it in rows ==> it.id != id
  {
    if rows == [] then None
    else if rows[0].id == id then Some(rows[0])
    else WithId(rows[1..], id)
  }

  /** `update(lostFoundItems).set({status, updatedAt}).where(id = itemId)`. */
  function Restatus(rows: seq<Item>, id: int, status: Status, now: int): seq<Item>
  {
    seq(|rows|, i requires 0 <= i < |rows| =>
      if rows[i].id == id then rows[i].(status := status, updatedAt := now) else rows[i])
  }

  predicate NearerOrSame(x: Located, y: Located)
  {
    x.distance <= y.distance
  }

  predicate NewerOrSame(x: Item, y: Item)
  {
    x.createdAt >= y.createdAt
  }

  /** The origin of a nearby search: the caller's registered address when the
      request asks for it, the caller is signed in and has one; otherwise the
      coordinates in the request. `None` when either coordinate is `NaN`. */
  function Origin(input: NearbyInput, caller: Option<UserId>, book: Address.AddressBook,
                  parse: Parser): Option<Coord>
    reads book
  {
    if input.useRegisteredAddress == Some(true) && LoggedIn(caller) && book.Find(caller.value).Some?
    then ParseCoord(parse, book.Find(caller.value).value.latitude,
                    book.Find(caller.value).value.longitude)
    else ParseCoord(parse, input.latitude, input.longitude)
  }

  /** The distance `getById` reports: only for a signed-in caller with a
      registered address, when both the item and the address have non-empty
      coordinates. They are read with `parseFloat` and sent to the SQL
      distance, so a `NaN` among them gives 0. */
  function ViewDistance(it: Item, caller: Option<UserId>, book: Address.AddressBook, parse: Parser,
                        dist: Metric): Option<real>
    reads book
  {
    if LoggedIn(caller) && it.latitude != "" && it.longitude != "" then
      var home := book.Find(caller.value);
      if home.Some? && home.value.latitude != "" && home.value.longitude != "" then
        var from := ParseCoord(parse, home.value.latitude, home.value.longitude);
        var to := Locate(it, parse);
        Some(SqlDistance(dist, from, to))
      else None
    else None
  }

  /** One pass of the nearby query over the table: the selected rows inside
      the radius, and whether some selected row fails the coordinate cast. */
  method ScanNearby(rows: seq<Item>, kind: KindFilter, category: Option<string>, origin: Coord,
                    radius: real, cast: Cast, dist: Metric)
    returns (found: seq<Located>, castFails: bool)
    ensures found == Nearby(rows, kind, category, origin, radius, cast, dist)
    ensures castFails == Unlocatable(rows, kind, category, cast)
  {
    found, castFails := [], false;
    var i := 0;
    while i < |rows|
      invariant 0 <= i <= |rows|
      invariant found == Nearby(rows[..i], kind, category, origin, radius, cast, dist)
      invariant castFails == Unlocatable(rows[..i], kind, category, cast)
    {
      var it := rows[i];
      assert rows[..i + 1] == rows[..i] + [it];
      var at := Place(it, cast);
      if Selected(it, kind, category) {
        if at.None? {
          castFails := true;
        } else if SqlDistance(dist, Some(origin), at.value) < radius {
          found := found + [Located(it, SqlDistance(dist, Some(origin), at.value))];
        }
      }
      i := i + 1;
    }
    assert rows[..i] == rows;
  }

  /** The `lost_found_items` table. */
  class ItemTable {
    var rows: seq<Item>
    var nextId: nat

    /** Ids are issued from `nextId` and never repeat. */
    ghost predicate Valid()
      reads this
    {
      && (forall i :: 0 <= i < |rows| ==> rows[i].id < nextId)
      && (forall i, j :: 0 <= i < j < |rows| ==> rows[i].id != rows[j].id)
    }

    constructor ()
      ensures Valid() && rows == [] && nextId == 0
    {
      rows, nextId := [], 0;
    }

    /** `create`: a signed-in caller lists an item, which starts `active` and
        belongs to the caller whatever the input says; the insert fails when
        a text is too long for its column. */
    method Create(caller: Option<UserId>, input: NewItem, now: int) returns (r: Result<()>)
      requires Valid()
      modifies this
      ensures Valid()
      ensures !WellFormed(input) ==> r == Err(BadRequest)
      ensures WellFormed(input) && !LoggedIn(caller) ==> r == Err(Unauthorized)
      ensures WellFormed(input) && LoggedIn(caller) && !FitsColumns(input, caller.value) ==>
                r == Err(DatabaseError)
      ensures r.Ok? <==> WellFormed(input) && LoggedIn(caller) && FitsColumns(input, caller.value)
      ensures r.Err? ==> rows == old(rows) && nextId == old(nextId)
      ensures r.Ok? ==>
        && rows == old(rows) + [Listed(old(nextId), input, caller.value, now)]
        && nextId == old(nextId) + 1
        && rows[|rows| - 1].status == Active
        && rows[|rows| - 1].userId == caller.value
    {
      if !WellFormed(input) {
        return Err(BadRequest);
      }
      if !LoggedIn(caller) {
        return Err(Unauthorized);
      }
      if !FitsColumns(input, caller.value) {
        return Err(DatabaseError);
      }
      rows := rows + [Listed(nextId, input, caller.value, now)];
      nextId := nextId + 1;
      r := Ok(());
    }

    /** `getNearbyItems`: the active rows that pass the type and category
        filters and lie strictly within the radius of the origin, nearest
        first. An origin that is not a number gives no rows, not an error. */
    method GetNearbyItems(input: NearbyInput, caller: Option<UserId>, book: Address.AddressBook,
                          parse: Parser, cast: Cast, dist: Metric) returns (result: seq<Located>)
      ensures Origin(input, caller, book, parse).None? ==> result == []
      ensures (Origin(input, caller, book, parse).Some?
               && Unlocatable(rows, KindOf(input.kind), input.category, cast)) ==> result == []
      ensures (Origin(input, caller, book, parse).Some?
               && !Unlocatable(rows, KindOf(input.kind), input.category, cast)) ==>
        multiset(result) == multiset(Nearby(rows, KindOf(input.kind), input.category,
                                            Origin(input, caller, book, parse).value,
                                            Radius(input.maxDistance), cast, dist))
      ensures forall i, j :: 0 <= i < j < |result| ==> result[i].distance <= result[j].distance
    {
      var lat := parse(input.latitude);
      var lon := parse(input.longitude);
      var radius := Radius(input.maxDistance);
      var kind := KindOf(input.kind);
      if input.useRegisteredAddress == Some(true) && LoggedIn(caller) {
        var registered := book.Find(caller.value);
        if registered.Some? {
          lat := parse(registered.value.latitude);
          lon := parse(registered.value.longitude);
        }
      }
      if lat.None? || lon.None? {
        return [];
      }
      var origin := Coord(lat.value, lon.value);
      var found, castFails := ScanNearby(rows, kind, input.category, origin, radius, cast, dist);
      if castFails {
        return [];
      }
      var a := new Located[|found|](k requires 0 <= k < |found| => found[k]);
      assert a[..] == found;
      Sorting.SortBy(a, NearerOrSame);
      result := a[..];
      Sorting.SortedIsSortedAll(result, NearerOrSame);
    }

    /** `getById`: the row with the parsed id (`None` when `parseInt` gives
        `NaN`), its distance from the caller's registered address, and the
        creator's display name, "Anonymous User" when the identity lookup
        `creator` gives none or the row has no owner. Every failure is
        re-thrown as the plain `Error` "Failed to fetch item", named
        `NotFound` here. */
    function GetById(itemId: Option<int>, caller: Option<UserId>, book: Address.AddressBook,
                     creator: Option<string>, parse: Parser, dist: Metric): (r: Result<ItemView>)
      reads this, book
      ensures r.Err? <==> itemId.None? || forall it :: it in rows ==> it.id != itemId.value
      ensures r.Err? ==> r.failure == NotFound
      ensures r.Ok? ==> r.value.item in rows && r.value.item.id == itemId.value
      ensures r.Ok? ==> r.value.distance == ViewDistance(r.value.item, caller, book, parse, dist)
      ensures r.Ok? && (r.value.item.userId == "" || creator.None?) ==>
        r.value.creatorName == "Anonymous User"
      ensures r.Ok? && r.value.item.userId != "" && creator.Some? ==>
        r.value.creatorName == creator.value
    {
      if itemId.None? then Err(NotFound)
      else
        match WithId(rows, itemId.value)
        case None => Err(NotFound)
        case Some(it) =>
          var name := if it.userId != "" && creator.Some? then creator.value else "Anonymous User";
          Ok(ItemView(it, ViewDistance(it, caller, book, parse, dist), name))
    }

    /** `updateStatus`: only the signed-in owner of an existing item may change
        it, and only its `status` and `updatedAt` change. */
    method UpdateStatus(caller: Option<UserId>, itemId: int, status: Status, now: int)
      returns (r: Result<()>)
      requires Valid()
      modifies this
      ensures Valid() && nextId == old(nextId)
      ensures !LoggedIn(caller) ==> r == Err(Unauthorized)
      ensures LoggedIn(caller) && WithId(old(rows), itemId).None? ==> r == Err(NotFound)
      ensures (LoggedIn(caller) && WithId(old(rows), itemId).Some?
               && WithId(old(rows), itemId).value.userId != caller.value) ==> r == Err(Forbidden)
      ensures r.Ok? <==> (LoggedIn(caller) && WithId(old(rows), itemId).Some?
                          && WithId(old(rows), itemId).value.userId == caller.value)
      ensures r.Err? ==> rows == old(rows)
      ensures r.Ok? ==> rows == Restatus(old(rows), itemId, status, now)
      ensures |rows| == |old(rows)|
      ensures forall i :: 0 <= i < |rows| && old(rows)[i].id != itemId ==> rows[i] == old(rows)[i]
      ensures r.Ok? ==> forall i :: 0 <= i < |rows| && old(rows)[i].id == itemId ==>
        rows[i] == old(rows)[i].(status := status, updatedAt := now)
    {
      if !LoggedIn(caller) {
        return Err(Unauthorized);
      }
      var item := WithId(rows, itemId);
      if item.None? {
        return Err(NotFound);
      }
      if item.value.userId != caller.value {
        return Err(Forbidden);
      }
      rows := Restatus(rows, itemId, status, now);
      r := Ok(());
    }

    /** `getUserItems`: the signed-in caller's own rows under the `type` and
        `status` filters, newest first. The router picks one of four queries;
        all four agree with `Mine`. */
    method GetUserItems(caller: Option<UserId>, kind: Option<KindFilter>,
                        status: Option<StatusFilter>) returns (r: Result<seq<Item>>)
      ensures !LoggedIn(caller) ==> r == Err(Unauthorized)
      ensures LoggedIn(caller) ==> r.Ok?
      ensures r.Ok? ==> multiset(r.value) == multiset(MineOf(rows, caller.value, kind, status))
      ensures r.Ok? ==> forall it :: it in r.value <==> it in rows && Mine(it, caller.value, kind, status)
      ensures r.Ok? ==> forall i, j :: 0 <= i < j < |r.value| ==>
        r.value[i].createdAt >= r.value[j].createdAt
    {
      if !LoggedIn(caller) {
        return Err(Unauthorized);
      }
      var owner := caller.value;
      var where: Item -> bool;
      if kind == Some(AnyKind) && status == Some(AnyStatus) {
        where := (it: Item) => it.userId == owner;
      } else if kind == Some(AnyKind) {
        var s := if status.Some? then status.value.status else Active;
        where := (it: Item) => it.userId == owner && it.status == s;
      } else if status == Some(AnyStatus) {
        var k := if kind.Some? then kind.value.kind else Lost;
        where := (it: Item) => it.userId == owner && it.kind == k;
      } else {
        var k := if kind.Some? then kind.value.kind else Lost;
        var s := if status.Some? then status.value.status else Active;
        where := (it: Item) => it.userId == owner && it.kind == k && it.status == s;
      }
      assert forall it :: where(it) == Mine(it, owner, kind, status);
      var found: seq<Item> := [];
      var i := 0;
      while i < |rows|
        invariant 0 <= i <= |rows|
        invariant found == MineOf(rows[..i], owner, kind, status)
      {
        assert rows[..i + 1] == rows[..i] + [rows[i]];
        if where(rows[i]) {
          found := found + [rows[i]];
        }
        i := i + 1;
      }
      assert rows[..i] == rows;
      var a := new Item[|found|](k requires 0 <= k < |found| => found[k]);
      assert a[..] == found;
      Sorting.SortBy(a, NewerOrSame);
      Sorting.SortedIsSortedAll(a[..], NewerOrSame);
      MineOfExact(rows, owner, kind, status);
      assert forall it :: it in a[..] <==> it in multiset(found);
      r := Ok(a[..]);
    }

    /** `getCategories`: every non-null category exactly once, in ascending
        order. */
    method GetCategories() returns (cats: seq<string>)
      ensures forall c :: c in cats <==> exists it :: it in rows && it.category == Some(c)
      ensures Sorting.Distinct(cats)
      ensures forall i, j :: 0 <= i < j < |cats| ==> Text.StrLe(cats[i], cats[j])
    {
      var seen: seq<string> := [];
      var i := 0;
      while i < |rows|
        invariant 0 <= i <= |rows|
        invariant forall c :: c in seen <==> c in Categories(rows[..i])
        invariant Sorting.Distinct(seen)
      {
        assert rows[..i + 1] == rows[..i] + [rows[i]];
        var c := rows[i].category;
        if c.Some? && c.value !in seen {
          seen := seen + [c.value];
        }
        i := i + 1;
      }
      assert rows[..i] == rows;
      var a := new string[|seen|](k requires 0 <= k < |seen| => seen[k]);
      assert a[..] == seen;
      forall x: string, y: string
        ensures Text.StrLe(x, y) || Text.StrLe(y, x)
      {
        Text.StrLeTotal(x, y);
      }
      Sorting.SortBy(a, Text.StrLe);
      cats := a[..];
      Sorting.PermutationKeepsDistinct(seen, cats);
      forall x: string, y: string, z: string | Text.StrLe(x, y) && Text.StrLe(y, z)
        ensures Text.StrLe(x, z)
      {
        Text.StrLeTransitive(x, y, z);
      }
      Sorting.SortedIsSortedAll(cats, Text.StrLe);
      forall c
        ensures c in cats <==> exists it :: it in rows && it.category == Some(c)
      {
        CategoriesExact(rows, c);
        assert c in cats <==> c in multiset(cats);
        assert c in seen <==> c in multiset(seen);
      }
    }
  }
}
