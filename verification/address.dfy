/** The `address` router: one registered home address per user, written by an
    update-or-insert that always clears the verification flag, and a
    verification step that compares the caller's live position with the
    registered one. */
module Address {
  import opened Common
  import opened Geo
  import opened Columns

  /** Largest distance, in kilometres, at which a live position verifies the
      registered address; the boundary itself verifies. */
  const MaxVerificationDistanceKm: real := 1.5

  /** The address and its coordinates fit their `varchar(255)` columns. */
  predicate AddressFits(address: string, latitude: string, longitude: string)
  {
    Fits(255, address) && Fits(255, latitude) && Fits(255, longitude)
  }

  /** A row of `user_addresses`. Coordinates are stored as text. */
  datatype UserAddress = UserAddress(
    id: nat,
    userId: UserId,
    address: string,
    latitude: string,
    longitude: string,
    verified: bool,
    createdAt: int,
    updatedAt: int)

  datatype VerifyOutcome = AlreadyVerified | NewlyVerified

  /** The row a lookup by `user_id` finds first, in table order. */
  function FirstFor(rows: seq<UserAddress>, uid: UserId): (r: Option<UserAddress>)
    ensures r.Some? ==> r.value in rows && r.value.userId == uid
    ensures r.None? <==> forall a :: a in rows ==> a.userId != uid
  {
    if rows == [] then None
    else if rows[0].userId == uid then Some(rows[0])
    else FirstFor(rows[1..], uid)
  }

  /** `update(userAddresses).set({address, latitude, longitude, updatedAt,
      verified: false}).where(userId = uid)`. */
  function Overwrite(rows: seq<UserAddress>, uid: UserId, address: string, latitude: string,
                     longitude: string, now: int): seq<UserAddress>
  {
    seq(|rows|, i requires 0 <= i < |rows| =>
      if rows[i].userId == uid
      then rows[i].(address := address, latitude := latitude, longitude := longitude,
                    updatedAt := now, verified := false)
      else rows[i])
  }

  /** `Overwrite` rewrites exactly the rows of `uid`, keeping their ids. */
  lemma OverwriteRows(rows: seq<UserAddress>, uid: UserId, address: string, latitude: string,
                      longitude: string, now: int)
    ensures var r := Overwrite(rows, uid, address, latitude, longitude, now);
      && |r| == |rows|
      && (forall i :: 0 <= i < |rows| ==> r[i].id == rows[i].id && r[i].userId == rows[i].userId)
      && (forall i :: 0 <= i < |rows| && rows[i].userId != uid ==> r[i] == rows[i])
      && (forall a :: a in r && a.userId == uid ==>
            a.address == address && a.latitude == latitude && a.longitude == longitude
            && !a.verified)
  {
  }

  /** `update(userAddresses).set({verified: true}).where(userId = uid)`. */
  function MarkVerified(rows: seq<UserAddress>, uid: UserId): seq<UserAddress>
  {
    seq(|rows|, i requires 0 <= i < |rows| =>
      if rows[i].userId == uid then rows[i].(verified := true) else rows[i])
  }

  /** What `verifyAddress` decides once it has found the caller's row: an
      already verified row succeeds untouched; otherwise the live position
      `current` must lie within `MaxVerificationDistanceKm` of the registered
      one, and a coordinate that is `NaN` never does. */
  function Verification(row: UserAddress, current: Option<Coord>, parse: Parser, dist: Metric)
    : (r: Result<VerifyOutcome>)
    ensures r == Ok(AlreadyVerified) <==> row.verified
    ensures r == Ok(NewlyVerified) <==>
      && !row.verified
      && current.Some?
      && ParseCoord(parse, row.latitude, row.longitude).Some?
      && dist(current.value, ParseCoord(parse, row.latitude, row.longitude).value)
           <= MaxVerificationDistanceKm
    ensures r.Err? ==> r.failure == BadRequest
  {
    if row.verified then Ok(AlreadyVerified)
    else
      var registered := ParseCoord(parse, row.latitude, row.longitude);
      if current.Some? && registered.Some?
         && dist(current.value, registered.value) <= MaxVerificationDistanceKm
      then Ok(NewlyVerified)
      else Err(BadRequest)
  }

  /** After `MarkVerified`, the lookup of `uid` finds the same row as before,
      now verified. */
  lemma {:induction false} MarkVerifiedFinds(rows: seq<UserAddress>, uid: UserId)
    requires FirstFor(rows, uid).Some?
    ensures FirstFor(MarkVerified(rows, uid), uid) == Some(FirstFor(rows, uid).value.(verified := true))
  {
    var r := MarkVerified(rows, uid);
    if rows[0].userId != uid {
      assert r[1..] == MarkVerified(rows[1..], uid);
      MarkVerifiedFinds(rows[1..], uid);
    }
  }

  /** A verification that succeeds, followed by the write it triggers, leaves
      a row that the next lookup finds verified, so every later verification
      succeeds at once, wherever the caller then stands. */
  lemma VerificationIdempotent(rows: seq<UserAddress>, uid: UserId, current: Option<Coord>,
                               later: Option<Coord>, parse: Parser, dist: Metric)
    requires FirstFor(rows, uid).Some?
    requires Verification(FirstFor(rows, uid).value, current, parse, dist).Ok?
    ensures var after := if Verification(FirstFor(rows, uid).value, current, parse, dist) == Ok(NewlyVerified)
                         then MarkVerified(rows, uid) else rows;
      && FirstFor(after, uid).Some?
      && FirstFor(after, uid).value.verified
      && Verification(FirstFor(after, uid).value, later, parse, dist) == Ok(AlreadyVerified)
  {
    MarkVerifiedFinds(rows, uid);
  }

  /** Ids are issued from `nextId` and never repeat; no user has two rows. */
  ghost predicate Keyed(rows: seq<UserAddress>, nextId: nat)
  {
    && (forall i :: 0 <= i < |rows| ==> rows[i].id < nextId)
    && (forall i, j :: 0 <= i < j < |rows| ==> rows[i].id != rows[j].id)
    && (forall i, j :: 0 <= i < j < |rows| ==> rows[i].userId != rows[j].userId)
  }

  /** Setting `verified` changes no id and no owner, so the table stays
      keyed. */
  lemma MarkVerifiedKeeps(rows: seq<UserAddress>, nextId: nat, uid: UserId)
    requires Keyed(rows, nextId)
    ensures Keyed(MarkVerified(rows, uid), nextId)
  {
  }

  /** Overwriting the row of a user who has one keeps the table keyed and
      leaves that user with the new fields, unverified. */
  lemma OverwriteKeeps(rows: seq<UserAddress>, nextId: nat, uid: UserId, address: string,
                       latitude: string, longitude: string, now: int)
    requires Keyed(rows, nextId)
    requires FirstFor(rows, uid).Some?
    ensures var r := Overwrite(rows, uid, address, latitude, longitude, now);
      && Keyed(r, nextId)
      && FirstFor(r, uid).Some?
      && FirstFor(r, uid).value.address == address
      && FirstFor(r, uid).value.latitude == latitude
      && FirstFor(r, uid).value.longitude == longitude
      && !FirstFor(r, uid).value.verified
  {
    var r := Overwrite(rows, uid, address, latitude, longitude, now);
    OverwriteRows(rows, uid, address, latitude, longitude, now);
    var k :| 0 <= k < |rows| && rows[k] == FirstFor(rows, uid).value;
    assert r[k] in r;
  }

  /** Overwriting the rows of `uid` keeps everyone else's rows, in both
      directions. */
  lemma OverwriteKeepsOthers(rows: seq<UserAddress>, uid: UserId, address: string,
                             latitude: string, longitude: string, now: int)
    ensures var r := Overwrite(rows, uid, address, latitude, longitude, now);
      && (forall a :: a in rows && a.userId != uid ==> a in r)
      && (forall a :: a in r && a.userId != uid ==> a in rows)
  {
    var r := Overwrite(rows, uid, address, latitude, longitude, now);
    OverwriteRows(rows, uid, address, latitude, longitude, now);
    forall a | a in rows && a.userId != uid
      ensures a in r
    {
      var i :| 0 <= i < |rows| && rows[i] == a;
      assert r[i] == a;
    }
    forall a | a in r && a.userId != uid
      ensures a in rows
    {
      var i :| 0 <= i < |r| && r[i] == a;
      assert rows[i] == a;
    }
  }

  /** Appending a row for a user who has none keeps the table keyed and gives
      that user the new row. */
  lemma AppendKeeps(rows: seq<UserAddress>, nextId: nat, uid: UserId, address: string,
                    latitude: string, longitude: string, now: int)
    requires Keyed(rows, nextId)
    requires FirstFor(rows, uid).None?
    ensures var r := rows + [UserAddress(nextId, uid, address, latitude, longitude, false, now, now)];
      && Keyed(r, nextId + 1)
      && FirstFor(r, uid) == Some(r[|r| - 1])
  {
    var r := rows + [UserAddress(nextId, uid, address, latitude, longitude, false, now, now)];
    assert forall i :: 0 <= i < |rows| ==> rows[i] in rows;
    assert r[|r| - 1] in r;
    var x := FirstFor(r, uid).value;
    var i :| 0 <= i < |r| && r[i] == x;
  }

  /** The `user_addresses` table. */
  class AddressBook {
    var rows: seq<UserAddress>
    var nextId: nat

    /** See `Keyed`. */
    ghost predicate Valid()
      reads this
    {
      Keyed(rows, nextId)
    }

    constructor ()
      ensures Valid() && rows == [] && nextId == 0
    {
      rows, nextId := [], 0;
    }

    /** `findFirst({where: eq(userId, uid)})`. */
    function Find(uid: UserId): (r: Option<UserAddress>)
      reads this
      ensures r.Some? ==> r.value in rows && r.value.userId == uid
      ensures r.None? <==> forall a :: a in rows ==> a.userId != uid
    {
      FirstFor(rows, uid)
    }

    /** `getUserAddress`: the caller's row, or null; an absent caller is
        looked up as the empty id. */
    function GetUserAddress(caller: Option<UserId>): (r: Option<UserAddress>)
      reads this
      ensures r.Some? ==> r.value in rows && r.value.userId == caller.GetOr("")
      ensures r.None? <==> forall a :: a in rows ==> a.userId != caller.GetOr("")
    {
      Find(caller.GetOr(""))
    }

    /** `setAddress`: overwrite the caller's row if there is one, else insert
        one; either way the row ends unverified. The write fails when a text
        is too long for its column: the address and coordinates on both
        paths, the owner only on the insert. `Ok(true)` reports an update,
        `Ok(false)` an insert. */
    method SetAddress(caller: Option<UserId>, address: string, latitude: string,
                      longitude: string, now: int) returns (r: Result<bool>)
      requires Valid()
      modifies this
      ensures Valid()
      ensures r.Err? <==>
        || !AddressFits(address, latitude, longitude)
        || (old(Find(caller.GetOr(""))).None? && !Fits(255, caller.GetOr("")))
      ensures r.Err? ==> r.failure == DatabaseError && rows == old(rows) && nextId == old(nextId)
      ensures r.Ok? ==> r.value == old(Find(caller.GetOr(""))).Some?
      ensures r == Ok(true) ==>
        rows == Overwrite(old(rows), caller.GetOr(""), address, latitude, longitude, now)
        && nextId == old(nextId)
      ensures r == Ok(false) ==>
        rows == old(rows) + [UserAddress(old(nextId), caller.GetOr(""), address, latitude,
                                         longitude, false, now, now)]
        && nextId == old(nextId) + 1
      ensures r.Ok? ==> Find(caller.GetOr("")).Some?
      ensures r.Ok? ==> var a := Find(caller.GetOr("")).value;
        a.address == address && a.latitude == latitude && a.longitude == longitude && !a.verified
      ensures forall a :: a in old(rows) && a.userId != caller.GetOr("") ==> a in rows
      ensures forall a :: a in rows && a.userId != caller.GetOr("") ==> a in old(rows)
    {
      var uid := caller.GetOr("");
      var existing := Find(uid);
      if !AddressFits(address, latitude, longitude) {
        return Err(DatabaseError);
      }
      if existing.Some? {
        OverwriteKeeps(rows, nextId, uid, address, latitude, longitude, now);
        OverwriteKeepsOthers(rows, uid, address, latitude, longitude, now);
        rows := Overwrite(rows, uid, address, latitude, longitude, now);
        r := Ok(true);
      } else {
        if !Fits(255, uid) {
          return Err(DatabaseError);
        }
        AppendKeeps(rows, nextId, uid, address, latitude, longitude, now);
        rows := rows + [UserAddress(nextId, uid, address, latitude, longitude, false, now, now)];
        nextId := nextId + 1;
        r := Ok(false);
      }
    }

    /** `verifyAddress`: refuse an absent caller and a caller without a row;
        otherwise decide by `Verification` and, on `NewlyVerified`, write
        `verified = true` and nothing else. */
    method VerifyAddress(caller: Option<UserId>, currentLatitude: string,
                         currentLongitude: string, parse: Parser, dist: Metric)
      returns (r: Result<VerifyOutcome>)
      requires Valid()
      modifies this
      ensures Valid() && nextId == old(nextId)
      ensures !LoggedIn(caller) ==> r == Err(Unauthorized)
      ensures LoggedIn(caller) && old(Find(caller.value)).None? ==> r == Err(NotFound)
      ensures LoggedIn(caller) && old(Find(caller.value)).Some? ==>
        r == Verification(old(Find(caller.value)).value,
                          ParseCoord(parse, currentLatitude, currentLongitude), parse, dist)
      ensures rows == if r == Ok(NewlyVerified) then MarkVerified(old(rows), caller.value)
                      else old(rows)
      ensures r.Ok? ==> Find(caller.value) == Some(old(Find(caller.value)).value.(verified := true))
    {
      if !LoggedIn(caller) {
        return Err(Unauthorized);
      }
      var uid := caller.value;
      var row := Find(uid);
      if row.None? {
        return Err(NotFound);
      }
      if row.value.verified {
        assert row.value.(verified := true) == row.value;
        return Ok(AlreadyVerified);
      }
      var registered := ParseCoord(parse, row.value.latitude, row.value.longitude);
      var current := ParseCoord(parse, currentLatitude, currentLongitude);
      if current.Some? && registered.Some?
         && dist(current.value, registered.value) <= MaxVerificationDistanceKm
      {
        MarkVerifiedFinds(rows, uid);
        MarkVerifiedKeeps(rows, nextId, uid);
        rows := MarkVerified(rows, uid);
        r := Ok(NewlyVerified);
      } else {
        r := Err(BadRequest);
      }
      assert r == Verification(row.value, current, parse, dist);
    }
  }
}
