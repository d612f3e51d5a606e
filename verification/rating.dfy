/** The `rating` router over `user_ratings`: one score from 1 to 5 per
    (rated user, rater), replaced on re-rating; an average; a probe; and a
    newest-first page of ratings. */
module Rating {
  import opened Common
  import opened Columns
  import Sorting

  const MinScore: int := 1
  const MaxScore: int := 5
  const DefaultPageSize: int := 10
  const MaxPageSize: int := 100

  /** A row of `user_ratings`: `raterId` scored `userId`. */
  datatype Rating = Rating(
    id: nat,
    userId: UserId,
    raterId: UserId,
    score: int,
    comment: Option<string>,
    createdAt: int)

  /** The result of `hasRated`. */
  datatype Probe = Probe(hasRated: bool, currentRating: Option<int>)

  /** The result of `getUserRating`. */
  datatype Summary = Summary(userId: UserId, averageScore: real, totalRatings: nat, userName: string)

  /** A rating with the rater's display name. */
  datatype RatingView = RatingView(rating: Rating, raterName: string)

  /** The result of `getUserRatingsDetails`. */
  datatype RatingPage = RatingPage(ratings: seq<RatingView>, nextCursor: Option<nat>)

  /** The rows about `uid`, in table order. */
  function About(rows: seq<Rating>, uid: UserId): seq<Rating>
  {
    if rows == [] then []
    else
      var rest := About(rows[..|rows| - 1], uid);
      if rows[|rows| - 1].userId == uid then rest + [rows[|rows| - 1]] else rest
  }

  lemma {:induction false} AboutExact(rows: seq<Rating>, uid: UserId)
    ensures forall r :: r in About(rows, uid) <==> r in rows && r.userId == uid
  {
    if rows != [] {
      var init := rows[..|rows| - 1];
      AboutExact(init, uid);
      assert rows == init + [rows[|rows| - 1]];
    }
  }

  function Sum(rows: seq<Rating>): int
  {
    if rows == [] then 0 else Sum(rows[..|rows| - 1]) + rows[|rows| - 1].score
  }

  /** Scores from 1 to 5 add up to between one and five times their count. */
  lemma {:induction false} SumBounds(rows: seq<Rating>)
    requires forall r :: r in rows ==> MinScore <= r.score <= MaxScore
    ensures MinScore * |rows| <= Sum(rows) <= MaxScore * |rows|
  {
    if rows != [] {
      var init := rows[..|rows| - 1];
      assert forall r :: r in init ==> r in rows;
      SumBounds(init);
    }
  }

  /** The first row of the pair, as `findFirst` on (userId, raterId). */
  function PairRow(rows: seq<Rating>, uid: UserId, rater: UserId): (r: Option<Rating>)
    ensures r.Some? ==> r.value in rows && r.value.userId == uid && r.value.raterId == rater
    ensures r.None? <==> forall x :: x in rows ==> !(x.userId == uid && x.raterId == rater)
  {
    if rows == [] then None
    else if rows[0].userId == uid && rows[0].raterId == rater then Some(rows[0])
    else PairRow(rows[1..], uid, rater)
  }

  /** A row of the pair after the update. An absent `comment` is dropped
      from the `SET`, so the stored comment stays. */
  function Rescored(x: Rating, score: int, comment: Option<string>, now: int): Rating
  {
    x.(score := score, comment := if comment.Some? then comment else x.comment, createdAt := now)
  }

  /** `update(userRatings).set({score, comment, createdAt}).where(pair)`. */
  function Rescore(rows: seq<Rating>, uid: UserId, rater: UserId, score: int,
                   comment: Option<string>, now: int): seq<Rating>
  {
    seq(|rows|, i requires 0 <= i < |rows| =>
      if rows[i].userId == uid && rows[i].raterId == rater
      then Rescored(rows[i], score, comment, now)
      else rows[i])
  }

  predicate NewerOrSame(x: Rating, y: Rating)
  {
    x.createdAt >= y.createdAt
  }

  /** The rater's display name from the identity lookup `names`. */
  function RaterName(names: map<UserId, string>, rater: UserId): string
  {
    if rater in names then names[rater] else "Anonymous User"
  }

  /** `Rescore` rewrites only the pair's rows and keeps every key. The pair's
      rows get the new score and time, and keep their comment unless a new
      one is given. */
  lemma RescoreRows(rows: seq<Rating>, uid: UserId, rater: UserId, score: int,
                    comment: Option<string>, now: int)
    ensures var r := Rescore(rows, uid, rater, score, comment, now);
      && |r| == |rows|
      && (forall i :: 0 <= i < |rows| ==>
            r[i].id == rows[i].id && r[i].userId == rows[i].userId && r[i].raterId == rows[i].raterId)
      && (forall i :: 0 <= i < |rows| && rows[i].userId == uid && rows[i].raterId == rater ==>
            && r[i].score == score && r[i].createdAt == now
            && r[i].comment == (if comment.Some? then comment else rows[i].comment))
      && (forall i :: 0 <= i < |rows| && !(rows[i].userId == uid && rows[i].raterId == rater) ==>
            r[i] == rows[i])
  {
  }

  /** The mean of scores lying within 1..5 lies within 1..5. */
  lemma MeanBounds(sum: int, count: nat)
    requires MinScore * count <= sum <= MaxScore * count
    ensures 0 < count ==> (sum as real / count as real) * (count as real) == sum as real
    ensures 0 < count ==> MinScore as real <= sum as real / count as real <= MaxScore as real
  {
    if count == 0 {
      return;
    }
    var m := sum as real / count as real;
    assert m * count as real == sum as real;
  }

  /** When every row's score lies within 1..5, so does every score about
      `uid`, and their sum lies between one and five times their count. */
  lemma AboutSumBounds(rows: seq<Rating>, uid: UserId)
    requires forall i :: 0 <= i < |rows| ==> MinScore <= rows[i].score <= MaxScore
    ensures MinScore * |About(rows, uid)| <= Sum(About(rows, uid)) <= MaxScore * |About(rows, uid)|
  {
    var mine := About(rows, uid);
    AboutExact(rows, uid);
    forall r | r in mine
      ensures MinScore <= r.score <= MaxScore
    {
      var i :| 0 <= i < |rows| && rows[i] == r;
    }
    SumBounds(mine);
  }

  /** The ratings a page carries. */
  function Ratings(page: RatingPage): seq<Rating>
  {
    seq(|page.ratings|, i requires 0 <= i < |page.ratings| => page.ratings[i].rating)
  }

  /** In a newest-first sequence, whatever lies past a prefix is no newer
      than anything in it. */
  lemma PrefixIsNewest(sorted: seq<Rating>, k: nat)
    requires k <= |sorted|
    requires Sorting.SortedAll(sorted, NewerOrSame)
    ensures multiset(sorted) - multiset(sorted[..k]) == multiset(sorted[k..])
    ensures forall x, y :: x in multiset(sorted) - multiset(sorted[..k]) && y in sorted[..k] ==>
      x.createdAt <= y.createdAt
  {
    assert sorted == sorted[..k] + sorted[k..];
    assert multiset(sorted) - multiset(sorted[..k]) == multiset(sorted[k..]);
    forall x, y | x in multiset(sorted[k..]) && y in sorted[..k]
      ensures x.createdAt <= y.createdAt
    {
      var i :| 0 <= i < |sorted[k..]| && sorted[k..][i] == x;
      var j :| 0 <= j < k && sorted[j] == y;
      assert sorted[k + i] == x;
      assert NewerOrSame(sorted[j], sorted[k + i]);
    }
  }

  /** `page` is taken from `all`, newest first, and nothing left behind is
      newer than anything taken. */
  ghost predicate NewestFirstPage(all: seq<Rating>, page: seq<Rating>)
  {
    && multiset(page) <= multiset(all)
    && (forall i, j :: 0 <= i < j < |page| ==> page[i].createdAt >= page[j].createdAt)
    && (forall x, y :: x in multiset(all) - multiset(page) && y in page ==>
          x.createdAt <= y.createdAt)
  }

  /** `x` is one of the rows of `all` left out of `page`, and no row left out
      is newer. */
  ghost predicate NewestLeftOut(all: seq<Rating>, page: seq<Rating>, x: Rating)
  {
    && x in multiset(all) - multiset(page)
    && forall y :: y in multiset(all) - multiset(page) ==> y.createdAt <= x.createdAt
  }

  /** The first `n` of a newest-first ordering of `all` are a newest-first
      selection of `all` with nothing newer left behind, and the row just past
      them, when there is one, is the newest of those left behind. */
  lemma PageOf(all: seq<Rating>, sorted: seq<Rating>, n: nat)
    requires multiset(all) == multiset(sorted)
    requires Sorting.SortedAll(sorted, NewerOrSame)
    ensures var page := sorted[..if |sorted| < n then |sorted| else n];
      && NewestFirstPage(all, page)
      && (|sorted| > n ==> NewestLeftOut(all, page, sorted[n]))
  {
    var k := if |sorted| < n then |sorted| else n;
    PrefixPage(all, sorted, k);
    if |sorted| > n {
      NewestFrom(sorted, n);
    }
  }

  /** Any prefix of a newest-first ordering of `all` is a newest-first page
      of `all`, and what it leaves out is the rest of the ordering. */
  lemma PrefixPage(all: seq<Rating>, sorted: seq<Rating>, k: nat)
    requires multiset(all) == multiset(sorted)
    requires Sorting.SortedAll(sorted, NewerOrSame)
    requires k <= |sorted|
    ensures NewestFirstPage(all, sorted[..k])
    ensures multiset(all) - multiset(sorted[..k]) == multiset(sorted[k..])
  {
    assert sorted == sorted[..k] + sorted[k..];
    PrefixIsNewest(sorted, k);
  }

  /** In a newest-first sequence, the row at `n` is the newest of those from
      `n` on. */
  lemma NewestFrom(sorted: seq<Rating>, n: nat)
    requires n < |sorted|
    requires Sorting.SortedAll(sorted, NewerOrSame)
    ensures sorted[n] in multiset(sorted[n..])
    ensures forall y :: y in multiset(sorted[n..]) ==> y.createdAt <= sorted[n].createdAt
  {
    assert sorted[n..][0] == sorted[n];
    forall y | y in multiset(sorted[n..])
      ensures y.createdAt <= sorted[n].createdAt
    {
      var i :| 0 <= i < |sorted[n..]| && sorted[n..][i] == y;
      if 0 < i {
        assert NewerOrSame(sorted[n], sorted[n + i]);
      }
    }
  }

  /** The ratings of `page` with their raters' names. */
  function Views(page: seq<Rating>, names: map<UserId, string>): (v: seq<RatingView>)
    ensures |v| == |page|
    ensures forall i :: 0 <= i < |page| ==> v[i].rating == page[i]
    ensures forall i :: 0 <= i < |page| ==> v[i].raterName == RaterName(names, page[i].raterId)
  {
    seq(|page|, i requires 0 <= i < |page| => RatingView(page[i], RaterName(names, page[i].raterId)))
  }

  /** The page query on `all`: order newest first, fetch `n + 1`, and when the
      extra row comes back pop it and report its id. The popped row is the
      newest of those left out. */
  method NewestPage(all: seq<Rating>, n: nat) returns (page: seq<Rating>, next: Option<nat>)
    ensures |page| == if |all| < n then |all| else n
    ensures NewestFirstPage(all, page)
    ensures next.Some? <==> |all| > n
    ensures next.Some? ==> exists x :: NewestLeftOut(all, page, x) && x.id == next.value
  {
    var a := new Rating[|all|](k requires 0 <= k < |all| => all[k]);
    assert a[..] == all;
    Sorting.SortBy(a, NewerOrSame);
    var sorted := a[..];
    Sorting.SortedIsSortedAll(sorted, NewerOrSame);
    PageOf(all, sorted, n);
    page := sorted[..if |sorted| < n + 1 then |sorted| else n + 1];
    next := None;
    if |page| > n {
      var dropped := page[n];
      page := page[..n];
      next := Some(dropped.id);
      assert dropped == sorted[n];
    }
    assert page == sorted[..if |sorted| < n then |sorted| else n];
  }

  /** Ids are issued from `nextId`; a pair has at most one row; every score
      is one the input schema admits. */
  ghost predicate Keyed(rows: seq<Rating>, nextId: nat)
  {
    && (forall i :: 0 <= i < |rows| ==> rows[i].id < nextId)
    && (forall i, j :: 0 <= i < j < |rows| ==> rows[i].id != rows[j].id)
    && (forall i, j :: 0 <= i < j < |rows| ==>
          !(rows[i].userId == rows[j].userId && rows[i].raterId == rows[j].raterId))
    && (forall i :: 0 <= i < |rows| ==> MinScore <= rows[i].score <= MaxScore)
  }

  /** Re-rating an existing pair keeps the table keyed, and the pair's row
      becomes its old row rescored: same id, new score and time, and the old
      comment unless a new one is given. */
  lemma RescoreKeeps(rows: seq<Rating>, nextId: nat, uid: UserId, rater: UserId, score: int,
                     comment: Option<string>, now: int)
    requires Keyed(rows, nextId)
    requires MinScore <= score <= MaxScore
    requires PairRow(rows, uid, rater).Some?
    ensures var r := Rescore(rows, uid, rater, score, comment, now);
      && Keyed(r, nextId)
      && PairRow(r, uid, rater) == Some(Rescored(PairRow(rows, uid, rater).value, score, comment, now))
  {
    RescoreKeyed(rows, nextId, uid, rater, score, comment, now);
    RescoreFinds(rows, nextId, uid, rater, score, comment, now);
  }

  /** `Rescore` keeps ids, pairs and the score bounds. */
  lemma RescoreKeyed(rows: seq<Rating>, nextId: nat, uid: UserId, rater: UserId, score: int,
                     comment: Option<string>, now: int)
    requires Keyed(rows, nextId)
    requires MinScore <= score <= MaxScore
    ensures Keyed(Rescore(rows, uid, rater, score, comment, now), nextId)
  {
    RescoreRows(rows, uid, rater, score, comment, now);
  }

  /** In a keyed table, the pair's row after `Rescore` is its old row rescored. */
  lemma RescoreFinds(rows: seq<Rating>, nextId: nat, uid: UserId, rater: UserId, score: int,
                     comment: Option<string>, now: int)
    requires Keyed(rows, nextId)
    requires PairRow(rows, uid, rater).Some?
    ensures PairRow(Rescore(rows, uid, rater, score, comment, now), uid, rater)
         == Some(Rescored(PairRow(rows, uid, rater).value, score, comment, now))
  {
    var r := Rescore(rows, uid, rater, score, comment, now);
    RescoreRows(rows, uid, rater, score, comment, now);
    var k :| 0 <= k < |rows| && rows[k] == PairRow(rows, uid, rater).value;
    assert r[k] in r;
    var x := PairRow(r, uid, rater).value;
    var i :| 0 <= i < |r| && r[i] == x;
    assert i == k;
  }

  /** Rating a new pair appends a row with a fresh id and keeps the table keyed. */
  lemma InsertKeeps(rows: seq<Rating>, nextId: nat, uid: UserId, rater: UserId, score: int,
                    comment: Option<string>, now: int)
    requires Keyed(rows, nextId)
    requires MinScore <= score <= MaxScore
    requires PairRow(rows, uid, rater).None?
    ensures Keyed(rows + [Rating(nextId, uid, rater, score, comment, now)], nextId + 1)
  {
    assert forall i :: 0 <= i < |rows| ==> rows[i] in rows;
  }

  /** After the append, the pair's row is the new one. */
  lemma InsertFinds(rows: seq<Rating>, uid: UserId, rater: UserId, added: Rating)
    requires PairRow(rows, uid, rater).None?
    requires added.userId == uid && added.raterId == rater
    ensures PairRow(rows + [added], uid, rater) == Some(added)
  {
    var r := rows + [added];
    assert r[|r| - 1] in r;
    var x := PairRow(r, uid, rater).value;
    var i :| 0 <= i < |r| && r[i] == x;
  }

  /** The `user_ratings` table. */
  class RatingTable {
    var rows: seq<Rating>
    var nextId: nat

    /** See `Keyed`. */
    ghost predicate Valid()
      reads this
    {
      Keyed(rows, nextId)
    }

    constructor ()
      ensures Valid() && rows == [] && nextId == 0
    {
      rows, nextId := [], 0;
    }

    /** `rateUser`: `rater` scores `uid`. A score outside 1..5 and rating
        oneself are refused; otherwise the pair's row is rescored if there is
        one (`updated`) and inserted if not. A re-rating without a comment
        keeps the stored one. An insert whose ids are too long for their
        `varchar(255)` columns fails, and the failure is re-thrown as
        "Failed to submit rating". */
    method RateUser(rater: UserId, uid: UserId, score: int, comment: Option<string>, now: int)
      returns (r: Result<bool>)
      requires Valid()
      modifies this
      ensures Valid()
      ensures !(MinScore <= score <= MaxScore) || rater == uid ==> r == Err(BadRequest)
      ensures r.Err? ==> rows == old(rows) && nextId == old(nextId)
      ensures (&& MinScore <= score <= MaxScore && rater != uid
               && PairRow(old(rows), uid, rater).None? && !(Fits(255, uid) && Fits(255, rater)))
              ==> r == Err(DatabaseError)
      ensures r.Ok? <==>
        && MinScore <= score <= MaxScore && rater != uid
        && (PairRow(old(rows), uid, rater).Some? || (Fits(255, uid) && Fits(255, rater)))
      ensures r.Ok? ==> r.value == PairRow(old(rows), uid, rater).Some?
      ensures r == Ok(true) ==>
        rows == Rescore(old(rows), uid, rater, score, comment, now) && nextId == old(nextId)
      ensures r == Ok(false) ==>
        rows == old(rows) + [Rating(old(nextId), uid, rater, score, comment, now)]
        && nextId == old(nextId) + 1
      ensures r.Ok? ==> PairRow(rows, uid, rater).Some? && PairRow(rows, uid, rater).value.score == score
      ensures r == Ok(true) ==>
        var before := PairRow(old(rows), uid, rater).value;
        var after := PairRow(rows, uid, rater).value;
        && after.id == before.id && after.createdAt == now
        && after.comment == (if comment.Some? then comment else before.comment)
      ensures r == Ok(false) ==> PairRow(rows, uid, rater).value.comment == comment
    {
      if !(MinScore <= score <= MaxScore) || rater == uid {
        return Err(BadRequest);
      }
      var existing := PairRow(rows, uid, rater);
      if existing.Some? {
        RescoreKeeps(rows, nextId, uid, rater, score, comment, now);
        rows := Rescore(rows, uid, rater, score, comment, now);
        r := Ok(true);
      } else {
        if !(Fits(255, uid) && Fits(255, rater)) {
          return Err(DatabaseError);
        }
        InsertKeeps(rows, nextId, uid, rater, score, comment, now);
        InsertFinds(rows, uid, rater, Rating(nextId, uid, rater, score, comment, now));
        rows := rows + [Rating(nextId, uid, rater, score, comment, now)];
        nextId := nextId + 1;
        r := Ok(false);
      }
    }

    /** `hasRated`: whether `rater` has a row about `uid`, and its score. */
    function HasRated(rater: UserId, uid: UserId): (p: Probe)
      reads this
      ensures p.hasRated <==> exists x :: x in rows && x.userId == uid && x.raterId == rater
      ensures p.currentRating.Some? <==> p.hasRated
      ensures p.hasRated ==> exists x :: x in rows && x.userId == uid && x.raterId == rater
                                         && p.currentRating == Some(x.score)
    {
      match PairRow(rows, uid, rater)
      case None => Probe(false, None)
      case Some(x) => Probe(true, Some(x.score))
    }

    /** `getUserRating`: the number of ratings of `uid` and their mean, both 0
        when there are none; "Unknown User" when the identity lookup `name`
        gives nothing. */
    function GetUserRating(uid: UserId, name: Option<string>): (s: Summary)
      requires Valid()
      reads this
      ensures s.userId == uid
      ensures s.totalRatings == |About(rows, uid)|
      ensures s.totalRatings == 0 ==> s.averageScore == 0.0
      ensures s.totalRatings > 0 ==>
        s.averageScore * (s.totalRatings as real) == Sum(About(rows, uid)) as real
      ensures s.totalRatings > 0 ==>
        MinScore as real <= s.averageScore <= MaxScore as real
      ensures s.userName == if name.Some? then name.value else "Unknown User"
    {
      var mine := About(rows, uid);
      var total := |mine|;
      var average := if total == 0 then 0.0 else Sum(mine) as real / total as real;
      AboutSumBounds(rows, uid);
      MeanBounds(Sum(mine), total);
      Summary(uid, average, total, if name.Some? then name.value else "Unknown User")
    }

    /** `getUserRatingsDetails`: the newest `limit` ratings of `uid` (10 when
        absent; outside 1..100 is refused). It fetches `limit + 1` rows; when
        the extra row comes back it is dropped and its id becomes
        `nextCursor`. `names` is the identity lookup for rater names. */
    method GetUserRatingsDetails(uid: UserId, limit: Option<int>, names: map<UserId, string>)
      returns (r: Result<RatingPage>)
      ensures limit.Some? && !(1 <= limit.value <= MaxPageSize) ==> r == Err(BadRequest)
      ensures r.Ok? <==> limit.None? || 1 <= limit.value <= MaxPageSize
      ensures r.Ok? ==>
        var n := limit.GetOr(DefaultPageSize);
        var all := About(rows, uid);
        var page := Ratings(r.value);
        && |page| == (if |all| < n then |all| else n)
        && NewestFirstPage(all, page)
        && (r.value.nextCursor.Some? <==> |all| > n)
        && (r.value.nextCursor.Some? ==>
              exists x :: NewestLeftOut(all, page, x) && x.id == r.value.nextCursor.value)
        && (forall i :: 0 <= i < |page| ==>
              r.value.ratings[i].raterName == RaterName(names, page[i].raterId))
    {
      if limit.Some? && !(1 <= limit.value <= MaxPageSize) {
        return Err(BadRequest);
      }
      var n := limit.GetOr(DefaultPageSize);
      var page, nextCursor := NewestPage(About(rows, uid), n);
      r := Ok(RatingPage(Views(page, names), nextCursor));
      assert Ratings(r.value) == page;
    }
  }
}
