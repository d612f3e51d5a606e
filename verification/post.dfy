/** The `post` router over `posts`: an unauthenticated insert and the most
    recent post. */
module Post {
  import opened Common
  import opened Columns

  /** A row of `posts`. Coordinates are stored as decimal text. */
  datatype Post = Post(
    id: nat,
    skill: string,
    description: string,
    latitude: string,
    longitude: string,
    userId: UserId,
    createdAt: int,
    updatedAt: int)

  /** The input of `create`; every field is the caller's, `userId` included. */
  datatype NewPost = NewPost(
    skill: string,
    description: string,
    latitude: string,
    longitude: string,
    userId: UserId)

  /** The input's texts fit their `varchar(256)` columns. */
  predicate PostFits(input: NewPost)
  {
    Fits(256, input.skill) && Fits(256, input.description) && Fits(256, input.userId)
  }

  /** The first post with the greatest `createdAt`, or `None` for no posts. */
  function Latest(posts: seq<Post>): (r: Option<Post>)
    ensures r.None? <==> posts == []
    ensures r.Some? ==> r.value in posts
    ensures r.Some? ==> forall p :: p in posts ==> p.createdAt <= r.value.createdAt
  {
    if posts == [] then None
    else
      var rest := Latest(posts[1..]);
      if rest.None? || posts[0].createdAt >= rest.value.createdAt then Some(posts[0])
      else rest
  }

  /** A post added after the others takes over as latest exactly when it is at
      least as recent as the latest so far, and otherwise changes nothing. */
  lemma {:induction false} LatestOfAppend(posts: seq<Post>, p: Post)
    ensures Latest(posts + [p]).Some?
    ensures Latest(posts + [p]).value.createdAt ==
      if posts == [] || p.createdAt > Latest(posts).value.createdAt then p.createdAt
      else Latest(posts).value.createdAt
    ensures posts != [] && p.createdAt <= Latest(posts).value.createdAt ==>
      Latest(posts + [p]) == Latest(posts)
  {
    if posts != [] {
      assert (posts + [p])[1..] == posts[1..] + [p];
      LatestOfAppend(posts[1..], p);
    }
  }

  /** The `posts` table. */
  class PostTable {
    var rows: seq<Post>
    var nextId: nat

    /** Ids are issued from `nextId` and never repeat. */
    ghost predicate Valid()
      reads this
    {
      && (forall i :: 0 <= i < |rows| ==> rows[i].id < nextId)
      && (forall i, j :: 0 <= i < j < |rows| ==> rows[i].id != rows[j].id)
    }

    constructor ()
      ensures Valid() && rows == [] && nextId == 0
    {
      rows, nextId := [], 0;
    }

    /** `create`: appends the input as a post stamped `now`; the update stamp
        starts at `now` too, since it has no default of its own. Nobody is
        asked who they are. The coordinates are stored as the `numeric(10, 6)`
        column renders them, and the insert fails when a text is too long for
        its `varchar(256)` column or a coordinate is refused. */
    method Create(input: NewPost, now: int, numeric: NumericColumn) returns (r: Result<()>)
      requires Valid()
      modifies this
      ensures Valid()
      ensures r.Ok? <==>
        && PostFits(input)
        && numeric(input.latitude).Some? && numeric(input.longitude).Some?
      ensures r.Err? ==> r.failure == DatabaseError && rows == old(rows) && nextId == old(nextId)
      ensures r.Ok? ==>
        && rows == old(rows) + [Post(old(nextId), input.skill, input.description,
                                     numeric(input.latitude).value,
                                     numeric(input.longitude).value, input.userId, now, now)]
        && nextId == old(nextId) + 1
    {
      var latitude, longitude := numeric(input.latitude), numeric(input.longitude);
      if !PostFits(input) || latitude.None? || longitude.None? {
        return Err(DatabaseError);
      }
      rows := rows + [Post(nextId, input.skill, input.description, latitude.value,
                           longitude.value, input.userId, now, now)];
      nextId := nextId + 1;
      r := Ok(());
    }

    /** `getLatest`: the most recent post, or null when there is none; see
        `Latest`. */
    function GetLatest(): (r: Option<Post>)
      reads this
      ensures r == Latest(rows)
    {
      Latest(rows)
    }
  }
}
