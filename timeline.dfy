/** `Timeline`: the list of posts shown on the page, newest first. The clock readings
    `Date.now()` and `new Date()` are parameters of `AddPost`; drawing the list into the
    page is not part of this model. */
module Timelines {
  import opened Wrappers
  import opened Coordinates

  /** One post record. `id` is the millisecond clock at creation and `timestamp` the
      creation date, also as milliseconds since the epoch. */
  datatype Post = Post(id: int, content: string, coordinates: Coordinate, kind: string, timestamp: int)

  /** The kind a post gets when `addPost` is called without one. */
  const DefaultKind: string := "text"

  /** Every post is at least as recent as every post after it. */
  ghost predicate NewestFirst(posts: seq<Post>) {
    forall i, j :: 0 <= i < j < |posts| ==> posts[i].id >= posts[j].id
  }

  /** Each post is at least as recent as the next one. */
  ghost predicate AdjacentNewestFirst(posts: seq<Post>) {
    forall i :: 0 <= i < |posts| - 1 ==> posts[i].id >= posts[i + 1].id
  }

  /** Comparing neighbours is enough: the list is newest-first exactly when each post is
      at least as recent as the next. */
  lemma {:induction false} NewestFirstByNeighbours(posts: seq<Post>)
    ensures AdjacentNewestFirst(posts) <==> NewestFirst(posts)
  {
    if AdjacentNewestFirst(posts) && |posts| > 1 {
      var rest := posts[1..];
      assert AdjacentNewestFirst(rest) by {
        assert forall i :: 0 <= i < |rest| ==> rest[i] == posts[i + 1];
      }
      NewestFirstByNeighbours(rest);
      assert forall j :: 1 <= j < |posts| ==> posts[j] == rest[j - 1];
      assert forall j :: 1 <= j < |posts| ==> posts[1].id >= posts[j].id;
    }
  }

  /** Putting a post in front keeps the list newest-first exactly when the new post is
      at least as recent as the previous front post. */
  lemma PrependNewestFirst(p: Post, posts: seq<Post>)
    requires NewestFirst(posts)
    ensures NewestFirst([p] + posts) <==> posts == [] || p.id >= posts[0].id
  {
    var q := [p] + posts;
    assert forall j :: 1 <= j < |q| ==> q[j] == posts[j - 1];
    if posts != [] && !(p.id >= posts[0].id) {
      assert q[0].id < q[1].id;
    }
  }

  class Timeline {
    /** The posts, the most recently added first. */
    var posts: seq<Post>

    /** A new timeline shows no posts. */
    constructor()
      ensures posts == []
    {
      posts := [];
    }

    /** `addPost(content, coordinates, type)`: the new post goes in front of all earlier
        ones, which keep their order; `kind` is `None` when the caller leaves the type
        out. */
    method AddPost(content: string, coordinates: Coordinate, kind: Option<string>, now: int, date: int)
      modifies this
      ensures posts == [Post(now, content, coordinates, kind.GetOr(DefaultKind), date)] + old(posts)
      ensures |posts| == |old(posts)| + 1
      ensures posts[0].content == content && posts[0].coordinates == coordinates
      ensures posts[0].kind == (if kind.Some? then kind.value else "text")
      ensures posts[0].id == now && posts[0].timestamp == date
      ensures posts[1..] == old(posts)
      ensures old(NewestFirst(posts)) && (old(posts) == [] || now >= old(posts)[0].id) ==> NewestFirst(posts)
    {
      var post := Post(now, content, coordinates, kind.GetOr(DefaultKind), date);
      if NewestFirst(posts) {
        PrependNewestFirst(post, posts);
      }
      posts := [post] + posts;
    }
  }
}
