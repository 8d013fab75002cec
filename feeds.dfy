/**
 * The four post listings the views read: all posts, one group's posts, one
 * author's posts, and the posts of the authors a user follows. Each is a
 * filter over the post table, newest first.
 */
module Feeds {
  import opened Seqs
  import opened Models
  import opened Follows

  /** Which posts a listing selects. */
  datatype Filter =
    | Everything
    | InGroup(group: nat)
    | ByAuthor(author: UserName)
    | FollowedBy(user: UserName)

  predicate Selects(f: Filter, p: Post, follows: seq<Follow>)
  {
    match f
    case Everything => true
    case InGroup(g) => p.group == Some(g)
    case ByAuthor(u) => p.author == u
    case FollowedBy(u) => Follow(u, p.author) in follows
  }

  /**
   * The posts `f` selects, newest first. The table is kept in insertion order,
   * so the listing is read from its end.
   */
  function Listing(ps: seq<Post>, f: Filter, follows: seq<Follow>): (r: seq<Post>)
    ensures |r| <= |ps|
  {
    if ps == [] then []
    else
      var last := ps[|ps| - 1];
      (if Selects(f, last, follows) then [last] else []) + Listing(ps[..|ps| - 1], f, follows)
  }

  /** A listing holds exactly the stored posts its filter selects. */
  lemma {:induction false} ListingMembers(ps: seq<Post>, f: Filter, follows: seq<Follow>)
    ensures forall i :: 0 <= i < |Listing(ps, f, follows)| ==>
      Listing(ps, f, follows)[i] in ps && Selects(f, Listing(ps, f, follows)[i], follows)
    ensures forall i :: 0 <= i < |ps| && Selects(f, ps[i], follows) ==> ps[i] in Listing(ps, f, follows)
  {
    if ps != [] {
      var last := ps[|ps| - 1];
      var front := ps[..|ps| - 1];
      assert ps == front + [last];
      ListingMembers(front, f, follows);
      var rest := Listing(front, f, follows);
      var head := if Selects(f, last, follows) then [last] else [];
      var r := head + rest;
      assert Listing(ps, f, follows) == r;
      forall i | 0 <= i < |r| ensures r[i] in ps && Selects(f, r[i], follows) {
        if i >= |head| {
          assert r[i] == rest[i - |head|];
        }
      }
      forall i | 0 <= i < |ps| && Selects(f, ps[i], follows) ensures ps[i] in r {
        if i < |ps| - 1 {
          assert ps[i] == front[i];
        }
      }
    }
  }

  /** Every listing comes out in the declared order, strictly newest first. */
  lemma {:induction false} ListingNewestFirst(ps: seq<Post>, f: Filter, follows: seq<Follow>)
    requires Chronological(ps)
    ensures NewestFirst(Listing(ps, f, follows))
  {
    if ps != [] {
      var last := ps[|ps| - 1];
      var front := ps[..|ps| - 1];
      assert Chronological(front) by {
        forall i, j | 0 <= i < j < |front| ensures PostBefore(front[i], front[j]) {
          assert front[i] == ps[i] && front[j] == ps[j];
        }
      }
      ListingNewestFirst(front, f, follows);
      ListingMembers(front, f, follows);
      var rest := Listing(front, f, follows);
      forall k | 0 <= k < |rest| ensures rest[k].pubDate < last.pubDate {
        assert rest[k] in front;
        var m :| 0 <= m < |front| && front[m] == rest[k];
        assert PostBefore(ps[m], ps[|ps| - 1]);
      }
      if Selects(f, last, follows) {
        var r := [last] + rest;
        assert Listing(ps, f, follows) == r;
        forall i, j | 0 <= i < j < |r| ensures r[i].pubDate > r[j].pubDate {
          if i == 0 {
            assert r[j] == rest[j - 1];
          } else {
            assert r[i] == rest[i - 1] && r[j] == rest[j - 1];
          }
        }
      } else {
        assert Listing(ps, f, follows) == rest;
      }
    }
  }

  /** A post added at the end of the table heads every listing that selects it and is absent from the others. */
  lemma ListingAppend(ps: seq<Post>, p: Post, f: Filter, follows: seq<Follow>)
    ensures Listing(ps + [p], f, follows) ==
      (if Selects(f, p, follows) then [p] else []) + Listing(ps, f, follows)
  {
    assert (ps + [p])[..|ps|] == ps;
  }

  /** The home feed holds every post, newest first: the table reversed. */
  lemma {:induction false} EverythingIsReverse(ps: seq<Post>, follows: seq<Follow>)
    ensures |Listing(ps, Everything, follows)| == |ps|
    ensures forall i :: 0 <= i < |ps| ==> Listing(ps, Everything, follows)[i] == ps[|ps| - 1 - i]
  {
    if ps != [] {
      var front := ps[..|ps| - 1];
      EverythingIsReverse(front, follows);
      var rest := Listing(front, Everything, follows);
      var r := [ps[|ps| - 1]] + rest;
      assert Listing(ps, Everything, follows) == r;
      forall i | 0 <= i < |ps| ensures r[i] == ps[|ps| - 1 - i] {
        if i > 0 {
          assert r[i] == rest[i - 1];
          assert front[|front| - 1 - (i - 1)] == ps[|ps| - 1 - i];
        }
      }
    }
  }

  /**
   * The follow feed as the query computes it: the inner join of posts with
   * follow rows on author, restricted to rows whose user is `u`. A post
   * appears once per matching row, newest post first.
   */
  function FollowJoin(ps: seq<Post>, follows: seq<Follow>, u: UserName): (r: seq<Post>)
    ensures forall i :: 0 <= i < |r| ==> r[i] in ps && Follow(u, r[i].author) in follows
  {
    if ps == [] then []
    else
      var last := ps[|ps| - 1];
      var front := ps[..|ps| - 1];
      assert ps == front + [last];
      var rows := Repeat(last, EdgeCount(follows, Follow(u, last.author)));
      assert forall i :: 0 <= i < |rows| ==> rows[i] == last && Follow(u, last.author) in follows;
      rows + FollowJoin(front, follows, u)
  }

  /**
   * Under the unique constraint on follow rows the join lists each followed
   * author's post exactly once: it is the FollowedBy listing.
   */
  lemma {:induction false} FollowJoinIsListing(ps: seq<Post>, follows: seq<Follow>, u: UserName)
    requires UniqueFollows(follows)
    ensures FollowJoin(ps, follows, u) == Listing(ps, FollowedBy(u), follows)
  {
    if ps != [] {
      var last := ps[|ps| - 1];
      UniqueEdgeCount(follows, Follow(u, last.author));
      FollowJoinIsListing(ps[..|ps| - 1], follows, u);
    }
  }

  /**
   * A new post grows the follow feed of a user who follows its author by
   * exactly that post, at the head, and leaves everybody else's feed as it was.
   */
  lemma NewPostInFollowFeed(ps: seq<Post>, follows: seq<Follow>, p: Post, u: UserName)
    requires UniqueFollows(follows)
    ensures Follow(u, p.author) in follows ==> FollowJoin(ps + [p], follows, u) == [p] + FollowJoin(ps, follows, u)
    ensures Follow(u, p.author) !in follows ==> FollowJoin(ps + [p], follows, u) == FollowJoin(ps, follows, u)
  {
    FollowJoinIsListing(ps + [p], follows, u);
    FollowJoinIsListing(ps, follows, u);
    ListingAppend(ps, p, FollowedBy(u), follows);
  }

  /** A user who follows nobody has an empty feed (not an error). */
  lemma {:induction false} NoFollowsEmptyFeed(ps: seq<Post>, follows: seq<Follow>, u: UserName)
    requires forall i :: 0 <= i < |follows| ==> follows[i].user != u
    ensures FollowJoin(ps, follows, u) == []
  {
    if ps != [] {
      var last := ps[|ps| - 1];
      assert Follow(u, last.author) !in follows;
      NoFollowsEmptyFeed(ps[..|ps| - 1], follows, u);
    }
  }
}
