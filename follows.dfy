/**
 * The follow table: rows `Follow(user, author)` under the unique constraint on
 * the pair, and the two writes the views make to it, get-or-create and
 * filter-delete.
 */
module Follows {
  import opened Seqs
  import opened Models

  /** The unique constraint on (user, author): no two rows are equal. */
  ghost predicate UniqueFollows(fs: seq<Follow>)
  {
    Distinct(fs)
  }

  /** How many rows equal `e`. */
  function EdgeCount(fs: seq<Follow>, e: Follow): nat
  {
    multiset(fs)[e]
  }

  /** Under the unique constraint a pair has one row when it is present at all, else none. */
  lemma UniqueEdgeCount(fs: seq<Follow>, e: Follow)
    requires UniqueFollows(fs)
    ensures EdgeCount(fs, e) == if e in fs then 1 else 0
  {
    DistinctMultiset(fs, e);
  }

  /**
   * get_or_create: the existing row if there is one, otherwise a new row at the end.
   * Afterwards the pair is present exactly once, and every other pair has as many rows as before.
   */
  function GetOrCreate(fs: seq<Follow>, e: Follow): (r: seq<Follow>)
    ensures e in r
    ensures forall x :: x in r ==> x in fs || x == e
    ensures e in fs ==> r == fs
    ensures UniqueFollows(fs) ==> UniqueFollows(r) && EdgeCount(r, e) == 1
    ensures forall x :: x != e ==> EdgeCount(r, x) == EdgeCount(fs, x)
  {
    if e in fs then
      assert UniqueFollows(fs) ==> EdgeCount(fs, e) == 1 by {
        if UniqueFollows(fs) { UniqueEdgeCount(fs, e); }
      }
      fs
    else
      var r := fs + [e];
      assert UniqueFollows(fs) ==> UniqueFollows(r) && EdgeCount(r, e) == 1 by {
        if UniqueFollows(fs) {
          forall i, j | 0 <= i < j < |r| ensures r[i] != r[j] {
            if j == |fs| { assert r[i] == fs[i]; }
          }
          UniqueEdgeCount(r, e);
        }
      }
      r
  }

  /** filter(user, author).delete(): every row equal to `e` goes, the others stay in order. */
  function DeleteEdge(fs: seq<Follow>, e: Follow): (r: seq<Follow>)
    ensures e !in r
    ensures forall x :: x in r ==> x in fs
    ensures e !in fs ==> r == fs
    ensures UniqueFollows(fs) ==> UniqueFollows(r)
    ensures forall x :: x != e ==> EdgeCount(r, x) == EdgeCount(fs, x)
  {
    var keep := (x: Follow) => x != e;
    var r := Keep(fs, keep);
    assert e !in r by {
      KeepMultiset(fs, keep, e);
    }
    assert e !in fs ==> r == fs by {
      if e !in fs { KeepAll(fs, keep); }
    }
    assert UniqueFollows(fs) ==> UniqueFollows(r) by {
      if UniqueFollows(fs) { KeepDistinct(fs, keep); }
    }
    forall x | x != e ensures EdgeCount(r, x) == EdgeCount(fs, x) {
      KeepMultiset(fs, keep, x);
    }
    r
  }

  /** Following twice is following once. */
  lemma FollowIdempotent(fs: seq<Follow>, e: Follow)
    ensures GetOrCreate(GetOrCreate(fs, e), e) == GetOrCreate(fs, e)
  {
  }

  /** Unfollowing twice is unfollowing once. */
  lemma UnfollowIdempotent(fs: seq<Follow>, e: Follow)
    ensures DeleteEdge(DeleteEdge(fs, e), e) == DeleteEdge(fs, e)
  {
  }

  /** Unfollowing undoes a follow that created a row. */
  lemma {:induction false} UnfollowUndoesFollow(fs: seq<Follow>, e: Follow)
    requires e !in fs
    ensures DeleteEdge(GetOrCreate(fs, e), e) == fs
  {
    var keep := (x: Follow) => x != e;
    KeepAppend(fs, [e], keep);
    KeepAll(fs, keep);
  }
}
