/**
 * The records of the blog (posts, groups, comments, follow edges), the
 * ordering the post table declares, and the rules the schema attaches to
 * its foreign keys and unique columns.
 */
module Models {
  import opened Seqs

  datatype Option<T> = None | Some(value: T)

  /** Users belong to the identity service; the store refers to them by their unique username. */
  type UserName = string

  /** The reference the file store hands back for an uploaded image; never interpreted here. */
  type ImageToken = string

  /**
   * A post. `pubDate` is the value of the store's monotonic clock when the post
   * was created; `group` holds the id of a group, `image` an uploaded file, both optional.
   */
  datatype Post = Post(
    id: nat,
    text: string,
    pubDate: nat,
    author: UserName,
    group: Option<nat>,
    image: Option<ImageToken>)

  /** A group; `slug` is the unique key it is found by. */
  datatype Group = Group(id: nat, title: string, slug: string, description: string)

  /** A comment on the post with id `post`. */
  datatype Comment = Comment(id: nat, post: nat, author: UserName, text: string, created: nat)

  /** A follow edge: `user` receives `author`'s posts in their feed. */
  datatype Follow = Follow(user: UserName, author: UserName)

  /** How many characters of the text name a post. */
  const STR_LENGTH: nat := 15

  /** The display name of a post: the first STR_LENGTH characters of its text. */
  function PostStr(p: Post): (r: string)
    ensures r <= p.text
    ensures |r| == if |p.text| < STR_LENGTH then |p.text| else STR_LENGTH
  {
    if |p.text| <= STR_LENGTH then p.text else p.text[..STR_LENGTH]
  }

  /** Of two stored posts the earlier one has the smaller id and the smaller stamp. */
  predicate PostBefore(a: Post, b: Post)
  {
    a.id < b.id && a.pubDate < b.pubDate
  }

  /** The post table in insertion order. */
  ghost predicate Chronological(ps: seq<Post>)
  {
    Ascending(ps, PostBefore)
  }

  /** The declared ordering of every post listing: strictly newest first. */
  ghost predicate NewestFirst(ps: seq<Post>)
  {
    forall i, j :: 0 <= i < j < |ps| ==> ps[i].pubDate > ps[j].pubDate
  }

  /** No two groups share a slug. */
  ghost predicate UniqueSlugs(gs: seq<Group>)
  {
    forall i, j :: 0 <= i < j < |gs| ==> gs[i].slug != gs[j].slug
  }

  /** Does a group with this id exist? */
  predicate GroupExists(gs: seq<Group>, id: nat)
  {
    exists i :: 0 <= i < |gs| && gs[i].id == id
  }

  /** Does a post with this id exist? */
  predicate PostExists(ps: seq<Post>, id: nat)
  {
    exists i :: 0 <= i < |ps| && ps[i].id == id
  }

  /**
   * The SET_NULL policy of a post's group: when group `gid` is deleted, every
   * post that pointed at it stays, with no group; nothing else about any post changes.
   */
  function Ungroup(ps: seq<Post>, gid: nat): (r: seq<Post>)
    ensures |r| == |ps|
    ensures forall i :: 0 <= i < |r| ==>
      r[i] == ps[i].(group := if ps[i].group == Some(gid) then None else ps[i].group)
  {
    if ps == [] then []
    else
      [ps[0].(group := if ps[0].group == Some(gid) then None else ps[0].group)] + Ungroup(ps[1..], gid)
  }

  /** Nulling a group out leaves ids and stamps, hence the stored order, as they were. */
  lemma UngroupChronological(ps: seq<Post>, gid: nat)
    requires Chronological(ps)
    ensures Chronological(Ungroup(ps, gid))
  {
    var r := Ungroup(ps, gid);
    forall i, j | 0 <= i < j < |r| ensures PostBefore(r[i], r[j]) {
      assert PostBefore(ps[i], ps[j]);
    }
  }
}
