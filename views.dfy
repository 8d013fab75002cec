/**
 * The blog's store and its request handlers: the feed queries (home page,
 * group page, profile page, follow feed, single post) and the writes (new
 * post, edit, comment, follow, unfollow), plus the deletion policies the
 * schema attaches to groups, users and posts.
 *
 * The acting user is an explicit parameter: None is an anonymous visitor.
 * Handlers that require a login answer LoginRequired to an anonymous actor
 * and change nothing.
 */
module Views {
  import opened Seqs
  import opened Models
  import opened Follows
  import opened Feeds
  import opened Forms
  import opened Paging

  datatype Error =
    | LoginRequired
    | NotFound
    | NotAuthor
    | InvalidForm(errors: seq<FieldError>)
    | InvalidPage
    | DuplicateSlug

  datatype Result<T> = Ok(value: T) | Err(error: Error)

  /** The result of a handler that returns nothing but a redirect. */
  datatype Outcome = Done | Fail(error: Error)

  datatype GroupPage = GroupPage(group: Group, page: seq<Post>)
  datatype ProfilePage = ProfilePage(author: UserName, page: seq<Post>, following: bool)
  datatype PostPage = PostPage(post: Post, comments: seq<Comment>)

  /**
   * Everything the store holds. `clock` is the next creation stamp; the
   * `next...Id` counters are the next primary keys (keys are never reused).
   */
  datatype StoreState = StoreState(
    users: set<UserName>,
    posts: seq<Post>,
    groups: seq<Group>,
    comments: seq<Comment>,
    follows: seq<Follow>,
    clock: nat,
    nextPostId: nat,
    nextGroupId: nat,
    nextCommentId: nat)

  predicate GroupBefore(a: Group, b: Group)
  {
    a.id < b.id
  }

  predicate CommentBefore(a: Comment, b: Comment)
  {
    a.id < b.id && a.created < b.created
  }

  ghost predicate PostOk(s: StoreState, p: Post)
  {
    && p.id < s.nextPostId
    && p.pubDate < s.clock
    && p.author in s.users
    && (p.group.Some? ==> GroupExists(s.groups, p.group.value))
  }

  ghost predicate CommentOk(s: StoreState, c: Comment)
  {
    && c.id < s.nextCommentId
    && c.created < s.clock
    && c.author in s.users
    && PostExists(s.posts, c.post)
  }

  /** The post table: insertion order, fresh keys and stamps, live authors and groups. */
  ghost predicate PostsOk(s: StoreState)
  {
    && Chronological(s.posts)
    && forall i :: 0 <= i < |s.posts| ==> PostOk(s, s.posts[i])
  }

  /** The group table: distinct keys and unique slugs. */
  ghost predicate GroupsOk(s: StoreState)
  {
    && Ascending(s.groups, GroupBefore)
    && UniqueSlugs(s.groups)
    && forall i :: 0 <= i < |s.groups| ==> s.groups[i].id < s.nextGroupId
  }

  /** The comment table: insertion order, every comment on a live post by a live user. */
  ghost predicate CommentsOk(s: StoreState)
  {
    && Ascending(s.comments, CommentBefore)
    && forall i :: 0 <= i < |s.comments| ==> CommentOk(s, s.comments[i])
  }

  /** The follow table: the unique constraint, both ends live users. */
  ghost predicate FollowsOk(s: StoreState)
  {
    && UniqueFollows(s.follows)
    && forall i :: 0 <= i < |s.follows| ==> s.follows[i].user in s.users && s.follows[i].author in s.users
  }

  ghost predicate Consistent(s: StoreState)
  {
    PostsOk(s) && GroupsOk(s) && CommentsOk(s) && FollowsOk(s)
  }

  /** The actor, if any, is a user the identity service knows. */
  predicate KnownActor(s: StoreState, actor: Option<UserName>)
  {
    actor.Some? ==> actor.value in s.users
  }

  // ---------------------------------------------------------------------------
  // Lookups (get_object_or_404)

  /** The post with this id whose author has this username, if there is one. */
  function FindPost(ps: seq<Post>, id: nat, author: UserName): (r: Option<nat>)
    ensures r.Some? ==> r.value < |ps| && ps[r.value].id == id && ps[r.value].author == author
    ensures r.None? ==> forall i :: 0 <= i < |ps| ==> !(ps[i].id == id && ps[i].author == author)
  {
    if ps == [] then None
    else if ps[0].id == id && ps[0].author == author then Some(0)
    else
      match FindPost(ps[1..], id, author)
      case None => None
      case Some(i) => Some(i + 1)
  }

  /** The group with this slug, if there is one. */
  function FindGroup(gs: seq<Group>, slug: string): (r: Option<nat>)
    ensures r.Some? ==> r.value < |gs| && gs[r.value].slug == slug
    ensures r.None? ==> forall i :: 0 <= i < |gs| ==> gs[i].slug != slug
  {
    if gs == [] then None
    else if gs[0].slug == slug then Some(0)
    else
      match FindGroup(gs[1..], slug)
      case None => None
      case Some(i) => Some(i + 1)
  }

  // ---------------------------------------------------------------------------
  // Queries

  /**
   * Page `k` of the posts `f` selects: newest first, only selected posts from
   * the table, and InvalidPage for a page number the paginator has no page for.
   */
  function FeedPage(s: StoreState, f: Filter, k: int): (r: Result<seq<Post>>)
    requires Consistent(s)
    ensures r.Err? <==> !(1 <= k <= NumPages(|Listing(s.posts, f, s.follows)|))
    ensures r.Err? ==> r.error == InvalidPage
    ensures r.Ok? ==> NewestFirst(r.value)
    ensures r.Ok? ==> forall i :: 0 <= i < |r.value| ==> r.value[i] in s.posts && Selects(f, r.value[i], s.follows)
    ensures r.Ok? ==> PageOf(Listing(s.posts, f, s.follows), k) == Some(r.value)
  {
    var listing := Listing(s.posts, f, s.follows);
    match PageOf(listing, k)
    case None => Err(InvalidPage)
    case Some(pg) =>
      ListingNewestFirst(s.posts, f, s.follows);
      ListingMembers(s.posts, f, s.follows);
      PageKeepsOrder(listing, k);
      Ok(pg)
  }

  /** index: page `k` of all posts, newest first, i.e. of the table read backwards. */
  function Index(s: StoreState, k: int): (r: Result<seq<Post>>)
    requires Consistent(s)
    ensures r.Ok? <==> 1 <= k <= NumPages(|s.posts|)
    ensures r.Err? ==> r.error == InvalidPage
    ensures r.Ok? ==> NewestFirst(r.value)
    ensures r.Ok? ==>
      && |r.value| == Min(COUNT_POSTS, |s.posts| - (k - 1) * COUNT_POSTS)
      && forall i :: 0 <= i < |r.value| ==> r.value[i] == s.posts[|s.posts| - 1 - ((k - 1) * COUNT_POSTS + i)]
  {
    EverythingIsReverse(s.posts, s.follows);
    FeedPage(s, Everything, k)
  }

  /** group_posts: NotFound for an unknown slug, else page `k` of that group's posts. */
  function GroupPosts(s: StoreState, slug: string, k: int): (r: Result<GroupPage>)
    requires Consistent(s)
    ensures FindGroup(s.groups, slug).None? ==> r == Err(NotFound)
    ensures FindGroup(s.groups, slug).Some? && r.Err? ==> r.error == InvalidPage
    ensures r.Err? ==> r.error == NotFound || r.error == InvalidPage
    ensures FindGroup(s.groups, slug).Some? ==>
      (r.Ok? <==> 1 <= k <= NumPages(|Listing(s.posts, InGroup(s.groups[FindGroup(s.groups, slug).value].id), s.follows)|))
    ensures r.Ok? ==>
      && r.value.group in s.groups && r.value.group.slug == slug
      && PageOf(Listing(s.posts, InGroup(r.value.group.id), s.follows), k) == Some(r.value.page)
      && NewestFirst(r.value.page)
      && forall i :: 0 <= i < |r.value.page| ==>
           r.value.page[i] in s.posts && r.value.page[i].group == Some(r.value.group.id)
  {
    match FindGroup(s.groups, slug)
    case None => Err(NotFound)
    case Some(gi) =>
      var g := s.groups[gi];
      match FeedPage(s, InGroup(g.id), k)
      case Err(e) => Err(e)
      case Ok(pg) => Ok(GroupPage(g, pg))
  }

  /**
   * profile: NotFound for an unknown user, else page `k` of that user's posts
   * and whether the actor, when logged in, follows them.
   */
  function Profile(s: StoreState, username: UserName, actor: Option<UserName>, k: int): (r: Result<ProfilePage>)
    requires Consistent(s)
    ensures username !in s.users ==> r == Err(NotFound)
    ensures username in s.users && r.Err? ==> r.error == InvalidPage
    ensures r.Err? ==> r.error == NotFound || r.error == InvalidPage
    ensures username in s.users ==>
      (r.Ok? <==> 1 <= k <= NumPages(|Listing(s.posts, ByAuthor(username), s.follows)|))
    ensures r.Ok? ==>
      && r.value.author == username
      && PageOf(Listing(s.posts, ByAuthor(username), s.follows), k) == Some(r.value.page)
      && (r.value.following <==> actor.Some? && Follow(actor.value, username) in s.follows)
      && NewestFirst(r.value.page)
      && forall i :: 0 <= i < |r.value.page| ==> r.value.page[i] in s.posts && r.value.page[i].author == username
  {
    if username !in s.users then Err(NotFound)
    else
      var following := actor.Some? && Follow(actor.value, username) in s.follows;
      match FeedPage(s, ByAuthor(username), k)
      case Err(e) => Err(e)
      case Ok(pg) => Ok(ProfilePage(username, pg, following))
  }

  /**
   * post_view: the post with this id by this author, with its comments in the
   * order they were written; NotFound when id and author do not match one post.
   */
  function PostView(s: StoreState, username: UserName, id: nat): (r: Result<PostPage>)
    requires Consistent(s)
    ensures r.Ok? <==> exists i :: 0 <= i < |s.posts| && s.posts[i].id == id && s.posts[i].author == username
    ensures r.Err? ==> r.error == NotFound
    ensures r.Ok? ==>
      && r.value.post in s.posts && r.value.post.id == id && r.value.post.author == username
      && (forall i :: 0 <= i < |r.value.comments| ==> r.value.comments[i] in s.comments && r.value.comments[i].post == id)
      && (forall i :: 0 <= i < |s.comments| && s.comments[i].post == id ==> s.comments[i] in r.value.comments)
      && Ascending(r.value.comments, CommentBefore)
  {
    match FindPost(s.posts, id, username)
    case None => Err(NotFound)
    case Some(i) =>
      KeepAscending(s.comments, OnPost(id), CommentBefore);
      Ok(PostPage(s.posts[i], Keep(s.comments, OnPost(id))))
  }

  function OnPost(id: nat): Comment -> bool
  {
    (c: Comment) => c.post == id
  }

  /**
   * follow_index: page `k` of the join of posts with the actor's follow rows.
   * Under the unique constraint this is exactly the page of posts whose author
   * the actor follows.
   */
  function FollowIndex(s: StoreState, actor: Option<UserName>, k: int): (r: Result<seq<Post>>)
    requires Consistent(s)
    ensures actor.None? ==> r == Err(LoginRequired)
    ensures actor.Some? ==> r == FeedPage(s, FollowedBy(actor.value), k)
    ensures r.Ok? ==> forall i :: 0 <= i < |r.value| ==>
      r.value[i] in s.posts && Follow(actor.value, r.value[i].author) in s.follows
  {
    match actor
    case None => Err(LoginRequired)
    case Some(u) =>
      var joined := FollowJoin(s.posts, s.follows, u);
      FollowJoinIsListing(s.posts, s.follows, u);
      match PageOf(joined, k)
      case None => Err(InvalidPage)
      case Some(pg) => Ok(pg)
  }

  // ---------------------------------------------------------------------------
  // Deletion policies (row filters)

  function PostNotBy(u: UserName): Post -> bool
  {
    (p: Post) => p.author != u
  }

  function PostNotId(id: nat): Post -> bool
  {
    (p: Post) => p.id != id
  }

  function GroupNotId(id: nat): Group -> bool
  {
    (g: Group) => g.id != id
  }

  /** A comment survives the deletion of user `u`, whose posts had the ids in `removed`. */
  function CommentSurvives(u: UserName, removed: set<nat>): Comment -> bool
  {
    (c: Comment) => c.author != u && c.post !in removed
  }

  function CommentNotOn(id: nat): Comment -> bool
  {
    (c: Comment) => c.post != id
  }

  function EdgeAvoids(u: UserName): Follow -> bool
  {
    (e: Follow) => e.user != u && e.author != u
  }

  // ---------------------------------------------------------------------------
  // The invariant is kept by every write

  lemma AppendPostKeeps(s: StoreState, p: Post)
    requires Consistent(s)
    requires p.id == s.nextPostId && p.pubDate == s.clock && p.author in s.users
    requires p.group.Some? ==> GroupExists(s.groups, p.group.value)
    ensures Consistent(s.(posts := s.posts + [p], clock := s.clock + 1, nextPostId := s.nextPostId + 1))
  {
    var t := s.(posts := s.posts + [p], clock := s.clock + 1, nextPostId := s.nextPostId + 1);
    forall i, j | 0 <= i < j < |t.posts| ensures PostBefore(t.posts[i], t.posts[j]) {
      if j < |s.posts| {
        assert PostBefore(s.posts[i], s.posts[j]);
      } else {
        assert PostOk(s, s.posts[i]);
      }
    }
    forall i | 0 <= i < |t.posts| ensures PostOk(t, t.posts[i]) {
      if i < |s.posts| { assert PostOk(s, s.posts[i]); }
    }
    forall i | 0 <= i < |t.comments| ensures CommentOk(t, t.comments[i]) {
      assert CommentOk(s, s.comments[i]);
      var m :| 0 <= m < |s.posts| && s.posts[m].id == s.comments[i].post;
      assert t.posts[m] == s.posts[m];
    }
  }

  lemma EditPostKeeps(s: StoreState, i: nat, q: Post)
    requires Consistent(s) && i < |s.posts|
    requires q.id == s.posts[i].id && q.pubDate == s.posts[i].pubDate && q.author == s.posts[i].author
    requires q.group.Some? ==> GroupExists(s.groups, q.group.value)
    ensures Consistent(s.(posts := s.posts[i := q]))
  {
    var t := s.(posts := s.posts[i := q]);
    forall a, b | 0 <= a < b < |t.posts| ensures PostBefore(t.posts[a], t.posts[b]) {
      assert PostBefore(s.posts[a], s.posts[b]);
    }
    forall a | 0 <= a < |t.posts| ensures PostOk(t, t.posts[a]) {
      assert PostOk(s, s.posts[a]);
    }
    forall c | 0 <= c < |t.comments| ensures CommentOk(t, t.comments[c]) {
      assert CommentOk(s, s.comments[c]);
      var m :| 0 <= m < |s.posts| && s.posts[m].id == s.comments[c].post;
      assert t.posts[m].id == s.posts[m].id;
    }
  }

  lemma AppendCommentKeeps(s: StoreState, c: Comment)
    requires Consistent(s)
    requires c.id == s.nextCommentId && c.created == s.clock && c.author in s.users
    requires PostExists(s.posts, c.post)
    ensures Consistent(s.(comments := s.comments + [c], clock := s.clock + 1, nextCommentId := s.nextCommentId + 1))
  {
    var t := s.(comments := s.comments + [c], clock := s.clock + 1, nextCommentId := s.nextCommentId + 1);
    forall i, j | 0 <= i < j < |t.comments| ensures CommentBefore(t.comments[i], t.comments[j]) {
      if j < |s.comments| {
        assert CommentBefore(s.comments[i], s.comments[j]);
      } else {
        assert CommentOk(s, s.comments[i]);
      }
    }
    forall i | 0 <= i < |t.comments| ensures CommentOk(t, t.comments[i]) {
      if i < |s.comments| { assert CommentOk(s, s.comments[i]); }
    }
    forall i | 0 <= i < |t.posts| ensures PostOk(t, t.posts[i]) {
      assert PostOk(s, s.posts[i]);
    }
  }

  lemma FollowsChangeKeeps(s: StoreState, fs: seq<Follow>)
    requires Consistent(s)
    requires UniqueFollows(fs)
    requires forall x :: x in fs ==> x.user in s.users && x.author in s.users
    ensures Consistent(s.(follows := fs))
  {
    var t := s.(follows := fs);
    forall i | 0 <= i < |t.posts| ensures PostOk(t, t.posts[i]) {
      assert PostOk(s, s.posts[i]);
    }
    forall i | 0 <= i < |t.comments| ensures CommentOk(t, t.comments[i]) {
      assert CommentOk(s, s.comments[i]);
    }
  }

  lemma AppendGroupKeeps(s: StoreState, g: Group)
    requires Consistent(s)
    requires g.id == s.nextGroupId && FindGroup(s.groups, g.slug).None?
    ensures Consistent(s.(groups := s.groups + [g], nextGroupId := s.nextGroupId + 1))
  {
    var t := s.(groups := s.groups + [g], nextGroupId := s.nextGroupId + 1);
    forall i, j | 0 <= i < j < |t.groups| ensures GroupBefore(t.groups[i], t.groups[j]) && t.groups[i].slug != t.groups[j].slug {
      if j < |s.groups| {
        assert GroupBefore(s.groups[i], s.groups[j]);
      }
    }
    forall i | 0 <= i < |t.posts| ensures PostOk(t, t.posts[i]) {
      assert PostOk(s, s.posts[i]);
      if s.posts[i].group.Some? {
        var m :| 0 <= m < |s.groups| && s.groups[m].id == s.posts[i].group.value;
        assert t.groups[m] == s.groups[m];
      }
    }
    forall i | 0 <= i < |t.comments| ensures CommentOk(t, t.comments[i]) {
      assert CommentOk(s, s.comments[i]);
    }
  }

  /**
   * The state after group `id` is deleted: the group goes, every post stays
   * (in place, with the same id, text, date, author and image) and no post
   * refers to the group any more.
   */
  function WithoutGroup(s: StoreState, id: nat): (t: StoreState)
    ensures t == s.(groups := t.groups, posts := t.posts)
    ensures forall i :: 0 <= i < |t.groups| ==> t.groups[i].id != id && t.groups[i] in s.groups
    ensures forall i :: 0 <= i < |s.groups| && s.groups[i].id != id ==> s.groups[i] in t.groups
    ensures |t.posts| == |s.posts|
    ensures forall i :: 0 <= i < |t.posts| ==>
      && t.posts[i].group != Some(id)
      && t.posts[i] == s.posts[i].(group := t.posts[i].group)
      && (s.posts[i].group != Some(id) ==> t.posts[i] == s.posts[i])
  {
    s.(groups := Keep(s.groups, GroupNotId(id)), posts := Ungroup(s.posts, id))
  }

  lemma DeleteGroupKeeps(s: StoreState, id: nat)
    requires Consistent(s)
    ensures Consistent(WithoutGroup(s, id))
  {
    DeleteGroupKeepsGroups(s, id);
    DeleteGroupKeepsPosts(s, id);
    DeleteGroupKeepsComments(s, id);
  }

  lemma DeleteGroupKeepsGroups(s: StoreState, id: nat)
    requires GroupsOk(s)
    ensures GroupsOk(WithoutGroup(s, id))
  {
    KeepAscending(s.groups, GroupNotId(id), GroupBefore);
    KeepAscending(s.groups, GroupNotId(id), (a: Group, b: Group) => a.slug != b.slug);
  }

  lemma DeleteGroupKeepsPosts(s: StoreState, id: nat)
    requires PostsOk(s)
    ensures PostsOk(WithoutGroup(s, id))
  {
    var t := WithoutGroup(s, id);
    UngroupChronological(s.posts, id);
    forall i | 0 <= i < |t.posts| ensures PostOk(t, t.posts[i]) {
      SurvivingPostOk(s, id, t, i);
    }
  }

  lemma SurvivingPostOk(s: StoreState, id: nat, t: StoreState, i: nat)
    requires t == WithoutGroup(s, id)
    requires i < |s.posts| && PostOk(s, s.posts[i])
    ensures i < |t.posts| && PostOk(t, t.posts[i])
  {
    if t.posts[i].group.Some? {
      var m :| 0 <= m < |s.groups| && s.groups[m].id == s.posts[i].group.value;
      assert s.groups[m] in t.groups;
      var n :| 0 <= n < |t.groups| && t.groups[n] == s.groups[m];
    }
  }

  lemma DeleteGroupKeepsComments(s: StoreState, id: nat)
    requires CommentsOk(s)
    ensures CommentsOk(WithoutGroup(s, id))
  {
    var t := WithoutGroup(s, id);
    forall i | 0 <= i < |t.comments| ensures CommentOk(t, t.comments[i]) {
      assert CommentOk(s, s.comments[i]);
      var m :| 0 <= m < |s.posts| && s.posts[m].id == s.comments[i].post;
      assert t.posts[m].id == s.posts[m].id;
    }
  }

  /** The ids of the posts written by `u`. */
  function PostIdsBy(ps: seq<Post>, u: UserName): (r: set<nat>)
    ensures forall i :: 0 <= i < |ps| && ps[i].author == u ==> ps[i].id in r
    ensures forall id :: id in r ==> exists i :: 0 <= i < |ps| && ps[i].author == u && ps[i].id == id
  {
    set i | 0 <= i < |ps| && ps[i].author == u :: ps[i].id
  }

  /**
   * The state after user `u` is deleted, with what cascades from it: the
   * user's posts, the comments on those posts, the comments the user wrote,
   * and the follow edges from and to the user go; every other row stays.
   */
  function WithoutUser(s: StoreState, u: UserName): (t: StoreState)
    ensures t == s.(users := s.users - {u}, posts := t.posts, comments := t.comments, follows := t.follows)
  {
    s.(users := s.users - {u},
       posts := Keep(s.posts, PostNotBy(u)),
       comments := Keep(s.comments, CommentSurvives(u, PostIdsBy(s.posts, u))),
       follows := Keep(s.follows, EdgeAvoids(u)))
  }

  /** Which rows survive the deletion of user `u`. */
  lemma WithoutUserRows(s: StoreState, u: UserName, t: StoreState)
    requires t == WithoutUser(s, u)
    ensures forall i :: 0 <= i < |t.posts| ==> t.posts[i].author != u && t.posts[i] in s.posts
    ensures forall i :: 0 <= i < |s.posts| && s.posts[i].author != u ==> s.posts[i] in t.posts
    ensures forall i :: 0 <= i < |t.comments| ==>
      && t.comments[i].author != u
      && (forall j :: 0 <= j < |s.posts| && s.posts[j].author == u ==> t.comments[i].post != s.posts[j].id)
      && t.comments[i] in s.comments
    ensures forall i :: 0 <= i < |s.comments| ==>
      (s.comments[i].author != u &&
       (forall j :: 0 <= j < |s.posts| && s.posts[j].id == s.comments[i].post ==> s.posts[j].author != u))
      ==> s.comments[i] in t.comments
    ensures forall i :: 0 <= i < |t.follows| ==>
      t.follows[i].user != u && t.follows[i].author != u && t.follows[i] in s.follows
    ensures forall i :: 0 <= i < |s.follows| && s.follows[i].user != u && s.follows[i].author != u ==>
      s.follows[i] in t.follows
  {
    var removed := PostIdsBy(s.posts, u);
    forall i | 0 <= i < |t.comments|
      ensures forall j :: 0 <= j < |s.posts| && s.posts[j].author == u ==> t.comments[i].post != s.posts[j].id
    {
      assert CommentSurvives(u, removed)(t.comments[i]);
    }
    forall i | 0 <= i < |s.comments| &&
      (s.comments[i].author != u &&
       (forall j :: 0 <= j < |s.posts| && s.posts[j].id == s.comments[i].post ==> s.posts[j].author != u))
      ensures s.comments[i] in t.comments
    {
      assert CommentSurvives(u, removed)(s.comments[i]);
    }
  }

  lemma DeleteUserKeeps(s: StoreState, u: UserName)
    requires Consistent(s)
    ensures Consistent(WithoutUser(s, u))
  {
    var t := WithoutUser(s, u);
    DeleteUserKeepsPosts(s, u, t);
    DeleteUserKeepsComments(s, u, t);
    DeleteUserKeepsFollows(s, u, t);
  }

  lemma DeleteUserKeepsPosts(s: StoreState, u: UserName, t: StoreState)
    requires Consistent(s) && t == WithoutUser(s, u)
    ensures PostsOk(t) && GroupsOk(t)
  {
    WithoutUserRows(s, u, t);
    KeepAscending(s.posts, PostNotBy(u), PostBefore);
    forall i | 0 <= i < |t.posts| ensures PostOk(t, t.posts[i]) {
      var m :| 0 <= m < |s.posts| && s.posts[m] == t.posts[i];
      assert PostOk(s, s.posts[m]);
    }
  }

  lemma DeleteUserKeepsComments(s: StoreState, u: UserName, t: StoreState)
    requires Consistent(s) && t == WithoutUser(s, u)
    ensures CommentsOk(t)
  {
    WithoutUserRows(s, u, t);
    var removed := PostIdsBy(s.posts, u);
    KeepAscending(s.comments, CommentSurvives(u, removed), CommentBefore);
    forall i | 0 <= i < |t.comments| ensures CommentOk(t, t.comments[i]) {
      var m :| 0 <= m < |s.comments| && s.comments[m] == t.comments[i];
      SurvivingCommentOk(s, u, t.users, t.posts, m);
    }
  }

  /** A comment neither by `u` nor on one of `u`'s posts still points at a live post and a live user. */
  lemma SurvivingCommentOk(s: StoreState, u: UserName, users: set<UserName>, posts: seq<Post>, m: nat)
    requires Consistent(s) && m < |s.comments|
    requires users == s.users - {u} && posts == Keep(s.posts, PostNotBy(u))
    requires CommentSurvives(u, PostIdsBy(s.posts, u))(s.comments[m])
    ensures CommentOk(s.(users := users, posts := posts), s.comments[m])
  {
    var c := s.comments[m];
    assert CommentOk(s, c);
    var n :| 0 <= n < |s.posts| && s.posts[n].id == c.post;
    assert s.posts[n].author != u;
    assert s.posts[n] in posts;
    var q :| 0 <= q < |posts| && posts[q] == s.posts[n];
  }

  lemma DeleteUserKeepsFollows(s: StoreState, u: UserName, t: StoreState)
    requires Consistent(s) && t == WithoutUser(s, u)
    ensures FollowsOk(t)
  {
    WithoutUserRows(s, u, t);
    KeepDistinct(s.follows, EdgeAvoids(u));
    forall i | 0 <= i < |t.follows| ensures t.follows[i].user in t.users && t.follows[i].author in t.users {
      var m :| 0 <= m < |s.follows| && s.follows[m] == t.follows[i];
    }
  }

  /**
   * The state after post `id` is deleted: the post and the comments on it go,
   * every other post and comment stays.
   */
  function WithoutPost(s: StoreState, id: nat): (t: StoreState)
    ensures t == s.(posts := t.posts, comments := t.comments)
    ensures forall i :: 0 <= i < |t.posts| ==> t.posts[i].id != id && t.posts[i] in s.posts
    ensures forall i :: 0 <= i < |s.posts| && s.posts[i].id != id ==> s.posts[i] in t.posts
    ensures forall i :: 0 <= i < |t.comments| ==> t.comments[i].post != id && t.comments[i] in s.comments
    ensures forall i :: 0 <= i < |s.comments| && s.comments[i].post != id ==> s.comments[i] in t.comments
  {
    s.(posts := Keep(s.posts, PostNotId(id)), comments := Keep(s.comments, CommentNotOn(id)))
  }

  lemma DeletePostKeeps(s: StoreState, id: nat)
    requires Consistent(s)
    ensures Consistent(WithoutPost(s, id))
  {
    DeletePostKeepsPosts(s, id);
    DeletePostKeepsComments(s, id);
  }

  lemma DeletePostKeepsPosts(s: StoreState, id: nat)
    requires PostsOk(s)
    ensures PostsOk(WithoutPost(s, id))
  {
    var t := WithoutPost(s, id);
    KeepAscending(s.posts, PostNotId(id), PostBefore);
    forall i | 0 <= i < |t.posts| ensures PostOk(t, t.posts[i]) {
      var m :| 0 <= m < |s.posts| && s.posts[m] == t.posts[i];
      assert PostOk(s, s.posts[m]);
    }
  }

  lemma DeletePostKeepsComments(s: StoreState, id: nat)
    requires CommentsOk(s)
    ensures CommentsOk(WithoutPost(s, id))
  {
    var t := WithoutPost(s, id);
    KeepAscending(s.comments, CommentNotOn(id), CommentBefore);
    forall i | 0 <= i < |t.comments| ensures CommentOk(t, t.comments[i]) {
      var m :| 0 <= m < |s.comments| && s.comments[m] == t.comments[i];
      CommentOnSurvivorOk(s, id, t, s.comments[m]);
    }
  }

  lemma CommentOnSurvivorOk(s: StoreState, id: nat, t: StoreState, c: Comment)
    requires t == WithoutPost(s, id)
    requires CommentOk(s, c) && c.post != id
    ensures CommentOk(t, c)
  {
    var n :| 0 <= n < |s.posts| && s.posts[n].id == c.post;
    assert s.posts[n] in t.posts;
    var q :| 0 <= q < |t.posts| && t.posts[q] == s.posts[n];
  }

  // ---------------------------------------------------------------------------
  // The store

  class Store {
    var users: set<UserName>
    var posts: seq<Post>
    var groups: seq<Group>
    var comments: seq<Comment>
    var follows: seq<Follow>
    var clock: nat
    var nextPostId: nat
    var nextGroupId: nat
    var nextCommentId: nat

    function Snapshot(): StoreState
      reads this
    {
      StoreState(users, posts, groups, comments, follows, clock, nextPostId, nextGroupId, nextCommentId)
    }

    ghost predicate Valid()
      reads this
    {
      Consistent(Snapshot())
    }

    /** An empty store over the users the identity service knows. */
    constructor (users: set<UserName>)
      ensures Valid()
      ensures Snapshot() == StoreState(users, [], [], [], [], 0, 1, 1, 1)
    {
      this.users := users;
      posts, groups, comments, follows := [], [], [], [];
      clock, nextPostId, nextGroupId, nextCommentId := 0, 1, 1, 1;
    }

    /**
     * new_post: a valid submission by a logged-in actor adds exactly one post,
     * at the end of the table, authored by the actor and stamped now; the
     * submission sets only text, group and image. Otherwise nothing changes.
     */
    method NewPost(actor: Option<UserName>, data: Option<PostData>) returns (r: Result<Post>)
      requires Valid() && KnownActor(Snapshot(), actor)
      modifies this
      ensures Valid()
      ensures actor.None? ==> r == Err(LoginRequired)
      ensures r.Ok? <==> actor.Some? && CleanPost(BindPost(data), old(groups)).Accepted?
      ensures actor.Some? && CleanPost(BindPost(data), old(groups)).Unbound? ==> r == Err(InvalidForm([]))
      ensures actor.Some? && CleanPost(BindPost(data), old(groups)).Rejected? ==>
        r == Err(InvalidForm(CleanPost(BindPost(data), old(groups)).errors))
      ensures r.Err? ==> Snapshot() == old(Snapshot())
      ensures r.Ok? ==>
        var f := CleanPost(BindPost(data), old(groups)).value;
        && r.value == Post(old(nextPostId), f.text, old(clock), actor.value, f.group, f.image)
        && Snapshot() == old(Snapshot()).(posts := old(posts) + [r.value],
                                          clock := old(clock) + 1,
                                          nextPostId := old(nextPostId) + 1)
    {
      if actor.None? {
        return Err(LoginRequired);
      }
      match CleanPost(BindPost(data), groups)
      case Unbound =>
        r := Err(InvalidForm([]));
      case Rejected(errors) =>
        r := Err(InvalidForm(errors));
      case Accepted(f) =>
        var p := Post(nextPostId, f.text, clock, actor.value, f.group, f.image);
        AppendPostKeeps(Snapshot(), p);
        posts := posts + [p];
        clock := clock + 1;
        nextPostId := nextPostId + 1;
        r := Ok(p);
    }

    /**
     * post_edit: NotFound unless the id and the author's username match one
     * post; an actor who is not the author is sent back with nothing changed;
     * a valid submission by the author replaces text and group (and the image,
     * when a new one is uploaded) and keeps id, author and date.
     */
    method PostEdit(actor: Option<UserName>, username: UserName, id: nat, data: Option<PostData>)
      returns (r: Result<Post>)
      requires Valid() && KnownActor(Snapshot(), actor)
      modifies this
      ensures Valid()
      ensures actor.None? ==> r == Err(LoginRequired)
      ensures actor.Some? && FindPost(old(posts), id, username).None? ==> r == Err(NotFound)
      ensures actor.Some? && FindPost(old(posts), id, username).Some? && actor.value != username ==>
        r == Err(NotAuthor)
      ensures r.Err? ==> Snapshot() == old(Snapshot())
      ensures r.Ok? <==>
        actor == Some(username) && FindPost(old(posts), id, username).Some? &&
        CleanPost(BindPost(data), old(groups)).Accepted?
      ensures (actor == Some(username) && FindPost(old(posts), id, username).Some? &&
        CleanPost(BindPost(data), old(groups)).Unbound?) ==> r == Err(InvalidForm([]))
      ensures (actor == Some(username) && FindPost(old(posts), id, username).Some? &&
        CleanPost(BindPost(data), old(groups)).Rejected?) ==>
        r == Err(InvalidForm(CleanPost(BindPost(data), old(groups)).errors))
      ensures r.Ok? ==>
        var i := FindPost(old(posts), id, username).value;
        var f := CleanPost(BindPost(data), old(groups)).value;
        var was := old(posts)[i];
        && r.value == was.(text := f.text, group := f.group,
                           image := if f.image.Some? then f.image else was.image)
        && r.value.id == id && r.value.author == username && r.value.pubDate == was.pubDate
        && Snapshot() == old(Snapshot()).(posts := old(posts)[i := r.value])
    {
      if actor.None? {
        return Err(LoginRequired);
      }
      var found := FindPost(posts, id, username);
      if found.None? {
        return Err(NotFound);
      }
      var i := found.value;
      var post := posts[i];
      if actor.value != post.author {
        return Err(NotAuthor);
      }
      match CleanPost(BindPost(data), groups)
      case Unbound =>
        r := Err(InvalidForm([]));
      case Rejected(errors) =>
        r := Err(InvalidForm(errors));
      case Accepted(f) =>
        var edited := post.(text := f.text, group := f.group,
                            image := if f.image.Some? then f.image else post.image);
        EditPostKeeps(Snapshot(), i, edited);
        posts := posts[i := edited];
        r := Ok(edited);
    }

    /**
     * add_comment: NotFound unless id and author match one post; a valid text
     * adds one comment on that post by the actor; an invalid one adds nothing.
     */
    method AddComment(actor: Option<UserName>, username: UserName, id: nat, data: Option<CommentData>)
      returns (r: Result<Comment>)
      requires Valid() && KnownActor(Snapshot(), actor)
      modifies this
      ensures Valid()
      ensures actor.None? ==> r == Err(LoginRequired)
      ensures actor.Some? && FindPost(old(posts), id, username).None? ==> r == Err(NotFound)
      ensures r.Err? ==> Snapshot() == old(Snapshot())
      ensures r.Ok? <==>
        actor.Some? && FindPost(old(posts), id, username).Some? && CleanComment(BindComment(data)).Accepted?
      ensures (actor.Some? && FindPost(old(posts), id, username).Some? &&
        CleanComment(BindComment(data)).Unbound?) ==> r == Err(InvalidForm([]))
      ensures (actor.Some? && FindPost(old(posts), id, username).Some? &&
        CleanComment(BindComment(data)).Rejected?) ==>
        r == Err(InvalidForm(CleanComment(BindComment(data)).errors))
      ensures r.Ok? ==>
        && r.value == Comment(old(nextCommentId), id, actor.value, CleanComment(BindComment(data)).value, old(clock))
        && Snapshot() == old(Snapshot()).(comments := old(comments) + [r.value],
                                          clock := old(clock) + 1,
                                          nextCommentId := old(nextCommentId) + 1)
    {
      if actor.None? {
        return Err(LoginRequired);
      }
      var found := FindPost(posts, id, username);
      if found.None? {
        return Err(NotFound);
      }
      match CleanComment(BindComment(data))
      case Unbound =>
        r := Err(InvalidForm([]));
      case Rejected(errors) =>
        r := Err(InvalidForm(errors));
      case Accepted(text) =>
        var c := Comment(nextCommentId, id, actor.value, text, clock);
        assert posts[found.value].id == id;
        AppendCommentKeeps(Snapshot(), c);
        comments := comments + [c];
        clock := clock + 1;
        nextCommentId := nextCommentId + 1;
        r := Ok(c);
    }

    /**
     * profile_follow: NotFound for an unknown author; otherwise get-or-create
     * the (actor, author) edge, except that following oneself does nothing.
     */
    method ProfileFollow(actor: Option<UserName>, username: UserName) returns (r: Outcome)
      requires Valid() && KnownActor(Snapshot(), actor)
      modifies this
      ensures Valid()
      ensures actor.None? ==> r == Fail(LoginRequired)
      ensures actor.Some? && username !in old(users) ==> r == Fail(NotFound)
      ensures r.Done? <==> actor.Some? && username in old(users)
      ensures r.Fail? || actor == Some(username) ==> Snapshot() == old(Snapshot())
      ensures r.Done? && actor.value != username ==>
        Snapshot() == old(Snapshot()).(follows := GetOrCreate(old(follows), Follow(actor.value, username)))
    {
      if actor.None? {
        return Fail(LoginRequired);
      }
      if username !in users {
        return Fail(NotFound);
      }
      if username != actor.value {
        var fs := GetOrCreate(follows, Follow(actor.value, username));
        FollowsChangeKeeps(Snapshot(), fs);
        follows := fs;
      }
      r := Done;
    }

    /**
     * profile_unfollow: NotFound for an unknown author; otherwise delete the
     * (actor, author) edge if there is one, and do nothing if there is not.
     */
    method ProfileUnfollow(actor: Option<UserName>, username: UserName) returns (r: Outcome)
      requires Valid() && KnownActor(Snapshot(), actor)
      modifies this
      ensures Valid()
      ensures actor.None? ==> r == Fail(LoginRequired)
      ensures actor.Some? && username !in old(users) ==> r == Fail(NotFound)
      ensures r.Done? <==> actor.Some? && username in old(users)
      ensures r.Fail? ==> Snapshot() == old(Snapshot())
      ensures r.Done? ==>
        Snapshot() == old(Snapshot()).(follows := DeleteEdge(old(follows), Follow(actor.value, username)))
    {
      if actor.None? {
        return Fail(LoginRequired);
      }
      if username !in users {
        return Fail(NotFound);
      }
      var fs := DeleteEdge(follows, Follow(actor.value, username));
      FollowsChangeKeeps(Snapshot(), fs);
      follows := fs;
      r := Done;
    }

    /** Creating a group: the slug column is unique, so a taken slug is refused. */
    method AddGroup(title: string, slug: string, description: string) returns (r: Result<Group>)
      requires Valid()
      modifies this
      ensures Valid()
      ensures r.Err? <==> FindGroup(old(groups), slug).Some?
      ensures r.Err? ==> r.error == DuplicateSlug && Snapshot() == old(Snapshot())
      ensures r.Ok? ==>
        && r.value == Group(old(nextGroupId), title, slug, description)
        && Snapshot() == old(Snapshot()).(groups := old(groups) + [r.value], nextGroupId := old(nextGroupId) + 1)
    {
      if FindGroup(groups, slug).Some? {
        return Err(DuplicateSlug);
      }
      var g := Group(nextGroupId, title, slug, description);
      AppendGroupKeeps(Snapshot(), g);
      groups := groups + [g];
      nextGroupId := nextGroupId + 1;
      r := Ok(g);
    }

    /** Deleting a group keeps its posts and sets their group to none (SET_NULL). */
    method DeleteGroup(id: nat)
      requires Valid()
      modifies this
      ensures Valid()
      ensures Snapshot() == WithoutGroup(old(Snapshot()), id)
    {
      DeleteGroupKeeps(Snapshot(), id);
      groups := Keep(groups, GroupNotId(id));
      posts := Ungroup(posts, id);
    }

    /**
     * Deleting a user (CASCADE): their posts, the comments they wrote, the
     * comments on their posts, and the follow edges from and to them all go.
     */
    method DeleteUser(u: UserName)
      requires Valid()
      modifies this
      ensures Valid()
      ensures Snapshot() == WithoutUser(old(Snapshot()), u)
    {
      var s0 := Snapshot();
      DeleteUserKeeps(s0, u);
      var t := WithoutUser(s0, u);
      users, posts, comments, follows := t.users, t.posts, t.comments, t.follows;
      assert Snapshot() == t;
    }

    /** Deleting a post (CASCADE) deletes its comments and nothing else. */
    method DeletePost(id: nat)
      requires Valid()
      modifies this
      ensures Valid()
      ensures Snapshot() == WithoutPost(old(Snapshot()), id)
    {
      DeletePostKeeps(Snapshot(), id);
      posts := Keep(posts, PostNotId(id));
      comments := Keep(comments, CommentNotOn(id));
    }
  }
}
