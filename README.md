# Yatube post/follow store in Dafny

Yatube is a small blog. Users write posts, optionally file them under a
group, comment on posts, and follow other authors. This project models the
core as an in-memory store. The store has a post table, a group table with
unique slugs, a comment table, and a follow table with one row per
(user, author) pair. The model covers:

- the request handlers that write to the store: new post, edit post, add a
  comment, follow, unfollow;
- the queries that read from it: home page, group page, profile page, the
  follow feed, and a single post;
- the deletion policies the schema sets on its foreign keys.

Modules follow the source:

- `Models` (models.py): the records, how a post's display name is built
  (`PostStr`), the newest-first ordering, and SET_NULL for a deleted group.
- `Forms` (forms.py): which fields a post or comment submission may set,
  and when a submission is rejected.
- `Follows`: the follow table under its unique constraint, with
  get-or-create and filter-delete.
- `Feeds`: the four listings. Each filters the post table and returns the
  result newest first. The follow feed is modelled the way the query
  computes it, as an inner join of posts with follow rows.
- `Paging`: pages of `COUNT_POSTS = 10`.
- `Views` (views.py): the queries as functions of a `StoreState`, and the
  class `Store`. Its fields are the tables and counters. Its methods are
  the writing handlers and the deletions. Each method states its entire
  new state and keeps the store invariant `Valid()`.
- `Seqs`: sequence helpers (a filter over rows, orderings, multiplicities).

How the environment is represented:

- **Actor.** The logged-in user is an explicit `Option<UserName>`
  parameter, and `None` is an anonymous visitor. A handler guarded by a
  login answers `LoginRequired` to an anonymous visitor and changes
  nothing.
- **Not found.** Each `get_object_or_404` lookup gives `NotFound`.
- **Edit by a non-author.** The source redirects to the post and saves
  nothing. The model returns `NotAuthor` and proves that the state is
  unchanged.
- **Form outcomes.** The views hand a form `request.POST or None`, so a
  request with no body, or with no field and no file, leaves the form
  unbound (`BindPost`, `BindComment`); an unbound form gives
  `InvalidForm([])`. A rejected form gives `InvalidForm(errors)`, with the
  errors in field order.
- **Time.** `pub_date` and a comment's `created` come from a monotonic
  counter, `clock`.
- **Images.** An image is an opaque token from the file store.
- **Users.** Users are the identity service's and are referred to by
  their unique username. The constructor receives the set of known users.

Two behaviours of the code worth stating plainly:

- `profile_follow` refuses a self-follow and changes nothing (views.py:124).
- A non-author's edit is redirected to the post without saving
  (views.py:71-72); the model answers `Err(NotAuthor)` with the store
  unchanged.

## Model

| member | source | states |
|---|---|---|
| `Models.PostStr` | yatube/posts/models.py:28-29 | a post's name is the prefix of its text of length min(15, length of text) |
| `Models.Ungroup` | yatube/posts/models.py:13-18 | SET_NULL: the same posts in the same places; those in the deleted group lose their group, nothing else changes |
| `Follows.UniqueEdgeCount` | yatube/posts/models.py:60-64 | under the unique constraint a (user, author) pair has exactly one row if present, none otherwise |
| `Follows.GetOrCreate` | yatube/posts/views.py:124-125 | after get-or-create the edge is present; an existing edge leaves the table unchanged; uniqueness is kept and the edge occurs exactly once; every other pair keeps its row count; no foreign row appears |
| `Follows.DeleteEdge` | yatube/posts/views.py:132 | after the delete the edge is absent; an absent edge means no change; uniqueness is kept; every other pair keeps its row count; no row is added |
| `Follows.FollowIdempotent` | yatube/posts/views.py:125 | following twice leaves the same table as following once |
| `Follows.UnfollowIdempotent` | yatube/posts/views.py:132 | unfollowing twice leaves the same table as unfollowing once |
| `Follows.UnfollowUndoesFollow` | yatube/posts/views.py:124-132 | when follow created the edge, unfollowing restores the table exactly |
| `Paging.NumPages` | yatube/posts/views.py:15 | the page count is ceil(n / 10), and 1 when there are no items |
| `Paging.PageOf` | yatube/posts/views.py:15-17 | page k exists exactly for 1 <= k <= NumPages; it holds min(10, n - 10(k-1)) items, namely the items from position 10(k-1) on, in order |
| `Paging.PageSizes` | yatube/posts/views.py:9-17 | every page except the last holds 10 items; the last page is empty only when there are no items |
| `Paging.PageOfItem` | yatube/posts/views.py:15-17 | item i is on page i/10 + 1, at position i mod 10 |
| `Paging.ElevenItems` | yatube/posts/tests/test_views.py:199-205 | 11 items make 2 pages, of 10 and 1; page 3 does not exist |
| `Feeds.ListingMembers` | yatube/posts/views.py:13-47 | a listing contains exactly the table's posts that the filter (all, group, author, followed-by) selects |
| `Feeds.Listing` | yatube/posts/views.py:13-47 | the querysets `Post.objects.all()`, `group.posts.all()` and `user_profile.posts.all()` under the `-pub_date` ordering: a listing is never longer than the table (its contents and order are the lemmas below) |
| `Feeds.ListingNewestFirst` | yatube/posts/models.py:25-26 | over a table in insertion order, every listing is strictly newest first |
| `Feeds.ListingAppend` | yatube/posts/views.py:33-36 | a newly saved post heads every listing that selects it and leaves the other listings unchanged |
| `Feeds.EverythingIsReverse` | yatube/posts/views.py:13-18 | the home listing holds every post; its i-th entry is the i-th newest |
| `Feeds.FollowJoin` | yatube/posts/views.py:110 | every post in the joined feed comes from the table, and its author is followed by the user |
| `Feeds.FollowJoinIsListing` | yatube/posts/views.py:108-113 | under the unique constraint the join equals the set-theoretic feed: the posts whose author the user follows, each once, newest first |
| `Feeds.NewPostInFollowFeed` | yatube/posts/tests/test_forms.py:157-184 | a new post puts itself at the head of a follower's feed and leaves a non-follower's feed unchanged |
| `Feeds.NoFollowsEmptyFeed` | yatube/posts/views.py:110 | a user who follows nobody gets an empty feed, not an error |
| `Forms.CleanPost` | yatube/posts/forms.py:6-19 | a post submission is accepted exactly when its text, stripped of surrounding whitespace, is non-empty and free of NUL characters and any group it names exists; when accepted it sets only the stripped text, the group and the image; the "required" error with its own message appears exactly when the text is missing or blank, the null-character error exactly when a supplied text holds a NUL, the invalid-choice error exactly when the group is unknown; there are at most two errors, the text's first |
| `Forms.PostFormIgnoresExtraFields` | yatube/posts/tests/test_forms.py:57-70 | author and date values in a submission do not change the outcome |
| `Forms.GroupAndImageOptional` | yatube/posts/models.py:13-23 | a submission with non-blank text alone is accepted, with no group and no image |
| `Forms.CleanComment` | yatube/posts/forms.py:22-25 | a comment submission is accepted exactly when its text, stripped of surrounding whitespace, is non-empty and free of NUL characters; it sets only the stripped text; otherwise the one error is "text required" for a missing or blank text and the null-character error for a supplied one |
| `Forms.StripSpec` | yatube/posts/models.py:48 | the text a text field keeps is the piece of the value between a blank prefix and a blank suffix, starts and ends with non-whitespace, and is empty exactly when the value is all whitespace |
| `Forms.StripIdempotent` | yatube/posts/models.py:48 | stripping an already stripped text changes nothing |
| `Forms.BlankTextRejected` | yatube/posts/forms.py:15-25 | a text of whitespace only is rejected as required by both forms |
| `Forms.NulTextRejected` | yatube/posts/models.py:8 | a supplied text holding a NUL character is refused by either form with the null-character error alone |
| `Forms.StripKeepsNul` | yatube/posts/models.py:48 | stripping neither adds nor removes a NUL character |
| `Forms.PaddingIsStripped` | yatube/posts/forms.py:6-25 | a text padded with a leading space and a trailing newline is saved by either form as the unpadded text, stripped |
| `Forms.BindPost` | yatube/posts/views.py:32 | a request without fields and files binds nothing; any other submission is passed on unchanged |
| `Forms.BindComment` | yatube/posts/views.py:99 | a request without the text field binds nothing; any other submission is passed on unchanged |
| `Forms.EmptySubmissionUnbound` | yatube/posts/views.py:32-33 | an empty POST leaves either form unbound, with no error; a text field sent empty is rejected as required |
| `Views.FindPost` | yatube/posts/views.py:58 | finds a post only when both id and author username match; returns nothing when no post matches both |
| `Views.FindGroup` | yatube/posts/views.py:22 | finds a group by slug; returns nothing when no group has that slug |
| `Paging.PageKeepsOrder` | yatube/posts/models.py:25-26 | a page of a newest-first listing is newest first |
| `Views.FeedPage` | yatube/posts/views.py:13-26 | page k of a listing: InvalidPage outside 1..NumPages, otherwise exactly the paginator's page k of the listing, newest first and holding only the table's posts that the filter selects |
| `Views.Index` | yatube/posts/views.py:13-18 | the home page k holds min(10, n - 10(k-1)) posts, the newest first, and is the table read backwards from position 10(k-1) |
| `Views.GroupPosts` | yatube/posts/views.py:21-27 | an unknown slug gives NotFound; a known one gives a page exactly when k is within the group listing's page count (an empty group has one empty page), and InvalidPage otherwise; the page is the group with that slug and page k of its posts, newest first |
| `Views.Profile` | yatube/posts/views.py:43-54 | an unknown user gives NotFound; a known one gives a page exactly when k is within their listing's page count, and InvalidPage otherwise; the page is page k of that user's posts, newest first; `following` holds exactly when the actor is logged in and has an edge to the user |
| `Views.PostView` | yatube/posts/views.py:57-65 | found exactly when one post matches both id and author; it returns that post and all of its comments, only those, each once and in the order they were written |
| `Views.FollowIndex` | yatube/posts/views.py:108-118 | an anonymous actor gets LoginRequired; otherwise the page of the join equals the page of the posts whose author the actor follows |
| `Views.WithoutGroup` | yatube/posts/models.py:13-18 | deleting a group removes only that group; every post stays in its place, unchanged except that none refers to the group |
| `Views.WithoutUserRows` | yatube/posts/models.py:11-57 | deleting a user removes their posts, the comments they wrote, the comments on their posts, and the edges from and to them; every other row stays |
| `Views.WithoutUser` | yatube/posts/models.py:11-57 | deleting a user removes the user from the known users and changes only the post, comment and follow tables (which rows stay is `WithoutUserRows`) |
| `Views.WithoutPost` | yatube/posts/models.py:42-44 | deleting a post removes it and its comments; every other post and comment stays |
| `Views.AppendPostKeeps` | yatube/posts/views.py:33-36 | saving a fresh post keeps the store invariant (insertion order, fresh keys, live authors and groups, comments on live posts, unique follows) |
| `Views.EditPostKeeps` | yatube/posts/views.py:73-76 | overwriting a post's text, group or image in place keeps the store invariant |
| `Views.AppendCommentKeeps` | yatube/posts/views.py:100-104 | saving a comment on a live post keeps the store invariant |
| `Views.FollowsChangeKeeps` | yatube/posts/models.py:60-64 | any duplicate-free follow table between known users keeps the store invariant |
| `Views.AppendGroupKeeps` | yatube/posts/models.py:34 | adding a group with a fresh slug keeps slugs unique |
| `Views.DeleteGroupKeeps` | yatube/posts/models.py:13-18 | SET_NULL keeps every post's group reference valid |
| `Views.DeleteUserKeeps` | yatube/posts/models.py:11-57 | the user cascade leaves no post, comment or edge that refers to a deleted row |
| `Views.DeletePostKeeps` | yatube/posts/models.py:42-44 | the post cascade leaves no comment on a deleted post |
| `Views.Consistent` | yatube/posts/models.py:7-64 | the database invariant: posts, groups and comments in key order with fresh keys, unique group slugs, unique (user, author) follow pairs, and every foreign key (author, group, post, follow ends) pointing at a live row |
| `Views.Store.Valid` | yatube/posts/models.py:7-64 | the store's fields satisfy `Consistent` |
| `Views.Store.constructor` | yatube/posts/models.py:7-64 | a new store has the given users, empty tables and fresh counters, and is valid |
| `Views.Store.NewPost` | yatube/posts/views.py:30-40 | anonymous gives LoginRequired; an unbound form gives InvalidForm([]) and a rejected one its errors, changing nothing; a valid one appends exactly one post with the next id, the current stamp, the actor as author and the submitted text, group and image, and changes nothing else |
| `Views.Store.PostEdit` | yatube/posts/views.py:68-80 | lookup needs both id and username; a non-author gets NotAuthor with the store unchanged; an unbound or rejected form gives its InvalidForm with nothing changed; a valid author edit replaces text and group (and the image if one is uploaded) in place, keeps id, author and date and the post count, and changes nothing else |
| `Views.Store.AddComment` | yatube/posts/views.py:96-105 | anonymous gives LoginRequired; an unmatched id and username give NotFound; valid text appends one comment on that post by the actor; an unbound or rejected form gives its InvalidForm and adds nothing |
| `Views.Store.ProfileFollow` | yatube/posts/views.py:121-126 | an unknown author gives NotFound; a self-follow changes nothing; otherwise the follow table becomes its get-or-create, and nothing else changes |
| `Views.Store.ProfileUnfollow` | yatube/posts/views.py:129-133 | an unknown author gives NotFound; otherwise the follow table becomes its filter-delete, and nothing else changes |
| `Views.Store.AddGroup` | yatube/posts/models.py:32-35 | a taken slug is refused with nothing changed; otherwise one group is appended with the next id |
| `Views.Store.DeleteGroup` | yatube/posts/models.py:13-18 | the store becomes `WithoutGroup` of the old store and stays valid |
| `Views.Store.DeleteUser` | yatube/posts/models.py:11-57 | the store becomes `WithoutUser` of the old store and stays valid |
| `Views.Store.DeletePost` | yatube/posts/models.py:42-44 | the store becomes `WithoutPost` of the old store and stays valid |

## Left out

- Paging.PageOf: views call the paginator's `get_page`, which turns a missing or non-numeric page number into page 1 and an out-of-range one into the last page. The model has no such fallback and answers `InvalidPage` instead, because the paginator library is not part of this model.
- Views.Store.PostEdit: the image field's "clear" checkbox is not modelled. Without an upload the old image is kept; with one it is replaced.
- Forms.CleanPost: checks that an upload is a valid image and field length limits are not modelled; they belong to the form library, which is not part of this model.
- Forms.IsSpace: the text fields strip these ten characters only: space, tab, line feed, vertical tab, form feed, carriage return and U+001C to U+001F. Other Unicode whitespace, which the framework also strips, is kept. This applies equally to Forms.CleanPost, Forms.CleanComment and Views.Store.AddComment.
- Forms.BindComment: the comment data holds only the text field, so a POST that carries other fields (a CSRF token, say) but no text is treated as empty; the code would bind it and reject it as "required".
- Forms.BindPost: likewise, a POST whose only fields are ones other than text, group, image, author and date is treated as empty; the code would bind it and reject it as "required".
- Forms.CleanComment: the framework's default "required" message appears only as `None`; its wording depends on the locale. Likewise the null-character error carries no message text.
- Views.Store.AddGroup: the 200-character limit on a group's title is not checked.
- Templates, redirects, HTTP status codes and the 404/500 handlers (views.py:83-93) are presentation and are not modelled. Handlers return values or errors instead.
- Login, sessions and authentication are not modelled; the actor is a parameter. Users are given to the constructor. Registering new users belongs to the identity service and is not modelled; deleting a user is.
- Image upload and file storage are not modelled; an image is an opaque token.
- The home-page fragment cache is not modelled. It lives in a template and the cache backend, and its behaviour depends on time.
- Real datetimes are replaced by a counter. Creation stamps are therefore strictly increasing and never tie.
- Comments have no declared ordering. A post's comments are returned in insertion order.
- Follow rows carry no id of their own. A row is the pair.
- `Group.__str__` (the title) is not modelled; it is display only.
- Concurrent requests are not modelled; each operation is one atomic step.
- The migration file only restates the follow-pair unique constraint and is not modelled separately.
