# Blog store: posts, groups, comments and follows

A model of the data layer and views of a small blogging platform. Users (known by
their unique username) publish posts, optionally inside a group; other users comment
on posts and follow authors to get a personal feed. The model covers:

- **The tables and their rules** (`models.dfy`, `database.dfy`). Four tables, Group,
  Post, Comment and Follow, plus the host's user table. They live in the class
  `Database.Store`, and every row-level change updates them in place. The object
  invariant `Store.Valid()` holds:
  - the default orderings: posts newest `pub_date` first, comments newest `created` first;
  - the unique group slug and the unique (author, user) follow pair;
  - every foreign key.
  Timestamps come from a `nat` creation counter, so the ordering is total. Each table is
  kept in its listing order: a new post or comment goes at the head. Deleting a user,
  a group or a post applies the `on_delete` rule of each foreign key: CASCADE or SET_NULL.
- **The views** (`views.dfy`). Each view is one method over the store. The session user
  is an explicit `requester: Option<UserName>`. `login_required` becomes a redirect to
  the login page. `get_object_or_404` becomes a not-found answer, and then nothing changes.
  - The query views (`Index`, `GroupPosts`, `Profile`, `FollowIndex`) change nothing. Each
    returns its exact post list, newest first, and the requested page of it.
  - The state-changing views touch only the table they write. Their effect is given by
    pure functions in `models.dfy` (`Followed`, `Unfollowed`, `EditPost`), which carry
    the lemmas.
- **Paging** (`paginator.dfy`). Every feed is paged ten to a page, as Django's
  `Paginator` does, including `get_page`'s fall-backs. A missing or non-integer page
  number gives page 1. An out-of-range number gives the last page.

Three behaviours of the code are modelled as written:

- `new_post` builds its form without the uploaded files, so a post created through it
  never has an image (`posts/views.py:94`).
- `follow_index` selects posts through a join with the follow table. The model is that
  join, which yields one row per matching follow row. `FollowJoinIsFilter` shows that
  the unique (author, user) pair makes the join a plain filter.
- `add_comment` finds the post by id and author username together, with no separate
  user lookup.

## Model

| member | source | states |
|---|---|---|
| `Models.Filter` | posts/views.py:122 | A queryset filter keeps exactly the rows that satisfy the condition and never adds rows. |
| `Models.FilterPairwise` | posts/models.py:53 | Filtering keeps the relative order of the rows, so every filtered post list stays newest first. |
| `Models.FilterTwice` | posts/views.py:317 | Deleting the same rows a second time deletes nothing more. |
| `Models.CountDistinct` | posts/models.py:158 | In a table without duplicate rows, each row occurs exactly once or not at all. |
| `Models.FilterOutCount` | posts/views.py:317 | Deleting all copies of a row shrinks the table by the number of copies. |
| `Models.SlugIdentifiesGroup` | posts/models.py:69-73 | Two groups of a valid table with the same slug are the same group. |
| `Models.IdIdentifiesPost` | posts/models.py:9 | Two posts of a valid table with the same id are the same post, so an edit by id touches one row. |
| `Models.Followed` | posts/views.py:301-304 | The follow table gains exactly the edge (author, user), unless that edge exists or author = user; then it is unchanged. Edge uniqueness is preserved. |
| `Models.Unfollowed` | posts/views.py:316-317 | The edge set becomes the old set minus (author, user). An absent edge is no error. Uniqueness is preserved. |
| `Models.FollowIdempotent` | posts/views.py:302-304 | Following twice gives the same table as following once: one edge. |
| `Models.UnfollowIdempotent` | posts/views.py:317 | Unfollowing twice gives the same table as unfollowing once. |
| `Models.FollowThenUnfollow` | posts/views.py:301-317 | Following a new author and then unfollowing them gives back the original table. |
| `Models.FollowCounts` | posts/models.py:158 | With unique pairs, a follow adds one row exactly when it is neither a self-follow nor present. An unfollow removes one row exactly when the edge is present. |
| `Models.EditPost` | posts/views.py:235-244 | Only the post with the given id changes, and only its text, group and image. Its id, author and pub_date stay, and the newest-first order is kept. |
| `Models.PostsNotBy` | posts/models.py:23-28 | CASCADE on the author: exactly the posts by other authors survive a user's deletion, still newest first. |
| `Models.PostsWithoutId` | posts/models.py:96-101 | Deleting a post (the `Post` class at line 9, whose deletion the comment's CASCADE at lines 96-101 follows) keeps exactly the other posts, still newest first. |
| `Models.CommentsSurviving` | posts/models.py:96-107 | CASCADE on both comment keys: exactly the comments by other authors on surviving posts remain, still newest first. |
| `Models.CommentsNotOn` | posts/models.py:96-101 | CASCADE on the post: exactly the comments on other posts remain, still newest first. |
| `Models.EdgesWithout` | posts/models.py:136-148 | CASCADE on both Follow keys: exactly the edges that do not touch the user remain, and pairs stay unique. |
| `Models.GroupsWithoutId` | posts/models.py:58-80 | Deleting a group keeps exactly the other groups, in creation order, so slugs stay unique. |
| `Models.ClearGroup` | posts/models.py:29-36 | SET_NULL: no post is removed, and posts of the deleted group end with group None. Posts in other groups keep their group, and all other fields are unchanged. |
| `Paginator.NumPages` | posts/views.py:28 | The page count is the least n >= 1 with count <= 10n. |
| `Paginator.PageNumber` | posts/views.py:29-30 | The chosen page lies in 1..num_pages, and it is the requested page whenever that is in range. |
| `Paginator.PageSlice` | posts/views.py:28-30 | A page holds at most 10 rows. Every page but the last holds exactly 10, the first page of a non-empty list is not empty, and row k of page n is row 10(n-1)+k of the list. |
| `Paginator.Paginate` | posts/views.py:27-30 | The page keeps the full object list. A missing page number gives page 1, an in-range one that page, and an out-of-range one the last page. |
| `Paginator.PagesPrefix` | posts/views.py:28 | Pages 1..n, read in order, are the first min(10n, count) rows of the list. |
| `Paginator.PagesCoverList` | posts/views.py:28 | Reading all pages in order gives back the whole list, so every post is on exactly one page. |
| `Paginator.RowOnPage` | posts/views.py:28-30 | Row i of the list is row i mod 10 of page i div 10 + 1. |
| `Database.Store.Valid` | posts/models.py:9-160 | The store invariant: posts and comments newest first, slugs unique, follow pairs unique, every foreign key resolving. It implies that no group, post or comment row is stored twice. |
| `Database.Store.constructor` | posts/models.py:9-160 | The store starts with all tables empty and satisfies its invariant. The creation clock starts at 0 and every id counter at 1, so the first post, group and comment each get id 1. |
| `Database.Store.AddUser` | posts/models.py:6 | A registered username joins the user table, and a taken username is reported. |
| `Database.Store.CreateGroup` | posts/models.py:69-73 | A group is refused exactly when its slug is taken. Otherwise it is appended with a fresh id, and slugs stay unique. |
| `Database.Store.CreatePost` | posts/models.py:19-28 | A saved post gets the next id and the current creation stamp, and goes first in the post table. The invariant is kept. |
| `Database.Store.SavePost` | posts/views.py:244 | Saving an edited post replaces the table by `EditPost` of the old one. The invariant is kept. |
| `Database.Store.CreateComment` | posts/views.py:203-206 | A saved comment gets the next id and the current creation stamp, and goes first in the comment table. |
| `Database.Store.CreateFollow` | posts/models.py:158 | A follow row is added exactly when the pair is not already present, so pairs stay unique. |
| `Database.Store.DeleteFollows` | posts/views.py:317 | Deleting the follow rows of a pair leaves `Unfollowed` of the old table. |
| `Database.Store.DeleteUser` | posts/models.py:23-28 | Deleting a user removes exactly that user's posts and their comments. Through the post FK (lines 96-101) it removes comments on those posts, and through the Follow FKs (lines 136-148) every edge with the user at either end. Nothing else is removed. |
| `Database.Store.DeleteGroup` | posts/models.py:29-36 | Deleting a group removes only that group, and the post table becomes `ClearGroup` of the old one. |
| `Database.Store.DeletePost` | posts/models.py:96-101 | Deleting a post removes exactly that post and exactly the comments whose post it was. |
| `Views.PostFormValid` | posts/forms.py:7-27 | An unbound form is never valid, and neither is one with empty text. The group is optional: text alone is enough. A chosen group must exist. |
| `Views.CommentFormValid` | posts/forms.py:30-48 | A comment form is valid exactly when it is bound and its text is not empty. |
| `Views.FindGroup` | posts/views.py:60 | The group with the slug is found exactly when one exists. |
| `Views.FindPost` | posts/views.py:200 | A post is found exactly when one has that id and that author username. |
| `Views.GroupPostList` | posts/views.py:61 | The group's post list is exactly the posts whose group is that group, in newest-first order. |
| `Views.AuthorPostList` | posts/views.py:122 | The profile's post list is exactly the posts by that author, in newest-first order. |
| `Views.FollowJoin` | posts/views.py:278-280 | The join as written: a post appears in it exactly when its author is followed by u. |
| `Views.FollowJoinIsFilter` | posts/views.py:278-280 | Because follow pairs are unique, the follow join repeats no post and equals the filter by followed author. |
| `Views.FollowPostList` | posts/views.py:278-280 | The following feed is exactly the posts whose author has an edge (author, u), newest first. |
| `Views.Index` | posts/views.py:27-30 | The global feed pages all posts, newest first. |
| `Views.GroupPosts` | posts/views.py:60-64 | An unknown slug gives NotFound. Otherwise the feed holds exactly the group's posts, newest first, paged. |
| `Views.Profile` | posts/views.py:121-131 | An unknown username gives NotFound. Otherwise the feed holds exactly that author's posts, newest first. `following` is false for an anonymous requester, and otherwise true iff the edge (author, requester) exists. |
| `Views.FollowIndex` | posts/views.py:278-283 | An anonymous requester is sent to login. Otherwise the feed holds exactly the posts of the followed authors, newest first; a non-follower's feed lacks them. |
| `Views.NewestPostOpensIndex` | posts/views.py:98-100 | A post placed at the head of the table is the first item of the first page of the global feed. |
| `Views.NewPost` | posts/views.py:94-101 | An anonymous requester or an invalid form leaves every field of the store unchanged, counters and clock included. A valid form puts one post first, authored by the requester, with the form's text and group and no image. It also advances the post id counter and the clock by one. |
| `Views.AddComment` | posts/views.py:200-207 | An anonymous requester, an unknown post or an invalid form leaves every field of the store unchanged, counters and clock included. A valid form adds exactly one comment, by the requester, on the addressed post. It also advances the comment id counter and the clock by one. |
| `Views.PostEdit` | posts/views.py:231-245 | A requester whose username differs from the URL's changes nothing, and neither does an unknown post or an invalid form. Otherwise the table becomes `EditPost` of the old one, with the uploaded image or else the old image. |
| `Views.ProfileFollow` | posts/views.py:301-306 | An anonymous requester or an unknown username changes nothing. Otherwise the follow table becomes `Followed` of the old one. |
| `Views.ProfileUnfollow` | posts/views.py:316-319 | An anonymous requester or an unknown username changes nothing. Otherwise the follow table becomes `Unfollowed` of the old one. |

## Left out

- Template rendering, the redirect targets' URLs, `post_view` (it only renders), `page_not_found` and `server_error`. Responses are reduced to a redirect target, "show the form" or "not found".
- `cache_page` on `index`: caching has no effect on the data.
- Authentication and sessions. The requester is a parameter, and a logged-in requester is assumed to be a registered user (`KnownRequester`).
- Image upload, storage and validation. An image is an opaque optional reference, and an invalid upload is not modelled. On edit, an uploaded image replaces the old one and no upload keeps it; the "clear" checkbox is not modelled.
- Form validation is reduced to its rules that matter here. Post and comment text must be non-empty. A post's group must be empty or an existing group. Django's stripping of surrounding whitespace from text fields is not modelled.
- Parsing of the `page` query parameter: the page number arrives as `Option<int>`, with `None` for a missing or non-integer value.
- The group feed URL's default slug `leo`: the slug is always passed explicitly.
- Django's per-field limits (group title 200 characters, slug 250 characters in slug syntax): only slug uniqueness is modelled.
- Group creation and the deletion of users, groups and posts are admin-site or host actions. The store offers them (`CreateGroup`, `DeleteUser`, `DeleteGroup`, `DeletePost`), and no view calls them.
- Concurrency: races on the unique follow pair are not modelled, since every operation runs alone.
- The admin site, app configuration, the context processor that reads the wall clock, the user sign-up form and views, template filters and migrations are not part of this model.
