/**
 * The views of the posts app, one method each, over the store. The session's user is an
 * explicit `requester` (None for an anonymous visitor); `login_required` becomes a
 * redirect to the login page, `get_object_or_404` a not-found answer. Queries change
 * nothing; each state change touches only the table its view writes.
 */
module Views {
  import opened Wrappers
  import opened Models
  import opened Database
  import opened Paginator

  datatype Failure = NotFound | LoginRequired
  datatype Result<T> = Ok(value: T) | Err(failure: Failure)

  datatype Target =
    | IndexPage
    | PostPage(username: UserName, postId: PostId)
    | ProfilePage(username: UserName)
    | LoginPage

  /** What a state-changing view answers: a redirect, the form again, or not found. */
  datatype Response = Redirect(to: Target) | ShowForm | NotFoundPage

  /** The fields of PostForm; the image is uploaded separately. */
  datatype PostData = PostData(text: string, group: Option<GroupId>)

  datatype GroupFeed = GroupFeed(group: Group, page: Page<Post>)
  datatype ProfileFeed = ProfileFeed(author: UserName, page: Page<Post>, following: bool)

  /** A logged-in requester is a registered user. */
  predicate KnownRequester(store: Store, requester: Option<UserName>)
    reads store
  {
    requester.Some? ==> requester.value in store.users
  }

  /** PostForm is bound (None is a GET), has text, and names an existing group or none. */
  predicate PostFormValid(groups: seq<Group>, form: Option<PostData>): (r: bool)
    ensures form.None? ==> !r
    ensures form.Some? && form.value.text == "" ==> !r
    ensures form.Some? && form.value.text != "" && form.value.group.None? ==> r
    ensures r && form.value.group.Some? ==> exists g :: g in groups && g.id == form.value.group.value
  {
    && form.Some?
    && form.value.text != ""
    && (form.value.group.Some? ==> form.value.group.value in GroupIds(groups))
  }

  /** CommentForm is bound and has text. */
  predicate CommentFormValid(form: Option<string>): (r: bool)
    ensures form.None? ==> !r
    ensures form == Some("") ==> !r
    ensures r ==> |form.value| > 0
  {
    form.Some? && form.value != ""
  }

  // ---------------------------------------------------------------------------
  // Lookups and post lists

  /** `get_object_or_404(Group, slug=slug)`. */
  function FindGroup(groups: seq<Group>, slug: string): (r: Option<Group>)
    ensures r.None? <==> !SlugTaken(groups, slug)
    ensures r.Some? ==> r.value in groups && r.value.slug == slug
  {
    if groups == [] then None
    else if groups[0].slug == slug then Some(groups[0])
    else FindGroup(groups[1..], slug)
  }

  /** `get_object_or_404(Post, id=post_id, author__username=username)`. */
  function FindPost(posts: seq<Post>, id: PostId, username: UserName): (r: Option<Post>)
    ensures r.None? <==> !exists p :: p in posts && p.id == id && p.author == username
    ensures r.Some? ==> r.value in posts && r.value.id == id && r.value.author == username
  {
    if posts == [] then None
    else if posts[0].id == id && posts[0].author == username then Some(posts[0])
    else FindPost(posts[1..], id, username)
  }

  /** `group.posts.all()`: the posts of group `g`, in the table's order. */
  function GroupPostList(posts: seq<Post>, g: GroupId): (r: seq<Post>)
    ensures forall p :: p in r <==> p in posts && p.group == Some(g)
    ensures Pairwise(posts, Newer) ==> Pairwise(r, Newer)
  {
    var keep := (p: Post) => p.group == Some(g);
    FilterPairwise(posts, keep, Newer);
    Filter(posts, keep)
  }

  /** `Post.objects.filter(author__username=username)`. */
  function AuthorPostList(posts: seq<Post>, username: UserName): (r: seq<Post>)
    ensures forall p :: p in r <==> p in posts && p.author == username
    ensures Pairwise(posts, Newer) ==> Pairwise(r, Newer)
  {
    var keep := (p: Post) => p.author == username;
    FilterPairwise(posts, keep, Newer);
    Filter(posts, keep)
  }

  function Repeat<T(!new)>(x: T, n: nat): (r: seq<T>)
    ensures |r| == n
    ensures forall i :: 0 <= i < n ==> r[i] == x
    ensures forall y :: y in r <==> n > 0 && y == x
  {
    var r := seq(n, _ => x);
    assert n > 0 ==> r[0] == x;
    r
  }

  /**
   * `Post.objects.filter(author__following__in=followings)` with `followings` the follow
   * rows of follower `u`: a join, so a post appears once for every matching follow row.
   */
  function FollowJoin(posts: seq<Post>, follows: seq<Follow>, u: UserName): (r: seq<Post>)
    ensures forall p :: p in r <==> p in posts && Follow(p.author, u) in follows
  {
    if posts == [] then []
    else
      var n := Count(follows, Follow(posts[0].author, u));
      CountPositive(follows, Follow(posts[0].author, u));
      assert posts == [posts[0]] + posts[1..];
      Repeat(posts[0], n) + FollowJoin(posts[1..], follows, u)
  }

  /** Because (author, user) is unique, the join repeats no post: it is a plain filter. */
  lemma {:induction false} FollowJoinIsFilter(
    posts: seq<Post>, follows: seq<Follow>, u: UserName, keep: Post -> bool)
    requires Distinct(follows)
    requires forall p :: keep(p) <==> Follow(p.author, u) in follows
    ensures FollowJoin(posts, follows, u) == Filter(posts, keep)
  {
    if posts != [] {
      FollowJoinIsFilter(posts[1..], follows, u, keep);
      CountDistinct(follows, Follow(posts[0].author, u));
      if keep(posts[0]) {
        assert Repeat(posts[0], 1) == [posts[0]];
      } else {
        assert Repeat(posts[0], 0) == [];
      }
    }
  }

  /** `follow_index`'s post list: exactly the posts of the authors `u` follows, newest first. */
  function FollowPostList(posts: seq<Post>, follows: seq<Follow>, u: UserName): (r: seq<Post>)
    requires Distinct(follows)
    ensures forall p :: p in r <==> p in posts && Follow(p.author, u) in follows
    ensures Pairwise(posts, Newer) ==> Pairwise(r, Newer)
  {
    var keep := (p: Post) => Follow(p.author, u) in follows;
    FollowJoinIsFilter(posts, follows, u, keep);
    FilterPairwise(posts, keep, Newer);
    FollowJoin(posts, follows, u)
  }

  // ---------------------------------------------------------------------------
  // Queries

  /** `index`: every post, newest first, ten to a page. */
  method Index(store: Store, page: Option<int>) returns (r: Page<Post>)
    requires store.Valid()
    ensures r.objectList == store.posts
    ensures Pairwise(r.objectList, Newer)
    ensures r == Paginate(store.posts, page)
  {
    r := Paginate(store.posts, page);
  }

  /** `group_posts`: the posts of the group with this slug, or not found. */
  method GroupPosts(store: Store, slug: string, page: Option<int>) returns (r: Result<GroupFeed>)
    requires store.Valid()
    ensures r.Err? <==> !SlugTaken(store.groups, slug)
    ensures r.Err? ==> r.failure == NotFound
    ensures r.Ok? ==> r.value.group in store.groups && r.value.group.slug == slug
    ensures r.Ok? ==> forall p :: p in r.value.page.objectList <==>
      p in store.posts && p.group == Some(r.value.group.id)
    ensures r.Ok? ==> Pairwise(r.value.page.objectList, Newer)
    ensures r.Ok? ==> r.value.page == Paginate(r.value.page.objectList, page)
  {
    var found := FindGroup(store.groups, slug);
    if found.None? {
      return Err(NotFound);
    }
    var group := found.value;
    r := Ok(GroupFeed(group, Paginate(GroupPostList(store.posts, group.id), page)));
  }

  /** `profile`: the posts of `username`, and whether the requester follows them. */
  method Profile(store: Store, requester: Option<UserName>, username: UserName, page: Option<int>)
    returns (r: Result<ProfileFeed>)
    requires store.Valid()
    ensures r.Err? <==> username !in store.users
    ensures r.Err? ==> r.failure == NotFound
    ensures r.Ok? ==> r.value.author == username
    ensures r.Ok? ==> forall p :: p in r.value.page.objectList <==> p in store.posts && p.author == username
    ensures r.Ok? ==> Pairwise(r.value.page.objectList, Newer)
    ensures r.Ok? ==> r.value.page == Paginate(r.value.page.objectList, page)
    ensures r.Ok? ==> (r.value.following <==>
      requester.Some? && Follow(username, requester.value) in store.follows)
  {
    if username !in store.users {
      return Err(NotFound);
    }
    var list := AuthorPostList(store.posts, username);
    var following := if requester.Some? then Follow(username, requester.value) in store.follows else false;
    r := Ok(ProfileFeed(username, Paginate(list, page), following));
  }

  /** `follow_index`: the posts of every author the requester follows; login required. */
  method FollowIndex(store: Store, requester: Option<UserName>, page: Option<int>)
    returns (r: Result<Page<Post>>)
    requires store.Valid()
    ensures r.Err? <==> requester.None?
    ensures r.Err? ==> r.failure == LoginRequired
    ensures r.Ok? ==> forall p :: p in r.value.objectList <==>
      p in store.posts && Follow(p.author, requester.value) in store.follows
    ensures r.Ok? ==> Pairwise(r.value.objectList, Newer)
    ensures r.Ok? ==> r.value == Paginate(r.value.objectList, page)
  {
    if requester.None? {
      return Err(LoginRequired);
    }
    r := Ok(Paginate(FollowPostList(store.posts, store.follows, requester.value), page));
  }

  /** A post placed at the head of the table opens the first page of the global feed. */
  lemma NewestPostOpensIndex(p: Post, posts: seq<Post>, page: Option<int>)
    requires page.None? || page == Some(1)
    ensures Paginate([p] + posts, page).items[0] == p
  {
  }

  // ---------------------------------------------------------------------------
  // State changes

  /** `new_post`: the requester publishes a post; the form carries no uploaded file. */
  method NewPost(store: Store, requester: Option<UserName>, form: Option<PostData>)
    returns (resp: Response)
    requires store.Valid() && KnownRequester(store, requester)
    modifies store`posts, store`nextPostId, store`clock
    ensures store.Valid()
    ensures requester.None? ==> resp == Redirect(LoginPage) && unchanged(store)
    ensures requester.Some? && !PostFormValid(store.groups, form) ==>
      resp == ShowForm && unchanged(store)
    ensures requester.Some? && PostFormValid(store.groups, form) ==>
      && resp == Redirect(IndexPage)
      && store.posts == [Post(old(store.nextPostId), form.value.text, old(store.clock),
                              requester.value, form.value.group, None)] + old(store.posts)
      && store.nextPostId == old(store.nextPostId) + 1
      && store.clock == old(store.clock) + 1
  {
    if requester.None? {
      return Redirect(LoginPage);
    }
    if !PostFormValid(store.groups, form) {
      return ShowForm;
    }
    var _ := store.CreatePost(requester.value, form.value.text, form.value.group, None);
    resp := Redirect(IndexPage);
  }

  /** `add_comment`: a valid comment by the requester is attached to the addressed post. */
  method AddComment(
    store: Store, requester: Option<UserName>, username: UserName, postId: PostId, form: Option<string>)
    returns (resp: Response)
    requires store.Valid() && KnownRequester(store, requester)
    modifies store`comments, store`nextCommentId, store`clock
    ensures store.Valid()
    ensures requester.None? ==> resp == Redirect(LoginPage) && unchanged(store)
    ensures requester.Some? && FindPost(store.posts, postId, username).None? ==>
      resp == NotFoundPage && unchanged(store)
    ensures requester.Some? && FindPost(store.posts, postId, username).Some? && !CommentFormValid(form) ==>
      resp == Redirect(PostPage(username, postId)) && unchanged(store)
    ensures requester.Some? && FindPost(store.posts, postId, username).Some? && CommentFormValid(form) ==>
      && resp == Redirect(PostPage(username, postId))
      && store.comments == [Comment(old(store.nextCommentId), postId, requester.value, form.value, old(store.clock))]
                           + old(store.comments)
      && store.nextCommentId == old(store.nextCommentId) + 1
      && store.clock == old(store.clock) + 1
  {
    if requester.None? {
      return Redirect(LoginPage);
    }
    var post := FindPost(store.posts, postId, username);
    if post.None? {
      return NotFoundPage;
    }
    if CommentFormValid(form) {
      assert post.value.id in PostIds(store.posts);
      var _ := store.CreateComment(postId, requester.value, form.value);
    }
    resp := Redirect(PostPage(username, postId));
  }

  /**
   * `post_edit`: only the author, addressed by their own username, may save the form.
   * The uploaded image replaces the old one; without an upload the old one stays.
   */
  method PostEdit(
    store: Store, requester: Option<UserName>, username: UserName, postId: PostId,
    form: Option<PostData>, upload: Option<ImageRef>)
    returns (resp: Response)
    requires store.Valid()
    modifies store`posts
    ensures store.Valid()
    ensures requester.None? ==> resp == Redirect(LoginPage) && store.posts == old(store.posts)
    ensures requester.Some? && requester.value != username ==>
      resp == Redirect(PostPage(username, postId)) && store.posts == old(store.posts)
    ensures requester == Some(username) && FindPost(old(store.posts), postId, username).None? ==>
      resp == NotFoundPage && store.posts == old(store.posts)
    ensures (requester == Some(username) && FindPost(old(store.posts), postId, username).Some?
             && !PostFormValid(store.groups, form)) ==>
      resp == ShowForm && store.posts == old(store.posts)
    ensures (requester == Some(username) && FindPost(old(store.posts), postId, username).Some?
             && PostFormValid(store.groups, form)) ==>
      && resp == Redirect(PostPage(username, postId))
      && store.posts == EditPost(old(store.posts), postId, form.value.text, form.value.group,
           if upload.Some? then upload else FindPost(old(store.posts), postId, username).value.image)
  {
    if requester.None? {
      return Redirect(LoginPage);
    }
    if requester.value != username {
      return Redirect(PostPage(username, postId));
    }
    var post := FindPost(store.posts, postId, username);
    if post.None? {
      return NotFoundPage;
    }
    if !PostFormValid(store.groups, form) {
      return ShowForm;
    }
    var image := if upload.Some? then upload else post.value.image;
    store.SavePost(postId, form.value.text, form.value.group, image);
    resp := Redirect(PostPage(username, postId));
  }

  /** `profile_follow`: the requester follows `username` unless already following or self. */
  method ProfileFollow(store: Store, requester: Option<UserName>, username: UserName)
    returns (resp: Response)
    requires store.Valid() && KnownRequester(store, requester)
    modifies store`follows
    ensures store.Valid()
    ensures requester.None? ==> resp == Redirect(LoginPage) && store.follows == old(store.follows)
    ensures requester.Some? && username !in store.users ==>
      resp == NotFoundPage && store.follows == old(store.follows)
    ensures requester.Some? && username in store.users ==>
      && resp == Redirect(ProfilePage(username))
      && store.follows == Followed(old(store.follows), username, requester.value)
  {
    if requester.None? {
      return Redirect(LoginPage);
    }
    if username !in store.users {
      return NotFoundPage;
    }
    var u := requester.value;
    if Follow(username, u) !in store.follows && username != u {
      var _ := store.CreateFollow(username, u);
    }
    resp := Redirect(ProfilePage(username));
  }

  /** `profile_unfollow`: the follow row goes, if there is one; a missing row is no error. */
  method ProfileUnfollow(store: Store, requester: Option<UserName>, username: UserName)
    returns (resp: Response)
    requires store.Valid()
    modifies store`follows
    ensures store.Valid()
    ensures requester.None? ==> resp == Redirect(LoginPage) && store.follows == old(store.follows)
    ensures requester.Some? && username !in store.users ==>
      resp == NotFoundPage && store.follows == old(store.follows)
    ensures requester.Some? && username in store.users ==>
      && resp == Redirect(ProfilePage(username))
      && store.follows == Unfollowed(old(store.follows), username, requester.value)
  {
    if requester.None? {
      return Redirect(LoginPage);
    }
    if username !in store.users {
      return NotFoundPage;
    }
    store.DeleteFollows(username, requester.value);
    resp := Redirect(ProfilePage(username));
  }
}
