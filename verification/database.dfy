/**
 * The four tables of the posts app and the external user table, updated in place.
 * Each method is one row-level operation: a `save()` of a new or edited row, a
 * `create`, a `delete()`, with the `on_delete` rule of every foreign key applied.
 */
module Database {
  import opened Wrappers
  import opened Models

  class Store {
    var users: set<UserName>
    /** Groups in creation order. */
    var groups: seq<Group>
    /** Posts newest first (the model's default ordering). */
    var posts: seq<Post>
    /** Comments newest first (the model's default ordering). */
    var comments: seq<Comment>
    var follows: seq<Follow>
    /** The creation counter that stamps `pubDate` and `created`. */
    var clock: nat
    var nextGroupId: nat
    var nextPostId: nat
    var nextCommentId: nat

    /** Orderings, uniqueness constraints and foreign keys. */
    ghost predicate Valid()
      reads this
      ensures Valid() ==> Distinct(groups) && Distinct(posts) && Distinct(comments)
    {
      && GroupsTable(groups, nextGroupId)
      && PostsTable(posts, nextPostId, clock)
      && CommentsTable(comments, nextCommentId, clock)
      && Distinct(follows)
      && Referenced(users, groups, posts, comments, follows)
    }

    constructor()
      ensures Valid()
      ensures users == {} && groups == [] && posts == [] && comments == [] && follows == []
      ensures clock == 0 && nextGroupId == 1 && nextPostId == 1 && nextCommentId == 1
    {
      users, groups, posts, comments, follows := {}, [], [], [], [];
      clock := 0;
      nextGroupId, nextPostId, nextCommentId := 1, 1, 1;
    }

    /** The host identity system registers a user; usernames are unique. */
    method AddUser(name: UserName) returns (added: bool)
      requires Valid()
      modifies this`users
      ensures Valid()
      ensures added <==> name !in old(users)
      ensures users == old(users) + {name}
    {
      added := name !in users;
      users := users + {name};
    }

    /** `Group.objects.create`: refused by the unique index when the slug is taken. */
    method CreateGroup(title: string, slug: string, description: string) returns (r: Option<Group>)
      requires Valid()
      modifies this`groups, this`nextGroupId
      ensures Valid()
      ensures r.None? <==> SlugTaken(old(groups), slug)
      ensures r.None? ==> groups == old(groups) && nextGroupId == old(nextGroupId)
      ensures r.Some? ==> r.value == Group(old(nextGroupId), title, slug, description)
      ensures r.Some? ==> groups == old(groups) + [r.value] && nextGroupId == old(nextGroupId) + 1
    {
      if SlugTaken(groups, slug) {
        return None;
      }
      var g := Group(nextGroupId, title, slug, description);
      Append(groups, g, EarlierGroup);
      groups := groups + [g];
      nextGroupId := nextGroupId + 1;
      r := Some(g);
    }

    /** Saving a new post: it gets the next id and the current time, and is listed first. */
    method CreatePost(author: UserName, text: string, group: Option<GroupId>, image: Option<ImageRef>)
      returns (p: Post)
      requires Valid()
      requires author in users
      requires group.Some? ==> group.value in GroupIds(groups)
      modifies this`posts, this`nextPostId, this`clock
      ensures Valid()
      ensures p == Post(old(nextPostId), text, old(clock), author, group, image)
      ensures posts == [p] + old(posts)
      ensures nextPostId == old(nextPostId) + 1 && clock == old(clock) + 1
    {
      p := Post(nextPostId, text, clock, author, group, image);
      Prepend(p, posts, Newer);
      posts := [p] + posts;
      nextPostId := nextPostId + 1;
      clock := clock + 1;
    }

    /** Saving an edited post: text, group and image are replaced, nothing else. */
    method SavePost(id: PostId, text: string, group: Option<GroupId>, image: Option<ImageRef>)
      requires Valid()
      requires group.Some? ==> group.value in GroupIds(groups)
      modifies this`posts
      ensures Valid()
      ensures posts == EditPost(old(posts), id, text, group, image)
    {
      var edited := EditPost(posts, id, text, group, image);
      EditKeepsReferences(users, groups, posts, comments, follows, nextPostId, clock, id, text, group, image);
      posts := edited;
    }

    /** Saving a new comment on an existing post. */
    method CreateComment(post: PostId, author: UserName, text: string) returns (c: Comment)
      requires Valid()
      requires post in PostIds(posts) && author in users
      modifies this`comments, this`nextCommentId, this`clock
      ensures Valid()
      ensures c == Comment(old(nextCommentId), post, author, text, old(clock))
      ensures comments == [c] + old(comments)
      ensures nextCommentId == old(nextCommentId) + 1 && clock == old(clock) + 1
    {
      c := Comment(nextCommentId, post, author, text, clock);
      Prepend(c, comments, NewerComment);
      comments := [c] + comments;
      nextCommentId := nextCommentId + 1;
      clock := clock + 1;
    }

    /** `Follow.objects.create`: refused by `unique_together` when the pair exists. */
    method CreateFollow(author: UserName, user: UserName) returns (created: bool)
      requires Valid()
      requires author in users && user in users
      modifies this`follows
      ensures Valid()
      ensures created <==> Follow(author, user) !in old(follows)
      ensures follows == if created then old(follows) + [Follow(author, user)] else old(follows)
    {
      created := Follow(author, user) !in follows;
      if created {
        AppendNew(follows, Follow(author, user));
        follows := follows + [Follow(author, user)];
      }
    }

    /** `Follow.objects.filter(author=..., user=...).delete()`. */
    method DeleteFollows(author: UserName, user: UserName)
      requires Valid()
      modifies this`follows
      ensures Valid()
      ensures follows == Unfollowed(old(follows), author, user)
    {
      follows := Unfollowed(follows, author, user);
    }

    /**
     * Deleting a user cascades to their posts, to the comments on those posts, to their
     * own comments and to every follow row in which they are the author or the follower.
     */
    method DeleteUser(u: UserName)
      requires Valid()
      modifies this`users, this`posts, this`comments, this`follows
      ensures Valid()
      ensures users == old(users) - {u}
      ensures forall p :: p in posts <==> p in old(posts) && p.author != u
      ensures forall c :: c in comments <==>
        c in old(comments) && c.author != u && c.post in PostIds(posts)
      ensures forall f :: f in follows <==> f in old(follows) && f.author != u && f.user != u
    {
      var posts' := PostsNotBy(posts, u);
      var comments' := CommentsSurviving(comments, u, PostIds(posts'));
      var follows' := EdgesWithout(follows, u);
      var users' := users - {u};
      DeleteUserKeepsReferences(users, groups, posts, comments, follows, u, posts', comments', follows');
      DeleteKeepsTables(posts, posts', comments, comments', nextPostId, nextCommentId, clock);
      users := users';
      posts := posts';
      comments := comments';
      follows := follows';
    }

    /** Deleting a group nulls the group of its posts; no post is removed. */
    method DeleteGroup(id: GroupId)
      requires Valid()
      modifies this`groups, this`posts
      ensures Valid()
      ensures forall g :: g in groups <==> g in old(groups) && g.id != id
      ensures posts == ClearGroup(old(posts), id)
    {
      var groups' := GroupsWithoutId(groups, id);
      var posts' := ClearGroup(posts, id);
      ClearGroupKeepsReferences(users, groups, posts, comments, follows, nextPostId, clock, id, groups');
      groups := groups';
      posts := posts';
    }

    /** Deleting a post cascades to exactly the comments on it. */
    method DeletePost(id: PostId)
      requires Valid()
      modifies this`posts, this`comments
      ensures Valid()
      ensures forall p :: p in posts <==> p in old(posts) && p.id != id
      ensures forall c :: c in comments <==> c in old(comments) && c.post != id
    {
      var posts' := PostsWithoutId(posts, id);
      var comments' := CommentsNotOn(comments, id);
      forall c | c in comments' ensures c.post in PostIds(posts') {
        var p :| p in posts && p.id == c.post;
        assert p in posts';
      }
      posts := posts';
      comments := comments';
    }
  }

  /** Saving an edit keeps the post table ordered and every foreign key satisfied. */
  lemma EditKeepsReferences(
    users: set<UserName>, groups: seq<Group>, posts: seq<Post>, comments: seq<Comment>, follows: seq<Follow>,
    nextId: nat, clock: nat, id: PostId, text: string, group: Option<GroupId>, image: Option<ImageRef>)
    requires PostsTable(posts, nextId, clock)
    requires Referenced(users, groups, posts, comments, follows)
    requires group.Some? ==> group.value in GroupIds(groups)
    ensures PostsTable(EditPost(posts, id, text, group, image), nextId, clock)
    ensures Referenced(users, groups, EditPost(posts, id, text, group, image), comments, follows)
  {
    var edited := EditPost(posts, id, text, group, image);
    SameIds(posts, edited);
    forall q | q in edited
      ensures q.author in users && q.id < nextId && q.pubDate < clock
      ensures q.group.Some? ==> q.group.value in GroupIds(groups)
    {
      var i :| 0 <= i < |edited| && edited[i] == q;
      assert posts[i] in posts;
    }
  }

  /** Nulling the deleted group in every post keeps the post table valid against the remaining groups. */
  lemma ClearGroupKeepsReferences(
    users: set<UserName>, groups: seq<Group>, posts: seq<Post>, comments: seq<Comment>, follows: seq<Follow>,
    nextId: nat, clock: nat, id: GroupId, groups': seq<Group>)
    requires PostsTable(posts, nextId, clock)
    requires Referenced(users, groups, posts, comments, follows)
    requires forall g :: g in groups' <==> g in groups && g.id != id
    ensures PostsTable(ClearGroup(posts, id), nextId, clock)
    ensures Referenced(users, groups', ClearGroup(posts, id), comments, follows)
  {
    var posts' := ClearGroup(posts, id);
    SameIds(posts, posts');
    forall q | q in posts'
      ensures q.author in users && q.id < nextId && q.pubDate < clock
      ensures q.group.Some? ==> q.group.value in GroupIds(groups')
    {
      var i :| 0 <= i < |posts'| && posts'[i] == q;
      assert posts[i] in posts;
      if q.group.Some? {
        var g :| g in groups && g.id == q.group.value;
        assert g in groups';
      }
    }
  }

  /** Tables that lose rows, keeping the order of the others, stay valid. */
  lemma DeleteKeepsTables(
    posts: seq<Post>, posts': seq<Post>, comments: seq<Comment>, comments': seq<Comment>,
    nextPostId: nat, nextCommentId: nat, clock: nat)
    requires PostsTable(posts, nextPostId, clock) && CommentsTable(comments, nextCommentId, clock)
    requires Pairwise(posts', Newer) && forall p :: p in posts' ==> p in posts
    requires Pairwise(comments', NewerComment) && forall c :: c in comments' ==> c in comments
    ensures PostsTable(posts', nextPostId, clock) && CommentsTable(comments', nextCommentId, clock)
  {
  }

  /** The rows that survive a user's deletion refer only to rows that survive it too. */
  lemma DeleteUserKeepsReferences(
    users: set<UserName>, groups: seq<Group>, posts: seq<Post>, comments: seq<Comment>, follows: seq<Follow>,
    u: UserName, posts': seq<Post>, comments': seq<Comment>, follows': seq<Follow>)
    requires Referenced(users, groups, posts, comments, follows)
    requires forall p :: p in posts' <==> p in posts && p.author != u
    requires forall c :: c in comments' <==> c in comments && c.author != u && c.post in PostIds(posts')
    requires forall f :: f in follows' <==> f in follows && f.author != u && f.user != u
    ensures Referenced(users - {u}, groups, posts', comments', follows')
  {
  }
}
