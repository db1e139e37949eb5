/**
 * The entities of the posts app and the rules their tables obey: Post, Group, Comment
 * and Follow, users known only by their unique username, the default orderings, the
 * uniqueness constraints and the pure effect of each row-level change.
 */
module Models {
  import opened Wrappers

  /** A user of the host identity system; the username is unique, so it is the identity. */
  type UserName = string
  type GroupId = nat
  type PostId = nat
  type CommentId = nat
  /** An uploaded image, held only as a reference whose bytes are never interpreted. */
  type ImageRef = string

  datatype Group = Group(id: GroupId, title: string, slug: string, description: string)

  /** `pubDate` is a creation counter: set once when the row is saved, never updated. */
  datatype Post = Post(
    id: PostId,
    text: string,
    pubDate: nat,
    author: UserName,
    group: Option<GroupId>,
    image: Option<ImageRef>)

  datatype Comment = Comment(id: CommentId, post: PostId, author: UserName, text: string, created: nat)

  /** `user` follows `author`. */
  datatype Follow = Follow(author: UserName, user: UserName)

  // ---------------------------------------------------------------------------
  // Sequences of rows

  /** Every earlier row stands in relation `ok` to every later row. */
  predicate Pairwise<T>(s: seq<T>, ok: (T, T) -> bool) {
    forall i, j :: 0 <= i < j < |s| ==> ok(s[i], s[j])
  }

  predicate Unequal<T(==)>(a: T, b: T) {
    a != b
  }

  /** No row occurs twice. */
  predicate Distinct<T(==)>(s: seq<T>) {
    Pairwise(s, Unequal)
  }

  /** The rows of `s` that satisfy `keep`, in their original order: a queryset's `filter`. */
  function Filter<T(!new)>(s: seq<T>, keep: T -> bool): (r: seq<T>)
    ensures |r| <= |s|
    ensures forall x :: x in r <==> x in s && keep(x)
  {
    if s == [] then []
    else if keep(s[0]) then [s[0]] + Filter(s[1..], keep)
    else Filter(s[1..], keep)
  }

  /** Filtering keeps the relative order of the rows it keeps. */
  lemma {:induction false} FilterPairwise<T(!new)>(s: seq<T>, keep: T -> bool, ok: (T, T) -> bool)
    ensures Pairwise(s, ok) ==> Pairwise(Filter(s, keep), ok)
  {
    if s != [] && Pairwise(s, ok) {
      var tail := s[1..];
      assert Pairwise(tail, ok) by {
        forall i, j | 0 <= i < j < |tail| ensures ok(tail[i], tail[j]) {
          assert tail[i] == s[i + 1] && tail[j] == s[j + 1];
        }
      }
      FilterPairwise(tail, keep, ok);
      var rest := Filter(tail, keep);
      if keep(s[0]) {
        var r := [s[0]] + rest;
        forall i, j | 0 <= i < j < |r| ensures ok(r[i], r[j]) {
          if i == 0 {
            assert r[j] == rest[j - 1] && r[j] in tail;
            var k :| 0 <= k < |tail| && tail[k] == r[j];
            assert s[k + 1] == r[j];
          } else {
            assert r[i] == rest[i - 1] && r[j] == rest[j - 1];
          }
        }
      }
    }
  }

  /** Filtering twice with the same condition is filtering once. */
  lemma {:induction false} FilterTwice<T(!new)>(s: seq<T>, keep: T -> bool)
    ensures Filter(Filter(s, keep), keep) == Filter(s, keep)
  {
    if s != [] {
      FilterTwice(s[1..], keep);
      if keep(s[0]) {
        var r := [s[0]] + Filter(s[1..], keep);
        assert r[0] == s[0] && r[1..] == Filter(s[1..], keep);
      }
    }
  }

  /** Filtering a table made of two parts filters each part. */
  lemma {:induction false} FilterConcat<T(!new)>(a: seq<T>, b: seq<T>, keep: T -> bool)
    ensures Filter(a + b, keep) == Filter(a, keep) + Filter(b, keep)
  {
    if a != [] {
      assert (a + b)[0] == a[0] && (a + b)[1..] == a[1..] + b;
      FilterConcat(a[1..], b, keep);
    } else {
      assert a + b == b;
    }
  }

  /** A filter that every row passes returns the table unchanged. */
  lemma {:induction false} FilterKeepsAll<T(!new)>(s: seq<T>, keep: T -> bool)
    requires forall x :: x in s ==> keep(x)
    ensures Filter(s, keep) == s
  {
    if s != [] {
      assert forall x :: x in s[1..] ==> x in s;
      FilterKeepsAll(s[1..], keep);
      assert [s[0]] + s[1..] == s;
    }
  }

  /** Number of occurrences of `x` in `s`. */
  function Count<T(==)>(s: seq<T>, x: T): nat {
    if s == [] then 0 else (if s[0] == x then 1 else 0) + Count(s[1..], x)
  }

  /** A row is counted exactly when it is present. */
  lemma {:induction false} CountPositive<T>(s: seq<T>, x: T)
    ensures Count(s, x) > 0 <==> x in s
  {
    if s != [] {
      CountPositive(s[1..], x);
      assert s == [s[0]] + s[1..];
    }
  }

  /** In a table without repeated rows a row occurs once or not at all. */
  lemma {:induction false} CountDistinct<T>(s: seq<T>, x: T)
    requires Distinct(s)
    ensures Count(s, x) == if x in s then 1 else 0
  {
    if s != [] {
      var tail := s[1..];
      assert Distinct(tail) by {
        forall i, j | 0 <= i < j < |tail| ensures Unequal(tail[i], tail[j]) {
          assert tail[i] == s[i + 1] && tail[j] == s[j + 1];
        }
      }
      CountDistinct(tail, x);
      if s[0] == x {
        forall k | 0 <= k < |tail| ensures tail[k] != x {
          assert Unequal(s[0], s[k + 1]);
        }
      }
    }
  }

  /** Deleting every row equal to `x` shrinks the table by the number of copies of `x`. */
  lemma {:induction false} FilterOutCount<T(!new)>(s: seq<T>, x: T, keep: T -> bool)
    requires forall y :: keep(y) <==> y != x
    ensures |Filter(s, keep)| == |s| - Count(s, x)
  {
    if s != [] {
      FilterOutCount(s[1..], x, keep);
    }
  }

  // ---------------------------------------------------------------------------
  // Default orderings and uniqueness constraints

  /** Posts are listed by `-pub_date`; ids are auto-incremented, so they follow the same order. */
  predicate Newer(a: Post, b: Post) {
    a.pubDate > b.pubDate && a.id > b.id
  }

  /** Comments are listed by `-created`. */
  predicate NewerComment(a: Comment, b: Comment) {
    a.created > b.created && a.id > b.id
  }

  /** Groups in creation order; `slug` is unique. */
  predicate EarlierGroup(a: Group, b: Group) {
    a.id < b.id && a.slug != b.slug
  }

  function GroupIds(groups: seq<Group>): set<GroupId> {
    set g | g in groups :: g.id
  }

  function PostIds(posts: seq<Post>): set<PostId> {
    set p | p in posts :: p.id
  }

  predicate SlugTaken(groups: seq<Group>, slug: string) {
    exists g :: g in groups && g.slug == slug
  }

  /** The set of (author, user) pairs held by the follow table. */
  function Edges(follows: seq<Follow>): set<Follow> {
    set f | f in follows
  }

  predicate GroupsTable(groups: seq<Group>, nextId: nat) {
    && Pairwise(groups, EarlierGroup)
    && forall g :: g in groups ==> g.id < nextId
  }

  predicate PostsTable(posts: seq<Post>, nextId: nat, clock: nat) {
    && Pairwise(posts, Newer)
    && forall p :: p in posts ==> p.id < nextId && p.pubDate < clock
  }

  predicate CommentsTable(comments: seq<Comment>, nextId: nat, clock: nat) {
    && Pairwise(comments, NewerComment)
    && forall c :: c in comments ==> c.id < nextId && c.created < clock
  }

  /** Every foreign key names an existing row; a post's group may be null. */
  predicate Referenced(
    users: set<UserName>, groups: seq<Group>, posts: seq<Post>,
    comments: seq<Comment>, follows: seq<Follow>)
  {
    && (forall p :: p in posts ==> p.author in users && (p.group.Some? ==> p.group.value in GroupIds(groups)))
    && (forall c :: c in comments ==> c.author in users && c.post in PostIds(posts))
    && (forall f :: f in follows ==> f.author in users && f.user in users)
  }

  /** The store never holds two groups with the same slug. */
  lemma SlugIdentifiesGroup(groups: seq<Group>, g: Group, h: Group)
    requires Pairwise(groups, EarlierGroup)
    requires g in groups && h in groups
    ensures g.slug == h.slug ==> g == h
  {
  }

  /** Two posts of the table with the same id are the same post. */
  lemma IdIdentifiesPost(posts: seq<Post>, p: Post, q: Post)
    requires Pairwise(posts, Newer)
    requires p in posts && q in posts
    ensures p.id == q.id ==> p == q
  {
  }

  /** A row placed in front of a table that it precedes keeps the table ordered. */
  lemma Prepend<T>(x: T, s: seq<T>, ok: (T, T) -> bool)
    requires Pairwise(s, ok)
    requires forall y :: y in s ==> ok(x, y)
    ensures Pairwise([x] + s, ok)
  {
  }

  /** A row appended after a table that it follows keeps the table ordered. */
  lemma Append<T>(s: seq<T>, x: T, ok: (T, T) -> bool)
    requires Pairwise(s, ok)
    requires forall y :: y in s ==> ok(y, x)
    ensures Pairwise(s + [x], ok)
  {
  }

  lemma AppendNew<T>(s: seq<T>, x: T)
    ensures Distinct(s) && x !in s ==> Distinct(s + [x])
  {
  }

  // ---------------------------------------------------------------------------
  // Row-level effects

  /**
   * The follow table after `user` asks to follow `author`: the row is created unless it
   * already exists or the user would follow themself.
   */
  function Followed(follows: seq<Follow>, author: UserName, user: UserName): (r: seq<Follow>)
    ensures r == follows || r == follows + [Follow(author, user)]
    ensures Edges(r) == if author == user then Edges(follows) else Edges(follows) + {Follow(author, user)}
    ensures (author == user || Follow(author, user) in follows) ==> r == follows
    ensures Distinct(follows) ==> Distinct(r)
  {
    if Follow(author, user) !in follows && author != user then
      var edge := Follow(author, user);
      AppendNew(follows, edge);
      follows + [edge]
    else follows
  }

  /** The follow table after `user` unfollows `author`: every matching row is deleted. */
  function Unfollowed(follows: seq<Follow>, author: UserName, user: UserName): (r: seq<Follow>)
    ensures Edges(r) == Edges(follows) - {Follow(author, user)}
    ensures Distinct(follows) ==> Distinct(r)
  {
    var keep := (f: Follow) => f != Follow(author, user);
    FilterPairwise(follows, keep, Unequal);
    Filter(follows, keep)
  }

  /** Following twice leaves a single row. */
  lemma FollowIdempotent(follows: seq<Follow>, author: UserName, user: UserName)
    ensures Followed(Followed(follows, author, user), author, user) == Followed(follows, author, user)
  {
  }

  /** Unfollowing twice is unfollowing once, and never fails. */
  lemma UnfollowIdempotent(follows: seq<Follow>, author: UserName, user: UserName)
    ensures Unfollowed(Unfollowed(follows, author, user), author, user) == Unfollowed(follows, author, user)
  {
    FilterTwice(follows, (f: Follow) => f != Follow(author, user));
  }

  /** Following a new author and unfollowing them again gives back the same table. */
  lemma FollowThenUnfollow(follows: seq<Follow>, author: UserName, user: UserName)
    requires Follow(author, user) !in follows
    ensures Unfollowed(Followed(follows, author, user), author, user) == follows
  {
    var edge := Follow(author, user);
    var keep := (f: Follow) => f != edge;
    FilterKeepsAll(follows, keep);
    if author != user {
      FilterConcat(follows, [edge], keep);
      assert Filter([edge], keep) == [];
    }
  }

  /** In a table with unique pairs, a follow adds one row and an unfollow removes at most one. */
  lemma FollowCounts(follows: seq<Follow>, author: UserName, user: UserName)
    requires Distinct(follows)
    ensures |Followed(follows, author, user)| ==
      |follows| + (if author != user && Follow(author, user) !in follows then 1 else 0)
    ensures |Unfollowed(follows, author, user)| ==
      |follows| - (if Follow(author, user) in follows then 1 else 0)
  {
    var edge := Follow(author, user);
    FilterOutCount(follows, edge, (f: Follow) => f != edge);
    CountDistinct(follows, edge);
  }

  /** The posts that survive deleting user `u` (on_delete=CASCADE on the author). */
  function PostsNotBy(posts: seq<Post>, u: UserName): (r: seq<Post>)
    ensures forall p :: p in r <==> p in posts && p.author != u
    ensures Pairwise(posts, Newer) ==> Pairwise(r, Newer)
  {
    var keep := (p: Post) => p.author != u;
    FilterPairwise(posts, keep, Newer);
    Filter(posts, keep)
  }

  /** The posts that survive deleting post `id`. */
  function PostsWithoutId(posts: seq<Post>, id: PostId): (r: seq<Post>)
    ensures forall p :: p in r <==> p in posts && p.id != id
    ensures Pairwise(posts, Newer) ==> Pairwise(r, Newer)
  {
    var keep := (p: Post) => p.id != id;
    FilterPairwise(posts, keep, Newer);
    Filter(posts, keep)
  }

  /**
   * The comments that survive deleting user `u` when `kept` are the ids of the posts
   * that survive it: both the comment's author and its post cascade.
   */
  function CommentsSurviving(comments: seq<Comment>, u: UserName, kept: set<PostId>): (r: seq<Comment>)
    ensures forall c :: c in r <==> c in comments && c.author != u && c.post in kept
    ensures Pairwise(comments, NewerComment) ==> Pairwise(r, NewerComment)
  {
    var keep := (c: Comment) => c.author != u && c.post in kept;
    FilterPairwise(comments, keep, NewerComment);
    Filter(comments, keep)
  }

  /** The comments that survive deleting post `id` (on_delete=CASCADE on the post). */
  function CommentsNotOn(comments: seq<Comment>, id: PostId): (r: seq<Comment>)
    ensures forall c :: c in r <==> c in comments && c.post != id
    ensures Pairwise(comments, NewerComment) ==> Pairwise(r, NewerComment)
  {
    var keep := (c: Comment) => c.post != id;
    FilterPairwise(comments, keep, NewerComment);
    Filter(comments, keep)
  }

  /** The follow rows that survive deleting user `u`, whichever end of the edge `u` is. */
  function EdgesWithout(follows: seq<Follow>, u: UserName): (r: seq<Follow>)
    ensures forall f :: f in r <==> f in follows && f.author != u && f.user != u
    ensures Distinct(follows) ==> Distinct(r)
  {
    var keep := (f: Follow) => f.author != u && f.user != u;
    FilterPairwise(follows, keep, Unequal);
    Filter(follows, keep)
  }

  /** The groups that remain after deleting group `id`. */
  function GroupsWithoutId(groups: seq<Group>, id: GroupId): (r: seq<Group>)
    ensures forall g :: g in r <==> g in groups && g.id != id
    ensures Pairwise(groups, EarlierGroup) ==> Pairwise(r, EarlierGroup)
  {
    var keep := (g: Group) => g.id != id;
    FilterPairwise(groups, keep, EarlierGroup);
    Filter(groups, keep)
  }

  /** A row-by-row rewrite that keeps every id keeps the set of post ids. */
  lemma SameIds(posts: seq<Post>, r: seq<Post>)
    requires |r| == |posts|
    requires forall i :: 0 <= i < |r| ==> r[i].id == posts[i].id
    ensures PostIds(r) == PostIds(posts)
  {
    forall q | q in posts ensures q.id in PostIds(r) {
      var i :| 0 <= i < |posts| && posts[i] == q;
      assert r[i] in r;
    }
    forall q | q in r ensures q.id in PostIds(posts) {
      var i :| 0 <= i < |r| && r[i] == q;
      assert posts[i] in posts;
    }
  }

  /** A post table after saving an edit of post `id`: only its text, group and image change. */
  function EditPost(
    posts: seq<Post>, id: PostId, text: string, group: Option<GroupId>, image: Option<ImageRef>): (r: seq<Post>)
    ensures |r| == |posts|
    ensures forall i :: 0 <= i < |r| && posts[i].id != id ==> r[i] == posts[i]
    ensures forall i :: 0 <= i < |r| && posts[i].id == id ==>
      r[i] == Post(id, text, posts[i].pubDate, posts[i].author, group, image)
    ensures Pairwise(posts, Newer) ==> Pairwise(r, Newer)
  {
    seq(|posts|, i requires 0 <= i < |posts| =>
      if posts[i].id == id then posts[i].(text := text, group := group, image := image) else posts[i])
  }

  /** A post table after group `g` is deleted (on_delete=SET_NULL): no post is removed. */
  function ClearGroup(posts: seq<Post>, g: GroupId): (r: seq<Post>)
    ensures |r| == |posts|
    ensures forall i :: 0 <= i < |r| ==>
      r[i].group == (if posts[i].group == Some(g) then None else posts[i].group)
    ensures forall i :: 0 <= i < |r| ==> r[i] == posts[i].(group := r[i].group)
    ensures Pairwise(posts, Newer) ==> Pairwise(r, Newer)
  {
    seq(|posts|, i requires 0 <= i < |posts| =>
      if posts[i].group == Some(g) then posts[i].(group := None) else posts[i])
  }
}
