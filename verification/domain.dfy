/** The blog's data model with the database replaced by an immutable store:
    users, groups, posts (newest first), comments and follow edges, plus the
    lookups the views perform and the invariants every transition keeps. */
module Domain {
  import opened Wrappers
  import opened Sequences

  type UserId = nat
  type GroupId = nat
  type PostId = nat

  datatype User = User(id: UserId, username: string)

  datatype Group = Group(id: GroupId, slug: string, title: string)

  /** A post; `group` is `None` when the post belongs to no community. */
  datatype Post = Post(id: PostId, author: UserId, group: Option<GroupId>, text: string)

  datatype Comment = Comment(post: PostId, author: UserId, text: string)

  /** A directed subscription edge: `user` follows `author`. */
  datatype Follow = Follow(user: UserId, author: UserId)

  /** The whole persistent state. `posts` is kept newest first: position 0 is
      the most recently created post. */
  datatype Store = Store(
    users: seq<User>,
    groups: seq<Group>,
    posts: seq<Post>,
    comments: seq<Comment>,
    follows: seq<Follow>)

  /** Who issues a request. */
  datatype Viewer = Anonymous | Authenticated(user: User)

  /** What a view answers besides any change to the store. */
  datatype Response =
    | LoginRedirect                      // login_required bounced an anonymous caller
    | RedirectToPost(postId: PostId)     // the read-only page of one post
    | RedirectToProfile(username: string)
    | ShowPostForm                       // the create/edit form rendered again
    | ShowProfile(username: string)      // the profile view rendered on the new store

  /** A state transition: the store after the request and the response. */
  datatype Transition = Transition(store: Store, response: Response)

  /** A read-only view behind login_required. */
  datatype Gated<T> = LoginRequired | Granted(value: T)

  /** No user follows themself. */
  predicate NoSelfFollows(follows: seq<Follow>) {
    forall e :: e in follows ==> e.user != e.author
  }

  /** Each (user, author) pair is followed at most once and nobody follows themself. */
  predicate FollowsWellFormed(follows: seq<Follow>) {
    NoSelfFollows(follows) && Distinct(follows)
  }

  predicate PostIdsUnique(posts: seq<Post>) {
    forall i, j :: 0 <= i < j < |posts| ==> posts[i].id != posts[j].id
  }

  predicate Valid(st: Store) {
    FollowsWellFormed(st.follows) && PostIdsUnique(st.posts)
  }

  function UserNamed(username: string): User -> bool {
    (u: User) => u.username == username
  }

  function GroupWithSlug(slug: string): Group -> bool {
    (g: Group) => g.slug == slug
  }

  function PostWithId(id: PostId): Post -> bool {
    (p: Post) => p.id == id
  }

  /** `User.objects.get(username=...)`. */
  function FindUser(st: Store, username: string): (r: Option<User>)
    ensures r.Some? ==> r.value in st.users && r.value.username == username
    ensures r.None? <==> forall u :: u in st.users ==> u.username != username
  {
    Find(st.users, UserNamed(username))
  }

  /** The group lookup behind `get_object_or_404(Group, slug=...)`. */
  function FindGroup(st: Store, slug: string): (r: Option<Group>)
    ensures r.Some? ==> r.value in st.groups && r.value.slug == slug
    ensures r.None? <==> forall g :: g in st.groups ==> g.slug != slug
  {
    Find(st.groups, GroupWithSlug(slug))
  }

  /** `Post.objects.get(pk=...)`. */
  function FindPost(st: Store, id: PostId): (r: Option<Post>)
    ensures r.Some? ==> r.value in st.posts && r.value.id == id
    ensures r.None? <==> forall p :: p in st.posts ==> p.id != id
  {
    Find(st.posts, PostWithId(id))
  }

  /** Under unique ids, an id names at most one stored post. */
  lemma PostIdPinsPost(st: Store, p: Post, q: Post)
    requires PostIdsUnique(st.posts)
    requires p in st.posts && q in st.posts && p.id == q.id
    ensures p == q
  {
    var i :| 0 <= i < |st.posts| && st.posts[i] == p;
    var j :| 0 <= j < |st.posts| && st.posts[j] == q;
    assert !(i < j) && !(j < i);
  }
}
