/** The read-only views: the global, group, profile and follow feeds and the
    single-post page. Each returns the full ordered post list; the page the
    template shows is `Paging.Page(list, k)`. */
module Feeds {
  import opened Wrappers
  import opened Sequences
  import opened Paging
  import opened Domain

  function InGroup(g: GroupId): Post -> bool {
    (p: Post) => p.group == Some(g)
  }

  function ByAuthor(a: UserId): Post -> bool {
    (p: Post) => p.author == a
  }

  function OnPost(id: PostId): Comment -> bool {
    (c: Comment) => c.post == id
  }

  function FromUser(u: UserId): Follow -> bool {
    (e: Follow) => e.user == u
  }

  /** How many stored posts `a` wrote, counted by position in the store. */
  ghost function AuthoredCount(st: Store, a: UserId): nat {
    |set i: nat | i < |st.posts| && st.posts[i].author == a|
  }

  /** `index`: every post, newest first. */
  function GlobalFeed(st: Store): (r: seq<Post>)
    ensures |r| == |st.posts|
    ensures forall p :: p in st.posts ==> p in r
    ensures forall i :: 0 <= i < |r| ==> r[i] in AuthorFeed(st, r[i].author)
    ensures IsSubsequence(r, st.posts)
  {
    SubsequenceOfItself(st.posts);
    st.posts
  }

  /** The post list of `group_posts` for one existing group. */
  function GroupFeed(st: Store, g: GroupId): (r: seq<Post>)
    ensures forall p :: p in r <==> p in st.posts && p.group == Some(g)
    ensures IsSubsequence(r, st.posts)
    ensures |r| == |set i: nat | i < |st.posts| && st.posts[i].group == Some(g)|
  {
    FilterIsSubsequence(st.posts, InGroup(g));
    FilterCountsMatches(st.posts, InGroup(g));
    assert MatchingIndices(st.posts, InGroup(g))
        == set i: nat | i < |st.posts| && st.posts[i].group == Some(g);
    Filter(st.posts, InGroup(g))
  }

  /** The posts of one author, newest first. */
  function AuthorFeed(st: Store, a: UserId): (r: seq<Post>)
    ensures forall p :: p in r <==> p in st.posts && p.author == a
    ensures IsSubsequence(r, st.posts)
    ensures |r| == AuthoredCount(st, a)
  {
    FilterIsSubsequence(st.posts, ByAuthor(a));
    FilterCountsMatches(st.posts, ByAuthor(a));
    assert MatchingIndices(st.posts, ByAuthor(a))
        == set i: nat | i < |st.posts| && st.posts[i].author == a;
    Filter(st.posts, ByAuthor(a))
  }

  datatype GroupListing = GroupListing(group: Group, posts: seq<Post>)

  /** `group_posts`: `None` is the not-found outcome for an unknown slug. */
  function GroupPosts(st: Store, slug: string): (r: Option<GroupListing>)
    ensures r.None? <==> forall g :: g in st.groups ==> g.slug != slug
    ensures r.Some? ==> r.value.group in st.groups && r.value.group.slug == slug
    ensures r.Some? ==> forall p :: p in r.value.posts <==>
                          p in st.posts && p.group == Some(r.value.group.id)
    ensures r.Some? ==> IsSubsequence(r.value.posts, st.posts)
    ensures r.Some? ==>
              |r.value.posts| == |set i: nat | i < |st.posts| && st.posts[i].group == Some(r.value.group.id)|
  {
    match FindGroup(st, slug)
    case None => None
    case Some(g) => Some(GroupListing(g, GroupFeed(st, g.id)))
  }

  datatype ProfileListing = ProfileListing(author: User, posts: seq<Post>, cnt: nat, following: bool)

  /** `profile`: the author's posts, their number, and whether the viewer follows them. */
  function Profile(st: Store, viewer: Viewer, username: string): (r: ProfileListing)
    requires FindUser(st, username).Some?
    ensures r.author in st.users && r.author.username == username
    ensures forall p :: p in r.posts <==> p in st.posts && p.author == r.author.id
    ensures IsSubsequence(r.posts, st.posts)
    ensures r.cnt == AuthoredCount(st, r.author.id)
    ensures |r.posts| == r.cnt
    ensures r.following <==> viewer.Authenticated? && Follow(viewer.user.id, r.author.id) in st.follows
  {
    var author := FindUser(st, username).value;
    var posts := AuthorFeed(st, author.id);
    var following := if viewer.Authenticated? then Follow(viewer.user.id, author.id) in st.follows else false;
    ProfileListing(author, posts, |posts|, following)
  }

  datatype DetailPage = DetailPage(post: Post, cnt: nat, comments: seq<Comment>)

  /** `post_detail`: the post, its author's post count and its comments. */
  function PostDetail(st: Store, id: PostId): (r: DetailPage)
    requires FindPost(st, id).Some?
    ensures r.post in st.posts && r.post.id == id
    ensures r.cnt == AuthoredCount(st, r.post.author)
    ensures forall c :: c in r.comments <==> c in st.comments && c.post == id
    ensures IsSubsequence(r.comments, st.comments)
    ensures |r.comments| == |set i: nat | i < |st.comments| && st.comments[i].post == id|
  {
    var post := FindPost(st, id).value;
    FilterIsSubsequence(st.comments, OnPost(id));
    FilterCountsMatches(st.comments, OnPost(id));
    assert MatchingIndices(st.comments, OnPost(id))
        == set i: nat | i < |st.comments| && st.comments[i].post == id;
    DetailPage(post, |AuthorFeed(st, post.author)|, Filter(st.comments, OnPost(id)))
  }

  /** The authors `u` follows, one entry per edge. */
  function Followees(st: Store, u: UserId): (r: seq<UserId>)
    ensures forall a :: a in r <==> Follow(u, a) in st.follows
  {
    var edges := Filter(st.follows, FromUser(u));
    var r := seq(|edges|, i requires 0 <= i < |edges| => edges[i].author);
    assert forall a :: Follow(u, a) in st.follows ==> a in r by {
      forall a | Follow(u, a) in st.follows ensures a in r {
        assert Follow(u, a) in edges;
        var i :| 0 <= i < |edges| && edges[i] == Follow(u, a);
        assert r[i] == a;
      }
    }
    assert forall a :: a in r ==> Follow(u, a) in st.follows by {
      forall a | a in r ensures Follow(u, a) in st.follows {
        var i :| 0 <= i < |r| && r[i] == a;
        assert edges[i] in edges;
        assert edges[i] == Follow(u, a);
      }
    }
    r
  }

  function ByFollowee(authors: seq<UserId>): Post -> bool {
    (p: Post) => p.author in authors
  }

  /** `follow_index`: the posts of every author the viewer follows, newest first. */
  function FollowIndex(st: Store, viewer: Viewer): (r: Gated<seq<Post>>)
    ensures r.LoginRequired? <==> viewer.Anonymous?
    ensures r.Granted? ==> forall p :: p in r.value <==>
                             p in st.posts && Follow(viewer.user.id, p.author) in st.follows
    ensures r.Granted? ==> IsSubsequence(r.value, st.posts)
    ensures r.Granted? ==>
              |r.value| == |set i: nat | i < |st.posts| && Follow(viewer.user.id, st.posts[i].author) in st.follows|
  {
    match viewer
    case Anonymous => LoginRequired
    case Authenticated(user) =>
      var authors := Followees(st, user.id);
      FilterIsSubsequence(st.posts, ByFollowee(authors));
      FilterCountsMatches(st.posts, ByFollowee(authors));
      assert MatchingIndices(st.posts, ByFollowee(authors))
          == set i: nat | i < |st.posts| && Follow(user.id, st.posts[i].author) in st.follows;
      Granted(Filter(st.posts, ByFollowee(authors)))
  }

  /** Every post is in its author's feed, and the global feed holds nothing else. */
  lemma GlobalFeedIsUnionOfAuthorFeeds(st: Store, p: Post)
    ensures p in GlobalFeed(st) <==> exists a: UserId :: p in AuthorFeed(st, a)
  {
  }

  /** A viewer who follows nobody gets an empty follow feed. */
  lemma FollowIndexEmptyWithoutFollowees(st: Store, user: User)
    requires forall e :: e in st.follows ==> e.user != user.id
    ensures FollowIndex(st, Authenticated(user)) == Granted([])
  {
  }

  /** Thirteen posts by one author in one group: the global, group and profile
      listings each show ten posts on page 1 and three on page 2. */
  lemma ThirteenPostsPaginate(st: Store, viewer: Viewer, username: string, g: GroupId)
    requires FindUser(st, username).Some?
    requires |st.posts| == 13
    requires forall i :: 0 <= i < |st.posts| ==>
               st.posts[i].author == FindUser(st, username).value.id && st.posts[i].group == Some(g)
    ensures var feeds := [GlobalFeed(st), GroupFeed(st, g), Profile(st, viewer, username).posts];
            forall f :: f in feeds ==> |f| == 13 && |Page(f, 1)| == 10 && |Page(f, 2)| == 3
  {
    FilterKeepsAll(st.posts, InGroup(g));
    FilterKeepsAll(st.posts, ByAuthor(FindUser(st, username).value.id));
  }
}
