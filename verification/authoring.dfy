/** Creating, editing and commenting: `post_create`, the `edit_rights` gate
    with `post_edit`, and `add_comment`. Form validation is an opaque verdict
    carried by the form values. */
module Authoring {
  import opened Wrappers
  import opened Sequences
  import opened Domain
  import opened Feeds

  /** A submitted post form: its validation verdict and cleaned fields.
      `group` is `None` when the empty choice was submitted. */
  datatype PostForm = PostForm(valid: bool, text: string, group: Option<GroupId>)

  datatype CommentForm = CommentForm(valid: bool, text: string)

  /** An id no stored post uses, standing in for the key the database assigns
      to a new row. */
  function FreshPostId(posts: seq<Post>): (id: PostId)
    ensures id >= 1
    ensures forall p :: p in posts ==> p.id < id
  {
    if |posts| == 0 then 1
    else
      var rest := FreshPostId(posts[1..]);
      assert posts == [posts[0]] + posts[1..];
      if posts[0].id < rest then rest else posts[0].id + 1
  }

  /** The `edit_rights` gate: only the post's author passes. */
  function EditRights(st: Store, viewer: Viewer, id: PostId): (allowed: bool)
    requires FindPost(st, id).Some?
    ensures PostIdsUnique(st.posts) ==>
              (allowed <==> viewer.Authenticated? &&
                            forall p :: p in st.posts && p.id == id ==> p.author == viewer.user.id)
  {
    var post := FindPost(st, id).value;
    assert PostIdsUnique(st.posts) ==> forall p :: p in st.posts && p.id == id ==> p == post by {
      if PostIdsUnique(st.posts) {
        forall p | p in st.posts && p.id == id ensures p == post {
          PostIdPinsPost(st, p, post);
        }
      }
    }
    viewer.Authenticated? && viewer.user.id == post.author
  }

  /** The posts with the one whose id is `id` given the form's text and group. */
  function ApplyEdit(posts: seq<Post>, id: PostId, form: PostForm): (r: seq<Post>)
    ensures |r| == |posts|
    ensures forall i :: 0 <= i < |r| ==> r[i].id == posts[i].id && r[i].author == posts[i].author
    ensures forall i :: 0 <= i < |r| && posts[i].id == id ==>
              r[i].text == form.text && r[i].group == form.group
    ensures forall i :: 0 <= i < |r| && posts[i].id != id ==> r[i] == posts[i]
  {
    seq(|posts|, i requires 0 <= i < |posts| =>
      if posts[i].id == id then posts[i].(text := form.text, group := form.group) else posts[i])
  }

  /** `post_edit` behind `login_required` and `edit_rights`. */
  function PostEdit(st: Store, viewer: Viewer, id: PostId, form: PostForm): (r: Transition)
    requires viewer.Authenticated? ==> FindPost(st, id).Some?
    ensures viewer.Anonymous? ==> r == Transition(st, LoginRedirect)
    ensures viewer.Authenticated? && !EditRights(st, viewer, id) ==>
              r == Transition(st, RedirectToPost(id))
    ensures viewer.Authenticated? && EditRights(st, viewer, id) && !form.valid ==>
              r == Transition(st, ShowPostForm)
    ensures viewer.Authenticated? && EditRights(st, viewer, id) && form.valid ==>
              && r.response == RedirectToPost(id)
              && r.store == st.(posts := r.store.posts)
              && |r.store.posts| == |st.posts|
              && (forall i :: 0 <= i < |st.posts| ==>
                    r.store.posts[i].id == st.posts[i].id && r.store.posts[i].author == st.posts[i].author)
              && (forall i :: 0 <= i < |st.posts| && st.posts[i].id == id ==>
                    r.store.posts[i].text == form.text && r.store.posts[i].group == form.group)
              && (forall i :: 0 <= i < |st.posts| && st.posts[i].id != id ==>
                    r.store.posts[i] == st.posts[i])
    ensures Valid(st) ==> Valid(r.store)
  {
    match viewer
    case Anonymous => Transition(st, LoginRedirect)
    case Authenticated(_) =>
      if !EditRights(st, viewer, id) then Transition(st, RedirectToPost(id))
      else if !form.valid then Transition(st, ShowPostForm)
      else Transition(st.(posts := ApplyEdit(st.posts, id, form)), RedirectToPost(id))
  }

  /** `post_create`: a valid form becomes the newest post, written by the caller. */
  function PostCreate(st: Store, viewer: Viewer, form: PostForm): (r: Transition)
    ensures viewer.Anonymous? ==> r == Transition(st, LoginRedirect)
    ensures viewer.Authenticated? && !form.valid ==> r == Transition(st, ShowPostForm)
    ensures viewer.Authenticated? && form.valid ==>
              && r.response == RedirectToProfile(viewer.user.username)
              && r.store == st.(posts := r.store.posts)
              && |r.store.posts| == |st.posts| + 1
              && r.store.posts[1..] == st.posts
              && r.store.posts[0].author == viewer.user.id
              && r.store.posts[0].text == form.text
              && r.store.posts[0].group == form.group
              && (forall p :: p in st.posts ==> p.id != r.store.posts[0].id)
    ensures Valid(st) ==> Valid(r.store)
  {
    match viewer
    case Anonymous => Transition(st, LoginRedirect)
    case Authenticated(user) =>
      if !form.valid then Transition(st, ShowPostForm)
      else
        var post := Post(FreshPostId(st.posts), user.id, form.group, form.text);
        var posts := [post] + st.posts;
        assert PostIdsUnique(st.posts) ==> PostIdsUnique(posts) by {
          if PostIdsUnique(st.posts) {
            forall i, j | 0 <= i < j < |posts| ensures posts[i].id != posts[j].id {
              assert posts[j] == st.posts[j - 1];
              if i > 0 {
                assert posts[i] == st.posts[i - 1];
              } else {
                assert posts[j] in st.posts;
              }
            }
          }
        }
        Transition(st.(posts := posts), RedirectToProfile(user.username))
  }

  /** `add_comment`: a valid form appends one comment by the caller; the
      response is the post's page either way. */
  function AddComment(st: Store, viewer: Viewer, id: PostId, form: CommentForm): (r: Transition)
    requires viewer.Authenticated? ==> FindPost(st, id).Some?
    ensures viewer.Anonymous? ==> r == Transition(st, LoginRedirect)
    ensures viewer.Authenticated? ==>
              && r.response == RedirectToPost(id)
              && r.store == st.(comments := r.store.comments)
              && |r.store.comments| == |st.comments| + (if form.valid then 1 else 0)
              && r.store.comments[..|st.comments|] == st.comments
    ensures viewer.Authenticated? && form.valid ==>
              r.store.comments[|st.comments|] == Comment(id, viewer.user.id, form.text)
    ensures Valid(st) ==> Valid(r.store)
  {
    match viewer
    case Anonymous => Transition(st, LoginRedirect)
    case Authenticated(user) =>
      if !form.valid then Transition(st, RedirectToPost(id))
      else
        var comment := Comment(id, user.id, form.text);
        Transition(st.(comments := st.comments + [comment]), RedirectToPost(id))
  }

  /** Anyone but the author who tries to edit is sent to the post's page and
      the post stays as it was. */
  lemma NonAuthorEditIsRedirected(st: Store, user: User, id: PostId, form: PostForm)
    requires FindPost(st, id).Some?
    requires FindPost(st, id).value.author != user.id
    ensures PostEdit(st, Authenticated(user), id, form) == Transition(st, RedirectToPost(id))
  {
  }

  /** After the author saves an edit with the empty group, the post has the
      new text, no group, and has left every group feed. */
  lemma EditClearingGroupLeavesGroupFeed(
    st: Store, user: User, id: PostId, form: PostForm, g: GroupId)
    requires Valid(st)
    requires FindPost(st, id).Some? && FindPost(st, id).value.author == user.id
    requires form.valid && form.group.None?
    ensures var after := PostEdit(st, Authenticated(user), id, form).store;
            && FindPost(after, id).Some?
            && FindPost(after, id).value.text == form.text
            && FindPost(after, id).value.group.None?
            && forall p :: p in GroupFeed(after, g) ==> p.id != id
  {
  }

  /** A new post heads the global feed and its author's feed, and is prepended
      to its group's feed. */
  lemma CreatedPostHeadsFeeds(st: Store, user: User, form: PostForm)
    requires form.valid
    ensures var after := PostCreate(st, Authenticated(user), form).store;
            var post := after.posts[0];
            && GlobalFeed(after)[0] == post
            && AuthorFeed(after, user.id) == [post] + AuthorFeed(st, user.id)
            && (form.group.Some? ==>
                  GroupFeed(after, form.group.value) == [post] + GroupFeed(st, form.group.value))
  {
  }

  /** Creating a post into a group whose feed was empty makes that post the
      group's whole feed. */
  lemma CreatedPostIsOnlyPostOfEmptyGroup(st: Store, user: User, form: PostForm, g: GroupId)
    requires form.valid && form.group == Some(g)
    requires GroupFeed(st, g) == []
    ensures var after := PostCreate(st, Authenticated(user), form).store;
            GroupFeed(after, g) == [after.posts[0]]
  {
    CreatedPostHeadsFeeds(st, user, form);
  }

  /** A follower of the author sees the new post first in their follow feed. */
  lemma CreatedPostHeadsFollowersFeed(st: Store, author: User, follower: User, form: PostForm)
    requires form.valid
    requires Follow(follower.id, author.id) in st.follows
    ensures var after := PostCreate(st, Authenticated(author), form).store;
            var feed := FollowIndex(after, Authenticated(follower)).value;
            |feed| > 0 && feed[0] == after.posts[0]
  {
  }

  /** An anonymous comment changes nothing; an accepted one shows up last on
      the post's page, after the comments it already had. */
  lemma CommentAppearsOnPostPage(st: Store, viewer: Viewer, id: PostId, form: CommentForm)
    requires FindPost(st, id).Some?
    ensures viewer.Anonymous? ==> AddComment(st, viewer, id, form).store == st
    ensures viewer.Authenticated? && form.valid ==>
              var after := AddComment(st, viewer, id, form).store;
              PostDetail(after, id).comments
                == PostDetail(st, id).comments + [Comment(id, viewer.user.id, form.text)]
  {
    if viewer.Authenticated? && form.valid {
      var c := Comment(id, viewer.user.id, form.text);
      var after := AddComment(st, viewer, id, form).store;
      assert after == st.(comments := st.comments + [c]);
      assert PostDetail(after, id).comments == Filter(st.comments + [c], OnPost(id));
      assert PostDetail(st, id).comments == Filter(st.comments, OnPost(id));
      FilterAppend(st.comments, [c], OnPost(id));
      assert [c][1..] == [];
    }
  }
}
