# Yatube posts: domain model in Dafny

Yatube is a small blog: users write text posts, optionally inside a named
group, comment on posts and follow authors to get a personal feed. This
project models the domain logic of `yatube/posts/views.py` with the database
replaced by an immutable `Store` value:

- `users`, `groups`, `comments`;
- `posts`, a sequence kept newest first (position 0 is the latest post);
- `follows`, a sequence of `(user, author)` edges.

The views become pure functions:

- Read-only views (`index`, `group_posts`, `profile`, `post_detail`,
  `follow_index`) return their full ordered post list, with `cnt` and
  `following` where the view computes them. The page the template shows is
  `Paging.Page(list, k)`: ten items per page, pages numbered from 1.
- Mutating views (`post_create`, `post_edit`, `add_comment`, `profile_follow`,
  `profile_unfollow`) return a `Transition`: the new store plus a `Response`.
  An anonymous caller stopped by `login_required` gets `LoginRedirect` and
  the store is left unchanged.

Files, one module each:

- `wrappers.dfy`: `Option`.
- `sequences.dfy`: an order-preserving `Filter`, `Find`, the subsequence
  relation, and lemmas on these (append, keep-all, counting, distinctness).
- `paging.dfy`: the ten-per-page slicing.
- `domain.dfy`: the entities, the store, responses, lookups, and the store
  invariant `Valid`. `Valid` means no self-follow, no duplicate follow edge,
  and unique post ids.
- `feeds.dfy`: the read-only views.
- `follows.dfy`: the follow state machine.
- `authoring.dfy`: the `edit_rights` gate, post creation and editing, and
  comments.

Lookups and their failures:

- `Post.objects.get` (`views.py:17`, `72`, `121`) and `User.objects.get`
  (`views.py:49`, `151`) raise `DoesNotExist` for a missing row. That is a
  server error, not a 404, so the model takes the row's existence as a
  precondition.
- `post_detail` and `profile` have no `login_required`, so `Feeds.PostDetail`
  and `Feeds.Profile` require the lookup to succeed for every caller,
  anonymous ones included.
- `post_edit`, `add_comment`, `profile_follow` and `profile_unfollow` run
  `login_required` before their lookups. Their preconditions therefore bind
  only authenticated callers, and an anonymous caller gets `LoginRedirect`
  whether or not the post or user exists.
- The group lookup of `group_posts` (`views.py:36`) goes through
  `get_object_or_404`; its not-found outcome is `None`.
- `post_edit` also calls `get_object_or_404(Post, ...)` (`views.py:102`), but
  that 404 can never happen for a missing post: the `edit_rights` wrapper's
  `Post.objects.get` (`views.py:17`) runs first and raises `DoesNotExist`.
  That is why `Authoring.PostEdit` takes the post's existence as a
  precondition.

## Model

| member | source | states |
|---|---|---|
| Sequences.Filter | yatube/posts/views.py:50 | a queryset filter yields exactly the stored items matching the condition, never more than there were |
| Sequences.FilterIsSubsequence | yatube/posts/views.py:37 | filtering keeps the newest-first order of the underlying posts |
| Sequences.FilterCountsMatches | yatube/posts/views.py:51 | the length of a filtered list is the number of matching positions in the store |
| Sequences.FilterPreservesDistinct | yatube/posts/views.py:166-170 | deleting rows from a duplicate-free list cannot create duplicates |
| Paging.NumPages | yatube/posts/views.py:26-28 | a list of n items spans ceil(n/10) pages, and at least one |
| Paging.Page | yatube/posts/views.py:26-28 | page k holds items 10(k-1) up to min(10k, n): ten items on every page but the last, which holds the rest |
| Paging.PagesFlattenToList | yatube/posts/views.py:26-28 | reading every page in order gives back the whole list |
| Paging.PagesAgreeWithPage | yatube/posts/views.py:26-28 | cutting the list into pages gives NumPages pages, and page k of the cut is Page(list, k) |
| Paging.PageOfItem | yatube/posts/views.py:38-40 | item j of a list appears on page j/10+1 at offset j%10 |
| Paging.ThirteenItemsMakeTenAndThree | yatube/posts/tests/test_views.py:260-305 | thirteen items make two pages, of ten and three |
| Domain.FindUser | yatube/posts/views.py:49 | the user lookup returns a stored user with that username, and fails only when there is none |
| Domain.FindGroup | yatube/posts/views.py:36 | the group lookup returns a stored group with that slug, and fails only when there is none |
| Domain.FindPost | yatube/posts/views.py:17 | the post lookup returns a stored post with that id, and fails only when there is none |
| Domain.PostIdPinsPost | yatube/posts/views.py:72 | with unique primary keys an id names a single post |
| Feeds.GlobalFeed | yatube/posts/views.py:24-25 | the index lists every stored post once, in store order (newest first), and each listed post is in its author's feed; see also Feeds.GlobalFeedIsUnionOfAuthorFeeds |
| Feeds.GroupFeed | yatube/posts/views.py:37 | a group's post list is exactly the stored posts in that group, newest first, one entry per stored post in the group |
| Feeds.AuthorFeed | yatube/posts/views.py:50-51 | an author's post list is exactly their stored posts, newest first, and its length is their post count |
| Feeds.GroupPosts | yatube/posts/views.py:35-45 | an unknown slug gives not-found; otherwise the listing carries that group and exactly its posts in store order, one entry per stored post in the group |
| Feeds.Profile | yatube/posts/views.py:48-68 | the profile lists exactly the author's posts in order; cnt is their post count and the length of the list; following is false for an anonymous viewer and otherwise says whether the viewer-to-author edge exists |
| Feeds.PostDetail | yatube/posts/views.py:71-82 | the page shows the post with that id, its author's post count, and exactly the post's comments in store order, one entry per stored comment on the post |
| Feeds.Followees | yatube/posts/views.py:133-136 | the collected author list holds exactly the authors the user follows |
| Feeds.FollowIndex | yatube/posts/views.py:131-144 | anonymous viewers are sent to login; otherwise the feed is exactly the posts whose author the viewer follows, newest first, one entry per such stored post |
| Feeds.GlobalFeedIsUnionOfAuthorFeeds | yatube/posts/views.py:25 | a post is in the global feed exactly when it is in some author's feed |
| Feeds.FollowIndexEmptyWithoutFollowees | yatube/posts/views.py:133-137 | a viewer who follows nobody gets an empty follow feed |
| Feeds.ThirteenPostsPaginate | yatube/posts/tests/test_views.py:251-305 | with thirteen posts by one author in one group, the global, group and profile listings show ten posts on page 1 and three on page 2 |
| Follows.ProfileFollow | yatube/posts/views.py:147-161 | anonymous callers are sent to login; otherwise only the follow edges change, the old edges stay as a prefix, at most one edge is added, the new edge set is the old one plus the caller-to-target edge unless caller and target are the same user, a new edge is appended exactly once, and the store invariant is kept |
| Follows.ProfileUnfollow | yatube/posts/views.py:164-171 | only the follow edges change; the caller-to-target edge is gone and every other edge stays, in order; it is a no-op when the edge is absent; the store invariant is kept |
| Follows.FollowIsIdempotent | yatube/posts/views.py:149-153 | following again when the edge exists leaves the store as it is |
| Follows.SelfFollowIsNoOp | yatube/posts/views.py:154-155 | a user asking to follow themself changes nothing |
| Follows.UnfollowUndoesFollow | yatube/posts/views.py:156-170 | unfollowing right after a follow that created the edge restores the original store |
| Follows.FollowThenUnfollowProfile | yatube/posts/tests/test_views.py:197-218 | after following another user the profile reports following; after unfollowing it does not |
| Follows.UnfollowingOnlyFolloweeEmptiesFeed | yatube/posts/tests/test_views.py:220-248 | unfollowing the only author a user follows leaves their follow feed empty |
| Authoring.FreshPostId | yatube/posts/views.py:92-94 | a newly saved post gets an id no stored post uses |
| Authoring.EditRights | yatube/posts/views.py:14-21 | the gate passes exactly an authenticated caller who is the author of the post with that id |
| Authoring.ApplyEdit | yatube/posts/views.py:108-109 | saving the edit form changes the text and group of the edited post only; ids, authors and every other post are untouched |
| Authoring.PostEdit | yatube/posts/views.py:99-116 | anonymous callers go to login; a non-author is redirected to the post with the store unchanged; an invalid form is shown again with nothing changed; a valid edit by the author sets the text and group (None for the empty choice), keeps everything else, and redirects to the post |
| Authoring.PostCreate | yatube/posts/views.py:85-96 | anonymous callers go to login; an invalid form creates nothing; a valid form adds exactly one post at the head of the list, written by the caller, with a fresh id and the form's text and group, then redirects to the caller's profile |
| Authoring.AddComment | yatube/posts/views.py:119-128 | anonymous callers go to login; otherwise exactly one comment by the caller on that post is appended when the form is valid and none otherwise, and the response is the post's page |
| Authoring.NonAuthorEditIsRedirected | yatube/posts/tests/test_urls.py:114-127 | an authenticated non-author's edit yields a redirect to the post and an unchanged store |
| Authoring.EditClearingGroupLeavesGroupFeed | yatube/posts/tests/test_forms.py:108-125 | after the author's valid edit with the empty group, the post has the new text, no group, and appears in no group feed |
| Authoring.CreatedPostHeadsFeeds | yatube/posts/views.py:91-95 | a created post is first in the global feed and is prepended to its author's feed and to its group's feed |
| Authoring.CreatedPostIsOnlyPostOfEmptyGroup | yatube/posts/tests/test_views.py:162-174 | a post created into a group with no posts is that group's whole feed |
| Authoring.CreatedPostHeadsFollowersFeed | yatube/posts/tests/test_views.py:220-241 | a follower of the author sees the new post first in their follow feed |
| Authoring.CommentAppearsOnPostPage | yatube/posts/tests/test_forms.py:127-150 | an anonymous comment leaves the store unchanged; an accepted one is added after the existing comments on the post's page |

## Left out

- Templates, context keys, URL strings and redirect targets are left out. Responses are abstract values.
- The `next` return path of the login redirect is left out. It is modelled as `LoginRedirect` only.
- The page number's query-string parsing and the paginator's clamping of invalid or out-of-range page numbers belong to the framework. Only in-range pages are modelled (`Paging.Page` requires `1 <= k <= NumPages`).
- The whole-page cache of the index is framework configuration, not view logic.
- Image upload and media storage are left out. Posts carry no image.
- Form validation rules live in `forms.py`, which is not part of this model. Validity is an opaque boolean on `PostForm` and `CommentForm`. The group field's empty choice is `None`.
- The ordering declared on the models (`models.py`) is not part of this model. Posts are kept newest first by position, and comments in the order they were added. The comment test (`tests/test_forms.py:148-150`) reads the newest comment at index 0, which hints at newest-first comments; the model keeps insertion order, so `Authoring.CommentAppearsOnPostPage` puts the new comment last. With the test's single comment the two agree.
- Creation timestamps are not modelled. Position in the sequence stands for creation order.
- Domain.FindUser: returns the first matching user. It does not model the error `User.objects.get` raises when several users share a username, because usernames are unique in the authentication model.
- Domain.FindGroup: returns the first group with the slug. It does not model the `MultipleObjectsReturned` error `get_object_or_404` raises when two groups share a slug, because the group slug is meant to identify one group; `models.py`, where its uniqueness would be declared, is not part of this model.
- Lookups without a not-found outcome (`Post.objects.get`, `User.objects.get`) are preconditions: for every caller in `post_detail` and `profile`, and for authenticated callers in the views behind `login_required`. The server error a missing row would cause is not modelled.
- Atomicity of the follow check-then-create under concurrent requests is left out. Each request is one sequential transition.
- Post deletion is not a view in this file and is not modelled.
