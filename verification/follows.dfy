/** The follow state machine: `profile_follow` creates an edge only when the
    caller is not the target and the edge is not there yet; `profile_unfollow`
    deletes it. Both render the target's profile afterwards. */
module Follows {
  import opened Wrappers
  import opened Sequences
  import opened Domain
  import opened Feeds

  function Except(edge: Follow): Follow -> bool {
    (e: Follow) => e != edge
  }

  /** `profile_follow`. */
  function ProfileFollow(st: Store, viewer: Viewer, username: string): (r: Transition)
    requires viewer.Authenticated? ==> FindUser(st, username).Some?
    ensures viewer.Anonymous? ==> r == Transition(st, LoginRedirect)
    ensures viewer.Authenticated? ==> r.response == ShowProfile(username)
    ensures r.store == st.(follows := r.store.follows)
    ensures viewer.Authenticated? ==>
              var u, a := viewer.user.id, FindUser(st, username).value.id;
              && (forall e :: e in r.store.follows <==> e in st.follows || (e == Follow(u, a) && u != a))
              && (u != a && Follow(u, a) !in st.follows ==> r.store.follows == st.follows + [Follow(u, a)])
    ensures |st.follows| <= |r.store.follows| <= |st.follows| + 1
    ensures r.store.follows[..|st.follows|] == st.follows
    ensures Valid(st) ==> Valid(r.store)
  {
    match viewer
    case Anonymous => Transition(st, LoginRedirect)
    case Authenticated(user) =>
      var target := FindUser(st, username).value;
      if Follow(user.id, target.id) in st.follows then
        Transition(st, ShowProfile(username))
      else if user.id == target.id then
        Transition(st, ShowProfile(username))
      else
        var follows := st.follows + [Follow(user.id, target.id)];
        assert FollowsWellFormed(st.follows) ==> FollowsWellFormed(follows) by {
          if FollowsWellFormed(st.follows) {
            forall i, j | 0 <= i < j < |follows| ensures follows[i] != follows[j] {
              if j == |st.follows| {
                assert follows[i] in st.follows;
              } else {
                assert follows[i] == st.follows[i] && follows[j] == st.follows[j];
              }
            }
          }
        }
        Transition(st.(follows := follows), ShowProfile(username))
  }

  /** `profile_unfollow`: deletes every edge from the caller to the target. */
  function ProfileUnfollow(st: Store, viewer: Viewer, username: string): (r: Transition)
    requires viewer.Authenticated? ==> FindUser(st, username).Some?
    ensures viewer.Anonymous? ==> r == Transition(st, LoginRedirect)
    ensures viewer.Authenticated? ==> r.response == ShowProfile(username)
    ensures r.store == st.(follows := r.store.follows)
    ensures viewer.Authenticated? ==>
              var edge := Follow(viewer.user.id, FindUser(st, username).value.id);
              (forall e :: e in r.store.follows <==> e in st.follows && e != edge)
              && (edge !in st.follows ==> r.store == st)
    ensures IsSubsequence(r.store.follows, st.follows)
    ensures Valid(st) ==> Valid(r.store)
  {
    match viewer
    case Anonymous =>
      SubsequenceOfItself(st.follows);
      Transition(st, LoginRedirect)
    case Authenticated(user) =>
      var edge := Follow(user.id, FindUser(st, username).value.id);
      var follows := Filter(st.follows, Except(edge));
      FilterIsSubsequence(st.follows, Except(edge));
      assert Distinct(st.follows) ==> Distinct(follows) by {
        if Distinct(st.follows) {
          FilterPreservesDistinct(st.follows, Except(edge));
        }
      }
      assert edge !in st.follows ==> follows == st.follows by {
        if edge !in st.follows {
          FilterKeepsAll(st.follows, Except(edge));
        }
      }
      Transition(st.(follows := follows), ShowProfile(username))
  }

  /** Following twice leaves the same edges as following once. */
  lemma FollowIsIdempotent(st: Store, viewer: Viewer, username: string)
    requires FindUser(st, username).Some?
    ensures var once := ProfileFollow(st, viewer, username).store;
            ProfileFollow(once, viewer, username).store == once
  {
  }

  /** A user asking to follow themself changes nothing. */
  lemma SelfFollowIsNoOp(st: Store, user: User)
    requires FindUser(st, user.username) == Some(user)
    ensures ProfileFollow(st, Authenticated(user), user.username).store == st
  {
  }

  /** Unfollowing right after a follow that created the edge restores the store. */
  lemma UnfollowUndoesFollow(st: Store, user: User, username: string)
    requires FindUser(st, username).Some?
    requires Follow(user.id, FindUser(st, username).value.id) !in st.follows
    ensures var followed := ProfileFollow(st, Authenticated(user), username).store;
            ProfileUnfollow(followed, Authenticated(user), username).store == st
  {
    var edge := Follow(user.id, FindUser(st, username).value.id);
    var followed := ProfileFollow(st, Authenticated(user), username).store;
    if user.id != edge.author {
      assert followed.follows == st.follows + [edge];
      FilterAppend(st.follows, [edge], Except(edge));
      FilterKeepsAll(st.follows, Except(edge));
      assert [edge][1..] == [];
      assert Filter([edge], Except(edge)) == [];
      assert Filter(followed.follows, Except(edge)) == st.follows;
    }
  }

  /** Following someone else makes the profile report `following`; unfollowing
      them afterwards clears it again. */
  lemma FollowThenUnfollowProfile(st: Store, user: User, username: string)
    requires FindUser(st, username).Some?
    requires FindUser(st, username).value.id != user.id
    ensures var viewer := Authenticated(user);
            var followed := ProfileFollow(st, viewer, username).store;
            var unfollowed := ProfileUnfollow(followed, viewer, username).store;
            Profile(followed, viewer, username).following
            && !Profile(unfollowed, viewer, username).following
  {
  }

  /** Unfollowing the only author a user follows empties their follow feed. */
  lemma UnfollowingOnlyFolloweeEmptiesFeed(st: Store, user: User, username: string)
    requires FindUser(st, username).Some?
    requires forall e :: e in st.follows && e.user == user.id ==>
               e.author == FindUser(st, username).value.id
    ensures var unfollowed := ProfileUnfollow(st, Authenticated(user), username).store;
            FollowIndex(unfollowed, Authenticated(user)) == Granted([])
  {
    var unfollowed := ProfileUnfollow(st, Authenticated(user), username).store;
    FollowIndexEmptyWithoutFollowees(unfollowed, user);
  }
}
