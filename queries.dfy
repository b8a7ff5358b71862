/**
 * The queries main.py runs against the two tables, their ORM updates
 * written as functions on the row sequences, and what they guarantee.
 */
module Queries {
  import opened Wrappers
  import opened Entities

  /**
   * The listing of the index page (main.py:22-26): the rows, in order,
   * that the viewer may see. An anonymous visitor passes `None`.
   */
  function ListVisible(posts: seq<Post>, viewer: Option<UserId>): (shown: seq<Post>)
    ensures forall p :: p in shown <==> p in posts && Visible(p, viewer)
    ensures |shown| <= |posts|
  {
    if posts == [] then []
    else if Visible(posts[0], viewer) then [posts[0]] + ListVisible(posts[1..], viewer)
    else ListVisible(posts[1..], viewer)
  }

  /** The first user with this login, if any (main.py:37 and main.py:58). */
  function FindUserByLogin(users: seq<User>, login: string): (found: Option<User>)
    ensures found.None? <==> !LoginTaken(users, login)
    ensures found.Some? ==> found.value in users && found.value.login == login
  {
    if users == [] then None
    else if users[0].login == login then Some(users[0])
    else FindUserByLogin(users[1..], login)
  }

  /**
   * The row of the first post with this id and this owner, if any
   * (main.py:98, main.py:107, main.py:123).
   */
  function FindOwned(posts: seq<Post>, id: PostId, owner: UserId): (at: Option<nat>)
    ensures at.None? <==> !Owns(posts, id, owner)
    ensures at.Some? ==> at.value < |posts| && IsOwned(posts[at.value], id, owner)
  {
    if posts == [] then None
    else if IsOwned(posts[0], id, owner) then Some(0)
    else match FindOwned(posts[1..], id, owner)
         case None => None
         case Some(k) => Some(k + 1)
  }

  /** The table once every row with this id is deleted (main.py:125). */
  function RemovePost(posts: seq<Post>, id: PostId): (rest: seq<Post>)
    ensures forall p :: p in rest <==> p in posts && p.id != id
    ensures |rest| <= |posts|
  {
    if posts == [] then []
    else if posts[0].id == id then RemovePost(posts[1..], id)
    else [posts[0]] + RemovePost(posts[1..], id)
  }

  /**
   * The table once the row with this id has its title, content and
   * privacy flag replaced (main.py:109-111).
   */
  function UpdatePost(posts: seq<Post>, id: PostId, title: string, content: string, isPrivate: bool): (updated: seq<Post>)
    ensures |updated| == |posts|
    ensures forall i :: 0 <= i < |posts| && posts[i].id != id ==> updated[i] == posts[i]
    ensures forall i :: 0 <= i < |posts| && posts[i].id == id ==>
      updated[i] == Post(id, title, content, isPrivate, posts[i].owner)
  {
    if posts == [] then []
    else
      var head := if posts[0].id == id then posts[0].(title := title, content := content, isPrivate := isPrivate)
                  else posts[0];
      [head] + UpdatePost(posts[1..], id, title, content, isPrivate)
  }

  /** With unique logins the first match is the only one. */
  lemma FindUserIsTheUser(users: seq<User>, u: User)
    requires LoginsUnique(users)
    requires u in users
    ensures FindUserByLogin(users, u.login) == Some(u)
  {
    var found := FindUserByLogin(users, u.login);
    var i :| 0 <= i < |users| && users[i] == found.value;
    var j :| 0 <= j < |users| && users[j] == u;
    assert i == j;
  }

  /** Adding a user whose login is free keeps logins unique. */
  lemma AddingFreeLoginKeepsUnique(users: seq<User>, u: User)
    requires LoginsUnique(users)
    requires FindUserByLogin(users, u.login).None?
    ensures LoginsUnique(users + [u])
  {
    forall i, j | 0 <= i < j < |users + [u]|
      ensures (users + [u])[i].login != (users + [u])[j].login
    {
      if j == |users| {
        assert users[i] in users;
      }
    }
  }

  /** With distinct ids, deleting row `i` is deleting its id. */
  lemma {:induction false} RemoveAt(posts: seq<Post>, i: nat)
    requires PostIdsDistinct(posts)
    requires i < |posts|
    ensures posts[..i] + posts[i + 1..] == RemovePost(posts, posts[i].id)
  {
    var tail := posts[1..];
    assert PostIdsDistinct(tail) by {
      forall a, b | 0 <= a < b < |tail| ensures tail[a].id != tail[b].id {
        assert tail[a] == posts[a + 1] && tail[b] == posts[b + 1];
      }
    }
    if i == 0 {
      forall k | 0 <= k < |tail| ensures tail[k].id != posts[0].id {
        assert tail[k] == posts[k + 1];
      }
      KeepAll(tail, posts[0].id);
      assert posts[..0] + posts[1..] == tail;
    } else {
      var id := posts[i].id;
      assert tail[i - 1] == posts[i];
      assert posts[0].id != id;
      assert RemovePost(posts, id) == [posts[0]] + RemovePost(tail, id);
      RemoveAt(tail, i - 1);
      assert tail[..i - 1] == posts[1..i];
      assert tail[i..] == posts[i + 1..];
      assert posts[..i] == [posts[0]] + posts[1..i];
    }
  }

  /** Deleting an id no row carries changes nothing. */
  lemma {:induction false} KeepAll(posts: seq<Post>, id: PostId)
    requires forall k :: 0 <= k < |posts| ==> posts[k].id != id
    ensures RemovePost(posts, id) == posts
  {
    if posts != [] {
      KeepAll(posts[1..], id);
    }
  }

  /** With distinct ids, updating row `i` is updating its id. */
  lemma UpdateAt(posts: seq<Post>, i: nat, title: string, content: string, isPrivate: bool)
    requires PostIdsDistinct(posts)
    requires i < |posts|
    ensures posts[i := posts[i].(title := title, content := content, isPrivate := isPrivate)]
            == UpdatePost(posts, posts[i].id, title, content, isPrivate)
  {
  }

  /** An anonymous visitor sees exactly the posts that are not private. */
  lemma AnonymousSeesPublic(posts: seq<Post>)
    ensures forall p :: p in ListVisible(posts, None) <==> p in posts && !p.isPrivate
  {
  }

  /** A signed-in user sees exactly their own posts and the public ones. */
  lemma UserSeesOwnAndPublic(posts: seq<Post>, user: UserId)
    ensures forall p :: p in ListVisible(posts, Some(user)) <==> p in posts && (p.owner == user || !p.isPrivate)
  {
  }

  /**
   * A private post is shown to its owner and to no one else: no listed row
   * for another viewer carries its id.
   */
  lemma PrivatePostShownOnlyToOwner(posts: seq<Post>, p: Post, viewer: Option<UserId>)
    requires PostIdsDistinct(posts)
    requires p in posts && p.isPrivate
    ensures p in ListVisible(posts, Some(p.owner))
    ensures viewer != Some(p.owner) ==> forall q :: q in ListVisible(posts, viewer) ==> q.id != p.id
  {
    if viewer != Some(p.owner) {
      forall q | q in ListVisible(posts, viewer)
        ensures q.id != p.id
      {
        var i :| 0 <= i < |posts| && posts[i] == p;
        var j :| 0 <= j < |posts| && posts[j] == q;
        assert i != j;
      }
    }
  }

  /** Once a post is deleted no viewer's listing carries its id. */
  lemma DeletedPostNeverListed(posts: seq<Post>, id: PostId, viewer: Option<UserId>)
    ensures forall q :: q in ListVisible(RemovePost(posts, id), viewer) ==> q.id != id
  {
  }
}
