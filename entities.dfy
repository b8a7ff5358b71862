/**
 * The two stored records main.py works with, and the facts the store keeps
 * true about them. Users and posts are held as sequences; their order is
 * a choice of the model, since the queries name no order, and with unique
 * logins and distinct post ids no query's outcome depends on it.
 */
module Entities {
  import opened Wrappers

  type UserId = nat
  type PostId = nat

  /** A registered account; `passwordHash` is only ever a hash of the password. */
  datatype User = User(id: UserId, login: string, passwordHash: string)

  /** A news post and the id of the user who owns it. */
  datatype Post = Post(id: PostId, title: string, content: string, isPrivate: bool, owner: UserId)

  /** A post is listed for `viewer` when the viewer owns it or it is not private. */
  predicate Visible(p: Post, viewer: Option<UserId>) {
    viewer == Some(p.owner) || !p.isPrivate
  }

  /** The post has this id and belongs to this user. */
  predicate IsOwned(p: Post, id: PostId, owner: UserId) {
    p.id == id && p.owner == owner
  }

  /** Some stored user has this login. */
  ghost predicate LoginTaken(users: seq<User>, login: string) {
    exists u :: u in users && u.login == login
  }

  /** Some stored post has this id and owner. */
  ghost predicate Owns(posts: seq<Post>, id: PostId, owner: UserId) {
    exists p :: p in posts && IsOwned(p, id, owner)
  }

  /** No two users share a login. */
  ghost predicate LoginsUnique(users: seq<User>) {
    forall i, j :: 0 <= i < j < |users| ==> users[i].login != users[j].login
  }

  /** Users are never deleted, so a user's id is its row number. */
  ghost predicate UserIdsAreRowNumbers(users: seq<User>) {
    forall i :: 0 <= i < |users| ==> users[i].id == i + 1
  }

  /** `id` names a stored user. */
  predicate IsUser(users: seq<User>, id: UserId) {
    1 <= id <= |users|
  }

  /** No two posts share an id. */
  ghost predicate PostIdsDistinct(posts: seq<Post>) {
    forall i, j :: 0 <= i < j < |posts| ==> posts[i].id != posts[j].id
  }

  /** Every post id is below the next id to hand out. */
  ghost predicate PostIdsBelow(posts: seq<Post>, bound: PostId) {
    forall i :: 0 <= i < |posts| ==> posts[i].id < bound
  }

  /** Every post is owned by a stored user. */
  ghost predicate OwnersRegistered(posts: seq<Post>, users: seq<User>) {
    forall i :: 0 <= i < |posts| ==> IsUser(users, posts[i].owner)
  }
}
