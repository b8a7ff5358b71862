/**
 * The route handlers of main.py as operations on an in-memory store.
 * Each handler is one atomic step: the signed-in identity comes in as an
 * explicit `Option<UserId>` (None for an anonymous visitor) and what the
 * framework would send back is a `Response`.
 */
module Blog {
  import opened Wrappers
  import opened Entities
  import opened Queries
  import RegisterForms
  import NewsForms
  import LoginForms

  /** The pages a handler renders or redirects to. */
  datatype Page = IndexPage | RegisterPage | LoginPage | NewsPage

  /**
   * What a handler answers: a redirect, the form page rendered again with
   * a message ("" for none), or one of the two error statuses.
   */
  datatype Response =
    | Redirect(to: Page)
    | Rerender(page: Page, message: string)
    | NotFound404
    | Unauthorized401

  const PasswordsDoNotMatch := "Passwords do not match"
  const UserAlreadyExists := "User already exists"
  const IncorrectLoginOrPassword := "Incorrect login or password"

  /** The form data an edit page is pre-filled with from a stored post (main.py:100-102). */
  function FormOf(p: Post): NewsForms.NewsForm {
    NewsForms.NewsForm(p.title, p.content, p.isPrivate)
  }

  /**
   * Logging out (main.py:66-70): the `login_required` gate answers 401 to
   * an anonymous caller; a signed-in caller loses the identity and is sent
   * to the index.
   */
  function Logout(identity: Option<UserId>): (out: (Response, Option<UserId>))
    ensures out.1 == None
    ensures out.0 == Unauthorized401 <==> identity.None?
    ensures out.0 != Unauthorized401 ==> out.0 == Redirect(IndexPage)
  {
    if identity.None? then (Unauthorized401, None) else (Redirect(IndexPage), None)
  }

  /** The users and posts of the blog, and the hashing scheme for passwords. */
  class Store {
    var users: seq<User>
    var posts: seq<Post>
    var nextPostId: PostId
    /** The one-way password hash; nothing about it is assumed. */
    const hash: string -> string

    /** The facts every handler keeps true of the tables. */
    ghost predicate Valid()
      reads this
    {
      && LoginsUnique(users)
      && UserIdsAreRowNumbers(users)
      && PostIdsDistinct(posts)
      && PostIdsBelow(posts, nextPostId)
      && OwnersRegistered(posts, users)
    }

    /** An empty blog over a given hashing scheme. */
    constructor (hash: string -> string)
      ensures Valid()
      ensures users == [] && posts == [] && this.hash == hash
    {
      users := [];
      posts := [];
      nextPostId := 1;
      this.hash := hash;
    }

    /** A password matches a stored hash exactly when it hashes to it. */
    predicate CheckPassword(stored: string, candidate: string) {
      stored == hash(candidate)
    }

    /**
     * Registering (main.py:30-44). The mismatch check comes before the
     * login lookup; only a valid, matching, new login adds a user.
     */
    method Register(form: RegisterForms.RegisterForm, submitted: bool) returns (r: Response)
      requires Valid()
      modifies this
      ensures Valid()
      ensures posts == old(posts) && nextPostId == old(nextPostId)
      ensures !(submitted && RegisterForms.Validates(form)) ==>
        r == Rerender(RegisterPage, "") && users == old(users)
      ensures submitted && RegisterForms.Validates(form) && form.password != form.confirmPassword ==>
        r == Rerender(RegisterPage, PasswordsDoNotMatch) && users == old(users)
      ensures submitted && RegisterForms.Validates(form) && form.password == form.confirmPassword
              && LoginTaken(old(users), form.username) ==>
        r == Rerender(RegisterPage, UserAlreadyExists) && users == old(users)
      ensures submitted && RegisterForms.Validates(form) && form.password == form.confirmPassword
              && !LoginTaken(old(users), form.username) ==>
        r == Redirect(LoginPage)
        && users == old(users) + [User(|old(users)| + 1, form.username, hash(form.password))]
    {
      if !(submitted && RegisterForms.Validates(form)) {
        return Rerender(RegisterPage, "");
      }
      if form.password != form.confirmPassword {
        return Rerender(RegisterPage, PasswordsDoNotMatch);
      }
      if FindUserByLogin(users, form.username).Some? {
        return Rerender(RegisterPage, UserAlreadyExists);
      }
      var user := User(|users| + 1, form.username, hash(form.password));
      AddingFreeLoginKeepsUnique(users, user);
      users := users + [user];
      r := Redirect(LoginPage);
    }

    /**
     * Logging in (main.py:53-63): it succeeds exactly when some user has
     * the login and the password checks against its hash, and then the
     * identity becomes that user. Every failure, whichever part was wrong,
     * gives the same message and keeps the identity.
     */
    function Login(form: LoginForms.LoginForm, submitted: bool, identity: Option<UserId>): (out: (Response, Option<UserId>))
      reads this
      requires LoginsUnique(users)
      ensures out.0.Redirect? <==>
        submitted && LoginForms.Validates(form)
        && exists u :: u in users && u.login == form.username && CheckPassword(u.passwordHash, form.password)
      ensures out.0.Redirect? ==>
        out.0.to == IndexPage && exists u :: u in users && u.login == form.username && out.1 == Some(u.id)
      ensures !out.0.Redirect? ==>
        out.1 == identity
        && out.0 == Rerender(LoginPage, if submitted && LoginForms.Validates(form) then IncorrectLoginOrPassword else "")
    {
      if submitted && LoginForms.Validates(form) then
        match FindUserByLogin(users, form.username)
        case Some(u) =>
          if CheckPassword(u.passwordHash, form.password) then (Redirect(IndexPage), Some(u.id))
          else
            assert forall v :: v in users && v.login == form.username ==> v == u by {
              forall v | v in users && v.login == form.username ensures v == u {
                FindUserIsTheUser(users, v);
              }
            }
            (Rerender(LoginPage, IncorrectLoginOrPassword), identity)
        case None => (Rerender(LoginPage, IncorrectLoginOrPassword), identity)
      else (Rerender(LoginPage, ""), identity)
    }

    /**
     * Publishing a post (main.py:73-89): behind the `login_required` gate,
     * a valid submitted form appends one post owned by the caller with the
     * form's fields; the existing posts stay as they were.
     */
    method AddPost(identity: Option<UserId>, form: NewsForms.NewsForm, submitted: bool) returns (r: Response)
      requires Valid()
      requires identity.Some? ==> IsUser(users, identity.value)
      modifies this
      ensures Valid()
      ensures users == old(users)
      ensures identity.None? ==>
        r == Unauthorized401 && posts == old(posts) && nextPostId == old(nextPostId)
      ensures identity.Some? && !(submitted && NewsForms.Validates(form)) ==>
        r == Rerender(NewsPage, "") && posts == old(posts) && nextPostId == old(nextPostId)
      ensures identity.Some? && submitted && NewsForms.Validates(form) ==>
        r == Redirect(IndexPage)
        && (forall p :: p in old(posts) ==> p.id != old(nextPostId))
        && posts == old(posts) + [Post(old(nextPostId), form.title, form.content, form.isPrivate, identity.value)]
        && nextPostId == old(nextPostId) + 1
    {
      if identity.None? {
        return Unauthorized401;
      }
      if !(submitted && NewsForms.Validates(form)) {
        return Rerender(NewsPage, "");
      }
      var post := Post(nextPostId, form.title, form.content, form.isPrivate, identity.value);
      posts := posts + [post];
      nextPostId := nextPostId + 1;
      r := Redirect(IndexPage);
    }

    /**
     * Editing a post (main.py:92-116), behind the `login_required` gate.
     * Displaying (not submitted) pre-fills the form from the caller's post
     * or answers 404. A submitted invalid form is shown again. A submitted
     * valid form re-checks ownership: it replaces only that post's title,
     * content and privacy flag, or answers 404 and changes nothing.
     */
    method EditPost(id: PostId, identity: Option<UserId>, form: NewsForms.NewsForm, submitted: bool)
      returns (r: Response, shown: Option<NewsForms.NewsForm>)
      requires Valid()
      modifies this
      ensures Valid()
      ensures users == old(users) && nextPostId == old(nextPostId)
      ensures identity.None? ==> r == Unauthorized401 && posts == old(posts)
      ensures !r.Rerender? ==> shown == None
      ensures identity.Some? && !submitted ==> posts == old(posts)
      ensures identity.Some? && !submitted && !Owns(old(posts), id, identity.value) ==> r == NotFound404
      ensures identity.Some? && !submitted && Owns(old(posts), id, identity.value) ==>
        r == Rerender(NewsPage, "")
        && exists p :: p in posts && IsOwned(p, id, identity.value) && shown == Some(FormOf(p))
      ensures identity.Some? && submitted && !NewsForms.Validates(form) ==>
        r == Rerender(NewsPage, "") && shown == Some(form) && posts == old(posts)
      ensures identity.Some? && submitted && NewsForms.Validates(form) && !Owns(old(posts), id, identity.value) ==>
        r == NotFound404 && posts == old(posts)
      ensures identity.Some? && submitted && NewsForms.Validates(form) && Owns(old(posts), id, identity.value) ==>
        r == Redirect(IndexPage)
        && posts == UpdatePost(old(posts), id, form.title, form.content, form.isPrivate)
    {
      shown := None;
      if identity.None? {
        return Unauthorized401, None;
      }
      var owner := identity.value;
      if !submitted {
        match FindOwned(posts, id, owner)
        case None =>
          return NotFound404, None;
        case Some(i) =>
          return Rerender(NewsPage, ""), Some(FormOf(posts[i]));
      }
      if !NewsForms.Validates(form) {
        return Rerender(NewsPage, ""), Some(form);
      }
      match FindOwned(posts, id, owner)
      case None =>
        r := NotFound404;
      case Some(i) =>
        UpdateAt(posts, i, form.title, form.content, form.isPrivate);
        posts := posts[i := posts[i].(title := form.title, content := form.content, isPrivate := form.isPrivate)];
        r := Redirect(IndexPage);
    }

    /**
     * Deleting a post (main.py:119-129), behind the `login_required` gate:
     * the caller's post is removed and the caller sent to the index; a
     * missing or foreign post answers 404 and changes nothing.
     */
    method DeletePost(id: PostId, identity: Option<UserId>) returns (r: Response)
      requires Valid()
      modifies this
      ensures Valid()
      ensures users == old(users) && nextPostId == old(nextPostId)
      ensures identity.None? ==> r == Unauthorized401 && posts == old(posts)
      ensures identity.Some? && !Owns(old(posts), id, identity.value) ==>
        r == NotFound404 && posts == old(posts)
      ensures identity.Some? && Owns(old(posts), id, identity.value) ==>
        r == Redirect(IndexPage) && posts == RemovePost(old(posts), id)
    {
      if identity.None? {
        return Unauthorized401;
      }
      match FindOwned(posts, id, identity.value)
      case None =>
        r := NotFound404;
      case Some(i) =>
        RemoveAt(posts, i);
        posts := posts[..i] + posts[i + 1..];
        r := Redirect(IndexPage);
    }
  }

  /**
   * A wrong password for an existing login and an unknown login give the
   * caller the same answer (main.py:58-62).
   */
  lemma WrongPasswordLooksLikeUnknownLogin(
    s: Store, known: LoginForms.LoginForm, unknown: LoginForms.LoginForm, identity: Option<UserId>)
    requires LoginsUnique(s.users)
    requires LoginForms.Validates(known) && LoginForms.Validates(unknown)
    requires LoginTaken(s.users, known.username)
    requires forall u :: u in s.users && u.login == known.username ==> !s.CheckPassword(u.passwordHash, known.password)
    requires !LoginTaken(s.users, unknown.username)
    ensures s.Login(known, true, identity) == s.Login(unknown, true, identity)
    ensures s.Login(known, true, identity) == (Rerender(LoginPage, IncorrectLoginOrPassword), identity)
  {
  }

  /**
   * A walk through the blog: register, log in, see an empty index,
   * publish a private post that only its author sees, then delete it.
   */
  method EndToEnd(hash: string -> string) {
    var s := new Store(hash);
    var r := s.Register(RegisterForms.RegisterForm("alice", "p", "p"), true);
    RegisterForms.ValidatesIffAllFilled(RegisterForms.RegisterForm("alice", "p", "p"));
    assert r == Redirect(LoginPage);
    assert s.users == [User(1, "alice", hash("p"))];

    var out := s.Login(LoginForms.LoginForm("alice", "p", false), true, None);
    assert out.0 == Redirect(IndexPage) by {
      assert s.users[0] in s.users;
    }
    var alice := out.1;
    assert alice == Some(1);
    assert ListVisible(s.posts, alice) == [];

    NewsForms.ValidatesIffTitle(NewsForms.NewsForm("T", "C", true));
    r := s.AddPost(alice, NewsForms.NewsForm("T", "C", true), true);
    assert r == Redirect(IndexPage);
    var t := s.posts[0];
    assert t.title == "T" && t.isPrivate && t.owner == 1;
    assert t in ListVisible(s.posts, alice);
    assert t !in ListVisible(s.posts, None);

    r := s.DeletePost(t.id, alice);
    assert s.posts == [];
    assert r == Redirect(IndexPage);
    assert ListVisible(s.posts, alice) == [];
  }
}
