# A verified model of a small blog's data and access rules

The blog lets people register, log in and publish news posts that are
either public or private to their author. This project models the blog's
two tables (users and posts), the route handlers of `main.py` that read
and change them, and the two form schemas those handlers validate
against. Each handler is one atomic step on a `Store` object:

- the tables are sequences (`Store.users`, `Store.posts`); their order is
  the model's choice, since the queries name no order, and with unique
  logins and distinct post ids no query's outcome depends on it;
- the signed-in identity is an explicit `Option<UserId>` argument (`None` is
  an anonymous visitor); `Login` and `Logout` return the new identity;
- what a handler sends back is a `Response`: `Redirect(page)`,
  `Rerender(page, message)`, `NotFound404` or `Unauthorized401`;
- whether the request is a form submission (a POST) is a `submitted` flag;
- the password hash is a function fixed when the store is built
  (`Store.hash`), about which nothing is assumed, and `CheckPassword(h, pw)`
  holds exactly when `h == hash(pw)`.

Files: `wrappers.dfy` (Option), `register_form.dfy`, `news_form.dfy` and
`login_form.dfy` (the form schemas), `entities.dfy` (records and table
invariants), `queries.dfy` (the queries and table updates as functions,
with their lemmas), `blog.dfy` (the handlers, the `Store` class, and a
client method `EndToEnd` that registers, logs in, publishes a private
post, checks who sees it and deletes it again).

`Store.Valid()` is the invariant every handler keeps: logins are unique,
user ids are row numbers, post ids are distinct and below the next id to
hand out, and every post belongs to a stored user.

Two behaviours of the handlers worth noting:

- An edit submission whose title is empty is rendered again without any
  ownership check (main.py:105 and main.py:116). Only a valid submission
  re-checks ownership and can answer 404.
- A duplicate login is detected by the handler's own lookup (main.py:37),
  which re-renders the form with "User already exists".

## Model

| member | source | states |
|---|---|---|
| `Queries.ListVisible` | main.py:22-26 | a post is listed exactly when it is stored and the viewer owns it or it is not private |
| `Queries.AnonymousSeesPublic` | main.py:26 | an anonymous visitor is shown exactly the stored posts that are not private |
| `Queries.UserSeesOwnAndPublic` | main.py:22-24 | a signed-in user is shown exactly the stored posts they own or that are not private |
| `Queries.PrivatePostShownOnlyToOwner` | main.py:22-26 | a private post is always in its owner's listing, and no other viewer's listing (anonymous or another user) has a row with its id |
| `Queries.FindUserByLogin` | main.py:37 | finds nothing exactly when no stored user has the login; otherwise finds a stored user with that login |
| `Queries.FindUserIsTheUser` | main.py:58 | when logins are unique, the login lookup finds exactly the user carrying that login |
| `Queries.AddingFreeLoginKeepsUnique` | main.py:37-41 | appending a user whose login the lookup did not find keeps logins unique |
| `Queries.FindOwned` | main.py:123 | finds nothing exactly when no stored post has that id and owner; otherwise finds the row of such a post |
| `Queries.RemovePost` | main.py:125 | the remaining rows are exactly the stored rows whose id differs |
| `Queries.RemoveAt` | main.py:123-125 | with distinct ids, deleting the found row is the same as removing its id from the table |
| `Queries.UpdatePost` | main.py:109-111 | the row with that id gets the new title, content and privacy flag and keeps its id and owner; every other row is unchanged |
| `Queries.UpdateAt` | main.py:107-111 | with distinct ids, assigning the fields of the found row is the same as updating its id |
| `Queries.DeletedPostNeverListed` | main.py:122-126 | after a post's id is removed, no viewer's listing has a row with that id |
| `Blog.Logout` | main.py:66-70 | an anonymous caller gets 401; a signed-in caller is redirected to the index; afterwards there is no identity |
| `Blog.Store.constructor` | main.py:16 | the store starts with no users and no posts and satisfies the invariant |
| `Blog.Store.Register` | main.py:30-44 | an invalid or unsubmitted form is re-rendered; a password mismatch gives "Passwords do not match" before any lookup; a taken login gives "User already exists"; in those cases the users are unchanged; otherwise exactly one user is appended with the login and `hash(password)`, it redirects to the login page, and logins stay unique |
| `Blog.Store.Login` | main.py:53-63 | it redirects to the index exactly when the form is submitted and valid and some user has the login and the password checks; then the identity is that user's id; on every failure the identity is kept and a submitted form gets "Incorrect login or password"; this row also covers `Blog.Store.CheckPassword` (the password check of main.py:59) and `LoginForms.Validates` (the login form's required fields) |
| `Blog.WrongPasswordLooksLikeUnknownLogin` | main.py:58-62 | a wrong password for an existing login and an unknown login give the identical response and identity |
| `Blog.Store.AddPost` | main.py:73-89 | an anonymous caller gets 401; an invalid or unsubmitted form is re-rendered; in both cases nothing changes; otherwise one post with a fresh id, the form's title, content and privacy flag, owned by the caller, is appended after the unchanged existing posts, with a redirect to the index |
| `Blog.Store.EditPost` | main.py:92-116 | an anonymous caller gets 401; displaying pre-fills the form from the caller's post or answers 404; an invalid submission is shown again; a valid submission for a missing or foreign post answers 404; in all these cases the posts are unchanged; otherwise only that post's title, content and privacy flag are replaced, with a redirect to the index; the pre-filled form is returned only with a re-render, never with 401, 404 or the redirect; this row also covers `Blog.FormOf` (main.py:100-102), the pre-filling from a stored post |
| `Blog.Store.DeletePost` | main.py:119-129 | an anonymous caller gets 401 and a missing or foreign post gets 404, both with the posts unchanged; the caller's own post is removed, with a redirect to the index |
| `RegisterForms.Errors` | data/register.py:7-9 | the login ('Login'), password and confirmation fields each fail exactly when empty |
| `RegisterForms.ValidatesIffAllFilled` | data/register.py:6-9 | the form validates exactly when all three fields are non-empty |
| `RegisterForms.MismatchStillValidates` | data/register.py:7-9 | a form whose password and confirmation differ still validates: the form makes no equality check |
| `NewsForms.Errors` | data/news_form.py:7 | the title fails exactly when empty |
| `NewsForms.ValidatesIffTitle` | data/news_form.py:6-9 | the form validates exactly when the title is non-empty |
| `NewsForms.ContentAndPrivacyIgnored` | data/news_form.py:8-9 | changing the content or the privacy flag never changes whether the form validates |

## Left out

- Routing, `url_for`, `render_template`, the 404/401 error pages and the server start-up (main.py:132-143) are framework plumbing. A response is only a `Response` value, and the index handler is the `ListVisible` query.
- Database sessions, `merge` and `commit` are not modelled. Each handler is one atomic update of the store.
- Flask-Login's user loader (main.py:47-50), the signed cookie and "remember me" persistence are not modelled. The identity is an argument, and `LoginForm.rememberMe` is carried but has no effect.
- The `Blog.Store.AddPost` precondition says a signed-in identity names a stored user. The framework guarantees this because it loads the identity from the users table.
- Password hashing lives in data/users.py, which is not part of this model. The model uses one fixed function `hash`, so a hash that may be salted is not captured.
- data/login.py is not part of this model. `LoginForms.Validates` takes login and password as required and the check box as optional.
- CSRF tokens are not modelled. The GET/POST distinction of `validate_on_submit` is the `submitted` flag, and validation messages are reduced to the set of failing fields.
- DataRequired also rejects text that is only whitespace. That is library code; the model's "required" means non-empty.
- An absent text field is the empty string and an absent check box is false, as the form library delivers them.
- The race between showing the edit form and submitting it is concurrency. The sequential model re-checks ownership on submit, as main.py:107 does.
- SQL NULL behaviour of `is_private != True` is not modelled. The privacy flag is a plain boolean.
- The database's choice of row ids is not modelled. Users get their row number as id, since users are never deleted; posts get ids from a counter that is always above every stored post id.
- `Queries.ListVisible` states which posts are listed, not their order. The queries name no order.
- The database file opened at start-up (main.py:16) may already hold rows. The model starts from an empty store, so every later state comes from the handlers, which is why `Store.Valid()` holds.
