/**
 * The Express server (server.js): the users and favorites tables of its
 * SQLite database and the session store, with the handlers of
 * `/api/register`, `/api/login`, `/api/logout`, `/api/user` and the three
 * `/api/favorites` routes.
 *
 * The tables are sequences of rows in insertion order; a session is a
 * cookie id mapped to the `userId` stored in it. bcrypt is an abstract
 * digest, the clock that fills `created_at` is a parameter.
 */
module Api {
  import opened JsRuntime
  import opened StableSort

  // ---------------------------------------------------------------------
  // Rows, requests, responses
  // ---------------------------------------------------------------------

  /** An abstract bcrypt digest: `hashSync(password, 10)` with a random
      `salt`. compareSync recognises exactly the password it was made of. */
  datatype Digest = Digest(salt: nat, secret: string)

  /** A row of `users`. */
  datatype User = User(id: int, email: string, passwordHash: Digest, firstName: string, lastName: string)

  /** A row of `favorites`; `createdAt` is CURRENT_TIMESTAMP in seconds. */
  datatype Favorite = Favorite(userId: int, animeId: int, createdAt: nat)

  /** The fields of a JSON body as the handlers read them: `None` when the
      field is absent (or the body is missing). */
  datatype RegisterForm = RegisterForm(firstName: Option<string>, lastName: Option<string>,
                                       email: Option<string>, password: Option<string>)

  datatype LoginForm = LoginForm(email: Option<string>, password: Option<string>)

  /** A JSON value handed to `Number()`: `JFraction` is a number that is not
      an integer, `JAbsent` an absent field. */
  datatype Json = JNumber(n: int) | JFraction | JString(s: string) | JBool(b: bool) | JNull | JAbsent

  datatype Body =
    | Success
    | Failure
    | NullUser
    | UserJson(id: int, firstName: string, lastName: string, email: string)
    | AnimeIds(ids: seq<int>)

  datatype Response = Response(status: int, body: Body)

  // ---------------------------------------------------------------------
  // Validation
  // ---------------------------------------------------------------------

  /** A string field that is present and truthy (not ''). */
  predicate Filled(field: Option<string>) {
    field.Some? && field.value != ""
  }

  /** `String(password).length < 6` is the only length rule. */
  const MinPasswordLength: nat := 6

  /** `String(email).toLowerCase().trim()`. */
  function NormaliseEmail(email: string): (r: string)
    ensures r != [] ==> !IsSpace(r[0]) && !IsSpace(r[|r| - 1])
    ensures forall k :: 0 <= k < |r| ==> !('A' <= r[k] <= 'Z')
  {
    var lower := ToLower(email);
    var r := Trim(lower);
    assert forall k :: 0 <= k < |r| ==> r[k] == LowerChar(email[TrimOffset(lower) + k]);
    r
  }

  lemma LowerCharIdempotent(c: char)
    ensures LowerChar(LowerChar(c)) == LowerChar(c)
  {
  }

  /** Normalising a stored (already normalised) email changes nothing, so
      login finds a user by the same key register stored. */
  lemma NormaliseEmailIdempotent(email: string)
    ensures NormaliseEmail(NormaliseEmail(email)) == NormaliseEmail(email)
  {
    var e := NormaliseEmail(email);
    assert ToLower(e) == e;
    TrimOfTrimmed(e);
  }

  /** Two emails that differ only in ASCII letter case are the same key. */
  lemma NormaliseEmailIgnoresCase(email: string)
    ensures NormaliseEmail(ToLower(email)) == NormaliseEmail(email)
  {
    forall k | 0 <= k < |email|
      ensures ToLower(ToLower(email))[k] == ToLower(email)[k]
    {
      LowerCharIdempotent(email[k]);
    }
    assert ToLower(ToLower(email)) == ToLower(email);
  }

  /** `Number(v)` when that is an integer (what `Number.isInteger` accepts),
      None for NaN and fractions. */
  function IntegerValue(v: Json): (r: Option<int>)
    ensures v.JNumber? ==> r == Some(v.n)
    ensures v.JNull? ==> r == Some(0)
    ensures v.JFraction? || v.JAbsent? ==> r.None?
  {
    match v
    case JNumber(n) => Some(n)
    case JFraction => None
    case JString(s) => StringToNumber(s)
    case JBool(b) => Some(if b then 1 else 0)
    case JNull => Some(0)
    case JAbsent => None
  }

  /** The `anime_id` check of POST and DELETE: a positive integer or
      nothing (answered with 400). */
  function AnimeIdOf(v: Json): (r: Option<int>)
    ensures r.Some? ==> r.value > 0
    ensures r.None? <==> IntegerValue(v).None? || IntegerValue(v).value <= 0
  {
    var n := IntegerValue(v);
    if n.Some? && n.value > 0 then n else None
  }

  /** The id the client puts in a URL is the id DELETE reads back, and
      `null`, `0`, negative numbers and fractions are refused. */
  lemma AnimeIdRoundTrip(id: int)
    ensures id > 0 ==> AnimeIdOf(JString(IntToString(id))) == Some(id)
    ensures id > 0 ==> AnimeIdOf(JNumber(id)) == Some(id)
    ensures id <= 0 ==> AnimeIdOf(JNumber(id)).None? && AnimeIdOf(JString(IntToString(id))).None?
    ensures AnimeIdOf(JNull).None? && AnimeIdOf(JFraction).None? && AnimeIdOf(JAbsent).None?
  {
    NumberOfString(id);
  }

  // ---------------------------------------------------------------------
  // The users table
  // ---------------------------------------------------------------------

  /** `SELECT * FROM users WHERE email = ?`: the first row with that email. */
  function UserWithEmail(users: seq<User>, email: string): (r: Option<User>)
    ensures r.Some? ==> r.value in users && r.value.email == email
    ensures r.None? <==> forall u :: u in users ==> u.email != email
  {
    if users == [] then None
    else if users[0].email == email then Some(users[0])
    else
      assert users == [users[0]] + users[1..];
      UserWithEmail(users[1..], email)
  }

  /** `SELECT ... FROM users WHERE id = ?`. */
  function UserWithId(users: seq<User>, id: int): (r: Option<User>)
    ensures r.Some? ==> r.value in users && r.value.id == id
    ensures r.None? <==> forall u :: u in users ==> u.id != id
  {
    if users == [] then None
    else if users[0].id == id then Some(users[0])
    else
      assert users == [users[0]] + users[1..];
      UserWithId(users[1..], id)
  }

  /** Appending a row leaves every earlier lookup by id as it was. */
  lemma {:induction false} UserWithIdAppend(users: seq<User>, u: User, id: int)
    ensures UserWithId(users + [u], id)
            == if UserWithId(users, id).Some? then UserWithId(users, id)
               else if u.id == id then Some(u) else None
  {
    if users != [] {
      assert (users + [u])[1..] == users[1..] + [u];
      UserWithIdAppend(users[1..], u, id);
    }
  }

  /** The constraints of the users table: AUTOINCREMENT ids, strictly
      increasing in insertion order and at most the last one handed out,
      and the UNIQUE email column. */
  predicate UsersKeyed(users: seq<User>, lastId: nat) {
    (forall i :: 0 <= i < |users| ==> 1 <= users[i].id <= lastId)
    && (forall i, j :: 0 <= i < j < |users| ==> users[i].id < users[j].id)
    && (forall i, j :: 0 <= i < j < |users| ==> users[i].email != users[j].email)
  }

  /** A new user row keeps the constraints when its email is free and its
      id is the next one. */
  lemma AddUserKeyed(users: seq<User>, lastId: nat, u: User)
    requires UsersKeyed(users, lastId)
    requires UserWithEmail(users, u.email).None? && u.id == lastId + 1
    ensures UsersKeyed(users + [u], lastId + 1)
  {
    var r := users + [u];
    forall i, j | 0 <= i < j < |r|
      ensures r[i].email != r[j].email && r[i].id < r[j].id
    {
      if j == |users| {
        assert r[i] in users;
      }
    }
  }

  /** Registration followed by login: any ASCII-case spelling of the
      registered email finds the new user, and the registered password
      matches its digest, so login answers with that user. */
  lemma RegisteredUserCanLogIn(users: seq<User>, u: User, email: string, spelling: string, password: string)
    requires UserWithEmail(users, u.email).None?
    requires u.email == NormaliseEmail(email) && u.passwordHash.secret == password
    requires ToLower(spelling) == ToLower(email)
    ensures UserWithEmail(users + [u], NormaliseEmail(spelling)) == Some(u)
    ensures UserWithEmail(users + [u], NormaliseEmail(spelling)).value.passwordHash.secret == password
  {
    NormaliseEmailIgnoresCase(email);
    NormaliseEmailIgnoresCase(spelling);
    UserWithEmailAppend(users, u);
  }

  lemma {:induction false} UserWithEmailAppend(users: seq<User>, u: User)
    requires UserWithEmail(users, u.email).None?
    ensures UserWithEmail(users + [u], u.email) == Some(u)
  {
    if users != [] {
      assert (users + [u])[1..] == users[1..] + [u];
      UserWithEmailAppend(users[1..], u);
    }
  }

  // ---------------------------------------------------------------------
  // The favorites table
  // ---------------------------------------------------------------------

  predicate HasPair(rows: seq<Favorite>, userId: int, animeId: int) {
    exists f :: f in rows && f.userId == userId && f.animeId == animeId
  }

  /** PRIMARY KEY (user_id, anime_id): no pair occurs twice. */
  predicate FavoritesKeyed(rows: seq<Favorite>) {
    (forall f, g :: f in rows && g in rows && f.userId == g.userId && f.animeId == g.animeId ==> f == g)
    && (forall f :: f in rows ==> multiset(rows)[f] == 1)
  }

  /** `INSERT OR IGNORE INTO favorites (user_id, anime_id)`: a new pair is
      appended with the current time; an existing pair keeps its row and
      its `created_at`. */
  function InsertOrIgnore(rows: seq<Favorite>, userId: int, animeId: int, now: nat): (r: seq<Favorite>)
    ensures HasPair(r, userId, animeId)
    ensures forall f :: f in r <==> f in rows || (f == Favorite(userId, animeId, now) && !HasPair(rows, userId, animeId))
    ensures FavoritesKeyed(rows) ==> FavoritesKeyed(r)
  {
    if HasPair(rows, userId, animeId) then rows
    else
      var added := Favorite(userId, animeId, now);
      assert added !in rows;
      assert added in rows + [added];
      rows + [added]
  }

  /** Adding a pair that is already there changes nothing, whenever it is
      repeated. */
  lemma InsertOrIgnoreIdempotent(rows: seq<Favorite>, userId: int, animeId: int, now: nat, later: nat)
    ensures InsertOrIgnore(InsertOrIgnore(rows, userId, animeId, now), userId, animeId, later)
            == InsertOrIgnore(rows, userId, animeId, now)
  {
  }

  /** `DELETE FROM favorites WHERE user_id = ? AND anime_id = ?`. */
  function DeletePair(rows: seq<Favorite>, userId: int, animeId: int): (r: seq<Favorite>)
    ensures !HasPair(r, userId, animeId)
    ensures forall f :: f in r <==> f in rows && !(f.userId == userId && f.animeId == animeId)
    ensures FavoritesKeyed(rows) ==> FavoritesKeyed(r)
  {
    Filter(rows, (f: Favorite) => !(f.userId == userId && f.animeId == animeId))
  }

  /** Deleting a pair that was just added restores the table. */
  lemma {:induction false} DeleteUndoesInsert(rows: seq<Favorite>, userId: int, animeId: int, now: nat)
    requires !HasPair(rows, userId, animeId)
    ensures DeletePair(InsertOrIgnore(rows, userId, animeId, now), userId, animeId) == rows
  {
    var keep := (f: Favorite) => !(f.userId == userId && f.animeId == animeId);
    FilterAppend(rows, [Favorite(userId, animeId, now)], keep);
    FilterAll(rows, keep);
  }

  /** The rows of one user, in table order. */
  function RowsOf(rows: seq<Favorite>, userId: int): (r: seq<Favorite>)
    ensures forall f :: f in r <==> f in rows && f.userId == userId
  {
    Filter(rows, (f: Favorite) => f.userId == userId)
  }

  /** Neither adding nor deleting a pair touches another user's rows. */
  lemma {:induction false} OtherUsersUnaffected(rows: seq<Favorite>, userId: int, animeId: int, now: nat, other: int)
    requires other != userId
    ensures RowsOf(InsertOrIgnore(rows, userId, animeId, now), other) == RowsOf(rows, other)
    ensures RowsOf(DeletePair(rows, userId, animeId), other) == RowsOf(rows, other)
  {
    var mine := (f: Favorite) => f.userId == other;
    var keep := (f: Favorite) => !(f.userId == userId && f.animeId == animeId);
    if !HasPair(rows, userId, animeId) {
      FilterAppend(rows, [Favorite(userId, animeId, now)], mine);
    }
    var both := (f: Favorite) => keep(f) && mine(f);
    FilterTwice(rows, keep, mine, both);
    FilterTwice(rows, mine, (f: Favorite) => true, mine);
    FilterAll(Filter(rows, mine), (f: Favorite) => true);
    forall f ensures both(f) == (mine(f) && true) {
    }
    FilterTwice(rows, mine, keep, both);
    FilterAll(Filter(rows, mine), keep);
  }

  /** `ORDER BY created_at DESC`, newest first; rows added in the same
      second keep table order (one of the orders SQL allows). */
  function NewestFirst(rows: seq<Favorite>, userId: int): (r: seq<Favorite>)
    ensures multiset(r) == multiset(RowsOf(rows, userId))
    ensures forall f :: f in r <==> f in rows && f.userId == userId
    ensures forall i, j :: 0 <= i < j < |r| ==> r[i].createdAt >= r[j].createdAt
  {
    var mine := RowsOf(rows, userId);
    var key := (f: Favorite) => Num(f.createdAt);
    var r := SortBy(mine, key, Descending);
    assert multiset(r) == multiset(mine) by {
      SortByPermutes(mine, key, Descending);
    }
    assert forall f :: f in r <==> f in mine by {
      forall f ensures f in r <==> f in mine {
        assert f in r <==> multiset(r)[f] > 0;
        assert f in mine <==> multiset(mine)[f] > 0;
      }
    }
    assert Sorted(r, key, Descending) by {
      SortBySorted(mine, key, Descending);
    }
    r
  }

  /** `(rows || []).map(r => r.anime_id)`. */
  function AnimeIdsOf(rows: seq<Favorite>): (r: seq<int>)
    ensures |r| == |rows| && forall k :: 0 <= k < |rows| ==> r[k] == rows[k].animeId
  {
    seq(|rows|, k requires 0 <= k < |rows| => rows[k].animeId)
  }

  /** An element found at two positions occurs at least twice. */
  lemma TwoPositions(r: seq<Favorite>, i: int, j: int)
    requires 0 <= i < j < |r| && r[i] == r[j]
    ensures multiset(r)[r[i]] >= 2
  {
    assert r == r[..j] + [r[j]] + r[j + 1..];
    assert r[i] in r[..j];
  }

  /** What GET /api/favorites answers: exactly the caller's anime ids, each
      once, newest first. */
  lemma FavoriteIdsOfCaller(rows: seq<Favorite>, userId: int)
    requires FavoritesKeyed(rows)
    ensures var ids := AnimeIdsOf(NewestFirst(rows, userId));
            (forall a :: a in ids <==> HasPair(rows, userId, a)) && NoDups(ids)
  {
    var r := NewestFirst(rows, userId);
    var ids := AnimeIdsOf(r);
    forall a ensures a in ids <==> HasPair(rows, userId, a) {
      if a in ids {
        var k :| 0 <= k < |ids| && ids[k] == a;
        assert r[k] in r;
      }
      if HasPair(rows, userId, a) {
        var f :| f in rows && f.userId == userId && f.animeId == a;
        assert f in r;
        var k :| 0 <= k < |r| && r[k] == f;
        assert ids[k] == a;
      }
    }
    forall i, j | 0 <= i < j < |ids| ensures ids[i] != ids[j] {
      NewestFirstDistinct(rows, userId, i, j);
    }
  }

  /** Two positions of the caller's listing hold different anime ids. */
  lemma NewestFirstDistinct(rows: seq<Favorite>, userId: int, i: int, j: int)
    requires FavoritesKeyed(rows)
    requires 0 <= i < j < |NewestFirst(rows, userId)|
    ensures NewestFirst(rows, userId)[i].animeId != NewestFirst(rows, userId)[j].animeId
  {
    var r := NewestFirst(rows, userId);
    var x := r[i];
    assert x in r && r[j] in r;
    if x.animeId == r[j].animeId {
      assert x == r[j];
      TwoPositions(r, i, j);
      assert false;
    }
  }

  /** Every session names a user of the table. */
  predicate SessionsKnown(users: seq<User>, sessions: map<nat, int>) {
    forall sid :: sid in sessions ==> UserWithId(users, sessions[sid]).Some?
  }

  /** After a user row is added, every session, and a new one holding the
      added row's id, still names a user of the table. */
  lemma {:induction false} SessionsAfterInsert(users: seq<User>, sessions: map<nat, int>, u: User, sid: nat)
    requires SessionsKnown(users, sessions)
    ensures SessionsKnown(users + [u], sessions[sid := u.id])
  {
    var after := sessions[sid := u.id];
    forall s | s in after ensures UserWithId(users + [u], after[s]).Some? {
      if s == sid {
        UserWithIdAppend(users, u, u.id);
      } else {
        UserWithIdAppend(users, u, sessions[s]);
      }
    }
  }

  // ---------------------------------------------------------------------
  // The server
  // ---------------------------------------------------------------------

  class Server {
    var users: seq<User>
    /** The AUTOINCREMENT counter of `users` (sqlite_sequence). */
    var lastId: nat
    var favorites: seq<Favorite>
    /** The session store: cookie id to the `userId` saved in it. */
    var sessions: map<nat, int>

    predicate Valid()
      reads this
    {
      UsersKeyed(users, lastId)
      && FavoritesKeyed(favorites)
      && SessionsKnown(users, sessions)
    }

    /** Both tables empty, no session. */
    constructor()
      ensures users == [] && lastId == 0 && favorites == [] && sessions == map[]
      ensures Valid()
    {
      users := [];
      lastId := 0;
      favorites := [];
      sessions := map[];
    }

    /** POST /api/register: 400 when a field is missing or empty or the
        password is shorter than 6; 400 when the normalised email is taken
        (the UNIQUE constraint), the table unchanged; otherwise a row with
        the trimmed names, the normalised email and the digest, and the
        session remembers its id. */
    method Register(sid: nat, form: RegisterForm, salt: nat) returns (res: Response)
      requires Valid()
      modifies this`users, this`lastId, this`sessions
      ensures Valid()
      ensures !(Filled(form.firstName) && Filled(form.lastName) && Filled(form.email) && Filled(form.password)) ==>
                res == Response(400, Failure) && users == old(users) && lastId == old(lastId) && sessions == old(sessions)
      ensures Filled(form.password) && |form.password.value| < MinPasswordLength ==>
                res == Response(400, Failure) && users == old(users) && lastId == old(lastId) && sessions == old(sessions)
      ensures Filled(form.firstName) && Filled(form.lastName) && Filled(form.email) && Filled(form.password)
              && |form.password.value| >= MinPasswordLength ==>
                var email := NormaliseEmail(form.email.value);
                if UserWithEmail(old(users), email).Some? then
                  res == Response(400, Failure) && users == old(users) && lastId == old(lastId) && sessions == old(sessions)
                else
                  res == Response(200, Success) && lastId == old(lastId) + 1
                  && users == old(users) + [User(lastId, email, Digest(salt, form.password.value),
                                                 Trim(form.firstName.value), Trim(form.lastName.value))]
                  && sessions == old(sessions)[sid := lastId]
    {
      if !(Filled(form.firstName) && Filled(form.lastName) && Filled(form.email) && Filled(form.password)) {
        return Response(400, Failure);
      }
      var password := form.password.value;
      if |password| < MinPasswordLength {
        return Response(400, Failure);
      }
      var hash := Digest(salt, password);
      var email := NormaliseEmail(form.email.value);
      if UserWithEmail(users, email).Some? {
        return Response(400, Failure);
      }
      var u := User(lastId + 1, email, hash, Trim(form.firstName.value), Trim(form.lastName.value));
      InsertUser(sid, u);
      res := Response(200, Success);
    }

    /** The INSERT register runs once the form passed, and the session then
        remembering the new row's id. */
    method InsertUser(sid: nat, u: User)
      requires Valid() && u.id == lastId + 1 && UserWithEmail(users, u.email).None?
      modifies this`users, this`lastId, this`sessions
      ensures Valid()
      ensures users == old(users) + [u] && lastId == old(lastId) + 1 && sessions == old(sessions)[sid := lastId]
    {
      AddUserKeyed(users, lastId, u);
      SessionsAfterInsert(users, sessions, u, sid);
      users := users + [u];
      lastId := lastId + 1;
      sessions := sessions[sid := lastId];
    }

    /** POST /api/login: 400 without an email or password; 401 when no
        user has the normalised email or the password does not match the
        digest, the session untouched; otherwise the session remembers the
        user's id. */
    method Login(sid: nat, form: LoginForm) returns (res: Response)
      requires Valid()
      modifies this`sessions
      ensures Valid()
      ensures !(Filled(form.email) && Filled(form.password)) ==> res == Response(400, Failure) && sessions == old(sessions)
      ensures Filled(form.email) && Filled(form.password) ==>
                var found := UserWithEmail(users, NormaliseEmail(form.email.value));
                if found.None? || found.value.passwordHash.secret != form.password.value then
                  res == Response(401, Failure) && sessions == old(sessions)
                else
                  res == Response(200, Success) && sessions == old(sessions)[sid := found.value.id]
    {
      if !(Filled(form.email) && Filled(form.password)) {
        return Response(400, Failure);
      }
      var found := UserWithEmail(users, NormaliseEmail(form.email.value));
      if found.None? || found.value.passwordHash.secret != form.password.value {
        return Response(401, Failure);
      }
      assert found.value in users;
      var k :| 0 <= k < |users| && users[k] == found.value;
      assert UserWithId(users, found.value.id).Some?;
      sessions := sessions[sid := found.value.id];
      res := Response(200, Success);
    }

    /** POST /api/logout: the session is destroyed. */
    method Logout(sid: nat) returns (res: Response)
      requires Valid()
      modifies this`sessions
      ensures Valid()
      ensures res == Response(200, Success) && sessions == old(sessions) - {sid}
    {
      sessions := sessions - {sid};
      res := Response(200, Success);
    }

    /** GET /api/user: null without a session, otherwise the user's public
        columns (never the digest). */
    method CurrentUser(sid: nat) returns (res: Response)
      requires Valid()
      ensures sid !in sessions ==> res == Response(200, NullUser)
      ensures sid in sessions ==>
                exists u :: (u in users && u.id == sessions[sid]
                             && res == Response(200, UserJson(u.id, u.firstName, u.lastName, u.email)))
    {
      if sid !in sessions {
        return Response(200, NullUser);
      }
      var found := UserWithId(users, sessions[sid]);
      var u := found.value;
      res := Response(200, UserJson(u.id, u.firstName, u.lastName, u.email));
    }

    /** GET /api/favorites: 401 without a session, otherwise the caller's
        anime ids newest first. */
    method GetFavorites(sid: nat) returns (res: Response)
      requires Valid()
      ensures sid !in sessions ==> res == Response(401, Failure)
      ensures sid in sessions ==> res == Response(200, AnimeIds(AnimeIdsOf(NewestFirst(favorites, sessions[sid]))))
    {
      if sid !in sessions {
        return Response(401, Failure);
      }
      res := Response(200, AnimeIds(AnimeIdsOf(NewestFirst(favorites, sessions[sid]))));
    }

    /** POST /api/favorites: 401 without a session and 400 for an
        `anime_id` that is not a positive integer, the table unchanged;
        otherwise INSERT OR IGNORE and 201. */
    method PostFavorite(sid: nat, animeId: Json, now: nat) returns (res: Response)
      requires Valid()
      modifies this`favorites
      ensures Valid()
      ensures sid !in sessions ==> res == Response(401, Failure) && favorites == old(favorites)
      ensures sid in sessions && AnimeIdOf(animeId).None? ==> res == Response(400, Failure) && favorites == old(favorites)
      ensures sid in sessions && AnimeIdOf(animeId).Some? ==>
                res == Response(201, Success)
                && favorites == InsertOrIgnore(old(favorites), sessions[sid], AnimeIdOf(animeId).value, now)
    {
      if sid !in sessions {
        res := Response(401, Failure);
      } else if AnimeIdOf(animeId).None? {
        res := Response(400, Failure);
      } else {
        AddFavoriteRow(sessions[sid], AnimeIdOf(animeId).value, now);
        res := Response(201, Success);
      }
    }

    /** DELETE /api/favorites/:anime_id: 401 without a session and 400 for
        a path segment that is not a positive integer, the table unchanged;
        otherwise the caller's pair is gone (whether or not it was there)
        and the answer is 200. */
    method DeleteFavorite(sid: nat, animeIdParam: string) returns (res: Response)
      requires Valid()
      modifies this`favorites
      ensures Valid()
      ensures sid !in sessions ==> res == Response(401, Failure) && favorites == old(favorites)
      ensures sid in sessions && AnimeIdOf(JString(animeIdParam)).None? ==>
                res == Response(400, Failure) && favorites == old(favorites)
      ensures sid in sessions && AnimeIdOf(JString(animeIdParam)).Some? ==>
                res == Response(200, Success)
                && favorites == DeletePair(old(favorites), sessions[sid], AnimeIdOf(JString(animeIdParam)).value)
    {
      if sid !in sessions {
        res := Response(401, Failure);
      } else if AnimeIdOf(JString(animeIdParam)).None? {
        res := Response(400, Failure);
      } else {
        DeleteFavoriteRow(sessions[sid], AnimeIdOf(JString(animeIdParam)).value);
        res := Response(200, Success);
      }
    }

    /** The `INSERT OR IGNORE` of POST /api/favorites. */
    method AddFavoriteRow(userId: int, animeId: int, now: nat)
      requires Valid()
      modifies this`favorites
      ensures Valid()
      ensures favorites == InsertOrIgnore(old(favorites), userId, animeId, now)
    {
      favorites := InsertOrIgnore(favorites, userId, animeId, now);
    }

    /** The `DELETE` of DELETE /api/favorites/:anime_id. */
    method DeleteFavoriteRow(userId: int, animeId: int)
      requires Valid()
      modifies this`favorites
      ensures Valid()
      ensures favorites == DeletePair(old(favorites), userId, animeId)
    {
      favorites := DeletePair(favorites, userId, animeId);
    }
  }
}
