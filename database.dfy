/**
 * The user and token store (`DatabaseService`): a `users` table mirroring the
 * identity provider's users and a `user_tokens` table of issued bearer tokens.
 * Both tables are sequences of rows; the SQL UNIQUE constraints become the
 * store invariant `Valid()`, and an insert or update that would break one
 * fails as SQLite fails it.
 */
module Database {
  import opened Common

  /** A row of `users`. */
  datatype User = User(
    id: string,
    clerkId: string,
    email: string,
    firstName: Option<string>,
    lastName: Option<string>,
    imageUrl: Option<string>,
    createdAt: Time,
    updatedAt: Time,
    lastSignInAt: Option<Time>)

  /** A row of `user_tokens`. */
  datatype UserToken = UserToken(
    id: string,
    userId: string,
    clerkId: string,
    token: string,
    expiresAt: Time,
    createdAt: Time)

  /** The `lastSignInAt` entry of a user-data dictionary: the key is missing, holds None, or holds a time. */
  datatype SignInEntry = Missing | Null | Given(at: Time)

  /** The user-data dictionary handed to `create_user` and `upsert_user`. */
  datatype UserData = UserData(
    clerkId: string,
    email: string,
    firstName: Option<string>,
    lastName: Option<string>,
    imageUrl: Option<string>,
    lastSignInAt: SignInEntry)

  /** The columns an update dictionary may name. */
  datatype Column = ClerkIdColumn | EmailColumn | FirstNameColumn | LastNameColumn | ImageUrlColumn | LastSignInAtColumn

  /** A column value; `None` inside is Python's None (SQL NULL). */
  datatype Cell = Text(text: Option<string>) | Stamp(time: Option<Time>)

  /** The update dictionary of `update_user`: column name to value. */
  type UpdateData = map<Column, Cell>

  /** What SQLite reports when a statement fails. */
  datatype DbError = UniqueViolation(column: string) | UpdateFailed | DateOutOfRange

  const SecondsPerMinute := 60

  /** The first and the last whole second a Python `datetime` can hold: 0001-01-01T00:00:00 and 9999-12-31T23:59:59. */
  const EarliestTime: Time := -62135596800
  const LatestTime: Time := 253402300799

  /** Whether a `datetime` can hold the time; the sub-second part of `utcnow()` never moves it across either end. */
  predicate Representable(t: Time) {
    EarliestTime <= t <= LatestTime
  }

  function ErrorMessage(e: DbError): string {
    match e
    case UniqueViolation(column) => "UNIQUE constraint failed: " + column
    case UpdateFailed => "Failed to update user"
    case DateOutOfRange => "date value out of range"
  }

  predicate IsNull(c: Cell) {
    match c
    case Text(t) => t.None?
    case Stamp(s) => s.None?
  }

  /** The value kind each column holds. */
  predicate Fits(col: Column, c: Cell) {
    if col == LastSignInAtColumn then c.Stamp? else c.Text?
  }

  predicate WellTyped(data: UpdateData) {
    forall col :: col in data ==> Fits(col, data[col])
  }

  /** The value a user row holds in a column. */
  function Get(u: User, col: Column): Cell {
    match col
    case ClerkIdColumn => Text(Some(u.clerkId))
    case EmailColumn => Text(Some(u.email))
    case FirstNameColumn => Text(u.firstName)
    case LastNameColumn => Text(u.lastName)
    case ImageUrlColumn => Text(u.imageUrl)
    case LastSignInAtColumn => Stamp(u.lastSignInAt)
  }

  /** `.get("lastSignInAt", now)`: the default applies only when the key is missing. */
  function SignInValue(e: SignInEntry, now: Time): Option<Time> {
    match e
    case Missing => Some(now)
    case Null => None
    case Given(t) => Some(t)
  }

  // ---------------------------------------------------------------------------
  // Table invariants (the UNIQUE constraints of both tables)

  ghost predicate UsersUnique(users: seq<User>) {
    forall i, j :: 0 <= i < |users| && 0 <= j < |users| && i != j ==>
      users[i].id != users[j].id && users[i].clerkId != users[j].clerkId && users[i].email != users[j].email
  }

  ghost predicate TokensUnique(tokens: seq<UserToken>) {
    forall i, j :: 0 <= i < |tokens| && 0 <= j < |tokens| && i != j ==>
      tokens[i].id != tokens[j].id && tokens[i].token != tokens[j].token
  }

  predicate IdInUse(users: seq<User>, id: string) {
    exists i | 0 <= i < |users| :: users[i].id == id
  }

  predicate ClerkIdInUse(users: seq<User>, clerkId: string) {
    exists i | 0 <= i < |users| :: users[i].clerkId == clerkId
  }

  predicate EmailInUse(users: seq<User>, email: string) {
    exists i | 0 <= i < |users| :: users[i].email == email
  }

  /** Some user other than the one with `clerkId` already holds `email`. */
  predicate EmailHeldByOther(users: seq<User>, email: string, clerkId: string) {
    exists i | 0 <= i < |users| :: users[i].email == email && users[i].clerkId != clerkId
  }

  predicate TokenIdInUse(tokens: seq<UserToken>, id: string) {
    exists i | 0 <= i < |tokens| :: tokens[i].id == id
  }

  predicate TokenValueInUse(tokens: seq<UserToken>, value: string) {
    exists i | 0 <= i < |tokens| :: tokens[i].token == value
  }

  // ---------------------------------------------------------------------------
  // Lookups

  /** Position of the row `WHERE clerkId = ?`: the first one, if any. */
  function IndexOfClerkId(users: seq<User>, clerkId: string): (r: Option<nat>)
    ensures r.Some? ==> r.value < |users| && users[r.value].clerkId == clerkId
    ensures r.Some? ==> forall j :: 0 <= j < r.value ==> users[j].clerkId != clerkId
    ensures r.None? <==> forall i :: 0 <= i < |users| ==> users[i].clerkId != clerkId
  {
    if |users| == 0 then None
    else if users[0].clerkId == clerkId then Some(0)
    else match IndexOfClerkId(users[1..], clerkId)
      case None => None
      case Some(k) => Some(k + 1)
  }

  /** `SELECT * FROM users WHERE clerkId = ?`. */
  function UserByClerkId(users: seq<User>, clerkId: string): (r: Option<User>)
    ensures r.Some? ==> r.value in users && r.value.clerkId == clerkId
    ensures r.None? <==> !ClerkIdInUse(users, clerkId)
  {
    match IndexOfClerkId(users, clerkId)
    case None => None
    case Some(i) => Some(users[i])
  }

  /** The users row the join `ut.userId = u.id` reaches. */
  function UserWithId(users: seq<User>, id: string): (r: Option<User>)
    ensures r.Some? ==> r.value in users && r.value.id == id
    ensures r.None? <==> !IdInUse(users, id)
  {
    if |users| == 0 then None
    else if users[0].id == id then Some(users[0])
    else UserWithId(users[1..], id)
  }

  /** Under the UNIQUE constraints, looking a stored user up by its clerkId or id finds that very row. */
  lemma LookupFindsStoredUser(users: seq<User>, u: User)
    requires UsersUnique(users) && u in users
    ensures UserByClerkId(users, u.clerkId) == Some(u)
    ensures UserWithId(users, u.id) == Some(u)
  {
    var k :| 0 <= k < |users| && users[k] == u;
    var found := UserByClerkId(users, u.clerkId).value;
    var j :| 0 <= j < |users| && users[j] == found;
    assert j == k;
    var byId := UserWithId(users, u.id).value;
    var m :| 0 <= m < |users| && users[m] == byId;
    assert m == k;
  }

  // ---------------------------------------------------------------------------
  // create_user

  /** The effect of `create_user`: the outcome and the new `users` table. */
  function CreateSpec(users: seq<User>, data: UserData, userId: string, now: Time): (res: (Result<User, DbError>, seq<User>))
    ensures res.0.Err? <==> IdInUse(users, userId) || ClerkIdInUse(users, data.clerkId) || EmailInUse(users, data.email)
    ensures res.0.Err? ==> res.1 == users && res.0.error.UniqueViolation?
    ensures res.0.Ok? ==>
      var u := res.0.value;
      && res.1 == users + [u]
      && u.id == userId && u.clerkId == data.clerkId && u.email == data.email
      && u.firstName == data.firstName && u.lastName == data.lastName && u.imageUrl == data.imageUrl
      && u.createdAt == now && u.updatedAt == now
      && u.lastSignInAt == SignInValue(data.lastSignInAt, now)
    ensures UsersUnique(users) ==> UsersUnique(res.1)
  {
    var u := User(userId, data.clerkId, data.email, data.firstName, data.lastName, data.imageUrl,
                  now, now, SignInValue(data.lastSignInAt, now));
    if IdInUse(users, userId) then (Err(UniqueViolation("users.id")), users)
    else if ClerkIdInUse(users, data.clerkId) then (Err(UniqueViolation("users.clerkId")), users)
    else if EmailInUse(users, data.email) then (Err(UniqueViolation("users.email")), users)
    else (Ok(u), users + [u])
  }

  // ---------------------------------------------------------------------------
  // update_user

  /** The SET clause `update_user` builds: every entry whose value is not None, except clerkId. */
  function SettableFields(data: UpdateData): (fields: UpdateData)
    ensures ClerkIdColumn !in fields
    ensures forall col :: col in fields ==> !IsNull(fields[col])
    ensures forall col :: col in data && col != ClerkIdColumn && !IsNull(data[col]) ==> col in fields && fields[col] == data[col]
    ensures forall col :: col in fields ==> col in data && fields[col] == data[col]
  {
    map col | col in data && col != ClerkIdColumn && !IsNull(data[col]) :: data[col]
  }

  function TextValue(c: Cell): string
    requires c.Text? && !IsNull(c)
  {
    c.text.value
  }

  /** A row after `UPDATE users SET <fields>`. */
  function SetFields(u: User, fields: UpdateData): (r: User)
    requires WellTyped(fields)
    requires forall col :: col in fields ==> !IsNull(fields[col])
    ensures forall col :: Get(r, col) == if col in fields then fields[col] else Get(u, col)
    ensures r.id == u.id && r.createdAt == u.createdAt && r.updatedAt == u.updatedAt
  {
    User(
      id := u.id,
      clerkId := if ClerkIdColumn in fields then TextValue(fields[ClerkIdColumn]) else u.clerkId,
      email := if EmailColumn in fields then TextValue(fields[EmailColumn]) else u.email,
      firstName := if FirstNameColumn in fields then fields[FirstNameColumn].text else u.firstName,
      lastName := if LastNameColumn in fields then fields[LastNameColumn].text else u.lastName,
      imageUrl := if ImageUrlColumn in fields then fields[ImageUrlColumn].text else u.imageUrl,
      createdAt := u.createdAt,
      updatedAt := u.updatedAt,
      lastSignInAt := if LastSignInAtColumn in fields then fields[LastSignInAtColumn].time else u.lastSignInAt)
  }

  /**
   * The effect of `update_user`: the user it returns and the new `users` table.
   * With nothing to set it only re-reads the row; otherwise it rewrites the row
   * and `updatedAt`, and a clash with another user's e-mail makes it return None.
   */
  function UpdateSpec(users: seq<User>, clerkId: string, data: UpdateData, now: Time): (res: (Option<User>, seq<User>))
    requires WellTyped(data)
    ensures |res.1| == |users|
    ensures res.0.None? ==> res.1 == users
    ensures SettableFields(data) == map[] ==> res == (UserByClerkId(users, clerkId), users)
    ensures res.0.Some? && SettableFields(data) != map[] ==>
      && IndexOfClerkId(users, clerkId).Some?
      && var i := IndexOfClerkId(users, clerkId).value;
      var u := res.0.value;
      && res.1 == users[i := u]
      && u.id == users[i].id && u.clerkId == clerkId && u.createdAt == users[i].createdAt
      && u.updatedAt == now
      && forall col :: col != ClerkIdColumn ==>
           Get(u, col) == if col in data && !IsNull(data[col]) then data[col] else Get(users[i], col)
    ensures UsersUnique(users) ==>
      (res.0.None? <==>
         !ClerkIdInUse(users, clerkId) ||
         (EmailColumn in SettableFields(data) && EmailHeldByOther(users, data[EmailColumn].text.value, clerkId)))
    ensures UsersUnique(users) ==> UsersUnique(res.1)
  {
    var fields := SettableFields(data);
    if fields == map[] then (UserByClerkId(users, clerkId), users)
    else match IndexOfClerkId(users, clerkId)
      case None => (None, users)
      case Some(i) =>
        var u := SetFields(users[i], fields).(updatedAt := now);
        assert Get(u, EmailColumn) == Get(SetFields(users[i], fields), EmailColumn);
        if EmailHeldByOther(users, u.email, clerkId) then (None, users)
        else
          assert UsersUnique(users) ==> UsersUnique(users[i := u]) by {
            if UsersUnique(users) { UpdatedRowKeepsUnique(users, i, u); }
          }
          (Some(u), users[i := u])
  }

  lemma UpdatedRowKeepsUnique(users: seq<User>, i: nat, u: User)
    requires UsersUnique(users) && i < |users|
    requires u.id == users[i].id && u.clerkId == users[i].clerkId
    requires !EmailHeldByOther(users, u.email, u.clerkId)
    ensures UsersUnique(users[i := u])
  {
    var s := users[i := u];
    forall a, b | 0 <= a < b < |s|
      ensures s[a].id != s[b].id && s[a].clerkId != s[b].clerkId && s[a].email != s[b].email
    {
      if a == i {
        assert users[b].clerkId != users[i].clerkId;
      } else if b == i {
        assert users[a].clerkId != users[i].clerkId;
      }
    }
  }

  // ---------------------------------------------------------------------------
  // upsert_user

  /** The update dictionary `upsert_user` passes for an existing user. */
  function UpsertChanges(data: UserData, now: Time): (changes: UpdateData)
    ensures WellTyped(changes)
  {
    map[EmailColumn := Text(Some(data.email)),
        FirstNameColumn := Text(data.firstName),
        LastNameColumn := Text(data.lastName),
        ImageUrlColumn := Text(data.imageUrl),
        LastSignInAtColumn := Stamp(SignInValue(data.lastSignInAt, now))]
  }

  /** The effect of `upsert_user`: update the row for `data.clerkId` if there is one, else create it. */
  function UpsertSpec(users: seq<User>, data: UserData, userId: string, now: Time): (res: (Result<User, DbError>, seq<User>))
    ensures res.0.Ok? ==> res.0.value in res.1 && res.0.value.clerkId == data.clerkId && res.0.value.email == data.email
    ensures res.0.Err? ==> res.1 == users
    ensures !ClerkIdInUse(users, data.clerkId) ==> res == CreateSpec(users, data, userId, now)
    ensures !ClerkIdInUse(users, data.clerkId) ==>
      && (res.0.Ok? <==> !IdInUse(users, userId) && !EmailInUse(users, data.email))
      && (res.0.Ok? ==>
            var u := res.0.value;
            && res.1 == users + [u]
            && u.id == userId && u.createdAt == now && u.updatedAt == now)
    ensures UsersUnique(users) && ClerkIdInUse(users, data.clerkId) ==>
      && IndexOfClerkId(users, data.clerkId).Some?
      && var i := IndexOfClerkId(users, data.clerkId).value;
      && |res.1| == |users|
      && (res.0.Ok? <==> !EmailHeldByOther(users, data.email, data.clerkId))
      && (res.0.Err? ==> res.0.error == UpdateFailed)
      && (res.0.Ok? ==>
            var u := res.0.value;
            && res.1 == users[i := u]
            && u.id == users[i].id && u.createdAt == users[i].createdAt && u.updatedAt == now
            && u.firstName == (if data.firstName.Some? then data.firstName else users[i].firstName)
            && u.lastName == (if data.lastName.Some? then data.lastName else users[i].lastName)
            && u.imageUrl == (if data.imageUrl.Some? then data.imageUrl else users[i].imageUrl)
            && u.lastSignInAt == (if SignInValue(data.lastSignInAt, now).Some? then SignInValue(data.lastSignInAt, now)
                                  else users[i].lastSignInAt))
    ensures UsersUnique(users) ==> UsersUnique(res.1)
  {
    match UserByClerkId(users, data.clerkId)
    case Some(_) =>
      var changes := UpsertChanges(data, now);
      var upd := UpdateSpec(users, data.clerkId, changes, now);
      assert EmailColumn in SettableFields(changes);
      if upd.0.Some? then
        var u := upd.0.value;
        UpsertedRowFields(users, data, now);
        assert upd.1[IndexOfClerkId(users, data.clerkId).value] == u;
        (Ok(u), upd.1)
      else (Err(UpdateFailed), upd.1)
    case None => CreateSpec(users, data, userId, now)
  }

  /** The row an upsert rewrites: the e-mail is replaced, every other profile field only when a value is given. */
  lemma UpsertedRowFields(users: seq<User>, data: UserData, now: Time)
    requires ClerkIdInUse(users, data.clerkId)
    requires UpdateSpec(users, data.clerkId, UpsertChanges(data, now), now).0.Some?
    ensures IndexOfClerkId(users, data.clerkId).Some?
    ensures var u := UpdateSpec(users, data.clerkId, UpsertChanges(data, now), now).0.value;
            var old_ := users[IndexOfClerkId(users, data.clerkId).value];
            && u.email == data.email
            && u.firstName == (if data.firstName.Some? then data.firstName else old_.firstName)
            && u.lastName == (if data.lastName.Some? then data.lastName else old_.lastName)
            && u.imageUrl == (if data.imageUrl.Some? then data.imageUrl else old_.imageUrl)
            && u.lastSignInAt == (if SignInValue(data.lastSignInAt, now).Some? then SignInValue(data.lastSignInAt, now)
                                  else old_.lastSignInAt)
  {
    var changes := UpsertChanges(data, now);
    assert EmailColumn in SettableFields(changes);
    var u := UpdateSpec(users, data.clerkId, changes, now).0.value;
    var i := IndexOfClerkId(users, data.clerkId).value;
    assert Get(u, EmailColumn) == changes[EmailColumn];
    assert Get(u, FirstNameColumn) == if !IsNull(changes[FirstNameColumn]) then changes[FirstNameColumn] else Get(users[i], FirstNameColumn);
    assert Get(u, LastNameColumn) == if !IsNull(changes[LastNameColumn]) then changes[LastNameColumn] else Get(users[i], LastNameColumn);
    assert Get(u, ImageUrlColumn) == if !IsNull(changes[ImageUrlColumn]) then changes[ImageUrlColumn] else Get(users[i], ImageUrlColumn);
    assert Get(u, LastSignInAtColumn) == if !IsNull(changes[LastSignInAtColumn]) then changes[LastSignInAtColumn] else Get(users[i], LastSignInAtColumn);
  }

  /**
   * Syncing the same identity twice: the second upsert finds the row the first
   * one left, adds no row, and changes nothing but `updatedAt`.
   */
  lemma UpsertIdempotent(users: seq<User>, data: UserData, firstId: string, secondId: string, first: Time, second: Time)
    requires UsersUnique(users)
    requires data.lastSignInAt != Missing
    requires UpsertSpec(users, data, firstId, first).0.Ok?
    ensures var once := UpsertSpec(users, data, firstId, first);
            var twice := UpsertSpec(once.1, data, secondId, second);
            && twice.0 == Ok(once.0.value.(updatedAt := second))
            && |twice.1| == |once.1|
  {
    var once := UpsertSpec(users, data, firstId, first);
    var u1 := once.0.value;
    var after := once.1;
    assert UsersUnique(after);
    LookupFindsStoredUser(after, u1);
    assert ClerkIdInUse(after, data.clerkId);
    var i := IndexOfClerkId(after, data.clerkId).value;
    assert after[i] == u1;
    assert !EmailHeldByOther(after, data.email, data.clerkId) by {
      forall j | 0 <= j < |after| && after[j].email == data.email
        ensures after[j].clerkId == data.clerkId
      {
        assert j == i;
      }
    }
    var twice := UpsertSpec(after, data, secondId, second);
    var u2 := twice.0.value;
    assert u2.firstName == u1.firstName;
    assert u2.lastSignInAt == u1.lastSignInAt;
    assert u2.clerkId == u1.clerkId && u2.email == u1.email;
    assert u2 == u1.(updatedAt := second);
  }

  // ---------------------------------------------------------------------------
  // create_user_token

  /**
   * The effect of `create_user_token`: one new row expiring `minutes` after
   * `now`, unless that expiry is outside the `datetime` range (an overflow
   * raised before the insert) or the id or value is taken.
   */
  function InsertTokenSpec(tokens: seq<UserToken>, userId: string, clerkId: string, minutes: int,
                           tokenId: string, value: string, now: Time): (res: (Result<UserToken, DbError>, seq<UserToken>))
    ensures res.0.Err? <==>
              !Representable(now + minutes * SecondsPerMinute) || TokenIdInUse(tokens, tokenId) || TokenValueInUse(tokens, value)
    ensures !Representable(now + minutes * SecondsPerMinute) ==> res == (Err(DateOutOfRange), tokens)
    ensures res.0.Err? ==> res.1 == tokens
    ensures res.0.Err? && Representable(now + minutes * SecondsPerMinute) ==> res.0.error.UniqueViolation?
    ensures res.0.Ok? ==>
      var t := res.0.value;
      && res.1 == tokens + [t]
      && t.id == tokenId && t.token == value && t.userId == userId && t.clerkId == clerkId
      && t.expiresAt == now + minutes * SecondsPerMinute && t.createdAt == now
    ensures TokensUnique(tokens) ==> TokensUnique(res.1)
  {
    var t := UserToken(tokenId, userId, clerkId, value, now + minutes * SecondsPerMinute, now);
    if !Representable(t.expiresAt) then (Err(DateOutOfRange), tokens)
    else if TokenIdInUse(tokens, tokenId) then (Err(UniqueViolation("user_tokens.id")), tokens)
    else if TokenValueInUse(tokens, value) then (Err(UniqueViolation("user_tokens.token")), tokens)
    else (Ok(t), tokens + [t])
  }

  // ---------------------------------------------------------------------------
  // get_valid_token, verify_token, cleanup_expired_tokens

  /** The row belongs to `clerkId` and has not expired at `now`. */
  predicate ValidFor(t: UserToken, clerkId: string, now: Time) {
    t.clerkId == clerkId && t.expiresAt > now
  }

  /** `WHERE clerkId = ? AND expiresAt > ? ORDER BY createdAt DESC LIMIT 1`. */
  function LatestValid(tokens: seq<UserToken>, clerkId: string, now: Time): (r: Option<UserToken>)
    ensures r.None? <==> forall i :: 0 <= i < |tokens| ==> !ValidFor(tokens[i], clerkId, now)
    ensures r.Some? ==> r.value in tokens && ValidFor(r.value, clerkId, now)
    ensures r.Some? ==> forall i :: 0 <= i < |tokens| && ValidFor(tokens[i], clerkId, now) ==>
                          tokens[i].createdAt <= r.value.createdAt
  {
    if |tokens| == 0 then None
    else
      var rest := LatestValid(tokens[1..], clerkId, now);
      assert forall i :: 1 <= i < |tokens| ==> tokens[i] == tokens[1..][i - 1];
      if ValidFor(tokens[0], clerkId, now) && (rest.None? || tokens[0].createdAt >= rest.value.createdAt)
      then Some(tokens[0])
      else rest
  }

  /** The token row matches `value` and has not expired at `now`. */
  predicate Accepts(t: UserToken, value: string, now: Time) {
    t.token == value && t.expiresAt > now
  }

  /**
   * `verify_token` as intended: the owner of an unexpired row holding `value`,
   * reached through the join on `userId`; unknown and expired values alike give None.
   */
  function VerifiedOwner(users: seq<User>, tokens: seq<UserToken>, value: string, now: Time): (r: Option<User>)
    ensures r.Some? <==> exists i :: 0 <= i < |tokens| && Accepts(tokens[i], value, now) && IdInUse(users, tokens[i].userId)
    ensures r.Some? ==> r.value in users &&
                        exists i :: 0 <= i < |tokens| && Accepts(tokens[i], value, now) && tokens[i].userId == r.value.id
  {
    if |tokens| == 0 then None
    else
      assert forall i :: 1 <= i < |tokens| ==> tokens[i] == tokens[1..][i - 1];
      if Accepts(tokens[0], value, now) && UserWithId(users, tokens[0].userId).Some?
      then UserWithId(users, tokens[0].userId)
      else VerifiedOwner(users, tokens[1..], value, now)
  }

  /**
   * `verify_token` as written: the joined row `ut.*, u.*` is read by column
   * name, and a name that occurs twice yields the first (token-table) column,
   * so `id`, `clerkId` and `createdAt` come from the token row.
   */
  function VerifiedOwnerAsWritten(users: seq<User>, tokens: seq<UserToken>, value: string, now: Time): (r: Option<User>)
    ensures r.Some? <==> VerifiedOwner(users, tokens, value, now).Some?
    ensures r.Some? ==> exists i :: 0 <= i < |tokens| && Accepts(tokens[i], value, now) &&
                          r.value.id == tokens[i].id && r.value.createdAt == tokens[i].createdAt
  {
    if |tokens| == 0 then None
    else
      assert forall i :: 1 <= i < |tokens| ==> tokens[i] == tokens[1..][i - 1];
      var t := tokens[0];
      match UserWithId(users, t.userId)
      case Some(u) =>
        if Accepts(t, value, now) then Some(u.(id := t.id, clerkId := t.clerkId, createdAt := t.createdAt))
        else VerifiedOwnerAsWritten(users, tokens[1..], value, now)
      case None => VerifiedOwnerAsWritten(users, tokens[1..], value, now)
  }

  /** A valid token for user `user_a` does not verify to `user_a` as written: the id returned is the token row's. */
  lemma VerifiedOwnerAsWrittenReturnsTokenId()
    ensures var u := User("user_a", "clerk_1", "a@x.com", None, None, None, 0, 0, None);
            var t := UserToken("token_b", "user_a", "clerk_1", "secret", 100, 5);
            && VerifiedOwner([u], [t], "secret", 10) == Some(u)
            && VerifiedOwnerAsWritten([u], [t], "secret", 10).Some?
            && VerifiedOwnerAsWritten([u], [t], "secret", 10).value.id == "token_b"
            && VerifiedOwnerAsWritten([u], [t], "secret", 10).value.createdAt == 5
            && VerifiedOwnerAsWritten([u], [t], "secret", 10) != Some(u)
  {
    var u := User("user_a", "clerk_1", "a@x.com", None, None, None, 0, 0, None);
    var t := UserToken("token_b", "user_a", "clerk_1", "secret", 100, 5);
    assert UserWithId([u], "user_a") == Some(u);
    assert [t][1..] == [];
  }

  /** `DELETE FROM user_tokens WHERE expiresAt <= ?`: the rows still alive at `now`, in order. */
  function Unexpired(tokens: seq<UserToken>, now: Time): (r: seq<UserToken>)
    ensures forall t :: t in r <==> t in tokens && t.expiresAt > now
    ensures |r| <= |tokens|
  {
    if |tokens| == 0 then []
    else (if tokens[0].expiresAt > now then [tokens[0]] else []) + Unexpired(tokens[1..], now)
  }

  /** The sweep works row by row, so the surviving rows keep their order. */
  lemma {:induction false} UnexpiredAppend(a: seq<UserToken>, b: seq<UserToken>, now: Time)
    ensures Unexpired(a + b, now) == Unexpired(a, now) + Unexpired(b, now)
  {
    if |a| > 0 {
      var head := if a[0].expiresAt > now then [a[0]] else [];
      assert (a + b)[0] == a[0] && (a + b)[1..] == a[1..] + b;
      assert Unexpired(a + b, now) == head + Unexpired(a[1..] + b, now);
      assert Unexpired(a, now) == head + Unexpired(a[1..], now);
      UnexpiredAppend(a[1..], b, now);
      TokenConcatAssoc(head, Unexpired(a[1..], now), Unexpired(b, now));
    } else {
      assert a + b == b;
    }
  }

  lemma TokenConcatAssoc(x: seq<UserToken>, y: seq<UserToken>, z: seq<UserToken>)
    ensures x + (y + z) == (x + y) + z
  {
  }

  lemma {:induction false} UnexpiredKeepsUnique(tokens: seq<UserToken>, now: Time)
    requires TokensUnique(tokens)
    ensures TokensUnique(Unexpired(tokens, now))
  {
    if |tokens| > 0 {
      var rest := Unexpired(tokens[1..], now);
      assert TokensUnique(tokens[1..]) by {
        forall a, b | 0 <= a < b < |tokens[1..]|
          ensures tokens[1..][a].id != tokens[1..][b].id && tokens[1..][a].token != tokens[1..][b].token
        {
          assert tokens[1..][a] == tokens[a + 1] && tokens[1..][b] == tokens[b + 1];
        }
      }
      UnexpiredKeepsUnique(tokens[1..], now);
      if tokens[0].expiresAt > now {
        var s := [tokens[0]] + rest;
        forall a, b | 0 <= a < b < |s|
          ensures s[a].id != s[b].id && s[a].token != s[b].token
        {
          if a == 0 {
            assert s[b] == rest[b - 1];
            assert s[b] in tokens[1..];
            var k :| 0 <= k < |tokens[1..]| && tokens[1..][k] == s[b];
            assert tokens[k + 1] == s[b];
          } else {
            assert s[a] == rest[a - 1] && s[b] == rest[b - 1];
          }
        }
      } else {
        assert Unexpired(tokens, now) == rest;
      }
    }
  }

  /** The sweep never changes which token is current, at `now` or any later time. */
  lemma {:induction false} SweepKeepsCurrentToken(tokens: seq<UserToken>, clerkId: string, now: Time, later: Time)
    requires now <= later
    ensures LatestValid(Unexpired(tokens, now), clerkId, later) == LatestValid(tokens, clerkId, later)
  {
    if |tokens| > 0 {
      SweepKeepsCurrentToken(tokens[1..], clerkId, now, later);
      var rest := Unexpired(tokens[1..], now);
      if tokens[0].expiresAt > now {
        assert ([tokens[0]] + rest)[1..] == rest;
      } else {
        assert Unexpired(tokens, now) == rest;
      }
    }
  }

  /** The sweep never changes what a token value verifies to, at `now` or any later time. */
  lemma {:induction false} SweepKeepsVerification(users: seq<User>, tokens: seq<UserToken>, value: string, now: Time, later: Time)
    requires now <= later
    ensures VerifiedOwner(users, Unexpired(tokens, now), value, later) == VerifiedOwner(users, tokens, value, later)
  {
    if |tokens| > 0 {
      SweepKeepsVerification(users, tokens[1..], value, now, later);
      var rest := Unexpired(tokens[1..], now);
      if tokens[0].expiresAt > now {
        assert ([tokens[0]] + rest)[1..] == rest;
      } else {
        assert Unexpired(tokens, now) == rest;
      }
    }
  }

  /** A token that is stored but expired at `now` verifies to nothing: expired and unknown tokens look alike. */
  lemma ExpiredTokenRejected(users: seq<User>, tokens: seq<UserToken>, t: UserToken, now: Time)
    requires TokensUnique(tokens) && t in tokens && t.expiresAt <= now
    ensures VerifiedOwner(users, tokens, t.token, now) == None
  {
    var k :| 0 <= k < |tokens| && tokens[k] == t;
    forall i | 0 <= i < |tokens| && tokens[i].token == t.token
      ensures !Accepts(tokens[i], t.token, now)
    {
      assert i == k;
    }
  }

  /** A token row that is newest among the rows, unexpired and unique in value is both current and accepted. */
  lemma NewTokenIsCurrentAndAccepted(users: seq<User>, tokens: seq<UserToken>, t: UserToken, owner: User, now: Time, at: Time)
    requires UsersUnique(users) && owner in users && t.userId == owner.id
    requires TokensUnique(tokens + [t])
    requires forall i :: 0 <= i < |tokens| ==> tokens[i].createdAt < t.createdAt
    requires now <= at < t.expiresAt
    ensures LatestValid(tokens + [t], t.clerkId, at) == Some(t)
    ensures VerifiedOwner(users, tokens + [t], t.token, at) == Some(owner)
  {
    var all := tokens + [t];
    assert all[|tokens|] == t;
    var cur := LatestValid(all, t.clerkId, at).value;
    assert t.createdAt <= cur.createdAt;
    assert cur == t;
    LookupFindsStoredUser(users, owner);
    assert Accepts(all[|tokens|], t.token, at) && IdInUse(users, all[|tokens|].userId);
    var w := VerifiedOwner(users, all, t.token, at).value;
    var i :| 0 <= i < |all| && Accepts(all[i], t.token, at) && all[i].userId == w.id;
    if i < |tokens| { assert all[i].token != all[|tokens|].token; }
    LookupFindsStoredUser(users, w);
  }

  // ---------------------------------------------------------------------------
  // The store object

  class DatabaseService {
    var users: seq<User>
    var tokens: seq<UserToken>

    /** The UNIQUE constraints of both tables hold. */
    ghost predicate Valid()
      reads this
    {
      UsersUnique(users) && TokensUnique(tokens)
    }

    constructor ()
      ensures Valid() && users == [] && tokens == []
    {
      users := [];
      tokens := [];
    }

    method CreateUser(data: UserData, userId: string, now: Time) returns (r: Result<User, DbError>)
      requires Valid()
      modifies this
      ensures Valid() && tokens == old(tokens)
      ensures (r, users) == CreateSpec(old(users), data, userId, now)
    {
      if IdInUse(users, userId) {
        r := Err(UniqueViolation("users.id"));
      } else if ClerkIdInUse(users, data.clerkId) {
        r := Err(UniqueViolation("users.clerkId"));
      } else if EmailInUse(users, data.email) {
        r := Err(UniqueViolation("users.email"));
      } else {
        var u := User(userId, data.clerkId, data.email, data.firstName, data.lastName, data.imageUrl,
                      now, now, SignInValue(data.lastSignInAt, now));
        users := users + [u];
        r := Ok(u);
      }
    }

    function GetUserByClerkId(clerkId: string): (r: Option<User>)
      reads this
      ensures r.Some? ==> r.value in users && r.value.clerkId == clerkId
      ensures r.None? <==> !ClerkIdInUse(users, clerkId)
    {
      UserByClerkId(users, clerkId)
    }

    method UpdateUser(clerkId: string, updateData: UpdateData, now: Time) returns (r: Option<User>)
      requires Valid() && WellTyped(updateData)
      modifies this
      ensures Valid() && tokens == old(tokens)
      ensures (r, users) == UpdateSpec(old(users), clerkId, updateData, now)
    {
      var fields: UpdateData := map[];
      var pending := updateData.Keys;
      while pending != {}
        invariant pending <= updateData.Keys
        invariant fields == map col | col in updateData && col !in pending && col != ClerkIdColumn && !IsNull(updateData[col])
                              :: updateData[col]
        decreases pending
      {
        var key :| key in pending;
        if !IsNull(updateData[key]) && key != ClerkIdColumn {
          fields := fields[key := updateData[key]];
        }
        pending := pending - {key};
      }
      assert fields == SettableFields(updateData);
      if fields == map[] {
        r := GetUserByClerkId(clerkId);
        return;
      }
      var found := IndexOfClerkId(users, clerkId);
      if found.None? {
        r := None;
        return;
      }
      var updated := SetFields(users[found.value], fields).(updatedAt := now);
      if EmailHeldByOther(users, updated.email, clerkId) {
        r := None;
        return;
      }
      users := users[found.value := updated];
      r := Some(updated);
    }

    method UpsertUser(data: UserData, userId: string, now: Time) returns (r: Result<User, DbError>)
      requires Valid()
      modifies this
      ensures Valid() && tokens == old(tokens)
      ensures (r, users) == UpsertSpec(old(users), data, userId, now)
    {
      var existing := GetUserByClerkId(data.clerkId);
      if existing.Some? {
        var updated := UpdateUser(data.clerkId, UpsertChanges(data, now), now);
        if updated.None? {
          r := Err(UpdateFailed);
        } else {
          r := Ok(updated.value);
        }
      } else {
        r := CreateUser(data, userId, now);
      }
    }

    method CreateUserToken(userId: string, clerkId: string, minutes: int, tokenId: string, value: string, now: Time)
      returns (r: Result<UserToken, DbError>)
      requires Valid()
      modifies this
      ensures Valid() && users == old(users)
      ensures (r, tokens) == InsertTokenSpec(old(tokens), userId, clerkId, minutes, tokenId, value, now)
    {
      var expiresAt := now + minutes * SecondsPerMinute;
      if !Representable(expiresAt) {
        r := Err(DateOutOfRange);
      } else if TokenIdInUse(tokens, tokenId) {
        r := Err(UniqueViolation("user_tokens.id"));
      } else if TokenValueInUse(tokens, value) {
        r := Err(UniqueViolation("user_tokens.token"));
      } else {
        var t := UserToken(tokenId, userId, clerkId, value, expiresAt, now);
        tokens := tokens + [t];
        r := Ok(t);
      }
    }

    /** The current valid token of `clerkId`: unexpired, and no unexpired row of that user is newer. */
    function GetValidToken(clerkId: string, now: Time): (r: Option<UserToken>)
      reads this
      ensures r.None? <==> forall i :: 0 <= i < |tokens| ==> !ValidFor(tokens[i], clerkId, now)
      ensures r.Some? ==> r.value in tokens && ValidFor(r.value, clerkId, now) &&
                          forall i :: 0 <= i < |tokens| && ValidFor(tokens[i], clerkId, now) ==>
                            tokens[i].createdAt <= r.value.createdAt
    {
      LatestValid(tokens, clerkId, now)
    }

    /** The owner of an unexpired token row holding `value`; None for unknown and expired values alike. */
    function VerifyToken(value: string, now: Time): (r: Option<User>)
      reads this
      ensures r.Some? <==> exists i :: 0 <= i < |tokens| && Accepts(tokens[i], value, now) && IdInUse(users, tokens[i].userId)
      ensures r.Some? ==> r.value in users &&
                          exists i :: 0 <= i < |tokens| && Accepts(tokens[i], value, now) && tokens[i].userId == r.value.id
    {
      VerifiedOwner(users, tokens, value, now)
    }

    method CleanupExpiredTokens(now: Time)
      requires Valid()
      modifies this
      ensures Valid() && users == old(users)
      ensures tokens == Unexpired(old(tokens), now)
    {
      UnexpiredKeepsUnique(tokens, now);
      tokens := Unexpired(tokens, now);
    }
  }
}
