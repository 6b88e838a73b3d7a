/**
 * Request authentication: a bearer token is first tried as one of the store's
 * own tokens and then as a provider JWT, whose subject is looked up locally
 * and, when unknown, fetched from the provider and upserted. Decoding the JWT
 * and fetching the provider's user record are outside this model and enter as
 * function parameters; the caller supplies the id a newly created user gets.
 */
module Auth {
  import opened Common
  import opened Database
  import opened ClerkService

  const InvalidCredentialsDetail := "Invalid authentication credentials"

  /**
   * The user-data dictionary built from a provider user record. A record
   * without an id cannot be stored (the `clerkId` column is NOT NULL), so the
   * upsert that would follow fails; None stands for that failure.
   */
  function ProfileData(e: ExtractedUser): (d: Option<UserData>)
    ensures d.None? <==> e.clerkId.None?
    ensures d.Some? ==>
      && d.value.clerkId == e.clerkId.value && d.value.email == e.email
      && d.value.firstName == e.firstName && d.value.lastName == e.lastName && d.value.imageUrl == e.imageUrl
      && d.value.lastSignInAt != Missing
      && SignInValue(d.value.lastSignInAt, 0) == e.lastSignInAt
  {
    match e.clerkId
    case None => None
    case Some(id) =>
      Some(UserData(id, e.email, e.firstName, e.lastName, e.imageUrl,
                    match e.lastSignInAt case None => Null case Some(t) => Given(t)))
  }

  /** The provider subject a token names, when it decodes and carries a non-empty `sub`. */
  function Subject(token: string, decode: string -> Option<Claims>): (s: Option<string>)
    ensures s.Some? <==> VerifyJwtToken(token, decode).Some?
    ensures s.Some? ==> s.value != "" && decode(token) == Some(Claims(Some(s.value)))
  {
    var payload := VerifyJwtToken(token, decode);
    if payload.None? || !Truthy(payload.value.sub) then None else payload.value.sub
  }

  /**
   * The effect of `verify_clerk_token`: the user it returns and the new
   * `users` table. A known subject is answered from the store; an unknown one
   * is fetched from the provider and upserted, and every failure yields None.
   */
  function ClerkTokenEffect(users: seq<User>, token: string, decode: string -> Option<Claims>,
                            fetch: string -> Option<ClerkUser>, newUserId: string, now: Time): (res: (Option<User>, seq<User>))
    ensures Subject(token, decode).None? ==> res == (None, users)
    ensures Subject(token, decode).Some? && ClerkIdInUse(users, Subject(token, decode).value) ==>
              res.1 == users && res.0.Some? && res.0.value in users && res.0.value.clerkId == Subject(token, decode).value
    ensures Subject(token, decode).Some? && fetch(Subject(token, decode).value).None? ==> res.1 == users
    ensures res.1 != users ==>
      var sub := Subject(token, decode).value;
      && Subject(token, decode).Some? && !ClerkIdInUse(users, sub)
      && fetch(sub).Some? && ProfileData(Extracted(fetch(sub).value)).Some?
      && res.1 == UpsertSpec(users, ProfileData(Extracted(fetch(sub).value)).value, newUserId, now).1
    ensures Subject(token, decode).Some? && !ClerkIdInUse(users, Subject(token, decode).value) &&
            fetch(Subject(token, decode).value).Some? ==>
      var data := ProfileData(Extracted(fetch(Subject(token, decode).value).value));
      && (data.None? ==> res == (None, users))
      && (data.Some? ==>
            var upserted := UpsertSpec(users, data.value, newUserId, now);
            && res.1 == upserted.1
            && (res.0.Some? <==> upserted.0.Ok?)
            && (upserted.0.Ok? ==> res.0 == Some(upserted.0.value)))
    ensures res.0.Some? ==> res.0.value in res.1
    ensures res.0.Some? ==>
      && Subject(token, decode).Some?
      && (|| res.0.value.clerkId == Subject(token, decode).value
          || (var fetched := fetch(Subject(token, decode).value); fetched.Some? && fetched.value.id == Some(res.0.value.clerkId)))
    ensures UsersUnique(users) ==> UsersUnique(res.1)
  {
    match Subject(token, decode)
    case None => (None, users)
    case Some(sub) =>
      match UserByClerkId(users, sub)
      case Some(u) => (Some(u), users)
      case None =>
        match fetch(sub)
        case None => (None, users)
        case Some(cu) =>
          match ProfileData(Extracted(cu))
          case None => (None, users)
          case Some(data) =>
            var upserted := UpsertSpec(users, data, newUserId, now);
            if upserted.0.Ok? then (Some(upserted.0.value), upserted.1) else (None, upserted.1)
  }

  /** `verify_clerk_token`, acting on the store. */
  method VerifyClerkToken(db: DatabaseService, token: string, decode: string -> Option<Claims>,
                          fetch: string -> Option<ClerkUser>, newUserId: string, now: Time) returns (r: Option<User>)
    requires db.Valid()
    modifies db
    ensures db.Valid() && db.tokens == old(db.tokens)
    ensures (r, db.users) == ClerkTokenEffect(old(db.users), token, decode, fetch, newUserId, now)
  {
    var payload := VerifyJwtToken(token, decode);
    if payload.None? || !Truthy(payload.value.sub) {
      return None;
    }
    var sub := payload.value.sub.value;
    r := db.GetUserByClerkId(sub);
    if r.None? {
      var clerkUser := fetch(sub);
      if clerkUser.Some? {
        var extracted := ExtractUserData(clerkUser.value);
        var data := ProfileData(extracted);
        if data.Some? {
          var upserted := db.UpsertUser(data.value, newUserId, now);
          r := if upserted.Ok? then Some(upserted.value) else None;
        }
      }
    }
  }

  /** `verify_app_token`: the owner of an unexpired store token holding `token`. */
  function VerifyAppToken(db: DatabaseService, token: string, now: Time): (r: Option<User>)
    reads db
    ensures r.Some? ==> r.value in db.users &&
                        exists i :: 0 <= i < |db.tokens| && db.tokens[i].token == token && db.tokens[i].expiresAt > now &&
                                    db.tokens[i].userId == r.value.id
    ensures r.None? ==> forall i :: 0 <= i < |db.tokens| && db.tokens[i].token == token && db.tokens[i].expiresAt > now ==>
                                      !IdInUse(db.users, db.tokens[i].userId)
  {
    db.VerifyToken(token, now)
  }

  /**
   * The effect of `get_current_user`: the store's own tokens take precedence,
   * the provider path is tried only when they fail, and 401 is raised exactly
   * when both fail.
   */
  function Authenticate(users: seq<User>, tokens: seq<UserToken>, token: string, decode: string -> Option<Claims>,
                        fetch: string -> Option<ClerkUser>, newUserId: string, now: Time): (res: (Result<User, HttpError>, seq<User>))
    ensures VerifiedOwner(users, tokens, token, now).Some? ==>
              res == (Ok(VerifiedOwner(users, tokens, token, now).value), users)
    ensures VerifiedOwner(users, tokens, token, now).None? ==>
              res.1 == ClerkTokenEffect(users, token, decode, fetch, newUserId, now).1
    ensures res.0.Err? <==> VerifiedOwner(users, tokens, token, now).None? &&
                            ClerkTokenEffect(users, token, decode, fetch, newUserId, now).0.None?
    ensures VerifiedOwner(users, tokens, token, now).None? && ClerkTokenEffect(users, token, decode, fetch, newUserId, now).0.Some? ==>
              res.0 == Ok(ClerkTokenEffect(users, token, decode, fetch, newUserId, now).0.value)
    ensures res.0.Err? ==> res.0.error == HttpError(Unauthorized, InvalidCredentialsDetail)
    ensures res.0.Ok? ==> res.0.value in res.1
    ensures UsersUnique(users) ==> UsersUnique(res.1)
  {
    match VerifiedOwner(users, tokens, token, now)
    case Some(u) => (Ok(u), users)
    case None =>
      var clerk := ClerkTokenEffect(users, token, decode, fetch, newUserId, now);
      match clerk.0
      case Some(u) => (Ok(u), clerk.1)
      case None => (Err(HttpError(Unauthorized, InvalidCredentialsDetail)), clerk.1)
  }

  /** A token that neither the store nor the provider path recognises is refused with 401 and leaves the store alone. */
  lemma UnknownTokenRefused(users: seq<User>, tokens: seq<UserToken>, token: string, decode: string -> Option<Claims>,
                            fetch: string -> Option<ClerkUser>, newUserId: string, now: Time)
    requires forall i :: 0 <= i < |tokens| ==> tokens[i].token != token
    requires decode(token).None?
    ensures Authenticate(users, tokens, token, decode, fetch, newUserId, now) ==
            (Err(HttpError(Unauthorized, InvalidCredentialsDetail)), users)
  {
    assert forall i :: 0 <= i < |tokens| ==> !Accepts(tokens[i], token, now);
  }

  /** `get_current_user`. */
  method GetCurrentUser(db: DatabaseService, token: string, decode: string -> Option<Claims>,
                        fetch: string -> Option<ClerkUser>, newUserId: string, now: Time) returns (r: Result<User, HttpError>)
    requires db.Valid()
    modifies db
    ensures db.Valid() && db.tokens == old(db.tokens)
    ensures (r, db.users) == Authenticate(old(db.users), old(db.tokens), token, decode, fetch, newUserId, now)
  {
    var user := VerifyAppToken(db, token, now);
    if user.None? {
      user := VerifyClerkToken(db, token, decode, fetch, newUserId, now);
    }
    if user.None? {
      return Err(HttpError(Unauthorized, InvalidCredentialsDetail));
    }
    r := Ok(user.value);
  }

  /** `get_current_user_optional`: the same, with the 401 turned into None. */
  method GetCurrentUserOptional(db: DatabaseService, token: string, decode: string -> Option<Claims>,
                                fetch: string -> Option<ClerkUser>, newUserId: string, now: Time) returns (r: Option<User>)
    requires db.Valid()
    modifies db
    ensures db.Valid() && db.tokens == old(db.tokens)
    ensures var res := Authenticate(old(db.users), old(db.tokens), token, decode, fetch, newUserId, now);
            db.users == res.1 && r == (if res.0.Ok? then Some(res.0.value) else None)
  {
    var result := GetCurrentUser(db, token, decode, fetch, newUserId, now);
    r := if result.Ok? then Some(result.value) else None;
  }
}
