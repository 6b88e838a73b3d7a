/**
 * The `/auth` endpoints that bridge provider identities to the store's own
 * tokens: syncing a user, issuing a token, returning the current token and
 * checking a token. Random ids and token values are supplied by the caller,
 * and `now` is the request's clock reading.
 */
module UserEndpoints {
  import opened Common
  import opened Database
  import opened ClerkService
  import opened Auth

  /** Token lifetime when the request gives none (one day). */
  const DefaultTtlMinutes := 1440
  /** The longest lifetime a token is issued with (seven days). */
  const MaxTtlMinutes := 10080

  datatype SyncUserRequest = SyncUserRequest(
    clerkId: string,
    email: string,
    firstName: Option<string>,
    lastName: Option<string>,
    imageUrl: Option<string>,
    lastSignInAt: Option<Time>)

  datatype GenerateTokenRequest = GenerateTokenRequest(clerkId: string, expiresInMinutes: Option<int>)

  /** A user together with one of its tokens. */
  datatype AuthenticatedUser = AuthenticatedUser(user: User, token: string, expiresAt: Time)

  /** The response envelope every endpoint returns. */
  datatype ApiResponse<T> = ApiResponse(success: bool, data: Option<T>, message: Option<string>, error: Option<string>)

  /** Why a sync fails: a blank id or e-mail, or the store refusing the upsert. */
  datatype SyncError = MissingFields | StoreFailure(cause: DbError)

  const MissingFieldsDetail := "ClerkId and email are required"

  // ---------------------------------------------------------------------------
  // sync_user

  /** The user-data dictionary a sync request becomes; it always carries a `lastSignInAt` key. */
  function SyncData(req: SyncUserRequest): (d: UserData)
    ensures d.clerkId == req.clerkId && d.email == req.email
    ensures d.firstName == req.firstName && d.lastName == req.lastName && d.imageUrl == req.imageUrl
    ensures d.lastSignInAt != Missing && forall now :: SignInValue(d.lastSignInAt, now) == req.lastSignInAt
  {
    UserData(req.clerkId, req.email, req.firstName, req.lastName, req.imageUrl,
             match req.lastSignInAt case None => Null case Some(t) => Given(t))
  }

  /** The error `sync_user` raises, as written: every failure, the 400 included, is re-raised as a 500. */
  function SyncErrorResponseAsWritten(e: SyncError): (h: HttpError)
    ensures h.status == InternalServerError
  {
    match e
    case MissingFields => HttpError(InternalServerError, "Failed to sync user: 400: " + MissingFieldsDetail)
    case StoreFailure(cause) => HttpError(InternalServerError, "Failed to sync user: " + ErrorMessage(cause))
  }

  /** The error `sync_user` evidently means to raise: 400 for a blank id or e-mail, 500 for a store failure. */
  function SyncErrorResponse(e: SyncError): (h: HttpError)
    ensures h.status == BadRequest <==> e == MissingFields
    ensures h.status == InternalServerError <==> e.StoreFailure?
  {
    match e
    case MissingFields => HttpError(BadRequest, MissingFieldsDetail)
    case StoreFailure(cause) => HttpError(InternalServerError, "Failed to sync user: " + ErrorMessage(cause))
  }

  /** A request with a blank e-mail is answered with a 500 as written, where a 400 is meant. */
  lemma SyncMissingFieldsAsWrittenIs500()
    ensures SyncErrorResponseAsWritten(MissingFields).status == InternalServerError
    ensures SyncErrorResponse(MissingFields).status == BadRequest
    ensures SyncErrorResponseAsWritten(MissingFields) != SyncErrorResponse(MissingFields)
  {
  }

  /** The effect of `sync_user`: the response and the new `users` table. */
  function SyncOutcome(users: seq<User>, req: SyncUserRequest, newUserId: string, now: Time)
    : (res: (Result<ApiResponse<User>, HttpError>, seq<User>))
    ensures req.clerkId == "" || req.email == "" ==> res == (Err(HttpError(BadRequest, MissingFieldsDetail)), users)
    ensures req.clerkId != "" && req.email != "" ==>
      var upserted := UpsertSpec(users, SyncData(req), newUserId, now);
      && res.1 == upserted.1
      && (res.0.Ok? <==> upserted.0.Ok?)
      && (res.0.Err? ==> res.0.error.status == InternalServerError)
    ensures res.0.Ok? ==>
      && res.0.value.success && res.0.value.data.Some?
      && var u := res.0.value.data.value;
      && u in res.1 && u.clerkId == req.clerkId && u.email == req.email
      && (req.lastSignInAt.Some? ==> u.lastSignInAt == req.lastSignInAt)
    ensures UsersUnique(users) ==> UsersUnique(res.1)
  {
    if req.clerkId == "" || req.email == "" then (Err(SyncErrorResponse(MissingFields)), users)
    else
      var upserted := UpsertSpec(users, SyncData(req), newUserId, now);
      match upserted.0
      case Ok(u) =>
        UpsertKeepsGivenSignIn(users, SyncData(req), newUserId, now);
        (Ok(ApiResponse(true, Some(u), Some("User synchronized successfully"), None)), upserted.1)
      case Err(e) => (Err(SyncErrorResponse(StoreFailure(e))), upserted.1)
  }

  /**
   * A sign-in time given in the data is what the upserted row holds; a None
   * given for an existing user leaves its stored time in place.
   */
  lemma UpsertKeepsGivenSignIn(users: seq<User>, data: UserData, newUserId: string, now: Time)
    requires UpsertSpec(users, data, newUserId, now).0.Ok?
    ensures data.lastSignInAt.Given? ==>
              UpsertSpec(users, data, newUserId, now).0.value.lastSignInAt == Some(data.lastSignInAt.at)
  {
    var u := UpsertSpec(users, data, newUserId, now).0.value;
    if UserByClerkId(users, data.clerkId).Some? {
      UpsertedRowFields(users, data, now);
    }
  }

  /**
   * Syncing the same request twice: the second sync succeeds with the same
   * row, adds no user, and moves only `updatedAt`.
   */
  lemma SyncTwice(users: seq<User>, req: SyncUserRequest, firstId: string, secondId: string, first: Time, second: Time)
    requires UsersUnique(users)
    requires SyncOutcome(users, req, firstId, first).0.Ok?
    ensures var once := SyncOutcome(users, req, firstId, first);
            var twice := SyncOutcome(once.1, req, secondId, second);
            && twice.0.Ok?
            && twice.0.value.data.value == once.0.value.data.value.(updatedAt := second)
            && |twice.1| == |once.1|
  {
    UpsertIdempotent(users, SyncData(req), firstId, secondId, first, second);
  }

  /** `sync_user`, acting on the store. */
  method SyncUser(db: DatabaseService, req: SyncUserRequest, newUserId: string, now: Time)
    returns (r: Result<ApiResponse<User>, HttpError>)
    requires db.Valid()
    modifies db
    ensures db.Valid() && db.tokens == old(db.tokens)
    ensures (r, db.users) == SyncOutcome(old(db.users), req, newUserId, now)
  {
    if req.clerkId == "" || req.email == "" {
      return Err(SyncErrorResponse(MissingFields));
    }
    var upserted := db.UpsertUser(SyncData(req), newUserId, now);
    match upserted
    case Ok(u) =>
      r := Ok(ApiResponse(true, Some(u), Some("User synchronized successfully"), None));
    case Err(e) =>
      r := Err(SyncErrorResponse(StoreFailure(e)));
  }

  // ---------------------------------------------------------------------------
  // generate_token

  /** The lifetime a token is issued with: the requested minutes (0 and None mean the default), capped at seven days. */
  function EffectiveTtl(requested: Option<int>): (m: int)
    ensures m <= MaxTtlMinutes
    ensures requested.None? || requested == Some(0) ==> m == DefaultTtlMinutes
    ensures requested.Some? && requested.value != 0 && requested.value <= MaxTtlMinutes ==> m == requested.value
    ensures requested.Some? && requested.value > MaxTtlMinutes ==> m == MaxTtlMinutes
    ensures m > 0 <==> requested.None? || requested.value >= 0
  {
    var asked := if requested.None? || requested.value == 0 then DefaultTtlMinutes else requested.value;
    if asked < MaxTtlMinutes then asked else MaxTtlMinutes
  }

  /**
   * The effect of `generate_token` on the token table: unknown users get 404;
   * otherwise expired rows are swept and one new row is inserted for the user.
   */
  function IssueOutcome(users: seq<User>, tokens: seq<UserToken>, req: GenerateTokenRequest,
                        tokenId: string, value: string, now: Time)
    : (res: (Result<ApiResponse<AuthenticatedUser>, HttpError>, seq<UserToken>))
    ensures res.0.Err? && res.0.error.status == NotFound <==> !ClerkIdInUse(users, req.clerkId)
    ensures !ClerkIdInUse(users, req.clerkId) ==>
              res == (Err(HttpError(NotFound, "User not found. Please sync user first.")), tokens)
    ensures ClerkIdInUse(users, req.clerkId) ==>
      var ins := InsertTokenSpec(Unexpired(tokens, now), UserByClerkId(users, req.clerkId).value.id, req.clerkId,
                                 EffectiveTtl(req.expiresInMinutes), tokenId, value, now);
      && res.1 == ins.1
      && (res.0.Ok? <==> ins.0.Ok?)
      && (res.0.Err? ==> res.0.error == HttpError(InternalServerError, "Failed to generate token: " + ErrorMessage(ins.0.error)))
    ensures ClerkIdInUse(users, req.clerkId) && !Representable(now + EffectiveTtl(req.expiresInMinutes) * SecondsPerMinute) ==>
              res == (Err(HttpError(InternalServerError, "Failed to generate token: " + ErrorMessage(DateOutOfRange))), Unexpired(tokens, now))
    ensures res.0.Ok? ==>
      && res.0.value.success && res.0.value.data.Some?
      && var issued := res.0.value.data.value;
      && var user := UserByClerkId(users, req.clerkId).value;
      && issued.user == user && issued.user in users && issued.user.clerkId == req.clerkId
      && issued.token == value
      && issued.expiresAt == now + EffectiveTtl(req.expiresInMinutes) * SecondsPerMinute
      && issued.expiresAt <= now + MaxTtlMinutes * SecondsPerMinute
      && res.1 == Unexpired(tokens, now) + [UserToken(tokenId, user.id, req.clerkId, value, issued.expiresAt, now)]
      && (issued.expiresAt > now <==> req.expiresInMinutes.None? || req.expiresInMinutes.value >= 0)
  {
    match UserByClerkId(users, req.clerkId)
    case None => (Err(HttpError(NotFound, "User not found. Please sync user first.")), tokens)
    case Some(user) =>
      var swept := Unexpired(tokens, now);
      var ins := InsertTokenSpec(swept, user.id, req.clerkId, EffectiveTtl(req.expiresInMinutes), tokenId, value, now);
      match ins.0
      case Ok(t) =>
        (Ok(ApiResponse(true, Some(AuthenticatedUser(user, t.token, t.expiresAt)), Some("Token generated successfully"), None)),
         ins.1)
      case Err(e) => (Err(HttpError(InternalServerError, "Failed to generate token: " + ErrorMessage(e))), ins.1)
  }

  /** `generate_token`, acting on the store. */
  method GenerateToken(db: DatabaseService, req: GenerateTokenRequest, tokenId: string, value: string, now: Time)
    returns (r: Result<ApiResponse<AuthenticatedUser>, HttpError>)
    requires db.Valid()
    modifies db
    ensures db.Valid() && db.users == old(db.users)
    ensures (r, db.tokens) == IssueOutcome(old(db.users), old(db.tokens), req, tokenId, value, now)
  {
    var user := db.GetUserByClerkId(req.clerkId);
    if user.None? {
      return Err(HttpError(NotFound, "User not found. Please sync user first."));
    }
    db.CleanupExpiredTokens(now);
    var minutes := EffectiveTtl(req.expiresInMinutes);
    var created := db.CreateUserToken(user.value.id, req.clerkId, minutes, tokenId, value, now);
    match created
    case Ok(t) =>
      r := Ok(ApiResponse(true, Some(AuthenticatedUser(user.value, t.token, t.expiresAt)),
                          Some("Token generated successfully"), None));
    case Err(e) =>
      r := Err(HttpError(InternalServerError, "Failed to generate token: " + ErrorMessage(e)));
  }

  /**
   * A freshly issued token, until it expires, is the user's current token and
   * authenticates that user through the store alone: the provider is not
   * consulted and the users table is untouched.
   */
  lemma {:induction false} IssuedTokenAuthenticates(users: seq<User>, tokens: seq<UserToken>, req: GenerateTokenRequest,
                                                    tokenId: string, value: string, now: Time, at: Time,
                                                    decode: string -> Option<Claims>, fetch: string -> Option<ClerkUser>,
                                                    newUserId: string)
    requires UsersUnique(users) && TokensUnique(tokens)
    requires forall i :: 0 <= i < |tokens| ==> tokens[i].createdAt < now
    requires IssueOutcome(users, tokens, req, tokenId, value, now).0.Ok?
    requires now <= at < IssueOutcome(users, tokens, req, tokenId, value, now).0.value.data.value.expiresAt
    ensures var res := IssueOutcome(users, tokens, req, tokenId, value, now);
            var issued := res.0.value.data.value;
            && LatestValid(res.1, req.clerkId, at).Some? && LatestValid(res.1, req.clerkId, at).value.token == value
            && Authenticate(users, res.1, value, decode, fetch, newUserId, at) == (Ok(issued.user), users)
  {
    var user := UserByClerkId(users, req.clerkId).value;
    var swept := Unexpired(tokens, now);
    UnexpiredKeepsUnique(tokens, now);
    var ins := InsertTokenSpec(swept, user.id, req.clerkId, EffectiveTtl(req.expiresInMinutes), tokenId, value, now);
    var t := ins.0.value;
    assert forall i :: 0 <= i < |swept| ==> swept[i].createdAt < t.createdAt by {
      forall i | 0 <= i < |swept| ensures swept[i].createdAt < t.createdAt {
        assert swept[i] in tokens;
      }
    }
    NewTokenIsCurrentAndAccepted(users, swept, t, user, now, at);
  }

  // ---------------------------------------------------------------------------
  // get_existing_token, verify_token_endpoint

  /** `get_existing_token`: the authenticated user's current token, or 404 when none is unexpired. */
  function GetExistingToken(db: DatabaseService, currentUser: User, now: Time): (r: Result<ApiResponse<AuthenticatedUser>, HttpError>)
    reads db
    ensures r.Err? <==> forall i :: 0 <= i < |db.tokens| ==> !ValidFor(db.tokens[i], currentUser.clerkId, now)
    ensures r.Err? ==> r.error == HttpError(NotFound, "No valid token found")
    ensures r.Ok? ==>
      && r.value.success && r.value.data.Some? && r.value.data.value.user == currentUser
      && exists i :: 0 <= i < |db.tokens| && ValidFor(db.tokens[i], currentUser.clerkId, now)
                     && db.tokens[i].token == r.value.data.value.token && db.tokens[i].expiresAt == r.value.data.value.expiresAt
                     && forall j :: 0 <= j < |db.tokens| && ValidFor(db.tokens[j], currentUser.clerkId, now) ==>
                          db.tokens[j].createdAt <= db.tokens[i].createdAt
  {
    match db.GetValidToken(currentUser.clerkId, now)
    case None => Err(HttpError(NotFound, "No valid token found"))
    case Some(t) =>
      assert exists i :: 0 <= i < |db.tokens| && db.tokens[i] == t;
      Ok(ApiResponse(true, Some(AuthenticatedUser(currentUser, t.token, t.expiresAt)), Some("Token retrieved successfully"), None))
  }

  /** `verify_token_endpoint`: never an HTTP error; an unknown or expired token gives an unsuccessful envelope. */
  function VerifyTokenEndpoint(db: DatabaseService, token: string, now: Time): (r: ApiResponse<User>)
    reads db
    ensures r.success <==> VerifiedOwner(db.users, db.tokens, token, now).Some?
    ensures r.success ==> r.data == VerifiedOwner(db.users, db.tokens, token, now)
    ensures r.success ==> r.data.Some? && r.data.value in db.users && r.message == Some("Token is valid") && r.error.None?
    ensures !r.success ==> r.data.None? && r.error == Some("Invalid or expired token")
  {
    match db.VerifyToken(token, now)
    case None => ApiResponse(false, None, None, Some("Invalid or expired token"))
    case Some(u) => ApiResponse(true, Some(u), Some("Token is valid"), None)
  }
}
