/** The NextAuth configuration of lib/authOptions.js: the JWT callback that
    issues, keeps or refreshes the Spotify credentials (the refresh-token
    grant of section 6 of RFC 6749), and the session callback that copies
    the token onto the client session. The clock (`Date.now()`) and the
    token endpoint's answer are parameters; the refresh path reads the
    clock twice, before the expiry check and after the token call. */
module AuthOptions {
  import opened Js

  /** `session.maxAge`: thirty days, in seconds. */
  const SessionMaxAge: int := 60 * 60 * 24 * 30

  /** The marker a failed refresh writes into `token.error`. */
  const RefreshError: string := "RefreshAccessTokenError"

  /** The JWT kept in the session cookie. A None key is undefined or null;
      a None expiry is NaN (from an `expires_in` that was undefined), which
      no clock reading is below. `claims` holds every other key the token
      carries, which a spread `...token` passes through. */
  datatype Token = Token(
    accessToken: Option<string>,
    refreshToken: Option<string>,
    accessTokenExpires: Option<int>,  // milliseconds since the epoch
    id: Option<string>,
    name: Option<string>,
    email: Option<string>,
    image: Option<string>,
    error: Option<string>,
    claims: map<string, string>)

  /** The provider account NextAuth passes on sign-in. */
  datatype Account = Account(
    access_token: Option<string>,
    refresh_token: Option<string>,
    expires_in: JsNumber)  // seconds

  /** The provider profile NextAuth passes on sign-in. */
  datatype User = User(
    id: Option<string>,
    name: Option<string>,
    email: Option<string>,
    image: Option<string>)

  /** The token endpoint's answer (section 5.1 of RFC 6749): a parsed body,
      whose `refresh_token` is optional, or a failure (network error or
      non-2xx status, both of which make axios throw). */
  datatype TokenReply =
    | Granted(access_token: Option<string>, expires_in: JsNumber, refresh_token: Option<string>)
    | Failed

  /** `now + expires_in * 1000`: an absolute instant in milliseconds; NaN
      when `expires_in` is missing, and `now` itself when it is null. */
  function ExpiryAt(now: int, expiresIn: JsNumber): (r: Option<int>)
    ensures r.None? <==> expiresIn.Undefined?
    ensures expiresIn.Null? ==> r == Some(now)
    ensures expiresIn.Num? ==> r.Some? && r.value - now == 1000 * expiresIn.n
  {
    var lifetime := Millis(expiresIn);
    if lifetime.Some? then Some(now + lifetime.value) else None
  }

  /** `Date.now() < token.accessTokenExpires`. */
  predicate StillValid(token: Token, now: int)
  {
    token.accessTokenExpires.Some? && now < token.accessTokenExpires.value
  }

  /** The identity claims and pass-through keys, which every refresh keeps. */
  predicate SameIdentity(a: Token, b: Token)
  {
    a.id == b.id && a.name == b.name && a.email == b.email && a.image == b.image
    && a.claims == b.claims
  }

  /** `refreshAccessToken(token)`: merge a granted reply into the token, or
      mark the token with the refresh error. It never throws. `refreshedAt`
      is the clock read once the reply has arrived. */
  function RefreshAccessToken(token: Token, refreshedAt: int, reply: TokenReply): (r: Token)
    ensures SameIdentity(r, token)
    ensures reply.Granted? ==>
      && r.accessToken == reply.access_token
      && r.accessTokenExpires == ExpiryAt(refreshedAt, reply.expires_in)
      && (reply.refresh_token.Some? ==> r.refreshToken == reply.refresh_token)
      && (reply.refresh_token.None? ==> r.refreshToken == token.refreshToken)
      && r.error == token.error
    ensures reply.Failed? ==>
      && r.accessToken == token.accessToken
      && r.refreshToken == token.refreshToken
      && r.accessTokenExpires == token.accessTokenExpires
      && r.error == Some(RefreshError)
  {
    match reply
    case Granted(accessToken, expiresIn, refreshToken) =>
      token.(accessToken := accessToken,
             accessTokenExpires := ExpiryAt(refreshedAt, expiresIn),
             refreshToken := Coalesce(refreshToken, token.refreshToken))
    case Failed =>
      token.(error := Some(RefreshError))
  }

  /** `callbacks.jwt`: the three-way transition of the session's token.
      `now` is the clock at the call; `refreshedAt` is the clock that
      `refreshAccessToken` reads after the token endpoint answers. */
  function Jwt(token: Token, account: Option<Account>, user: Option<User>, now: int, refreshedAt: int, reply: TokenReply): (r: Token)
    // first sign-in: a fresh envelope, nothing carried over from `token`
    ensures account.Some? && user.Some? ==>
      && r.accessToken == account.value.access_token
      && r.refreshToken == account.value.refresh_token
      && r.accessTokenExpires == ExpiryAt(now, account.value.expires_in)
      && r.id == Or(user.value.id, user.value.email)
      && r.name == user.value.name && r.email == user.value.email && r.image == user.value.image
      && r.error == None && r.claims == map[]
    // a token that has not expired is returned as it came
    ensures !(account.Some? && user.Some?) && StillValid(token, now) ==> r == token
    // an expired token goes through exactly one refresh
    ensures !(account.Some? && user.Some?) && !StillValid(token, now) ==>
      r == RefreshAccessToken(token, refreshedAt, reply)
  {
    if account.Some? && user.Some? then
      Token(
        accessToken := account.value.access_token,
        refreshToken := account.value.refresh_token,
        accessTokenExpires := ExpiryAt(now, account.value.expires_in),
        id := Or(user.value.id, user.value.email),
        name := user.value.name,
        email := user.value.email,
        image := user.value.image,
        error := None,
        claims := map[])
    else if StillValid(token, now) then
      token
    else
      RefreshAccessToken(token, refreshedAt, reply)
  }

  /** The provider's answer matters only on the refresh path: sign-in and
      an unexpired token never reach the token endpoint. */
  lemma JwtCallsProviderOnlyWhenExpired(token: Token, account: Option<Account>, user: Option<User>, now: int, refreshedAt: int, a: TokenReply, b: TokenReply)
    requires Jwt(token, account, user, now, refreshedAt, a) != Jwt(token, account, user, now, refreshedAt, b)
    ensures !(account.Some? && user.Some?) && !StillValid(token, now)
  {
  }

  /** A successful refresh of an expired token moves the expiry strictly
      later when the provider grants a positive lifetime and the clock has
      not gone back during the token call. */
  lemma RefreshMovesExpiryLater(token: Token, now: int, refreshedAt: int, reply: TokenReply)
    requires token.accessTokenExpires.Some? && now >= token.accessTokenExpires.value
    requires refreshedAt >= now
    requires reply.Granted? && reply.expires_in.Num? && reply.expires_in.n > 0
    ensures var r := Jwt(token, None, None, now, refreshedAt, reply);
      r.accessTokenExpires.Some? && r.accessTokenExpires.value > token.accessTokenExpires.value
  {
  }

  /** A token whose expiry is NaN (sign-in without `expires_in`) is refreshed
      on every later call. */
  lemma MissingExpiryAlwaysRefreshes(token: Token, now: int, refreshedAt: int, reply: TokenReply)
    requires token.accessTokenExpires.None?
    ensures Jwt(token, None, None, now, refreshedAt, reply) == RefreshAccessToken(token, refreshedAt, reply)
  {
  }

  /** A null `expires_in` counts as zero seconds: the token expires at the
      instant it was issued, and every later call refreshes it. */
  lemma NullExpiryExpiresAtOnce(account: Account, user: User, now: int, later: int, refreshedAt: int, reply: TokenReply)
    requires account.expires_in.Null? && now <= later
    ensures var issued := Jwt(Token(None, None, None, None, None, None, None, None, map[]), Some(account), Some(user), now, now, Failed);
      && issued.accessTokenExpires == Some(now)
      && Jwt(issued, None, None, later, refreshedAt, reply) == RefreshAccessToken(issued, refreshedAt, reply)
  {
  }

  /** Successive calls of `jwt` after sign-in: each with its clock reading
      and, if it refreshes, the token endpoint's answer and the clock read
      after it. */
  datatype Access = Access(now: int, refreshedAt: int, reply: TokenReply)

  /** The token after a sequence of calls in which no sign-in happens. */
  function Replay(token: Token, accesses: seq<Access>): Token
    decreases |accesses|
  {
    if |accesses| == 0 then token
    else Replay(Jwt(token, None, None, accesses[0].now, accesses[0].refreshedAt, accesses[0].reply), accesses[1..])
  }

  /** Refreshes never change who the session belongs to. */
  lemma {:induction false} ReplayKeepsIdentity(token: Token, accesses: seq<Access>)
    ensures SameIdentity(Replay(token, accesses), token)
    decreases |accesses|
  {
    if |accesses| > 0 {
      var next := Jwt(token, None, None, accesses[0].now, accesses[0].refreshedAt, accesses[0].reply);
      ReplayKeepsIdentity(next, accesses[1..]);
    }
  }

  /** Once set, `error` stays until the next sign-in: a later successful
      refresh spreads the old token and does not clear it. */
  lemma {:induction false} ReplayKeepsError(token: Token, accesses: seq<Access>)
    requires token.error.Some?
    ensures Replay(token, accesses).error == token.error
      || Replay(token, accesses).error == Some(RefreshError)
    decreases |accesses|
  {
    if |accesses| > 0 {
      var next := Jwt(token, None, None, accesses[0].now, accesses[0].refreshedAt, accesses[0].reply);
      ReplayKeepsError(next, accesses[1..]);
      if next.error != token.error {
        ReplayKeepsRefreshError(next, accesses[1..]);
      }
    }
  }

  /** After a failed refresh the marker survives every later call. */
  lemma {:induction false} ReplayKeepsRefreshError(token: Token, accesses: seq<Access>)
    requires token.error == Some(RefreshError)
    ensures Replay(token, accesses).error == Some(RefreshError)
    decreases |accesses|
  {
    if |accesses| > 0 {
      var next := Jwt(token, None, None, accesses[0].now, accesses[0].refreshedAt, accesses[0].reply);
      ReplayKeepsRefreshError(next, accesses[1..]);
    }
  }

  /** A refresh token, once held, is never lost: a reply without one keeps
      the previous one, and a failed refresh keeps it too. */
  lemma {:induction false} ReplayKeepsRefreshToken(token: Token, accesses: seq<Access>)
    requires token.refreshToken.Some?
    ensures Replay(token, accesses).refreshToken.Some?
    decreases |accesses|
  {
    if |accesses| > 0 {
      var next := Jwt(token, None, None, accesses[0].now, accesses[0].refreshedAt, accesses[0].reply);
      ReplayKeepsRefreshToken(next, accesses[1..]);
    }
  }

  /** A failed refresh is not terminal: the next expired call tries again
      with the same stale refresh token. */
  lemma FailedRefreshRetriesWithSameToken(token: Token, now: int, refreshedAt: int, later: int)
    requires !StillValid(token, now) && now <= later
    ensures var failed := Jwt(token, None, None, now, refreshedAt, Failed);
      failed.refreshToken == token.refreshToken && !StillValid(failed, later)
  {
  }

  /** `session.user` as the session callback sees it. */
  class SessionUser {
    var id: Option<string>
    var name: Option<string>
    var email: Option<string>
    var image: Option<string>

    constructor (name: Option<string>, email: Option<string>, image: Option<string>)
      ensures this.id.None? && this.name == name && this.email == email && this.image == image
    {
      this.id := None;
      this.name := name;
      this.email := email;
      this.image := image;
    }
  }

  /** The session object NextAuth hands to the session callback and, after
      it, to `getServerSession`. `expires` is NextAuth's own key. */
  class Session {
    var user: SessionUser
    var accessToken: Option<string>
    var refreshToken: Option<string>
    var error: Option<string>
    var expires: string

    constructor (user: SessionUser, expires: string)
      ensures this.user == user && this.expires == expires
      ensures accessToken.None? && refreshToken.None? && error.None?
    {
      this.user := user;
      this.expires := expires;
      this.accessToken := None;
      this.refreshToken := None;
      this.error := None;
    }
  }

  /** `callbacks.session`: copies the token's identity, credentials and
      error onto the passed-in session in place, and returns that object. */
  method SessionCallback(session: Session, token: Token) returns (r: Session)
    modifies session, session.user
    ensures r == session && session.user == old(session.user)
    ensures session.user.id == token.id && session.user.name == token.name
    ensures session.user.email == token.email && session.user.image == token.image
    ensures session.accessToken == token.accessToken
    ensures session.refreshToken == token.refreshToken
    ensures session.error == token.error
    ensures session.expires == old(session.expires)
  {
    session.user.id := token.id;
    session.user.name := token.name;
    session.user.email := token.email;
    session.user.image := token.image;
    session.accessToken := token.accessToken;
    session.refreshToken := token.refreshToken;
    session.error := token.error;
    r := session;
  }

  /** `session?.user?.id`, read as a guard: the caller's id when the session
      exists and its id is truthy (an empty id is refused). */
  function SignedInId(session: Session?): (id: Option<string>)
    reads if session == null then {} else {session, session.user}
    ensures id.Some? <==> session != null && Truthy(session.user.id)
    ensures id.Some? ==> id == session.user.id
  {
    if session != null && Truthy(session.user.id) then session.user.id else None
  }
}
