/** The marketplace OAuth token rows and the rules both revisions of the marketplace
    service apply to them: which row is used, when it counts as expiring, and how a
    refresh response is merged into it (backend/src/meli/meli.service.ts:644-728,
    Backend/src/meli/meli.service.ts:212-280). Timestamps are integer milliseconds. */
module MeliTokenModel {
  import opened Common
  import Newest

  /** A token is refreshed one minute before it expires. */
  const TokenExpiryBufferMs: int := 60000

  /** A row of `meli_tokens`. The single-tenant revision never sets `ownerUserId`. */
  datatype MeliToken = MeliToken(
    id: string,
    accessToken: string,
    refreshToken: Option<string>,
    tokenType: Option<string>,
    scope: Option<string>,
    userId: Option<int>,
    ownerUserId: Option<string>,
    expiresAt: int,
    createdAt: int)

  /** The body of a successful answer of the marketplace's `/oauth/token`. */
  datatype TokenResponse = TokenResponse(
    accessToken: string,
    refreshToken: Option<string>,
    tokenType: Option<string>,
    scope: Option<string>,
    expiresIn: int,
    userId: Option<int>)

  /** The configuration values the services read; a value that is not set is None. */
  datatype MeliConfig = MeliConfig(
    accessToken: Option<string>,
    clientId: Option<string>,
    clientSecret: Option<string>,
    redirectUri: Option<string>)

  /** The redirect URI used when none is configured. */
  const DefaultRedirectUri := "http://localhost:3001/meli/callback"

  function RedirectUri(cfg: MeliConfig): string
  {
    if Truthy(cfg.redirectUri) then cfg.redirectUri.value else DefaultRedirectUri
  }

  /** The row handleCallback stores for a token the code exchange produced. */
  function CallbackToken(resp: TokenResponse, owner: Option<string>, id: string, now: int): MeliToken
  {
    MeliToken(id, resp.accessToken, resp.refreshToken, resp.tokenType, resp.scope,
              resp.userId, owner, now + resp.expiresIn * 1000, now)
  }

  function CreatedAt(t: MeliToken): int { t.createdAt }

  /** The rows a lookup considers: those of `owner`, or every row when there is no owner
      to filter by (the single-tenant revision). */
  function InScope(owner: Option<string>): MeliToken -> bool
  {
    (t: MeliToken) => owner.None? || t.ownerUserId == owner
  }

  /** getLatestToken: the newest row in scope, NotFound when there is none. */
  function LatestToken(rows: seq<MeliToken>, owner: Option<string>): (r: Result<nat>)
    ensures r.Ok? ==> r.value < |rows| && InScope(owner)(rows[r.value])
    ensures r.Err? ==> r.error == NotFound
  {
    match Newest.Latest(rows, InScope(owner), CreatedAt)
    case None => Err(NotFound)
    case Some(i) => Ok(i)
  }

  /** The lookup fails exactly when no row is in scope, and otherwise finds the newest
      row in scope. */
  lemma LatestTokenIsNewest(rows: seq<MeliToken>, owner: Option<string>)
    ensures LatestToken(rows, owner).Err? <==> forall j :: 0 <= j < |rows| ==> !InScope(owner)(rows[j])
    ensures forall i: nat :: LatestToken(rows, owner) == Ok(i) <==> Newest.IsNewest(rows, InScope(owner), CreatedAt, i)
  {
    Newest.LatestIsNewest(rows, InScope(owner), CreatedAt);
  }

  /** The expiry test of ensureAccessToken and hasValidToken. */
  predicate ExpiresSoon(t: MeliToken, now: int)
  {
    t.expiresAt - TokenExpiryBufferMs <= now
  }

  /** The fields refreshAccessToken assigns into the stored row before saving it. */
  function Refreshed(t: MeliToken, resp: TokenResponse, now: int): MeliToken
  {
    t.(accessToken := resp.accessToken,
       refreshToken := if Truthy(resp.refreshToken) then resp.refreshToken else t.refreshToken,
       tokenType := resp.tokenType,
       scope := if resp.scope.Some? then resp.scope else t.scope,
       expiresAt := now + resp.expiresIn * 1000)
  }

  /** A refresh keeps the row's identity, owner, marketplace user and creation time, keeps
      the old refresh token when the answer brings none, and leaves the row fresh exactly
      when the new lifetime is longer than the buffer. */
  lemma RefreshedFacts(t: MeliToken, resp: TokenResponse, now: int)
    ensures var r := Refreshed(t, resp, now);
      && r.id == t.id && r.ownerUserId == t.ownerUserId && r.userId == t.userId
      && r.createdAt == t.createdAt
      && r.accessToken == resp.accessToken && r.tokenType == resp.tokenType
      && (!Truthy(resp.refreshToken) ==> r.refreshToken == t.refreshToken)
      && (resp.scope.None? ==> r.scope == t.scope)
      && (ExpiresSoon(r, now) <==> resp.expiresIn * 1000 <= TokenExpiryBufferMs)
  {
  }

  /** What refreshAccessToken does with a stored row: missing client credentials are a
      500 raised before any call, a failed call is Unauthorized, an answer is merged. */
  function RefreshOutcome(cfg: MeliConfig, t: MeliToken, reply: Reply<TokenResponse>, now: int): (r: Result<MeliToken>)
    ensures r.Err? ==> r.error in {InternalServerError, Unauthorized}
    ensures r.Ok? ==> reply.Answered? && r.value == Refreshed(t, reply.data, now)
  {
    if !Truthy(cfg.clientId) || !Truthy(cfg.clientSecret) then Err(InternalServerError)
    else match reply
      case Failed(_, _) => Err(Unauthorized)
      case Answered(resp) => Ok(Refreshed(t, resp, now))
  }

  /** The branch ensureAccessToken takes. */
  datatype TokenStep =
    | UseEnvToken(token: string)
    | NoTokenStored
    | UseStored(index: nat)
    | NoRefreshToken
    | Refresh(index: nat)

  function PlanAccessToken(cfg: MeliConfig, rows: seq<MeliToken>, owner: Option<string>, now: int): (step: TokenStep)
    ensures step.UseStored? || step.Refresh? ==> step.index < |rows|
  {
    if Truthy(cfg.accessToken) then UseEnvToken(cfg.accessToken.value)
    else match LatestToken(rows, owner)
      case Err(_) => NoTokenStored
      case Ok(i) =>
        if !ExpiresSoon(rows[i], now) then UseStored(i)
        else if !Truthy(rows[i].refreshToken) then NoRefreshToken
        else Refresh(i)
  }

  /** ensureAccessToken as a value: the token it returns (or the error it raises) and the
      rows afterwards. `reply` is what the token endpoint would answer to a refresh. */
  function EnsureOutcome(cfg: MeliConfig, rows: seq<MeliToken>, owner: Option<string>, now: int,
                         reply: Reply<TokenResponse>): (r: (Result<string>, seq<MeliToken>))
    ensures |r.1| == |rows|
    ensures r.0.Err? ==> r.1 == rows
    ensures r.0 == Err(NotFound) <==> !Truthy(cfg.accessToken) && LatestToken(rows, owner).Err?
  {
    match PlanAccessToken(cfg, rows, owner, now)
    case UseEnvToken(token) => (Ok(token), rows)
    case NoTokenStored => (Err(NotFound), rows)
    case UseStored(i) => (Ok(rows[i].accessToken), rows)
    case NoRefreshToken => (Err(Unauthorized), rows)
    case Refresh(i) =>
      match RefreshOutcome(cfg, rows[i], reply, now)
      case Err(e) => (Err(e), rows)
      case Ok(t) => (Ok(t.accessToken), rows[i := t])
  }

  /** A configured environment token is returned and the store is not touched. A token
      that does not expire soon is returned as stored and nothing is written. */
  lemma EnsureWithoutRefresh(cfg: MeliConfig, rows: seq<MeliToken>, owner: Option<string>, now: int,
                             reply: Reply<TokenResponse>)
    ensures Truthy(cfg.accessToken) ==> EnsureOutcome(cfg, rows, owner, now, reply) == (Ok(cfg.accessToken.value), rows)
    ensures !Truthy(cfg.accessToken) && LatestToken(rows, owner).Err? ==>
      EnsureOutcome(cfg, rows, owner, now, reply) == (Err(NotFound), rows)
    ensures !Truthy(cfg.accessToken) && LatestToken(rows, owner).Ok? &&
            !ExpiresSoon(rows[LatestToken(rows, owner).value], now) ==>
      EnsureOutcome(cfg, rows, owner, now, reply) == (Ok(rows[LatestToken(rows, owner).value].accessToken), rows)
  {
  }

  /** The store changes only by a refresh of the newest row in scope, attempted exactly
      when there is no environment token and that row expires soon and has a refresh
      token, and only when the call succeeds; the result is then the new access token. */
  lemma EnsureWritesOnlyARefresh(cfg: MeliConfig, rows: seq<MeliToken>, owner: Option<string>, now: int,
                                 reply: Reply<TokenResponse>)
    ensures var (r, after) := EnsureOutcome(cfg, rows, owner, now, reply);
      after != rows ==>
        && !Truthy(cfg.accessToken)
        && LatestToken(rows, owner).Ok?
        && var i := LatestToken(rows, owner).value;
           && ExpiresSoon(rows[i], now) && Truthy(rows[i].refreshToken)
           && reply.Answered?
           && after == rows[i := Refreshed(rows[i], reply.data, now)]
           && r == Ok(reply.data.accessToken)
    ensures var (r, after) := EnsureOutcome(cfg, rows, owner, now, reply);
      PlanAccessToken(cfg, rows, owner, now).Refresh? && r.Err? ==> after == rows && r.error in {InternalServerError, Unauthorized}
  {
  }

  /** An expiring token without a refresh token is Unauthorized, and so is a refresh the
      token endpoint refuses (once the client is configured). */
  lemma EnsureUnauthorized(cfg: MeliConfig, rows: seq<MeliToken>, owner: Option<string>, now: int,
                           reply: Reply<TokenResponse>)
    requires !Truthy(cfg.accessToken) && LatestToken(rows, owner).Ok?
    requires ExpiresSoon(rows[LatestToken(rows, owner).value], now)
    requires !Truthy(rows[LatestToken(rows, owner).value].refreshToken)
             || (Truthy(cfg.clientId) && Truthy(cfg.clientSecret) && reply.Failed?)
    ensures EnsureOutcome(cfg, rows, owner, now, reply).0 == Err(Unauthorized)
  {
  }

  /** Replacing a row by one with the same creation time and scope leaves the newest row
      in scope where it was. */
  lemma {:induction false} LatestTokenAfterUpdate(rows: seq<MeliToken>, owner: Option<string>, i: nat, t: MeliToken)
    requires i < |rows|
    requires t.createdAt == rows[i].createdAt && t.ownerUserId == rows[i].ownerUserId
    ensures LatestToken(rows[i := t], owner) == LatestToken(rows, owner)
  {
    Newest.LatestSeesOnlyKeys(rows[i := t], rows, InScope(owner), CreatedAt);
  }

  /** After a successful refresh whose new lifetime exceeds the buffer, the next call at
      the same instant uses the refreshed row without refreshing again. */
  lemma RefreshThenUseStored(cfg: MeliConfig, rows: seq<MeliToken>, owner: Option<string>, now: int,
                             reply: Reply<TokenResponse>)
    requires PlanAccessToken(cfg, rows, owner, now).Refresh?
    requires EnsureOutcome(cfg, rows, owner, now, reply).0.Ok?
    requires reply.Answered? && reply.data.expiresIn * 1000 > TokenExpiryBufferMs
    ensures var after := EnsureOutcome(cfg, rows, owner, now, reply).1;
      var i := PlanAccessToken(cfg, rows, owner, now).index;
      PlanAccessToken(cfg, after, owner, now) == UseStored(i)
      && EnsureOutcome(cfg, after, owner, now, reply) == (Ok(reply.data.accessToken), after)
  {
    var i := PlanAccessToken(cfg, rows, owner, now).index;
    LatestTokenAfterUpdate(rows, owner, i, Refreshed(rows[i], reply.data, now));
  }

  /** hasValidToken (newer revision): an environment token is valid; without an owner, or
      without a stored token for the owner, there is none; otherwise it is valid exactly
      when it does not expire soon. */
  function HasValidToken(cfg: MeliConfig, rows: seq<MeliToken>, owner: Option<string>, now: int): (valid: bool)
    ensures Truthy(cfg.accessToken) ==> valid
    ensures valid && !Truthy(cfg.accessToken) ==>
      Truthy(owner) && LatestToken(rows, owner).Ok? && !ExpiresSoon(rows[LatestToken(rows, owner).value], now)
  {
    if Truthy(cfg.accessToken) then true
    else if !Truthy(owner) then false
    else match LatestToken(rows, owner)
      case Err(_) => false
      case Ok(i) => !ExpiresSoon(rows[i], now)
  }

  /** For a caller with an owner, hasValidToken is true exactly when ensureAccessToken
      would answer without a refresh and without an error. */
  lemma HasValidTokenAgreesWithEnsure(cfg: MeliConfig, rows: seq<MeliToken>, owner: Option<string>, now: int)
    ensures Truthy(owner) ==>
      (HasValidToken(cfg, rows, owner, now) <==>
        PlanAccessToken(cfg, rows, owner, now).UseEnvToken? || PlanAccessToken(cfg, rows, owner, now).UseStored?)
    ensures !Truthy(owner) ==> (HasValidToken(cfg, rows, owner, now) <==> Truthy(cfg.accessToken))
  {
  }
}
