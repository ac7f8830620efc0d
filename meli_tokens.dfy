/** The token store of the marketplace service (backend/src/meli/meli.service.ts): rows
    are looked up per owner, refreshed in place, and added by the OAuth callback. The
    single-tenant revision (Backend/src/meli/meli.service.ts) runs the same code with no
    owner: its lookups consider every row and its callback stores ownerless rows. */
module MeliTokens {
  import opened Common
  import opened MeliTokenModel
  import Newest

  /** The query parameters of the authorization URL, in order (getAuthUrl). The owner
      travels as `state`; the caller's own state, when given, as `app_state`. */
  function AuthUrlParams(cfg: MeliConfig, ownerUserId: string, state: Option<string>): (r: Result<seq<(string, string)>>)
    ensures r.Err? <==> !Truthy(cfg.clientId)
    ensures r.Err? ==> r.error == InternalServerError
    ensures r.Ok? ==>
      && |r.value| == (if Truthy(state) then 5 else 4)
      && r.value[1] == ("client_id", cfg.clientId.value)
      && r.value[2] == ("redirect_uri", RedirectUri(cfg))
      && r.value[3] == ("state", ownerUserId)
      && (Truthy(state) ==> r.value[4] == ("app_state", state.value))
  {
    if !Truthy(cfg.clientId) then Err(InternalServerError)
    else
      var params := [("response_type", "code"), ("client_id", cfg.clientId.value),
                     ("redirect_uri", RedirectUri(cfg)), ("state", ownerUserId)];
      Ok(if Truthy(state) then params + [("app_state", state.value)] else params)
  }

  class TokenStore {
    /** The `meli_tokens` table, in store order. */
    var rows: seq<MeliToken>

    constructor(initial: seq<MeliToken>)
      ensures rows == initial
    {
      rows := initial;
    }

    /** getLatestToken: the newest row in scope. */
    method GetLatestToken(owner: Option<string>) returns (r: Result<nat>)
      ensures r == LatestToken(rows, owner)
    {
      var found := Newest.FindLatest(rows, InScope(owner), CreatedAt);
      r := if found.None? then Err(NotFound) else Ok(found.value);
    }

    /** refreshAccessToken: merges the token endpoint's answer into row `i` and saves it. */
    method RefreshAccessToken(cfg: MeliConfig, i: nat, reply: Reply<TokenResponse>, now: int) returns (r: Result<MeliToken>)
      requires i < |rows|
      modifies this
      ensures r == RefreshOutcome(cfg, old(rows)[i], reply, now)
      ensures rows == if r.Ok? then old(rows)[i := r.value] else old(rows)
    {
      if !Truthy(cfg.clientId) || !Truthy(cfg.clientSecret) {
        return Err(InternalServerError);
      }
      match reply {
        case Failed(_, _) =>
          return Err(Unauthorized);
        case Answered(data) =>
          var token := rows[i];
          token := token.(accessToken := data.accessToken);
          token := token.(refreshToken := if Truthy(data.refreshToken) then data.refreshToken else token.refreshToken);
          token := token.(tokenType := data.tokenType);
          token := token.(scope := if data.scope.Some? then data.scope else token.scope);
          token := token.(expiresAt := now + data.expiresIn * 1000);
          rows := rows[i := token];
          return Ok(token);
      }
    }

    /** ensureAccessToken: the environment token, the owner's stored token while it does
        not expire soon, or the token a refresh produces. */
    method EnsureAccessToken(cfg: MeliConfig, owner: Option<string>, now: int, reply: Reply<TokenResponse>) returns (r: Result<string>)
      modifies this
      ensures (r, rows) == EnsureOutcome(cfg, old(rows), owner, now, reply)
    {
      if Truthy(cfg.accessToken) {
        return Ok(cfg.accessToken.value);
      }
      var latest := GetLatestToken(owner);
      if latest.Err? {
        return Err(latest.error);
      }
      var i := latest.value;
      if !ExpiresSoon(rows[i], now) {
        return Ok(rows[i].accessToken);
      }
      if !Truthy(rows[i].refreshToken) {
        return Err(Unauthorized);
      }
      var refreshed := RefreshAccessToken(cfg, i, reply, now);
      if refreshed.Err? {
        return Err(refreshed.error);
      }
      return Ok(refreshed.value.accessToken);
    }

    /** handleCallback: exchanges the code and stores one new row owned by `state` when
        it is non-empty. Missing client credentials or a failed exchange are a 500 and
        store nothing. */
    method HandleCallback(cfg: MeliConfig, state: Option<string>, exchange: Reply<TokenResponse>, newId: string, now: int)
      returns (r: Result<MeliToken>)
      modifies this
      ensures r.Err? ==> r.error == InternalServerError && rows == old(rows)
      ensures r.Ok? <==> Truthy(cfg.clientId) && Truthy(cfg.clientSecret) && exchange.Answered?
      ensures r.Ok? ==>
        && r.value == CallbackToken(exchange.data, if Truthy(state) then state else None, newId, now)
        && rows == old(rows) + [r.value]
    {
      var owner := if Truthy(state) then state else None;
      if !Truthy(cfg.clientId) || !Truthy(cfg.clientSecret) {
        return Err(InternalServerError);
      }
      if exchange.Failed? {
        return Err(InternalServerError);
      }
      var token := CallbackToken(exchange.data, owner, newId, now);
      rows := rows + [token];
      return Ok(token);
    }
  }

  /** A row stored by the callback at `now` is the owner's newest when no earlier row of
      that owner was created after `now`, so the next ensureAccessToken uses it. */
  lemma {:induction false} CallbackTokenIsUsedNext(rows: seq<MeliToken>, resp: TokenResponse, owner: string, id: string, now: int)
    requires forall j :: 0 <= j < |rows| && rows[j].ownerUserId == Some(owner) ==> rows[j].createdAt < now
    ensures LatestToken(rows + [CallbackToken(resp, Some(owner), id, now)], Some(owner)) == Ok(|rows|)
  {
    var after := rows + [CallbackToken(resp, Some(owner), id, now)];
    LatestTokenIsNewest(after, Some(owner));
    assert Newest.IsNewest(after, InScope(Some(owner)), CreatedAt, |rows|);
  }
}
