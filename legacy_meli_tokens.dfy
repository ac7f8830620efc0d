/** What differs in the single-tenant revision's token handling
    (Backend/src/meli/meli.service.ts): the authorization URL carries the caller's state
    directly, and the token lookup ignores owners. The store itself is
    `MeliTokens.TokenStore` used with no owner. */
module LegacyMeliTokens {
  import opened Common
  import opened MeliTokenModel
  import Newest

  /** The query parameters of the authorization URL, in order (getAuthUrl): `state` is
      appended only when the caller supplies a non-empty one. */
  function AuthUrlParams(cfg: MeliConfig, state: Option<string>): (r: Result<seq<(string, string)>>)
    ensures r.Err? <==> !Truthy(cfg.clientId)
    ensures r.Err? ==> r.error == InternalServerError
    ensures r.Ok? ==>
      && |r.value| == (if Truthy(state) then 4 else 3)
      && r.value[1] == ("client_id", cfg.clientId.value)
      && r.value[2] == ("redirect_uri", RedirectUri(cfg))
      && (Truthy(state) ==> r.value[3] == ("state", state.value))
  {
    if !Truthy(cfg.clientId) then Err(InternalServerError)
    else
      var params := [("response_type", "code"), ("client_id", cfg.clientId.value),
                     ("redirect_uri", RedirectUri(cfg))];
      Ok(if Truthy(state) then params + [("state", state.value)] else params)
  }

  /** With no owner the lookup fails only on an empty table, and otherwise returns the
      newest row of the whole table, whoever owns it. */
  lemma SingleTenantLookup(rows: seq<MeliToken>)
    ensures LatestToken(rows, None).Err? <==> |rows| == 0
    ensures LatestToken(rows, None).Ok? ==>
      forall j :: 0 <= j < |rows| ==> rows[j].createdAt <= rows[LatestToken(rows, None).value].createdAt
  {
    LatestTokenIsNewest(rows, None);
    if |rows| > 0 {
      assert InScope(None)(rows[0]);
    }
    if LatestToken(rows, None).Ok? {
      assert Newest.IsNewest(rows, InScope(None), CreatedAt, LatestToken(rows, None).value);
    }
  }
}
