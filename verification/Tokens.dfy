/**
 Token pairs and their refresh chains, from the context they are minted for to the organization
 decision on the server. A nil slice is None and an empty one Some([]). A signed token carries its
 JSON body; whoever holds the key it was signed with can verify it.
 */
module Tokens {
  import opened Machine
  import opened Wrappers

  type Strings = Option<seq<string>>

  datatype AppContext = AppContext(
    app: string, orgID: string, orgType: string, cityID: int, orgRole: string,
    platformRoles: Strings, orgIDs: Strings)

  datatype TokenType = Access | Refreshing

  // Registered times are whole seconds.
  datatype Claims = Claims(
    userID: int, phone: string, deviceID: string, tokenType: Option<TokenType>,
    app: string, orgID: string, orgType: string, cityID: int, orgRole: string,
    platformRoles: Strings, orgIDs: Strings,
    issuer: string, expiresAt: int, issuedAt: int)

  // A JSON array, null, or no field at all.
  datatype List = Absent | Null | Items(items: seq<string>)

  // The body on the wire. None is a field left out.
  datatype Body = Body(
    userID: int, phone: Option<string>, deviceID: Option<string>, tokenType: Option<TokenType>,
    app: Option<string>, orgID: Option<string>, orgType: Option<string>, cityID: Option<int>, orgRole: Option<string>,
    platformRoles: List, orgs: List,
    iss: Option<string>, exp: int, iat: int)

  function OmitEmpty(s: string): Option<string> {
    if s == "" then None else Some(s)
  }

  function OrEmpty(s: Option<string>): string {
    if s.None? then "" else s.value
  }

  // Roles are left out when there are none; organizations are always written, nil as null.
  function Marshal(c: Claims): Body {
    Body(c.userID, OmitEmpty(c.phone), OmitEmpty(c.deviceID), c.tokenType,
         OmitEmpty(c.app), OmitEmpty(c.orgID), OmitEmpty(c.orgType),
         if c.cityID == 0 then None else Some(c.cityID), OmitEmpty(c.orgRole),
         if c.platformRoles.None? || c.platformRoles.value == [] then Absent else Items(c.platformRoles.value),
         if c.orgIDs.None? then Null else Items(c.orgIDs.value),
         OmitEmpty(c.issuer), c.expiresAt, c.issuedAt)
  }

  function Slice(l: List): Strings {
    if l.Items? then Some(l.items) else None
  }

  function Unmarshal(b: Body): Claims {
    Claims(b.userID, OrEmpty(b.phone), OrEmpty(b.deviceID), b.tokenType,
           OrEmpty(b.app), OrEmpty(b.orgID), OrEmpty(b.orgType),
           if b.cityID.None? then 0 else b.cityID.value, OrEmpty(b.orgRole),
           Slice(b.platformRoles), Slice(b.orgs),
           OrEmpty(b.iss), b.exp, b.iat)
  }

  /** What travels in a token comes out as it went in, organizations nil or empty as they were; only an empty role
      list becomes none. */
  lemma ClaimsRoundTrip(c: Claims)
    ensures Unmarshal(Marshal(c)) ==
      c.(platformRoles := if c.platformRoles == Some([]) then None else c.platformRoles)
  {
  }

  datatype Issuer =
    | Manager(secret: string, issuer: string, accessTTL: int, refreshTTL: int)
    | Signer(privateKey: nat, kid: string, issuer: string, accessTTL: int, refreshTTL: int)

  datatype Token =
    | HS256(secret: string, body: Body)
    | RS256(privateKey: nat, kid: string, body: Body)

  datatype Pair = Pair(access: Token, refresh: Token, expiresAt: int, refreshExpiresAt: int)

  datatype Error = Expired | Invalid | WrongTokenType

  datatype Identity = Identity(userID: int, phone: string, deviceID: string)

  function BuildClaims(who: Identity, ctx: AppContext, ttl: int, kind: TokenType, issuer: string, now: int): Claims {
    Claims(who.userID, who.phone, who.deviceID, Some(kind),
           ctx.app, ctx.orgID, ctx.orgType, ctx.cityID, ctx.orgRole,
           if kind == Access then ctx.platformRoles else None, ctx.orgIDs,
           issuer, (now + ttl) / SECOND, now / SECOND)
  }

  function Sign(i: Issuer, c: Claims): Token {
    match i
    case Manager(secret, _, _, _) => HS256(secret, Marshal(c))
    case Signer(privateKey, kid, _, _, _) => RS256(privateKey, kid, Marshal(c))
  }

  // The clock is read once per token.
  function Generate(i: Issuer, who: Identity, ctx: AppContext, now: int, later: int): Pair {
    Pair(Sign(i, BuildClaims(who, ctx, i.accessTTL, Access, i.issuer, now)),
         Sign(i, BuildClaims(who, ctx, i.refreshTTL, Refreshing, i.issuer, later)),
         now + i.accessTTL, later + i.refreshTTL)
  }

  // A Signer that has an issuer name insists on it.
  function Parse(i: Issuer, t: Token, now: int): Result<Claims, Error> {
    var authentic := match i
      case Manager(secret, _, _, _) => t.HS256? && t.secret == secret
      case Signer(privateKey, _, _, _, _) => t.RS256? && t.privateKey == privateKey;
    if !authentic then Err(Invalid)
    else
      var c := Unmarshal(t.body);
      if now >= c.expiresAt * SECOND then Err(Expired)
      else if i.Signer? && i.issuer != "" && c.issuer != i.issuer then Err(Invalid)
      else Ok(c)
  }

  function Validate(i: Issuer, t: Token, kind: TokenType, now: int): Result<Claims, Error> {
    match Parse(i, t, now)
    case Err(e) => Err(e)
    case Ok(c) => if c.tokenType != Some(kind) then Err(WrongTokenType) else Ok(c)
  }

  function Refresh(i: Issuer, t: Token, now: int, later: int): Result<Pair, Error> {
    match Validate(i, t, Refreshing, now)
    case Err(e) => Err(e)
    case Ok(c) =>
      var ctx := AppContext(c.app, c.orgID, c.orgType, c.cityID, c.orgRole, None, c.orgIDs);
      Ok(Generate(i, Identity(c.userID, c.phone, c.deviceID), ctx, now, later))
  }

  // ----- Refresh chains -----

  datatype Turn = Turn(issuer: Issuer, now: int, later: int)

  // Refreshing over and over, each time with the latest refresh token.
  function Chain(first: Pair, turns: seq<Turn>): Option<Pair> {
    if turns == [] then Some(first)
    else
      var before, t := Chain(first, turns[..|turns| - 1]), turns[|turns| - 1];
      if before.None? then None
      else
        match Refresh(t.issuer, before.value.refresh, t.now, t.later)
        case Ok(p) => Some(p)
        case Err(_) => None
  }

  // The claims speak of this caller in this context, roles aside.
  predicate SpeaksFor(c: Claims, who: Identity, ctx: AppContext) {
    && c.userID == who.userID && c.phone == who.phone && c.deviceID == who.deviceID
    && c.app == ctx.app && c.orgID == ctx.orgID && c.orgType == ctx.orgType
    && c.cityID == ctx.cityID && c.orgRole == ctx.orgRole && c.orgIDs == ctx.orgIDs
  }

  predicate GoodPair(p: Pair, who: Identity, ctx: AppContext) {
    var a, r := Unmarshal(p.access.body), Unmarshal(p.refresh.body);
    && SpeaksFor(a, who, ctx) && a.tokenType == Some(Access)
    && SpeaksFor(r, who, ctx) && r.tokenType == Some(Refreshing) && r.platformRoles.None?
  }

  // A token minted by i at a time: its header names the key, its body the issuer and the second.
  predicate MintedBy(i: Issuer, t: Token, at: int) {
    && (t.RS256? ==> i.Signer? && t.kid == i.kid)
    && Unmarshal(t.body).issuer == i.issuer && Unmarshal(t.body).issuedAt == at / SECOND
  }

  lemma GeneratedIsGood(i: Issuer, who: Identity, ctx: AppContext, now: int, later: int)
    ensures GoodPair(Generate(i, who, ctx, now, later), who, ctx)
    ensures MintedBy(i, Generate(i, who, ctx, now, later).access, now)
    ensures MintedBy(i, Generate(i, who, ctx, now, later).refresh, later)
    ensures Unmarshal(Generate(i, who, ctx, now, later).access.body).platformRoles ==
      if ctx.platformRoles == Some([]) then None else ctx.platformRoles
  {
    hide Marshal, Unmarshal;
    ClaimsRoundTrip(BuildClaims(who, ctx, i.accessTTL, Access, i.issuer, now));
    ClaimsRoundTrip(BuildClaims(who, ctx, i.refreshTTL, Refreshing, i.issuer, later));
  }

  lemma RefreshedIsGood(i: Issuer, p: Pair, who: Identity, ctx: AppContext, now: int, later: int)
    requires GoodPair(p, who, ctx) && Refresh(i, p.refresh, now, later).Ok?
    ensures
      var p' := Refresh(i, p.refresh, now, later).value;
      GoodPair(p', who, ctx) && Unmarshal(p'.access.body).platformRoles.None?
  {
    hide Marshal, Unmarshal, Generate;
    var bare := ctx.(platformRoles := None);
    GeneratedIsGood(i, who, bare, now, later);
    assert Refresh(i, p.refresh, now, later).value == Generate(i, who, bare, now, later);
  }

  /** Along every chain of refreshes, by whichever issuers accept it: both tokens speak for the original caller in the
      original context, organizations nil or empty as they were; no refresh token carries platform roles; and after
      the first pair no access token does. */
  lemma {:induction false} ChainKeepsContext(i: Issuer, who: Identity, ctx: AppContext, now: int, later: int, turns: seq<Turn>)
    requires Chain(Generate(i, who, ctx, now, later), turns).Some?
    ensures
      var p := Chain(Generate(i, who, ctx, now, later), turns).value;
      && GoodPair(p, who, ctx)
      && (turns != [] ==> Unmarshal(p.access.body).platformRoles.None?)
  {
    hide Generate, GoodPair, Refresh, Unmarshal;
    var first := Generate(i, who, ctx, now, later);
    if turns == [] {
      GeneratedIsGood(i, who, ctx, now, later);
    } else {
      var front, t := turns[..|turns| - 1], turns[|turns| - 1];
      ChainKeepsContext(i, who, ctx, now, later, front);
      RefreshedIsGood(t.issuer, Chain(first, front).value, who, ctx, t.now, t.later);
    }
  }

  // ----- Who accepts what -----

  // The same sort of issuer, with the same key.
  predicate SameKey(i: Issuer, j: Issuer) {
    if i.Manager? then j.Manager? && j.secret == i.secret else j.Signer? && j.privateKey == i.privateKey
  }

  // A Signer with a name accepts only that name; a Manager does not look.
  predicate AcceptsName(i: Issuer, name: string) {
    i.Manager? || i.issuer == "" || i.issuer == name
  }

  // The last second of a token's life ends here.
  function Deadline(minted: int, ttl: int): int {
    (minted + ttl) / SECOND * SECOND
  }

  function TokenOf(p: Pair, kind: TokenType): Token {
    if kind == Access then p.access else p.refresh
  }

  lemma MintedParses(i: Issuer, j: Issuer, who: Identity, ctx: AppContext, ttl: int, kind: TokenType, minted: int, at: int)
    ensures
      var r := Parse(i, Sign(j, BuildClaims(who, ctx, ttl, kind, j.issuer, minted)), at);
      && (r.Ok? <==> SameKey(i, j) && at < Deadline(minted, ttl) && AcceptsName(i, j.issuer))
      && (r.Ok? ==> r.value.tokenType == Some(kind))
      && (r == Err(Expired) <==> SameKey(i, j) && at >= Deadline(minted, ttl))
  {
    hide Marshal, Unmarshal;
    ClaimsRoundTrip(BuildClaims(who, ctx, ttl, kind, j.issuer, minted));
  }

  /** Exactly which tokens an issuer accepts, over all pairs of issuers: of the right kind those minted under its own
      sort of key with the very same key, under a name it accepts, before their deadline; of the other kind none. */
  lemma AcceptedIff(i: Issuer, j: Issuer, who: Identity, ctx: AppContext, now: int, later: int, kind: TokenType, at: int)
    ensures
      var p := Generate(j, who, ctx, now, later);
      var deadline := if kind == Access then Deadline(now, j.accessTTL) else Deadline(later, j.refreshTTL);
      && (Validate(i, TokenOf(p, kind), kind, at).Ok? <==>
            SameKey(i, j) && AcceptsName(i, j.issuer) && at < deadline)
      && Validate(i, TokenOf(p, if kind == Access then Refreshing else Access), kind, at).Err?
      && (Validate(i, TokenOf(p, kind), kind, at) == Err(Expired) <==> SameKey(i, j) && at >= deadline)
  {
    hide Parse, Sign, BuildClaims, Deadline, SameKey, AcceptsName;
    MintedParses(i, j, who, ctx, j.accessTTL, Access, now, at);
    MintedParses(i, j, who, ctx, j.refreshTTL, Refreshing, later, at);
  }

  /** A pair can be refreshed by an issuer exactly until its refresh token's expiry, cut down to the second, and only by
      one that holds its key and accepts its name; its access token never can. The pair tells its expiry. */
  lemma RefreshWorksIff(i: Issuer, j: Issuer, who: Identity, ctx: AppContext, now: int, later: int, at: int, after: int)
    ensures
      var p := Generate(j, who, ctx, now, later);
      && (Refresh(i, p.refresh, at, after).Ok? <==>
            SameKey(i, j) && AcceptsName(i, j.issuer) && at < p.refreshExpiresAt / SECOND * SECOND)
      && Refresh(i, p.access, at, after).Err?
      && p.expiresAt == now + j.accessTTL && p.refreshExpiresAt == later + j.refreshTTL
  {
    hide Validate, BuildClaims, Sign, SameKey, AcceptsName;
    AcceptedIff(i, j, who, ctx, now, later, Refreshing, at);
  }

  // The token is signed with i's key.
  predicate SignedWith(i: Issuer, t: Token) {
    if i.Manager? then t.HS256? && t.secret == i.secret else t.RS256? && t.privateKey == i.privateKey
  }

  lemma RefreshNeedsKey(i: Issuer, j: Issuer, t: Token, now: int, later: int)
    requires SignedWith(j, t) && Refresh(i, t, now, later).Ok?
    ensures SameKey(i, j) && SignedWith(j, Refresh(i, t, now, later).value.refresh)
  {
    hide Marshal, Unmarshal;
  }

  /** Every issuer of a completed chain holds the key the first pair was signed with. */
  lemma {:induction false} ChainKeepsKey(i: Issuer, who: Identity, ctx: AppContext, now: int, later: int, turns: seq<Turn>)
    requires Chain(Generate(i, who, ctx, now, later), turns).Some?
    ensures SignedWith(i, Chain(Generate(i, who, ctx, now, later), turns).value.refresh)
    ensures forall k | 0 <= k < |turns| :: SameKey(turns[k].issuer, i)
  {
    hide Refresh, SameKey, SignedWith;
    var first := Generate(i, who, ctx, now, later);
    if turns == [] {
      GeneratedIsSigned(i, who, ctx, now, later);
    } else {
      var front, t := turns[..|turns| - 1], turns[|turns| - 1];
      ChainKeepsKey(i, who, ctx, now, later, front);
      RefreshNeedsKey(t.issuer, i, Chain(first, front).value.refresh, t.now, t.later);
      assert forall k | 0 <= k < |front| :: turns[k] == front[k];
    }
  }

  lemma GeneratedIsSigned(i: Issuer, who: Identity, ctx: AppContext, now: int, later: int)
    ensures SignedWith(i, Generate(i, who, ctx, now, later).refresh)
  {
    hide Marshal, BuildClaims;
  }

  // ----- The server side -----

  datatype AuthInfo = AuthInfo(
    userID: int, phone: string, deviceID: string, app: string, orgID: string, orgType: string,
    cityID: int, orgRole: string, platformRoles: Strings, orgIDs: Strings)

  // The adapter and then the interceptor copy verified claims, field by field.
  function Authenticated(c: Claims): AuthInfo {
    AuthInfo(c.userID, c.phone, c.deviceID, c.app, c.orgID, c.orgType, c.cityID, c.orgRole, c.platformRoles, c.orgIDs)
  }

  // Roles looked up live replace those of the token; without a caller there is nothing to add them to.
  function WithPlatformRoles(auth: Option<AuthInfo>, roles: Strings): Option<AuthInfo> {
    if auth.None? then None else Some(auth.value.(platformRoles := roles))
  }

  /** What a handler sees of the caller is what the first pair was minted for. Platform roles come from the first
      access token alone. */
  lemma {:induction false} CallerSurvives(i: Issuer, who: Identity, ctx: AppContext, now: int, later: int, turns: seq<Turn>,
                                          verifier: Issuer, at: int)
    requires Chain(Generate(i, who, ctx, now, later), turns).Some?
    requires Validate(verifier, Chain(Generate(i, who, ctx, now, later), turns).value.access, Access, at).Ok?
    ensures
      var claims := Validate(verifier, Chain(Generate(i, who, ctx, now, later), turns).value.access, Access, at).value;
      Authenticated(claims) ==
        AuthInfo(who.userID, who.phone, who.deviceID, ctx.app, ctx.orgID, ctx.orgType, ctx.cityID, ctx.orgRole,
                 if turns != [] || ctx.platformRoles == Some([]) then None else ctx.platformRoles, ctx.orgIDs)
  {
    hide Generate, Unmarshal;
    ChainKeepsContext(i, who, ctx, now, later, turns);
    GeneratedIsGood(i, who, ctx, now, later);
  }

  datatype Decision = Permitted | Unauthenticated | PermissionDenied

  function EnforceOrgMatch(auth: Option<AuthInfo>, requested: string): Decision {
    if auth.None? then Unauthenticated
    else if auth.value.userID == 0 then Permitted
    else if requested == "" then Permitted
    else if auth.value.orgIDs.Some? then
      if requested in auth.value.orgIDs.value then Permitted else PermissionDenied
    else if auth.value.orgID == "" then Permitted
    else if auth.value.orgID != requested then PermissionDenied
    else Permitted
  }

  // Who may act for an organization, in terms of the context a token was minted for.
  predicate MayActFor(who: Identity, ctx: AppContext, requested: string) {
    || who.userID == 0
    || requested == ""
    || (ctx.orgIDs.Some? && requested in ctx.orgIDs.value)
    || (ctx.orgIDs.None? && ctx.orgID in {"", requested})
  }

  /** End to end: whatever chain of refreshes an access token comes from, and whichever roles are put in on the way,
      the organization check decides by the context the first pair was minted for; and roles alone make no caller. */
  lemma OrgDecisionSurvives(i: Issuer, who: Identity, ctx: AppContext, now: int, later: int, turns: seq<Turn>,
                            verifier: Issuer, at: int, roles: Option<Strings>, requested: string)
    requires Chain(Generate(i, who, ctx, now, later), turns).Some?
    requires Validate(verifier, Chain(Generate(i, who, ctx, now, later), turns).value.access, Access, at).Ok?
    ensures
      var claims := Validate(verifier, Chain(Generate(i, who, ctx, now, later), turns).value.access, Access, at).value;
      var auth := Some(Authenticated(claims));
      var auth' := if roles.None? then auth else WithPlatformRoles(auth, roles.value);
      && EnforceOrgMatch(auth', requested) == (if MayActFor(who, ctx, requested) then Permitted else PermissionDenied)
      && (roles.Some? ==> auth'.value.platformRoles == roles.value)
      && EnforceOrgMatch(WithPlatformRoles(None, if roles.Some? then roles.value else None), requested) == Unauthenticated
  {
    hide Generate, Chain, Validate, Authenticated;
    CallerSurvives(i, who, ctx, now, later, turns, verifier, at);
  }
}
