/** The OAuth token store: single-use codes, access tokens, and refresh tokens that rotate
    within a family. A request reads the store, changes its copy, and may write it back. */
module OAuthStore {
  import opened Options

  const CODE_TTL := 300
  const REFRESH_TOKEN_REUSE_GRACE_SECONDS := 60
  const ROTATED_REFRESH_TOKEN_RETENTION_SECONDS := 7 * 24 * 60 * 60
  const MINIMUM_TTL := 60
  const MAX_REGISTERED_CLIENTS := 50
  const OFFLINE_ACCESS_SCOPE := "offline_access"

  /** Codes, tokens and family ids are numbers; a scope is the set of its words. */
  type Scope = set<string>

  datatype Code = Code(client: string, redirect: string, challenge: string, scope: Scope, resource: string, expiresAt: int)

  datatype Access = Access(client: string, scope: Scope, resource: string, expiresAt: int)

  datatype Refresh = Refresh(client: string, scope: Scope, resource: string, family: nat, createdAt: int, expiresAt: int,
                             rotatedAt: Option<int>)

  datatype Store = Store(clients: map<string, set<string>>, codes: map<nat, Code>, tokens: map<nat, Access>,
                         refreshTokens: map<nat, Refresh>)

  predicate IsAscii(s: string) {
    forall i :: 0 <= i < |s| ==> s[i] as int < 128
  }

  type Ascii = s: string | IsAscii(s)

  /** The constant-time comparison of two texts, undefined unless both are ASCII. */
  function CompareDigest(a: string, b: string): Option<bool> {
    if IsAscii(a) && IsAscii(b) then Some(a == b) else None
  }

  /** The server's settings; pkce is the S256 transformation, undefined on other than ASCII. */
  datatype Config = Config(loginToken: string, scopes: Scope, accessTtl: int, refreshTtl: int, pkce: string -> Option<Ascii>)

  /** The random values one request draws. */
  datatype Draw = Draw(code: nat, access: nat, refresh: nat, family: nat)

  datatype Failure =
    | LoginRefused | BadRequest | WrongResource | UnknownClient | UnregisteredRedirect | UnsupportedScope
    | InvalidCode | ExpiredCode | ClientMismatch | RedirectMismatch | NotAscii | InvalidVerifier
    | MissingToken | InvalidRefreshToken | OtherResource | ReuseDetected | ScopeExceeded | TooManyClients

  datatype Authorization = Authorization(loginToken: string, client: string, redirect: string, challenge: string,
                                         isCode: bool, isS256: bool, resource: Option<string>, scope: Scope)

  datatype Exchange = Exchange(code: nat, client: Option<string>, redirect: Option<string>, resource: Option<string>, verifier: string)

  datatype Renewal = Renewal(token: Option<nat>, client: Option<string>, resource: Option<string>, scope: Scope)

  /** A successful answer: the access token with its record, the refresh token, its family. */
  datatype Issued = Issued(access: nat, record: Access, refresh: nat, family: nat)

  datatype Answer<T> = Granted(value: T) | Denied(why: Failure)

  function AtLeastMinimum(ttl: int): int {
    if ttl < MINIMUM_TTL then MINIMUM_TTL else ttl
  }

  function OrDefault(scope: Scope, cfg: Config): Scope {
    if scope == {} then cfg.scopes else scope
  }

  function Min(a: int, b: int): int {
    if a < b then a else b
  }

  /** Forget the refresh tokens that have expired. */
  function Prune(tokens: map<nat, Refresh>, now: int): map<nat, Refresh> {
    map t | t in tokens && tokens[t].expiresAt >= now :: tokens[t]
  }

  function Revoke(tokens: map<nat, Refresh>, family: nat): map<nat, Refresh> {
    map t | t in tokens && tokens[t].family != family :: tokens[t]
  }

  /** Add a refresh token with a sliding expiry. */
  function IssueRefresh(cfg: Config, tokens: map<nat, Refresh>, token: nat, client: string, scope: Scope,
          resource: string,
                        family: nat, now: int): map<nat, Refresh>
  {
    Prune(tokens, now)[token := Refresh(client, scope, resource, family, now, now + AtLeastMinimum(cfg.refreshTtl), None)]
  }

  // ----- the requests as functions of the store -----

  function Authorize(cfg: Config, s: Store, q: Authorization, here: string, now: int, d: Draw): (Store, Answer<nat>) {
    if cfg.loginToken == "" then (s, Denied(LoginRefused))
    else if CompareDigest(q.loginToken, cfg.loginToken) == None then (s, Denied(NotAscii))
    else if CompareDigest(q.loginToken, cfg.loginToken) == Some(false) then (s, Denied(LoginRefused))
    else if !q.isCode || !q.isS256 || q.challenge == "" then (s, Denied(BadRequest))
    else if q.resource != Some(here) then (s, Denied(WrongResource))
    else if q.client !in s.clients then (s, Denied(UnknownClient))
    else if q.redirect !in s.clients[q.client] then (s, Denied(UnregisteredRedirect))
    else
      var requested := q.scope - {OFFLINE_ACCESS_SCOPE};
      if !(requested <= cfg.scopes) then (s, Denied(UnsupportedScope))
      else
        (s.(codes := s.codes[d.code := Code(q.client, q.redirect, q.challenge, OrDefault(requested, cfg), here, now + CODE_TTL)]),
         Granted(d.code))
  }

  /** Why a code that was found cannot be exchanged. */
  function CodeProblem(cfg: Config, code: Code, q: Exchange, now: int): Option<Failure> {
    if code.expiresAt < now then Some(ExpiredCode)
    else if q.client != Some(code.client) then Some(ClientMismatch)
    else if q.redirect != Some(code.redirect) then Some(RedirectMismatch)
    else if cfg.pkce(q.verifier).None? || CompareDigest(cfg.pkce(q.verifier).value, code.challenge).None? then Some(NotAscii)
    else if CompareDigest(cfg.pkce(q.verifier).value, code.challenge) == Some(false) then Some(InvalidVerifier)
    else None
  }

  /** The access and refresh tokens of a new grant. */
  function GrantPair(cfg: Config, s: Store, code: Code, now: int, d: Draw): (Store, Issued) {
    var scope := OrDefault(code.scope, cfg);
    var record := Access(code.client, scope, code.resource, now + AtLeastMinimum(cfg.accessTtl));
    (s.(tokens := s.tokens[d.access := record],
        refreshTokens := IssueRefresh(cfg, s.refreshTokens, d.refresh, code.client, scope, code.resource, d.family, now)),
     Issued(d.access, record, d.refresh, d.family))
  }

  /** A code is taken out of the store whatever becomes of the exchange, except when verifier and
      challenge cannot be hashed and compared: then nothing is written. */
  function ExchangeCode(cfg: Config, s: Store, q: Exchange, here: string, now: int, d: Draw): (Store, Answer<Issued>) {
    if q.resource != Some(here) then (s, Denied(WrongResource))
    else if q.code !in s.codes then (s, Denied(InvalidCode))
    else
      var code := s.codes[q.code];
      var taken := s.(codes := s.codes - {q.code});
      var problem := CodeProblem(cfg, code, q, now);
      if problem == Some(NotAscii) then (s, Denied(NotAscii))
      else if problem.Some? then (taken, Denied(problem.value))
      else
        var r := GrantPair(cfg, taken, code, now, d);
        (r.0, Granted(r.1))
  }

  /** A code in the store survives an attempt to exchange it exactly when the attempt is for
      another resource, or when everything before the verifier is right and the verifier or the
      challenge the code was given out for is not ASCII. */
  lemma CodeSurvivesIff(cfg: Config, s: Store, q: Exchange, here: string, now: int, d: Draw)
    requires q.code in s.codes
    ensures var c := s.codes[q.code];
      q.code in ExchangeCode(cfg, s, q, here, now, d).0.codes <==>
      || q.resource != Some(here)
      || (&& now <= c.expiresAt && q.client == Some(c.client) && q.redirect == Some(c.redirect)
          && (cfg.pkce(q.verifier).None? || !IsAscii(c.challenge)))
    ensures q.code in ExchangeCode(cfg, s, q, here, now, d).0.codes ==> ExchangeCode(cfg, s, q, here, now, d).0 == s
  {
  }

  /** An attempt with a verifier that is not ASCII, and so cannot be hashed, leaves the code. */
  lemma UnhashableVerifierKeepsCode(cfg: Config, now: int, d: Draw)
    requires cfg.pkce("\U{e9}") == None
    ensures var s := Store(map[], map[0 := Code("app", "uri", "challenge", {}, "here", now)], map[], map[]);
      ExchangeCode(cfg, s, Exchange(0, Some("app"), Some("uri"), Some("here"), "\U{e9}"), "here", now, d)
      == (s, Denied(NotAscii))
  {
  }

  /** A code that was given out for a challenge that is not ASCII survives every attempt of its
      own client, none of which can succeed. */
  lemma UncomparableChallengeKeepsCode(cfg: Config, verifier: string, now: int, d: Draw, d2: Draw)
    requires cfg.loginToken != "" && IsAscii(cfg.loginToken)
    ensures var s := Store(map["app" := {"uri"}], map[], map[], map[]);
      var given := Authorize(cfg, s, Authorization(cfg.loginToken, "app", "uri", "\U{e9}", true, true, Some("here"), {}),
                             "here", now, d);
      && given.1 == Granted(d.code)
      && ExchangeCode(cfg, given.0, Exchange(d.code, Some("app"), Some("uri"), Some("here"), verifier), "here", now, d2)
         == (given.0, Denied(NotAscii))
  {
    assert "\U{e9}"[0] as int == 0xe9;
  }

  function IsLateReuse(r: Refresh, now: int): bool {
    r.rotatedAt.Some? && now - r.rotatedAt.value > REFRESH_TOKEN_REUSE_GRACE_SECONDS
  }

  /** The first use marks the token as rotated and shortens its life. */
  function Rotated(r: Refresh, now: int): Refresh {
    if r.rotatedAt.Some? then r
    else r.(rotatedAt := Some(now), expiresAt := Min(r.expiresAt, now + ROTATED_REFRESH_TOKEN_RETENTION_SECONDS))
  }

  function RenewedScope(cfg: Config, r: Refresh, q: Renewal): Scope {
    var requested := q.scope - {OFFLINE_ACCESS_SCOPE};
    if requested == {} then OrDefault(r.scope, cfg) else requested
  }

  function RenewPair(cfg: Config, s: Store, token: nat, r: Refresh, scope: Scope, now: int, d: Draw): (Store, Issued) {
    var record := Access(r.client, scope, r.resource, now + AtLeastMinimum(cfg.accessTtl));
    (s.(tokens := s.tokens[d.access := record],
        refreshTokens := IssueRefresh(cfg, s.refreshTokens[token := Rotated(r, now)], d.refresh, r.client,
                                      OrDefault(r.scope, cfg), r.resource, r.family, now)),
     Issued(d.access, record, d.refresh, r.family))
  }

  /** Why a refresh token that was found is refused, before anything about reuse. */
  function RefreshProblem(s: Store, r: Refresh, q: Renewal, here: string): Option<Failure> {
    if q.client != Some(r.client) then Some(ClientMismatch)
    else if r.resource != here then Some(OtherResource)
    else if r.client !in s.clients then Some(UnknownClient)
    else None
  }

  function RefreshAccessToken(cfg: Config, s: Store, q: Renewal, here: string, now: int, d: Draw): (Store,
          Answer<Issued>) {
    if q.token.None? then (s, Denied(MissingToken))
    else if q.resource.Some? && q.resource.value != "" && q.resource != Some(here) then (s, Denied(WrongResource))
    else
      var p := s.(refreshTokens := Prune(s.refreshTokens, now));
      if q.token.value !in p.refreshTokens then (p, Denied(InvalidRefreshToken))
      else
        var r := p.refreshTokens[q.token.value];
        var problem := RefreshProblem(s, r, q, here);
        if problem.Some? then (s, Denied(problem.value))
        else if IsLateReuse(r, now) then (p.(refreshTokens := Revoke(p.refreshTokens, r.family)), Denied(ReuseDetected))
        else if !(q.scope - {OFFLINE_ACCESS_SCOPE} <= OrDefault(r.scope, cfg)) then (s, Denied(ScopeExceeded))
        else
          var t := RenewPair(cfg, p, q.token.value, r, RenewedScope(cfg, r, q), now, d);
          (t.0, Granted(t.1))
  }

  /** A token is accepted for this resource while it lasts, if it covers all configured scopes;
      an expired one is removed. */
  function VerifyAccessToken(cfg: Config, s: Store, token: nat, here: string, now: int): (Store, bool) {
    if token !in s.tokens then (s, false)
    else if s.tokens[token].expiresAt < now then (s.(tokens := s.tokens - {token}), false)
    else (s, s.tokens[token].resource == here && cfg.scopes <= s.tokens[token].scope)
  }

  function RegisterClient(s: Store, client: string, redirects: set<string>): (Store, Answer<string>) {
    if redirects == {} then (s, Denied(BadRequest))
    else if |s.clients| >= MAX_REGISTERED_CLIENTS then (s, Denied(TooManyClients))
    else (s.(clients := s.clients[client := redirects]), Granted(client))
  }

  // ----- what each answer means -----

  /** A code is exchanged exactly for the client, redirect, resource and verifier it was given
      out for, while it lasts; the pair repeats its grant and the code is gone. */
  lemma ExchangeGrantedIff(cfg: Config, s: Store, q: Exchange, here: string, now: int, d: Draw)
    ensures ExchangeCode(cfg, s, q, here, now, d).1.Granted? <==>
      && q.code in s.codes && q.resource == Some(here) && now <= s.codes[q.code].expiresAt
      && q.client == Some(s.codes[q.code].client) && q.redirect == Some(s.codes[q.code].redirect)
      && cfg.pkce(q.verifier) == Some(s.codes[q.code].challenge)
    ensures ExchangeCode(cfg, s, q, here, now, d).1.Granted? ==>
      var t, i := ExchangeCode(cfg, s, q, here, now, d).0, ExchangeCode(cfg, s, q, here, now, d).1.value;
      && q.code !in t.codes
      && i.access in t.tokens && t.tokens[i.access] == i.record && i.record.client == s.codes[q.code].client
      && i.record.resource == s.codes[q.code].resource && i.record.scope == OrDefault(s.codes[q.code].scope, cfg)
      && i.refresh in t.refreshTokens && t.refreshTokens[i.refresh].rotatedAt == None
      && t.refreshTokens[i.refresh].expiresAt >= now + MINIMUM_TTL && i.record.expiresAt >= now + MINIMUM_TTL
  {
  }

  /** A refresh token is renewed exactly when it is there and unexpired, for its own client and
      resource, not later than the grace after its first use, and for no more than its scope. */
  lemma RenewalGrantedIff(cfg: Config, s: Store, q: Renewal, here: string, now: int, d: Draw)
    ensures RefreshAccessToken(cfg, s, q, here, now, d).1.Granted? <==>
      && q.token.Some? && q.token.value in s.refreshTokens
      && (q.resource.None? || q.resource == Some("") || q.resource == Some(here))
      && var r := s.refreshTokens[q.token.value];
      && now <= r.expiresAt && q.client == Some(r.client) && r.resource == here && r.client in s.clients
      && (r.rotatedAt.Some? ==> now <= r.rotatedAt.value + REFRESH_TOKEN_REUSE_GRACE_SECONDS)
      && q.scope - {OFFLINE_ACCESS_SCOPE} <= OrDefault(r.scope, cfg)
  {
  }

  /** After a renewal the used token stays only to detect reuse, for at most seven days more; its
      successor has a new life, and every other unexpired token is untouched. */
  lemma RenewalRotates(cfg: Config, s: Store, q: Renewal, here: string, now: int, d: Draw)
    requires RefreshAccessToken(cfg, s, q, here, now, d).1.Granted? && d.refresh !in s.refreshTokens
    ensures var t, used := RefreshAccessToken(cfg, s, q, here, now, d).0, q.token.value;
      && used in t.refreshTokens && t.refreshTokens[used].rotatedAt.Some?
      && t.refreshTokens[used].expiresAt <= s.refreshTokens[used].expiresAt
      && (s.refreshTokens[used].rotatedAt.None? ==>
            t.refreshTokens[used].rotatedAt == Some(now)
            && t.refreshTokens[used].expiresAt <= now + ROTATED_REFRESH_TOKEN_RETENTION_SECONDS)
      && d.refresh in t.refreshTokens && t.refreshTokens[d.refresh].rotatedAt == None
      && t.refreshTokens[d.refresh].family == s.refreshTokens[used].family
      && t.refreshTokens[d.refresh].expiresAt == now + AtLeastMinimum(cfg.refreshTtl)
      && (forall x :: x in s.refreshTokens && x != used ==>
            (x in t.refreshTokens <==> s.refreshTokens[x].expiresAt >= now)
            && (x in t.refreshTokens ==> t.refreshTokens[x] == s.refreshTokens[x]))
      && t.codes == s.codes && t.clients == s.clients
  {
  }

  /** A code is given out exactly to who has the login token, if that is ASCII, for a registered
      client and redirect, with PKCE, for this resource and for configured scopes only. */
  lemma AuthorizationGrantedIff(cfg: Config, s: Store, q: Authorization, here: string, now: int, d: Draw)
    ensures Authorize(cfg, s, q, here, now, d).1.Granted? <==>
      && cfg.loginToken != "" && IsAscii(cfg.loginToken) && q.loginToken == cfg.loginToken && q.isCode && q.isS256 && q.challenge != ""
      && q.resource == Some(here) && q.client in s.clients && q.redirect in s.clients[q.client]
      && q.scope - {OFFLINE_ACCESS_SCOPE} <= cfg.scopes
    ensures Authorize(cfg, s, q, here, now, d).1.Granted? ==>
      var c := Authorize(cfg, s, q, here, now, d).0.codes[d.code];
      c.client == q.client && c.redirect == q.redirect && c.challenge == q.challenge && c.resource == here
      && c.scope <= cfg.scopes && c.expiresAt == now + CODE_TTL
  {
  }

  // ----- the manager -----

  class OAuthManager {
    const cfg: Config
    /** The file on disk. */
    var store: Store

    constructor (cfg: Config, store: Store)
      ensures this.cfg == cfg && this.store == store
    {
      this.cfg, this.store := cfg, store;
    }

    /** One pass over the refresh tokens that drops the expired ones. */
    static method PruneRefreshTokens(tokens: map<nat, Refresh>, now: int) returns (kept: map<nat, Refresh>,
            changed: bool)
      ensures kept == Prune(tokens, now) && (!changed ==> kept == tokens)
    {
      kept, changed := tokens, false;
      var todo := tokens.Keys;
      while todo != {}
        invariant todo <= tokens.Keys
        invariant forall t :: t in kept <==> t in tokens && (t in todo || tokens[t].expiresAt >= now)
        invariant forall t :: t in kept ==> kept[t] == tokens[t]
        invariant !changed ==> kept == tokens
      {
        var t :| t in todo;
        todo := todo - {t};
        if tokens[t].expiresAt < now {
          kept := kept - {t};
          changed := true;
        }
      }
    }

    static method RevokeFamily(tokens: map<nat, Refresh>, family: nat) returns (kept: map<nat, Refresh>)
      ensures kept == Revoke(tokens, family)
    {
      kept := tokens;
      var todo := tokens.Keys;
      while todo != {}
        invariant todo <= tokens.Keys
        invariant forall t :: t in kept <==> t in tokens && (t in todo || tokens[t].family != family)
        invariant forall t :: t in kept ==> kept[t] == tokens[t]
      {
        var t :| t in todo;
        todo := todo - {t};
        if tokens[t].family == family {
          kept := kept - {t};
        }
      }
    }

    method IssueRefreshToken(tokens: map<nat, Refresh>, token: nat, client: string, scope: Scope, resource: string,
            family: nat, now: int)
        returns (issued: map<nat, Refresh>)
      ensures issued == IssueRefresh(cfg, tokens, token, client, scope, resource, family, now)
    {
      var kept, _ := PruneRefreshTokens(tokens, now);
      issued := kept[token := Refresh(client, scope, resource, family, now, now + AtLeastMinimum(cfg.refreshTtl), None)];
    }

    method AuthorizeClient(q: Authorization, here: string, now: int, d: Draw) returns (r: Answer<nat>)
      modifies this
      ensures (store, r) == Authorize(cfg, old(store), q, here, now, d)
    {
      if cfg.loginToken == "" {
        return Denied(LoginRefused);
      }
      var same := CompareDigest(q.loginToken, cfg.loginToken);
      if same.None? {
        return Denied(NotAscii);
      }
      if !same.value {
        return Denied(LoginRefused);
      }
      if !q.isCode || !q.isS256 || q.challenge == "" {
        return Denied(BadRequest);
      }
      if q.resource != Some(here) {
        return Denied(WrongResource);
      }
      if q.client !in store.clients {
        return Denied(UnknownClient);
      }
      if q.redirect !in store.clients[q.client] {
        return Denied(UnregisteredRedirect);
      }
      var requested := q.scope - {OFFLINE_ACCESS_SCOPE};
      if requested != {} && !(requested <= cfg.scopes) {
        return Denied(UnsupportedScope);
      }
      var scope := if requested == {} then cfg.scopes else requested;
      store := store.(codes := store.codes[d.code := Code(q.client, q.redirect, q.challenge, scope, here, now + CODE_TTL)]);
      r := Granted(d.code);
    }

    method RedeemCode(q: Exchange, here: string, now: int, d: Draw) returns (r: Answer<Issued>)
      modifies this
      ensures (store, r) == ExchangeCode(cfg, old(store), q, here, now, d)
    {
      if q.resource != Some(here) {
        return Denied(WrongResource);
      }
      var copy := store;
      if q.code !in copy.codes {
        return Denied(InvalidCode);
      }
      var code := copy.codes[q.code];
      copy := copy.(codes := copy.codes - {q.code});
      if code.expiresAt < now {
        store := copy;
        return Denied(ExpiredCode);
      }
      if q.client != Some(code.client) {
        store := copy;
        return Denied(ClientMismatch);
      }
      if q.redirect != Some(code.redirect) {
        store := copy;
        return Denied(RedirectMismatch);
      }
      var challenge := cfg.pkce(q.verifier);
      if challenge.None? {
        return Denied(NotAscii);
      }
      var same := CompareDigest(challenge.value, code.challenge);
      if same.None? {
        return Denied(NotAscii);
      }
      if !same.value {
        store := copy;
        return Denied(InvalidVerifier);
      }
      var issued := Issue(copy, code, now, d);
      r := Granted(issued);
    }

    method Issue(copy: Store, code: Code, now: int, d: Draw) returns (issued: Issued)
      modifies this
      ensures (store, issued) == GrantPair(cfg, copy, code, now, d)
    {
      var scope := if code.scope == {} then cfg.scopes else code.scope;
      var record := Access(code.client, scope, code.resource, now + AtLeastMinimum(cfg.accessTtl));
      var refresh := IssueRefreshToken(copy.refreshTokens, d.refresh, code.client, scope, code.resource, d.family, now);
      store := copy.(tokens := copy.tokens[d.access := record], refreshTokens := refresh);
      issued := Issued(d.access, record, d.refresh, d.family);
    }

    method RenewAccess(q: Renewal, here: string, now: int, d: Draw) returns (r: Answer<Issued>)
      modifies this
      ensures (store, r) == RefreshAccessToken(cfg, old(store), q, here, now, d)
    {
      if q.token.None? {
        return Denied(MissingToken);
      }
      if q.resource.Some? && q.resource.value != "" && q.resource != Some(here) {
        return Denied(WrongResource);
      }
      var kept, pruned := PruneRefreshTokens(store.refreshTokens, now);
      var copy := store.(refreshTokens := kept);
      if q.token.value !in kept {
        if pruned {
          store := copy;
        }
        return Denied(InvalidRefreshToken);
      }
      var record := kept[q.token.value];
      var problem := RefreshProblem(store, record, q, here);
      if problem.Some? {
        return Denied(problem.value);
      }
      if record.rotatedAt.Some? && now - record.rotatedAt.value > REFRESH_TOKEN_REUSE_GRACE_SECONDS {
        var left := RevokeFamily(kept, record.family);
        store := copy.(refreshTokens := left);
        return Denied(ReuseDetected);
      }
      var requested := q.scope - {OFFLINE_ACCESS_SCOPE};
      if requested != {} && !(requested <= OrDefault(record.scope, cfg)) {
        return Denied(ScopeExceeded);
      }
      var issued := Renew(copy, q.token.value, record, RenewedScope(cfg, record, q), now, d);
      r := Granted(issued);
    }

    method Renew(copy: Store, token: nat, record: Refresh, scope: Scope, now: int, d: Draw) returns (issued: Issued)
      modifies this
      ensures (store, issued) == RenewPair(cfg, copy, token, record, scope, now, d)
    {
      var rotated := record;
      if record.rotatedAt.None? {
        rotated := record.(rotatedAt := Some(now),
                           expiresAt := Min(record.expiresAt, now + ROTATED_REFRESH_TOKEN_RETENTION_SECONDS));
      }
      var access := Access(record.client, scope, record.resource, now + AtLeastMinimum(cfg.accessTtl));
      var refresh := IssueRefreshToken(copy.refreshTokens[token := rotated], d.refresh, record.client,
                                       OrDefault(record.scope, cfg), record.resource, record.family, now);
      store := copy.(tokens := copy.tokens[d.access := access], refreshTokens := refresh);
      issued := Issued(d.access, access, d.refresh, record.family);
    }

    method Verify(token: nat, here: string, now: int) returns (ok: bool)
      modifies this
      ensures (store, ok) == VerifyAccessToken(cfg, old(store), token, here, now)
    {
      if token !in store.tokens {
        return false;
      }
      var record := store.tokens[token];
      if record.expiresAt < now {
        store := store.(tokens := store.tokens - {token});
        return false;
      }
      ok := record.resource == here && cfg.scopes <= record.scope;
    }
  }
}
