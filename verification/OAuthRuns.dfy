/** Runs of the token store: any requests in any order, with fresh random values, and with the
    store file possibly lost. History records what was granted and answered. */
module OAuthRuns {
  import opened Options
  import opened OAuthStore

  /** What a family was granted when its code was exchanged. */
  datatype Grant = Grant(client: string, scope: Scope, resource: string)

  /** A successful exchange or renewal. */
  datatype Use = CodeUse(code: nat, issued: Issued) | RefreshUse(token: nat, time: int, issued: Issued)

  datatype System = System(store: Store, families: map<nat, Grant>, revoked: set<nat>, log: seq<Use>,
                           usedCodes: set<nat>, usedAccess: set<nat>, usedRefresh: set<nat>)

  datatype Event =
    | Authorizing(auth: Authorization, here: string, now: int, draw: Draw)
    | Exchanging(exchange: Exchange, here: string, now: int, draw: Draw)
    | Renewing(renewal: Renewal, here: string, now: int, draw: Draw)
    | Verifying(token: nat, here: string, now: int)
    | Registering(client: string, redirects: set<string>)
    | LosingStore

  function Empty(): Store {
    Store(map[], map[], map[], map[])
  }

  function Initial(): System {
    System(Empty(), map[], {}, [], {}, {}, {})
  }

  /** Random values have never been drawn before. */
  predicate IsNew(y: System, d: Draw) {
    d.code !in y.usedCodes && d.access !in y.usedAccess && d.refresh !in y.usedRefresh && d.family !in y.families
  }

  predicate Enabled(y: System, e: Event) {
    e.Authorizing? || e.Exchanging? || e.Renewing? ==> IsNew(y, e.draw)
  }

  function GrantOf(i: Issued): Grant {
    Grant(i.record.client, i.record.scope, i.record.resource)
  }

  function Answered(y: System, store: Store, use: Use): System {
    y.(store := store, log := y.log + [use], usedAccess := y.usedAccess + {use.issued.access},
       usedRefresh := y.usedRefresh + {use.issued.refresh})
  }

  function AfterAuthorize(cfg: Config, y: System, q: Authorization, here: string, now: int, d: Draw): System {
    var r := Authorize(cfg, y.store, q, here, now, d);
    y.(store := r.0, usedCodes := if r.1.Granted? then y.usedCodes + {d.code} else y.usedCodes)
  }

  function AfterExchange(cfg: Config, y: System, q: Exchange, here: string, now: int, d: Draw): System {
    var r := ExchangeCode(cfg, y.store, q, here, now, d);
    if r.1.Denied? then y.(store := r.0)
    else Answered(y, r.0, CodeUse(q.code, r.1.value)).(families := y.families[d.family := GrantOf(r.1.value)])
  }

  function AfterRenewal(cfg: Config, y: System, q: Renewal, here: string, now: int, d: Draw): System {
    var r := RefreshAccessToken(cfg, y.store, q, here, now, d);
    if r.1.Granted? then
      if q.token.Some? then Answered(y, r.0, RefreshUse(q.token.value, now, r.1.value)) else y
    else if r.1.why.ReuseDetected? && q.token.Some? && q.token.value in y.store.refreshTokens then
      y.(store := r.0, revoked := y.revoked + {y.store.refreshTokens[q.token.value].family})
    else y.(store := r.0)
  }

  function Step(cfg: Config, y: System, e: Event): System {
    match e
    case Authorizing(q, here, now, d) => AfterAuthorize(cfg, y, q, here, now, d)
    case Exchanging(q, here, now, d) => AfterExchange(cfg, y, q, here, now, d)
    case Renewing(q, here, now, d) => AfterRenewal(cfg, y, q, here, now, d)
    case Verifying(token, here, now) => y.(store := VerifyAccessToken(cfg, y.store, token, here, now).0)
    case Registering(client, redirects) => y.(store := RegisterClient(y.store, client, redirects).0)
    case LosingStore => y.(store := Empty())
  }

  /** When a refresh token was first used successfully. */
  function FirstUse(log: seq<Use>, token: nat): Option<int> {
    if log == [] then None
    else
      var sofar := FirstUse(log[..|log| - 1], token);
      var last := log[|log| - 1];
      if sofar.Some? then sofar
      else if last.RefreshUse? && last.token == token then Some(last.time)
      else None
  }

  lemma FirstUseAppend(log: seq<Use>, use: Use, token: nat)
    ensures FirstUse(log + [use], token) ==
      if FirstUse(log, token).Some? then FirstUse(log, token)
      else if use.RefreshUse? && use.token == token then Some(use.time)
      else None
  {
    assert (log + [use])[..|log|] == log;
  }

  // ----- the invariant, part by part -----

  /** A code in the store has not been exchanged, and none has been exchanged twice. */
  ghost predicate CodesOk(codes: map<nat, Code>, used: set<nat>, log: seq<Use>) {
    && (forall c :: c in codes ==> c in used)
    && (forall i :: 0 <= i < |log| && log[i].CodeUse? ==> log[i].code in used && log[i].code !in codes)
    && (forall i, j :: 0 <= i < j < |log| && log[i].CodeUse? && log[j].CodeUse? ==> log[i].code != log[j].code)
  }

  ghost predicate RecordOk(r: Refresh, families: map<nat, Grant>, revoked: set<nat>) {
    && r.family in families && r.family !in revoked
    && Grant(r.client, r.scope, r.resource) == families[r.family] && r.scope != {}
  }

  /** Every refresh record belongs to a family that is not revoked and repeats its grant; its
      rotation time is its first use. */
  ghost predicate RefreshOk(tokens: map<nat, Refresh>, families: map<nat, Grant>, revoked: set<nat>,
          used: set<nat>, log: seq<Use>) {
    forall t :: t in tokens ==>
      t in used && RecordOk(tokens[t], families, revoked) && tokens[t].rotatedAt == FirstUse(log, t)
  }

  /** An answer stays within the grant of its family. */
  ghost predicate IssuedOk(i: Issued, families: map<nat, Grant>) {
    && i.family in families
    && i.record.client == families[i.family].client
    && i.record.resource == families[i.family].resource
    && i.record.scope <= families[i.family].scope
  }

  ghost predicate UseOk(use: Use, families: map<nat, Grant>, used: set<nat>, log: seq<Use>) {
    && IssuedOk(use.issued, families)
    && (use.RefreshUse? ==>
          && use.token in used && FirstUse(log, use.token).Some?
          && use.time - FirstUse(log, use.token).value <= REFRESH_TOKEN_REUSE_GRACE_SECONDS)
  }

  ghost predicate LogOk(log: seq<Use>, families: map<nat, Grant>, used: set<nat>) {
    forall i :: 0 <= i < |log| ==> UseOk(log[i], families, used, log)
  }

  ghost predicate WasIssued(token: nat, a: Access, log: seq<Use>) {
    exists i :: 0 <= i < |log| && log[i].issued.access == token && log[i].issued.record == a
  }

  /** Every access token in the store is one that was answered. */
  ghost predicate TokensOk(tokens: map<nat, Access>, log: seq<Use>) {
    forall t :: t in tokens ==> WasIssued(t, tokens[t], log)
  }

  ghost predicate Inv(y: System) {
    && CodesOk(y.store.codes, y.usedCodes, y.log)
    && RefreshOk(y.store.refreshTokens, y.families, y.revoked, y.usedRefresh, y.log)
    && LogOk(y.log, y.families, y.usedRefresh)
    && TokensOk(y.store.tokens, y.log)
    && (forall f :: f in y.revoked ==> f in y.families)
  }

  lemma {:induction false} NoFirstUse(log: seq<Use>, token: nat, families: map<nat, Grant>, used: set<nat>,
          whole: seq<Use>)
    requires log <= whole && LogOk(whole, families, used) && token !in used
    ensures FirstUse(log, token).None?
    decreases |log|
  {
    if log != [] {
      var n := |log| - 1;
      NoFirstUse(log[..n], token, families, used, whole);
      assert whole[n] == log[n] && UseOk(whole[n], families, used, whole);
    }
  }

  /** Fewer records, codes and tokens keep what holds of each. */
  lemma FewerIsOk(y: System, s: Store)
    requires Inv(y)
    requires forall c :: c in s.codes ==> c in y.store.codes && s.codes[c] == y.store.codes[c]
    requires forall t :: t in s.refreshTokens ==> t in y.store.refreshTokens && s.refreshTokens[t] == y.store.refreshTokens[t]
    requires forall t :: t in s.tokens ==> t in y.store.tokens && s.tokens[t] == y.store.tokens[t]
    ensures Inv(y.(store := s))
  {
  }

  /** A new use of a token, or of a code, at the end of the log. */
  lemma LogGrows(log: seq<Use>, use: Use, families: map<nat, Grant>, used: set<nat>, more: map<nat, Grant>,
          moreUsed: set<nat>)
    requires LogOk(log, families, used) && used <= moreUsed
    requires forall f :: f in families ==> f in more && more[f] == families[f]
    requires UseOk(use, more, moreUsed, log + [use])
    ensures LogOk(log + [use], more, moreUsed)
  {
    var all := log + [use];
    forall i | 0 <= i < |all| ensures UseOk(all[i], more, moreUsed, all) {
      if i < |log| {
        assert all[i] == log[i] && UseOk(log[i], families, used, log);
        if log[i].RefreshUse? {
          FirstUseAppend(log, use, log[i].token);
        }
      }
    }
  }

  lemma TokensGrow(tokens: map<nat, Access>, log: seq<Use>, use: Use)
    requires TokensOk(tokens, log)
    ensures TokensOk(tokens[use.issued.access := use.issued.record], log + [use])
  {
    var all := log + [use];
    assert all[|log|] == use;
    forall t | t in tokens ensures WasIssued(t, tokens[t], all) {
      assert WasIssued(t, tokens[t], log);
      var i :| 0 <= i < |log| && log[i].issued.access == t && log[i].issued.record == tokens[t];
      assert all[i] == log[i];
    }
  }

  lemma CodesGrow(codes: map<nat, Code>, used: set<nat>, log: seq<Use>, use: Use)
    requires CodesOk(codes, used, log)
    requires use.CodeUse? ==> use.code in codes
    ensures CodesOk(if use.CodeUse? then codes - {use.code} else codes, used, log + [use])
  {
    var all, left := log + [use], if use.CodeUse? then codes - {use.code} else codes;
    forall i | 0 <= i < |all| && all[i].CodeUse? ensures all[i].code in used && all[i].code !in left {
      assert i < |log| ==> all[i] == log[i];
    }
    forall i, j | 0 <= i < j < |all| && all[i].CodeUse? && all[j].CodeUse? ensures all[i].code != all[j].code {
      assert all[i] == log[i];
      assert j < |log| ==> all[j] == log[j];
    }
  }

  lemma ExchangeKeepsInv(cfg: Config, y: System, q: Exchange, here: string, now: int, d: Draw)
    requires Inv(y) && IsNew(y, d) && cfg.scopes != {}
    ensures Inv(AfterExchange(cfg, y, q, here, now, d))
  {
    var r := ExchangeCode(cfg, y.store, q, here, now, d);
    if r.1.Denied? {
      FewerIsOk(y, r.0);
    } else {
      var use := CodeUse(q.code, r.1.value);
      var z := AfterExchange(cfg, y, q, here, now, d);
      CodesGrow(y.store.codes, y.usedCodes, y.log, use);
      TokensGrow(y.store.tokens, y.log, use);
      LogGrows(y.log, use, y.families, y.usedRefresh, z.families, z.usedRefresh);
      NewFamilyOk(cfg, y, use, d, now);
    }
  }

  /** The first refresh token of a new family. */
  lemma NewFamilyOk(cfg: Config, y: System, use: Use, d: Draw, now: int)
    requires Inv(y) && IsNew(y, d) && use.CodeUse?
    requires use.issued.refresh == d.refresh && use.issued.family == d.family && use.issued.record.scope != {}
    requires d.family !in y.revoked
    ensures RefreshOk(IssueRefresh(cfg, y.store.refreshTokens, d.refresh, use.issued.record.client, use.issued.record.scope,
                                   use.issued.record.resource, d.family, now),
                      y.families[d.family := GrantOf(use.issued)], y.revoked, y.usedRefresh + {d.refresh}, y.log + [use])
  {
    NoFirstUse(y.log, d.refresh, y.families, y.usedRefresh, y.log);
    FirstUseAppend(y.log, use, d.refresh);
    forall t | t in y.store.refreshTokens ensures FirstUse(y.log + [use], t) == FirstUse(y.log, t) {
      FirstUseAppend(y.log, use, t);
    }
  }

  /** The rotated token and its successor, after a renewal within the grace. */
  lemma RotationOk(cfg: Config, y: System, tokens: map<nat, Refresh>, token: nat, use: Use, now: int, d: Draw)
    requires RefreshOk(tokens, y.families, y.revoked, y.usedRefresh, y.log) && LogOk(y.log, y.families, y.usedRefresh)
    requires IsNew(y, d) && token in tokens
    requires use.RefreshUse? && use.token == token && use.time == now
    ensures var r := tokens[token];
      RefreshOk(IssueRefresh(cfg, tokens[token := Rotated(r, now)], d.refresh, r.client, OrDefault(r.scope, cfg), r.resource, r.family, now),
                y.families, y.revoked, y.usedRefresh + {d.refresh}, y.log + [use])
  {
    NoFirstUse(y.log, d.refresh, y.families, y.usedRefresh, y.log);
    FirstUseAppend(y.log, use, d.refresh);
    forall t | t in tokens
      ensures FirstUse(y.log + [use], t) == if t == token && FirstUse(y.log, t).None? then Some(now) else FirstUse(y.log, t)
    {
      FirstUseAppend(y.log, use, t);
    }
  }

  lemma RenewalUseOk(cfg: Config, y: System, tokens: map<nat, Refresh>, token: nat, use: Use, scope: Scope, now: int)
    requires RefreshOk(tokens, y.families, y.revoked, y.usedRefresh, y.log) && token in tokens
    requires use.RefreshUse? && use.token == token && use.time == now && !IsLateReuse(tokens[token], now)
    requires var r := tokens[token];
      && use.issued.family == r.family && use.issued.record.client == r.client
      && use.issued.record.resource == r.resource && use.issued.record.scope <= r.scope
    ensures UseOk(use, y.families, y.usedRefresh, y.log + [use])
  {
    FirstUseAppend(y.log, use, token);
  }

  lemma RefreshFewer(a: map<nat, Refresh>, b: map<nat, Refresh>, y: System)
    requires RefreshOk(a, y.families, y.revoked, y.usedRefresh, y.log)
    requires forall t :: t in b ==> t in a && b[t] == a[t]
    ensures RefreshOk(b, y.families, y.revoked, y.usedRefresh, y.log)
  {
  }

  lemma GrantedRenewalKeepsInv(cfg: Config, y: System, q: Renewal, here: string, now: int, d: Draw)
    requires Inv(y) && IsNew(y, d)
    requires RefreshAccessToken(cfg, y.store, q, here, now, d).1.Granted?
    ensures Inv(AfterRenewal(cfg, y, q, here, now, d))
  {
    var token := q.token.value;
    var kept := Prune(y.store.refreshTokens, now);
    var r := kept[token];
    var z := RefreshAccessToken(cfg, y.store, q, here, now, d);
    var use := RefreshUse(token, now, z.1.value);
    RefreshFewer(y.store.refreshTokens, kept, y);
    assert RecordOk(r, y.families, y.revoked);
    RenewalUseOk(cfg, y, kept, token, use, RenewedScope(cfg, r, q), now);
    RotationOk(cfg, y, kept, token, use, now, d);
    WiderUse(use, y, d);
    CodesGrow(y.store.codes, y.usedCodes, y.log, use);
    TokensGrow(y.store.tokens, y.log, use);
    LogGrows(y.log, use, y.families, y.usedRefresh, y.families, y.usedRefresh + {d.refresh});
  }

  lemma WiderUse(use: Use, y: System, d: Draw)
    requires UseOk(use, y.families, y.usedRefresh, y.log + [use])
    ensures UseOk(use, y.families, y.usedRefresh + {d.refresh}, y.log + [use])
  {
  }

  lemma RevocationOk(y: System, tokens: map<nat, Refresh>, family: nat)
    requires RefreshOk(tokens, y.families, y.revoked, y.usedRefresh, y.log)
    ensures RefreshOk(Revoke(tokens, family), y.families, y.revoked + {family}, y.usedRefresh, y.log)
  {
  }

  lemma DeniedRenewalKeepsInv(cfg: Config, y: System, q: Renewal, here: string, now: int, d: Draw)
    requires Inv(y)
    requires RefreshAccessToken(cfg, y.store, q, here, now, d).1.Denied?
    ensures Inv(AfterRenewal(cfg, y, q, here, now, d))
  {
    var z := RefreshAccessToken(cfg, y.store, q, here, now, d);
    if z.1.why.ReuseDetected? {
      var kept := Prune(y.store.refreshTokens, now);
      RefreshFewer(y.store.refreshTokens, kept, y);
      var family := kept[q.token.value].family;
      RevocationOk(y, kept, family);
      assert RecordOk(kept[q.token.value], y.families, y.revoked);
    } else {
      FewerIsOk(y, z.0);
    }
  }

  lemma AuthorizeKeepsInv(cfg: Config, y: System, q: Authorization, here: string, now: int, d: Draw)
    requires Inv(y) && IsNew(y, d)
    ensures Inv(AfterAuthorize(cfg, y, q, here, now, d))
  {
  }

  lemma StepKeepsInv(cfg: Config, y: System, e: Event)
    requires Inv(y) && Enabled(y, e) && cfg.scopes != {}
    ensures Inv(Step(cfg, y, e))
  {
    match e
    case Authorizing(q, here, now, d) => AuthorizeKeepsInv(cfg, y, q, here, now, d);
    case Exchanging(q, here, now, d) => ExchangeKeepsInv(cfg, y, q, here, now, d);
    case Renewing(q, here, now, d) =>
      if RefreshAccessToken(cfg, y.store, q, here, now, d).1.Granted? {
        GrantedRenewalKeepsInv(cfg, y, q, here, now, d);
      } else {
        DeniedRenewalKeepsInv(cfg, y, q, here, now, d);
      }
    case Verifying(token, here, now) => FewerIsOk(y, VerifyAccessToken(cfg, y.store, token, here, now).0);
    case Registering(client, redirects) => FewerIsOk(y, RegisterClient(y.store, client, redirects).0);
    case LosingStore => FewerIsOk(y, Empty());
  }

  // ----- every run -----

  ghost predicate IsRun(cfg: Config, y: System, events: seq<Event>)
    decreases |events|
  {
    events == [] || (Enabled(y, events[0]) && IsRun(cfg, Step(cfg, y, events[0]), events[1..]))
  }

  ghost function After(cfg: Config, y: System, events: seq<Event>): System
    decreases |events|
  {
    if events == [] then y else After(cfg, Step(cfg, y, events[0]), events[1..])
  }

  lemma {:induction false} RunKeepsInv(cfg: Config, y: System, events: seq<Event>)
    requires Inv(y) && IsRun(cfg, y, events) && cfg.scopes != {}
    ensures Inv(After(cfg, y, events))
    decreases |events|
  {
    if events != [] {
      StepKeepsInv(cfg, y, events[0]);
      RunKeepsInv(cfg, Step(cfg, y, events[0]), events[1..]);
    }
  }

  /** Each code yields at most one pair of tokens: no two answers of a run come from one code. */
  lemma CodesAreSingleUse(cfg: Config, events: seq<Event>, i: nat, j: nat)
    requires IsRun(cfg, Initial(), events) && cfg.scopes != {}
    requires var log := After(cfg, Initial(), events).log;
      i < j < |log| && log[i].CodeUse? && log[j].CodeUse?
    ensures var log := After(cfg, Initial(), events).log; log[i].code != log[j].code
  {
    RunKeepsInv(cfg, Initial(), events);
  }

  /** All answers of one family share client and resource, and no access token of it covers
      more than what its code was granted; the refresh records of the family repeat that grant. */
  lemma FamiliesKeepTheirGrant(cfg: Config, events: seq<Event>)
    requires IsRun(cfg, Initial(), events) && cfg.scopes != {}
    ensures var y := After(cfg, Initial(), events);
      && (forall i :: 0 <= i < |y.log| ==> IssuedOk(y.log[i].issued, y.families))
      && (forall t :: t in y.store.refreshTokens ==> RecordOk(y.store.refreshTokens[t], y.families, y.revoked))
  {
    RunKeepsInv(cfg, Initial(), events);
    var y := After(cfg, Initial(), events);
    forall i | 0 <= i < |y.log| ensures IssuedOk(y.log[i].issued, y.families) {
      assert UseOk(y.log[i], y.families, y.usedRefresh, y.log);
    }
  }

  /** All accepted uses of one refresh token lie within the grace of its first. */
  lemma ReuseStaysWithinGrace(cfg: Config, events: seq<Event>, i: nat)
    requires IsRun(cfg, Initial(), events) && cfg.scopes != {}
    requires var log := After(cfg, Initial(), events).log; i < |log| && log[i].RefreshUse?
    ensures var log := After(cfg, Initial(), events).log;
      FirstUse(log, log[i].token).Some? && log[i].time - FirstUse(log, log[i].token).value <= REFRESH_TOKEN_REUSE_GRACE_SECONDS
  {
    RunKeepsInv(cfg, Initial(), events);
    var y := After(cfg, Initial(), events);
    assert UseOk(y.log[i], y.families, y.usedRefresh, y.log);
  }

  lemma {:induction false} RevokedStays(cfg: Config, y: System, events: seq<Event>)
    requires IsRun(cfg, y, events)
    ensures y.revoked <= After(cfg, y, events).revoked
    decreases |events|
  {
    if events != [] {
      RevokedStays(cfg, Step(cfg, y, events[0]), events[1..]);
    }
  }

  /** Once late reuse of a token is detected, its family never again has a refresh record. */
  lemma RevokedFamiliesStayRevoked(cfg: Config, y: System, e: Event, events: seq<Event>)
    requires Inv(y) && Enabled(y, e) && e.Renewing? && cfg.scopes != {}
    requires RefreshAccessToken(cfg, y.store, e.renewal, e.here, e.now, e.draw).1 == Denied(ReuseDetected)
    requires IsRun(cfg, Step(cfg, y, e), events)
    ensures var family := y.store.refreshTokens[e.renewal.token.value].family;
      forall t :: t in After(cfg, Step(cfg, y, e), events).store.refreshTokens ==>
        After(cfg, Step(cfg, y, e), events).store.refreshTokens[t].family != family
  {
    StepKeepsInv(cfg, y, e);
    RunKeepsInv(cfg, Step(cfg, y, e), events);
    RevokedStays(cfg, Step(cfg, y, e), events);
    var z := After(cfg, Step(cfg, y, e), events);
    forall t | t in z.store.refreshTokens
      ensures z.store.refreshTokens[t].family != y.store.refreshTokens[e.renewal.token.value].family
    {
      assert RecordOk(z.store.refreshTokens[t], z.families, z.revoked);
    }
  }

  /** A token that is accepted was answered in this run, for this resource, by a family whose
      grant covers all configured scopes. */
  lemma AcceptedTokensAreBacked(cfg: Config, events: seq<Event>, token: nat, here: string, now: int) returns (i: nat)
    requires IsRun(cfg, Initial(), events) && cfg.scopes != {}
    requires VerifyAccessToken(cfg, After(cfg, Initial(), events).store, token, here, now).1
    ensures var y := After(cfg, Initial(), events);
      && i < |y.log| && y.log[i].issued.access == token && y.log[i].issued.family in y.families
      && y.families[y.log[i].issued.family].resource == here
      && cfg.scopes <= y.families[y.log[i].issued.family].scope
  {
    RunKeepsInv(cfg, Initial(), events);
    var y := After(cfg, Initial(), events);
    assert WasIssued(token, y.store.tokens[token], y.log);
    i :| 0 <= i < |y.log| && y.log[i].issued.access == token && y.log[i].issued.record == y.store.tokens[token];
    assert UseOk(y.log[i], y.families, y.usedRefresh, y.log);
  }

  // ----- what was granted can be used -----

  predicate Tries(e: Event, code: nat) {
    e.Exchanging? && e.exchange.code == code
  }

  lemma UntriedCodeStays(cfg: Config, y: System, e: Event, code: nat)
    requires Inv(y) && Enabled(y, e) && code in y.store.codes && !Tries(e, code) && !e.LosingStore?
    ensures code in Step(cfg, y, e).store.codes && Step(cfg, y, e).store.codes[code] == y.store.codes[code]
  {
    match e
    case Exchanging(q, here, now, d) => ExchangeTakesOnly(cfg, y.store, q, here, now, d);
    case Renewing(q, here, now, d) => RenewalKeepsCodes(cfg, y.store, q, here, now, d);
    case _ =>
  }

  lemma ExchangeTakesOnly(cfg: Config, s: Store, q: Exchange, here: string, now: int, d: Draw)
    ensures ExchangeCode(cfg, s, q, here, now, d).0.codes in {s.codes, s.codes - {q.code}}
  {
  }

  lemma RenewalKeepsCodes(cfg: Config, s: Store, q: Renewal, here: string, now: int, d: Draw)
    ensures RefreshAccessToken(cfg, s, q, here, now, d).0.codes == s.codes
  {
  }

  /** A code that nobody tries waits in the store until the store is lost. */
  lemma {:induction false} CodeWaits(cfg: Config, y: System, events: seq<Event>, code: nat)
    requires Inv(y) && IsRun(cfg, y, events) && cfg.scopes != {} && code in y.store.codes
    requires forall i :: 0 <= i < |events| ==> !Tries(events[i], code) && !events[i].LosingStore?
    ensures code in After(cfg, y, events).store.codes
    ensures After(cfg, y, events).store.codes[code] == y.store.codes[code]
    decreases |events|
  {
    if events != [] {
      assert !Tries(events[0], code) && !events[0].LosingStore?;
      StepKeepsInv(cfg, y, events[0]);
      UntriedCodeStays(cfg, y, events[0], code);
      CodeWaits(cfg, Step(cfg, y, events[0]), events[1..], code);
    }
  }

  /** The whole flow: a code that was given out can be exchanged within five minutes by its
      client with a verifier of its challenge, whatever others did in between; the access token
      is then accepted as long as it lasts exactly if it covers the configured scopes, and the
      refresh token can be renewed as long as it lasts. */
  lemma GrantedCodeGivesTokens(cfg: Config, y: System, q: Authorization, here: string, now: int, d: Draw,
          events: seq<Event>, x: Exchange, later: int, d2: Draw)
    requires Inv(y) && IsNew(y, d) && cfg.scopes != {}
    requires Authorize(cfg, y.store, q, here, now, d).1.Granted?
    requires var given := AfterAuthorize(cfg, y, q, here, now, d);
      && IsRun(cfg, given, events)
      && (forall i :: 0 <= i < |events| ==> !Tries(events[i], d.code) && !events[i].LosingStore?)
    requires x == Exchange(d.code, Some(q.client), Some(q.redirect), Some(here), x.verifier)
    requires cfg.pkce(x.verifier) == Some(q.challenge) && later <= now + CODE_TTL
    ensures var t := After(cfg, AfterAuthorize(cfg, y, q, here, now, d), events);
      var r := ExchangeCode(cfg, t.store, x, here, later, d2);
      && r.1.Granted?
      && (forall at :: at <= r.1.value.record.expiresAt ==>
            (VerifyAccessToken(cfg, r.0, r.1.value.access, here, at).1
             <==> q.scope - {OFFLINE_ACCESS_SCOPE} == {} || cfg.scopes <= q.scope - {OFFLINE_ACCESS_SCOPE}))
      && (forall at, d3 :: q.client in r.0.clients && at <= later + AtLeastMinimum(cfg.refreshTtl) ==>
            RefreshAccessToken(cfg, r.0, Renewal(Some(d2.refresh), Some(q.client), Some(here), {}), here, at, d3).1.Granted?)
  {
    var given := AfterAuthorize(cfg, y, q, here, now, d);
    AuthorizeKeepsInv(cfg, y, q, here, now, d);
    CodeWaits(cfg, given, events, d.code);
    var t := After(cfg, given, events);
    GivenCode(cfg, y.store, q, here, now, d);
    ExchangeGivesPair(cfg, t.store, x, here, later, d2);
    PairWorks(cfg, t.store.(codes := t.store.codes - {d.code}), t.store.codes[d.code], here, later, d2);
  }

  lemma GivenCode(cfg: Config, s: Store, q: Authorization, here: string, now: int, d: Draw)
    requires Authorize(cfg, s, q, here, now, d).1.Granted?
    ensures d.code in Authorize(cfg, s, q, here, now, d).0.codes && q.resource == Some(here)
    ensures Authorize(cfg, s, q, here, now, d).0.codes[d.code]
      == Code(q.client, q.redirect, q.challenge, OrDefault(q.scope - {OFFLINE_ACCESS_SCOPE}, cfg), here, now + CODE_TTL)
  {
  }

  lemma ExchangeGivesPair(cfg: Config, s: Store, q: Exchange, here: string, now: int, d: Draw)
    requires q.code in s.codes && q.resource == Some(here) && now <= s.codes[q.code].expiresAt
    requires q.client == Some(s.codes[q.code].client) && q.redirect == Some(s.codes[q.code].redirect)
    requires cfg.pkce(q.verifier) == Some(s.codes[q.code].challenge)
    ensures var r := GrantPair(cfg, s.(codes := s.codes - {q.code}), s.codes[q.code], now, d);
      ExchangeCode(cfg, s, q, here, now, d) == (r.0, Granted(r.1))
  {
  }

  /** What the pair of tokens of a code is good for. */
  lemma PairWorks(cfg: Config, s: Store, code: Code, here: string, now: int, d: Draw)
    requires code.resource == here && cfg.scopes != {}
    ensures var r := GrantPair(cfg, s, code, now, d);
      && (forall at :: at <= r.1.record.expiresAt ==>
            (VerifyAccessToken(cfg, r.0, r.1.access, here, at).1 <==> cfg.scopes <= OrDefault(code.scope, cfg)))
      && (forall at, d3 :: code.client in r.0.clients && at <= now + AtLeastMinimum(cfg.refreshTtl) ==>
            RefreshAccessToken(cfg, r.0, Renewal(Some(d.refresh), Some(code.client), Some(here), {}), here, at, d3).1.Granted?)
  {
    var r := GrantPair(cfg, s, code, now, d);
    forall at, d3 | code.client in r.0.clients && at <= now + AtLeastMinimum(cfg.refreshTtl)
      ensures RefreshAccessToken(cfg, r.0, Renewal(Some(d.refresh), Some(code.client), Some(here), {}), here, at, d3).1.Granted?
    {
      RenewalGrantedIff(cfg, r.0, Renewal(Some(d.refresh), Some(code.client), Some(here), {}), here, at, d3);
    }
  }

  predicate PrunesAfter(e: Event, time: int) {
    (e.Exchanging? || e.Renewing?) && time < e.now
  }

  /** A renewal keeps another token, and only its first use changes the token itself. */
  lemma RenewalLeaves(cfg: Config, y: System, q: Renewal, here: string, now: int, d: Draw, t: nat)
    requires Inv(y) && IsNew(y, d) && t in y.store.refreshTokens && now <= y.store.refreshTokens[t].expiresAt
    requires RefreshAccessToken(cfg, y.store, q, here, now, d).1.Granted?
    ensures var z := AfterRenewal(cfg, y, q, here, now, d);
      t in z.store.refreshTokens
      && (FirstUse(z.log, t).None? ==> z.store.refreshTokens[t] == y.store.refreshTokens[t])
  {
    RenewalRotates(cfg, y.store, q, here, now, d);
    var use := RefreshUse(q.token.value, now, RefreshAccessToken(cfg, y.store, q, here, now, d).1.value);
    FirstUseAppend(y.log, use, t);
  }

  /** A refused renewal drops a token only by expiry or with its family. */
  lemma RefusalLeaves(cfg: Config, y: System, q: Renewal, here: string, now: int, d: Draw, t: nat)
    requires Inv(y) && t in y.store.refreshTokens && now <= y.store.refreshTokens[t].expiresAt
    requires RefreshAccessToken(cfg, y.store, q, here, now, d).1.Denied?
    requires y.store.refreshTokens[t].family !in AfterRenewal(cfg, y, q, here, now, d).revoked
    ensures var z := AfterRenewal(cfg, y, q, here, now, d);
      t in z.store.refreshTokens && z.store.refreshTokens[t] == y.store.refreshTokens[t]
  {
  }

  /** A refresh token leaves the store only by expiry, by revocation of its family, or with the
      store, and changes only by its use. */
  lemma RefreshLeavesOnly(cfg: Config, y: System, e: Event, t: nat)
    requires Inv(y) && Enabled(y, e) && t in y.store.refreshTokens
    requires !e.LosingStore? && !PrunesAfter(e, y.store.refreshTokens[t].expiresAt)
    requires y.store.refreshTokens[t].family !in Step(cfg, y, e).revoked
    ensures var z := Step(cfg, y, e);
      t in z.store.refreshTokens
      && (FirstUse(z.log, t).None? ==> z.store.refreshTokens[t] == y.store.refreshTokens[t])
  {
    if e.Renewing? {
      if RefreshAccessToken(cfg, y.store, e.renewal, e.here, e.now, e.draw).1.Granted? {
        RenewalLeaves(cfg, y, e.renewal, e.here, e.now, e.draw, t);
      } else {
        RefusalLeaves(cfg, y, e.renewal, e.here, e.now, e.draw, t);
      }
    }
  }

  lemma {:induction false} LogOnlyGrows(cfg: Config, y: System, events: seq<Event>)
    requires IsRun(cfg, y, events)
    ensures y.log <= After(cfg, y, events).log
    decreases |events|
  {
    if events != [] {
      LogOnlyGrows(cfg, Step(cfg, y, events[0]), events[1..]);
    }
  }

  lemma {:induction false} FirstUseStays(log: seq<Use>, more: seq<Use>, token: nat)
    requires log <= more && FirstUse(log, token).Some?
    ensures FirstUse(more, token) == FirstUse(log, token)
    decreases |more|
  {
    if |more| > |log| {
      FirstUseStays(log, more[..|more| - 1], token);
    } else {
      assert more == log;
    }
  }

  /** A refresh token that was never used, whose family was not revoked and that no request
      found expired, is still there unchanged, and renews for its client as long as it lasts. */
  lemma {:induction false} UnusedTokenRenews(cfg: Config, y: System, events: seq<Event>, t: nat, at: int, d: Draw)
    requires Inv(y) && IsRun(cfg, y, events) && cfg.scopes != {} && t in y.store.refreshTokens
    requires var r := y.store.refreshTokens[t];
      && at <= r.expiresAt && r.client in After(cfg, y, events).store.clients
      && r.family !in After(cfg, y, events).revoked && FirstUse(After(cfg, y, events).log, t).None?
      && forall i :: 0 <= i < |events| ==> !events[i].LosingStore? && !PrunesAfter(events[i], r.expiresAt)
    ensures var r := y.store.refreshTokens[t];
      RefreshAccessToken(cfg, After(cfg, y, events).store, Renewal(Some(t), Some(r.client), None, {}), r.resource, at, d).1.Granted?
    decreases |events|
  {
    var r := y.store.refreshTokens[t];
    if events == [] {
      RenewalGrantedIff(cfg, y.store, Renewal(Some(t), Some(r.client), None, {}), r.resource, at, d);
    } else {
      var z := Step(cfg, y, events[0]);
      RevokedStays(cfg, z, events[1..]);
      LogOnlyGrows(cfg, z, events[1..]);
      if FirstUse(z.log, t).Some? {
        FirstUseStays(z.log, After(cfg, y, events).log, t);
      }
      assert !events[0].LosingStore? && !PrunesAfter(events[0], r.expiresAt);
      StepKeepsInv(cfg, y, events[0]);
      RefreshLeavesOnly(cfg, y, events[0], t);
      UnusedTokenRenews(cfg, z, events[1..], t, at, d);
    }
  }

  // ----- nothing beyond the configured scopes -----

  ghost predicate ScopesOk(cfg: Config, y: System) {
    && (forall c :: c in y.store.codes ==> y.store.codes[c].scope <= cfg.scopes)
    && (forall f :: f in y.families ==> y.families[f].scope <= cfg.scopes)
  }

  lemma StepKeepsScopes(cfg: Config, y: System, e: Event)
    requires ScopesOk(cfg, y) && Enabled(y, e)
    ensures ScopesOk(cfg, Step(cfg, y, e))
  {
    match e
    case Exchanging(q, here, now, d) =>
      ExchangeGrantedIff(cfg, y.store, q, here, now, d);
      ExchangeTakesOnly(cfg, y.store, q, here, now, d);
    case Renewing(q, here, now, d) => RenewalKeepsCodes(cfg, y.store, q, here, now, d);
    case Authorizing(q, here, now, d) => AuthorizationGrantedIff(cfg, y.store, q, here, now, d);
    case _ =>
  }

  lemma {:induction false} RunKeepsScopes(cfg: Config, y: System, events: seq<Event>)
    requires ScopesOk(cfg, y) && IsRun(cfg, y, events)
    ensures ScopesOk(cfg, After(cfg, y, events))
    decreases |events|
  {
    if events != [] {
      StepKeepsScopes(cfg, y, events[0]);
      RunKeepsScopes(cfg, Step(cfg, y, events[0]), events[1..]);
    }
  }

  /** No access token ever answered covers a scope that is not configured. */
  lemma AnswersStayConfigured(cfg: Config, events: seq<Event>, i: nat)
    requires IsRun(cfg, Initial(), events) && cfg.scopes != {} && i < |After(cfg, Initial(), events).log|
    ensures After(cfg, Initial(), events).log[i].issued.record.scope <= cfg.scopes
  {
    FamiliesKeepTheirGrant(cfg, events);
    RunKeepsScopes(cfg, Initial(), events);
    var y := After(cfg, Initial(), events);
    assert IssuedOk(y.log[i].issued, y.families);
  }
}
