/** What every run of the OAuth adapter guarantees about lineage and single use. */
module OAuthRuns {
  import opened Histories
  import opened Options
  import opened OAuth
  import opened Strings

  /** `Lapse` lets stored keys expire. */
  datatype Step =
    | Authorize(req: AuthRequest, newCode: OAuth.Code, stored: bool)
    | Exchange(code: OAuth.Code, verifier: string, token: Token, calls: Calls)
    | Renew(refreshToken: Token, token: Token, calls: Calls)
    | ClientCredentials(client: string, secret: string, token: Token, calls: Calls)
    | Lapse(codes: set<OAuth.Code>, tokens: set<Token>)

  type History = Run<(), Step>

  /** A step's effect; authorizations and lapses mint nothing. */
  function Result(env: Env, s: State, step: Step): Outcome {
    match step
    case Authorize(req, code, stored) => Outcome(Authorized(env, s, req, code, stored).0, Denied(InvalidRequest), None)
    case Exchange(code, verifier, token, calls) => Exchanged(env, s, code, verifier, token, calls)
    case Renew(refreshToken, token, calls) => Renewed(s, refreshToken, token, calls)
    case ClientCredentials(client, secret, token, calls) => ClientGranted(env, s, client, secret, token, calls)
    case Lapse(codes, tokens) => Outcome(State(s.codes - codes, s.refresh - tokens), Denied(InvalidRequest), None)
  }

  function After(env: Env, run: History): State {
    match run
    case Start(_) => State(map[], map[])
    case Then(before, step) => Result(env, After(env, before), step).state
  }

  /** Every token ever minted, in order. */
  function Issues(env: Env, run: History): seq<Issue> {
    match run
    case Start(_) => []
    case Then(before, step) =>
      match Result(env, After(env, before), step).minted
      case None => Issues(env, before)
      case Some(issue) => Issues(env, before) + [issue]
  }

  /** Every authorization ever granted, by its code. */
  function Grants(env: Env, run: History): map<OAuth.Code, Grant> {
    match run
    case Start(_) => map[]
    case Then(before, Authorize(req, code, stored)) =>
      if Objection(env, req).None? && stored then Grants(env, before)[code := req.grant] else Grants(env, before)
    case Then(before, _) => Grants(env, before)
  }

  function StepCodes(step: Step): set<OAuth.Code> {
    if step.Authorize? then {step.newCode} else {}
  }

  function StepTokens(step: Step): set<Token> {
    match step
    case Exchange(_, _, token, _) => {token}
    case Renew(_, token, _) => {token}
    case ClientCredentials(_, _, token, _) => {token}
    case _ => {}
  }

  function UsedCodes(run: History): set<OAuth.Code> {
    Used(run, StepCodes)
  }

  function UsedTokens(run: History): set<Token> {
    Used(run, StepTokens)
  }

  /** The random strings never repeat. */
  predicate FreshStrings(run: History) {
    Fresh(run, StepCodes) && Fresh(run, StepTokens)
  }

  // ---------- The invariant ----------

  predicate Carries(issue: Issue, user: string, client: string, scope: string) {
    issue.user == Some(user) && issue.client == client && issue.scope == scope
  }

  /** The verifier answers the challenge stored with the grant. */
  predicate Met(env: Env, g: Grant, verifier: string) {
    (g.challengeMethod == "S256" && env.s256(verifier) == g.challenge) ||
    (g.challengeMethod == "plain" && verifier == g.challenge)
  }

  /** A user token comes from a grant whose PKCE challenge was met, or renews an earlier issue with
      the same user, client and scope. */
  ghost predicate Linked(env: Env, log: seq<Issue>, grants: map<OAuth.Code, Grant>, i: nat)
    requires i < |log|
  {
    match log[i].source
    case FromCode(code, verifier) =>
      code in grants && Carries(log[i], grants[code].user, grants[code].client, grants[code].scope) &&
      Met(env, grants[code], verifier)
    case FromRefresh(token) =>
      exists j :: 0 <= j < i && Renews(log, i, j)
    case FromClient => log[i].user.None?
  }

  ghost predicate Renews(log: seq<Issue>, i: int, j: int)
    requires 0 <= i < |log| && 0 <= j < |log|
  {
    log[i].source.FromRefresh? && log[j].token == log[i].source.token && log[j].user.Some? &&
    Carries(log[i], log[j].user.value, log[j].client, log[j].scope)
  }

  ghost predicate StoredIssue(log: seq<Issue>, token: Token, r: Renewal) {
    exists j :: 0 <= j < |log| && log[j].token == token && Carries(log[j], r.user, r.client, r.scope)
  }

  ghost predicate StateOk(s: State, log: seq<Issue>, grants: map<OAuth.Code, Grant>, tokens: set<Token>) {
    (forall c :: c in s.codes ==> c in grants && s.codes[c] == grants[c]) &&
    (forall t :: t in s.refresh ==> t in tokens && StoredIssue(log, t, s.refresh[t])) &&
    (forall i :: 0 <= i < |log| ==> log[i].token in tokens) &&
    (forall i, j :: 0 <= i < j < |log| ==> log[i].token != log[j].token)
  }

  ghost predicate LogOk(env: Env, log: seq<Issue>, grants: map<OAuth.Code, Grant>) {
    forall i: nat :: i < |log| ==> Linked(env, log, grants, i)
  }

  lemma {:induction false} LinkedLonger(env: Env, log: seq<Issue>, grants: map<OAuth.Code, Grant>, i: nat, last: Issue)
    requires i < |log| && Linked(env, log, grants, i)
    ensures Linked(env, log + [last], grants, i)
  {
    if log[i].source.FromRefresh? {
      var j :| 0 <= j < i && Renews(log, i, j);
      assert Renews(log + [last], i, j);
    }
  }

  lemma {:induction false} LogGrows(env: Env, log: seq<Issue>, grants: map<OAuth.Code, Grant>, last: Issue)
    requires LogOk(env, log, grants) && Linked(env, log + [last], grants, |log|)
    ensures LogOk(env, log + [last], grants)
  {
    forall i: nat | i < |log| + 1 ensures Linked(env, log + [last], grants, i) {
      if i < |log| { LinkedLonger(env, log, grants, i, last); }
    }
  }

  lemma {:induction false} StoredLonger(log: seq<Issue>, token: Token, r: Renewal, last: Issue)
    requires StoredIssue(log, token, r)
    ensures StoredIssue(log + [last], token, r)
  {
    var j :| 0 <= j < |log| && log[j].token == token && Carries(log[j], r.user, r.client, r.scope);
    assert (log + [last])[j] == log[j];
  }

  /** generateTokens keeps the state in step with the log. */
  lemma {:induction false} GeneratedKeepsState(
    s: State, log: seq<Issue>, grants: map<OAuth.Code, Grant>, tokens: set<Token>,
    source: Source, user: Option<string>, scope: string, client: string, token: Token, calls: Calls
  )
    requires StateOk(s, log, grants, tokens) && token !in tokens
    ensures var o := Generated(s, source, user, scope, client, token, calls);
            StateOk(o.state, if o.minted.Some? then log + [o.minted.value] else log, grants, tokens + {token})
  {
    var o := Generated(s, source, user, scope, client, token, calls);
    if o.minted.Some? {
      var longer := log + [o.minted.value];
      assert longer[|log|] == o.minted.value;
      forall t | t in o.state.refresh ensures t in tokens + {token} && StoredIssue(longer, t, o.state.refresh[t]) {
        if t in s.refresh && t != token { StoredLonger(log, t, s.refresh[t], o.minted.value); }
      }
    }
  }

  lemma {:induction false} RenewedIsLinked(
    env: Env, s: State, log: seq<Issue>, grants: map<OAuth.Code, Grant>, tokens: set<Token>,
    refreshToken: Token, token: Token, calls: Calls
  )
    requires StateOk(s, log, grants, tokens)
    ensures var o := Renewed(s, refreshToken, token, calls);
            o.minted.Some? ==> Linked(env, log + [o.minted.value], grants, |log|)
  {
    var o := Renewed(s, refreshToken, token, calls);
    if o.minted.Some? {
      var r := s.refresh[refreshToken];
      var j :| 0 <= j < |log| && log[j].token == refreshToken && Carries(log[j], r.user, r.client, r.scope);
      assert Renews(log + [o.minted.value], |log|, j);
    }
  }

  lemma {:induction false} InvariantStep(
    env: Env, s: State, log: seq<Issue>, grants: map<OAuth.Code, Grant>, tokens: set<Token>, step: Step
  )
    requires StateOk(s, log, grants, tokens) && LogOk(env, log, grants)
    requires StepTokens(step) !! tokens && !step.Authorize?
    ensures var o := Result(env, s, step);
            var log' := if o.minted.Some? then log + [o.minted.value] else log;
            StateOk(o.state, log', grants, tokens + StepTokens(step)) && LogOk(env, log', grants)
  {
    var o := Result(env, s, step);
    match step {
      case Exchange(code, verifier, token, calls) =>
        if code in s.codes {
          var t := if calls.deleted then s.(codes := s.codes - {code}) else s;
          var g := s.codes[code];
          var source := FromCode(code, verifier);
          GeneratedKeepsState(t, log, grants, tokens, source, Some(g.user), g.scope, g.client, token, calls);
        }
      case Renew(refreshToken, token, calls) =>
        RenewedIsLinked(env, s, log, grants, tokens, refreshToken, token, calls);
        if refreshToken in s.refresh {
          var t := if calls.deleted then s.(refresh := s.refresh - {refreshToken}) else s;
          var r := s.refresh[refreshToken];
          var source := FromRefresh(refreshToken);
          GeneratedKeepsState(t, log, grants, tokens, source, Some(r.user), r.scope, r.client, token, calls);
        }
      case ClientCredentials(client, _, token, calls) =>
        GeneratedKeepsState(s, log, grants, tokens, FromClient, None, "", client, token, calls);
      case Lapse(_, _) =>
    }
    if o.minted.Some? {
      LogGrows(env, log, grants, o.minted.value);
    }
  }

  lemma {:induction false} GrantsGrow(
    env: Env, log: seq<Issue>, grants: map<OAuth.Code, Grant>, code: OAuth.Code, g: Grant
  )
    requires LogOk(env, log, grants) && code !in grants
    ensures LogOk(env, log, grants[code := g])
  {
    var more := grants[code := g];
    forall i: nat | i < |log| ensures Linked(env, log, more, i) {
      assert Linked(env, log, grants, i);
    }
  }

  lemma {:induction false} InvariantHolds(env: Env, run: History)
    requires FreshStrings(run)
    ensures StateOk(After(env, run), Issues(env, run), Grants(env, run), UsedTokens(run))
    ensures LogOk(env, Issues(env, run), Grants(env, run)) && Grants(env, run).Keys <= UsedCodes(run)
  {
    match run {
      case Start(_) =>
      case Then(before, step) =>
        InvariantHolds(env, before);
        if step.Authorize? {
          GrantsGrow(env, Issues(env, before), Grants(env, before), step.newCode, step.req.grant);
        } else {
          InvariantStep(env, After(env, before), Issues(env, before), Grants(env, before), UsedTokens(before), step);
        }
    }
  }

  // ---------- Lineage ----------

  /** Issue `i` goes back to the authorization `code` through any number of renewals. */
  ghost predicate DescendsFrom(log: seq<Issue>, i: nat, code: OAuth.Code)
    requires i < |log|
  {
    match log[i].source
    case FromCode(c, _) => c == code
    case FromRefresh(token) => exists j :: 0 <= j < i && log[j].token == token && DescendsFrom(log, j, code)
    case FromClient => false
  }

  lemma {:induction false} LineageInLog(
    env: Env, log: seq<Issue>, grants: map<OAuth.Code, Grant>, i: nat
  ) returns (code: OAuth.Code)
    requires LogOk(env, log, grants) && i < |log| && !log[i].source.FromClient?
    requires forall i, j :: 0 <= i < j < |log| ==> log[i].token != log[j].token
    ensures DescendsFrom(log, i, code) && forall c :: DescendsFrom(log, i, c) ==> c == code
    ensures code in grants && Carries(log[i], grants[code].user, grants[code].client, grants[code].scope)
    decreases i
  {
    assert Linked(env, log, grants, i);
    if log[i].source.FromRefresh? {
      var j :| 0 <= j < i && Renews(log, i, j);
      assert Linked(env, log, grants, j);
      code := LineageInLog(env, log, grants, j);
    } else {
      code := log[i].source.code;
    }
  }

  /** Along every chain from an authorization code through any number of renewals, user, client and
      scope stay those of exactly one original authorization. */
  lemma {:induction false} LineageIsFaithful(env: Env, run: History, i: nat) returns (code: OAuth.Code)
    requires FreshStrings(run) && i < |Issues(env, run)| && !Issues(env, run)[i].source.FromClient?
    ensures DescendsFrom(Issues(env, run), i, code)
    ensures forall c :: DescendsFrom(Issues(env, run), i, c) ==> c == code
    ensures code in Grants(env, run)
    ensures var g := Grants(env, run)[code]; Carries(Issues(env, run)[i], g.user, g.client, g.scope)
  {
    InvariantHolds(env, run);
    code := LineageInLog(env, Issues(env, run), Grants(env, run), i);
  }

  /** Every code exchange met the PKCE challenge stored with the code. */
  lemma {:induction false} ExchangesMetChallenge(env: Env, run: History, i: nat)
    requires FreshStrings(run) && i < |Issues(env, run)| && Issues(env, run)[i].source.FromCode?
    ensures var FromCode(code, verifier) := Issues(env, run)[i].source;
            code in Grants(env, run) && Met(env, Grants(env, run)[code], verifier)
  {
    InvariantHolds(env, run);
    assert Linked(env, Issues(env, run), Grants(env, run), i);
  }

  /** Every code was granted to a registered client, for a registered redirect URI, and to a public
      client only with a PKCE challenge. */
  lemma {:induction false} GrantsAreChecked(env: Env, run: History, code: OAuth.Code)
    requires code in Grants(env, run)
    ensures var g := Grants(env, run)[code];
            g.client in env.apps && env.apps[g.client].redirectURIs.Some? &&
            g.redirectURI in env.apps[g.client].redirectURIs.value &&
            (env.apps[g.client].isPublic ==> g.challenge != "" && g.challengeMethod != "")
  {
    if code in Grants(env, run.before) && Grants(env, run)[code] == Grants(env, run.before)[code] {
      GrantsAreChecked(env, run.before, code);
    }
  }

  // ---------- Single use ----------

  predicate SameSource(a: Source, b: Source) {
    (a.FromCode? && b.FromCode? && a.code == b.code) || (a.FromRefresh? && b.FromRefresh? && a.token == b.token)
  }

  /** The key behind a source is still in the store. */
  predicate Stored(s: State, source: Source) {
    match source
    case FromCode(code, _) => code in s.codes
    case FromRefresh(token) => token in s.refresh
    case FromClient => false
  }

  /** The run has handed out the string behind a source. */
  predicate Known(run: History, source: Source) {
    match source
    case FromCode(code, _) => code in UsedCodes(run)
    case FromRefresh(token) => token in UsedTokens(run)
    case FromClient => false
  }

  /** A minting step spends its source exactly when the deletion in it succeeds. */
  lemma {:induction false} MintingSpends(env: Env, run: History, step: Step)
    requires FreshStrings(Then(run, step)) && Result(env, After(env, run), step).minted.Some?
    requires !Result(env, After(env, run), step).minted.value.source.FromClient?
    ensures var o := Result(env, After(env, run), step); var issue := o.minted.value;
            Known(run, issue.source) && (Stored(o.state, issue.source) <==> !issue.spent)
  {
    InvariantHolds(env, run);
  }

  lemma {:induction false} GoneStep(env: Env, run: History, step: Step, source: Source)
    requires FreshStrings(Then(run, step)) && Known(run, source) && !Stored(After(env, run), source)
    ensures var o := Result(env, After(env, run), step);
            !Stored(o.state, source) && (o.minted.Some? ==> !SameSource(source, o.minted.value.source))
  {}

  lemma {:induction false} KnownLater(run: History, later: History, source: Source)
    requires Extends(run, later) && Known(run, source)
    ensures Known(later, source)
  {
    UsedGrows(run, later, StepCodes);
    UsedGrows(run, later, StepTokens);
  }

  /** A source that left the store is never stored again and mints nothing more. */
  lemma {:induction false} GoneForever(env: Env, run: History, later: History, source: Source)
    requires FreshStrings(later) && Extends(run, later) && Known(run, source) && !Stored(After(env, run), source)
    ensures !Stored(After(env, later), source) && |Issues(env, run)| <= |Issues(env, later)|
    ensures forall j :: |Issues(env, run)| <= j < |Issues(env, later)| ==>
                          !SameSource(source, Issues(env, later)[j].source)
  {
    if later != run {
      GoneForever(env, run, later.before, source);
      KnownLater(run, later.before, source);
      GoneStep(env, later.before, later.step, source);
    }
  }

  /** A source whose deletion succeeded when it minted is gone from the store for good. */
  lemma {:induction false} SpentSourcesAreGone(env: Env, run: History, i: nat)
    requires FreshStrings(run) && i < |Issues(env, run)| && Issues(env, run)[i].spent
    ensures var source := Issues(env, run)[i].source;
            !source.FromClient? ==> Known(run, source) && !Stored(After(env, run), source)
  {
    var before := run.before;
    if i < |Issues(env, before)| {
      SpentSourcesAreGone(env, before, i);
      var source := Issues(env, before)[i].source;
      if !source.FromClient? { GoneStep(env, before, run.step, source); }
    } else if !Issues(env, run)[i].source.FromClient? {
      MintingSpends(env, before, run.step);
    }
  }

  /** A code or refresh token whose deletion succeeded when it minted never mints again, whatever
      became of other deletions. */
  lemma {:induction false} SourcesAreSingleUse(env: Env, run: History, i: nat, j: nat)
    requires FreshStrings(run) && i < j < |Issues(env, run)| && Issues(env, run)[i].spent
    ensures !SameSource(Issues(env, run)[i].source, Issues(env, run)[j].source)
  {
    var before := run.before;
    if j < |Issues(env, before)| {
      SourcesAreSingleUse(env, before, i, j);
    } else {
      SpentSourcesAreGone(env, before, i);
      var source := Issues(env, before)[i].source;
      if !source.FromClient? { GoneStep(env, before, run.step, source); }
    }
  }

  // ---------- Reuse after a failed deletion ----------

  /** The continuation `later` of a run mints again from the source. */
  ghost predicate MintsAgain(env: Env, run: History, later: History, source: Source) {
    FreshStrings(later) && Extends(run, later) &&
    exists j :: |Issues(env, run)| <= j < |Issues(env, later)| && SameSource(source, Issues(env, later)[j].source)
  }

  /** The next request of whoever holds the source, when every call it makes succeeds. */
  function Retry(source: Source, token: Token): Step
    requires !source.FromClient?
  {
    var calls := Calls(true, true, true, true, true);
    if source.FromCode? then Exchange(source.code, source.verifier, token, calls)
    else Renew(source.token, token, calls)
  }

  /** A minting step leaves the stored grant of its source as it found it, if it leaves it at all. */
  lemma {:induction false} RetryMints(env: Env, run: History, token: Token)
    requires FreshStrings(run) && run.Then? && token !in UsedTokens(run)
    requires var o := Result(env, After(env, run.before), run.step);
             o.minted.Some? && !o.minted.value.source.FromClient? && !o.minted.value.spent
    ensures var source := Result(env, After(env, run.before), run.step).minted.value.source;
            FreshStrings(Then(run, Retry(source, token))) &&
            Result(env, After(env, run), Retry(source, token)).minted.Some? &&
            SameSource(source, Result(env, After(env, run), Retry(source, token)).minted.value.source)
  {
    MintingSpends(env, run.before, run.step);
  }

  /** After a code or refresh token has minted a token, some continuation of the run mints from it
      again exactly when the deletion in that step failed. */
  lemma {:induction false} ReusableExactly(env: Env, run: History, step: Step)
    requires FreshStrings(Then(run, step)) && Result(env, After(env, run), step).minted.Some?
    requires !Result(env, After(env, run), step).minted.value.source.FromClient?
    ensures var issue := Result(env, After(env, run), step).minted.value;
            (exists later :: MintsAgain(env, Then(run, step), later, issue.source)) <==> !issue.spent
  {
    var minted := Then(run, step);
    var issue := Result(env, After(env, run), step).minted.value;
    MintingSpends(env, run, step);
    if issue.spent {
      forall later | Extends(minted, later) && FreshStrings(later)
        ensures !MintsAgain(env, minted, later, issue.source)
      {
        KnownLater(run, minted, issue.source);
        GoneForever(env, minted, later, issue.source);
      }
    } else {
      var token := UnusedString(UsedTokens(minted));
      RetryMints(env, minted, token);
      var later := Then(minted, Retry(issue.source, token));
      assert Extends(minted, minted) && Extends(minted, later);
      var j := |Issues(env, minted)|;
      assert SameSource(issue.source, Issues(env, later)[j].source);
      assert MintsAgain(env, minted, later, issue.source);
    }
  }

  /** One code, exchanged twice for two tokens because the first deletion failed. */
  lemma {:induction false} OneCodeTwoTokens()
    ensures var env := Env(map["app" := App(Some(["uri"]), true, None)], v => v);
            var req := AuthRequest("code", Grant("u", "app", "uri", "v", "plain", "openid", ""), "");
            var fine := Calls(true, true, true, true, true);
            var run := Then(Then(Then(Start(()), Authorize(req, "c", true)),
                                 Exchange("c", "v", "t1", fine.(deleted := false))), Exchange("c", "v", "t2", fine));
            FreshStrings(run) && |Issues(env, run)| == 2 &&
            SameSource(Issues(env, run)[0].source, Issues(env, run)[1].source) &&
            Issues(env, run)[0].token == "t1" && Issues(env, run)[1].token == "t2"
  {
    var env := Env(map["app" := App(Some(["uri"]), true, None)], v => v);
    var req := AuthRequest("code", Grant("u", "app", "uri", "v", "plain", "openid", ""), "");
    var fine := Calls(true, true, true, true, true);
    var r1 := Then(Start(()), Authorize(req, "c", true));
    assert After(env, r1).codes == map["c" := req.grant];
    var r2 := Then(r1, Exchange("c", "v", "t1", fine.(deleted := false)));
    assert After(env, r2).codes == map["c" := req.grant];
    assert "t1" != "t2" by { assert "t1"[1] != "t2"[1]; }
  }

  /** The refresh string returned for client credentials is in no state of any run redeemable. */
  lemma {:induction false} ClientTokensNeverRedeemable(env: Env, run: History, i: nat)
    requires FreshStrings(run) && i < |Issues(env, run)| && Issues(env, run)[i].source.FromClient?
    ensures Issues(env, run)[i].token !in After(env, run).refresh
  {
    InvariantHolds(env, run);
    var log, s := Issues(env, run), After(env, run);
    assert Linked(env, log, Grants(env, run), i);
    assert log[i].token in s.refresh ==> StoredIssue(log, log[i].token, s.refresh[log[i].token]);
  }

  /** What a client holds after a successful request: the newest issue of the run, whose refresh token
      can be used exactly when a user is behind it, for that user and in the reply's scope. */
  lemma {:induction false} RepliesMatchIssues(env: Env, run: History, step: Step)
    requires FreshStrings(Then(run, step)) && Result(env, After(env, run), step).reply.Tokens?
    ensures var Tokens(token, scope, subject) := Result(env, After(env, run), step).reply;
            var all, s := Issues(env, Then(run, step)), After(env, Then(run, step));
            |all| == |Issues(env, run)| + 1 &&
            var issue := all[|all| - 1];
            issue.token == token && issue.user == subject && issue.scope == scope &&
            (token in s.refresh <==> subject.Some?) &&
            (subject.Some? ==> s.refresh[token] == Renewal(subject.value, scope, issue.client))
  {
    InvariantHolds(env, run);
  }
}
