/** When exactly each request to the OAuth adapter succeeds, and which step every token came from. */
module OAuthReplies {
  import opened Histories
  import opened Options
  import opened OAuth
  import opened OAuthRuns

  // ---------- Replies ----------

  /** An authorization request gets a code exactly when it asks for one, its client is registered with
      this redirect URI, a public client sends a challenge and its method, and the code can be
      stored; the reply echoes URI and state, and the request's grant is what is stored. */
  lemma {:induction false} AuthorizeExactly(env: Env, s: State, req: AuthRequest, code: OAuth.Code, stored: bool)
    ensures var (t, r) := Authorized(env, s, req, code, stored); var g := req.grant;
            var known := g.client in env.apps && env.apps[g.client].redirectURIs.Some?;
            var valid := req.responseType == "code" && known &&
                         g.redirectURI in env.apps[g.client].redirectURIs.value &&
                         (env.apps[g.client].isPublic ==> g.challenge != "" && g.challengeMethod != "");
            (r.Code? <==> valid && stored) &&
            (r.Code? ==> r == AuthReply.Code(code, g.redirectURI, req.state) && t == s.(codes := s.codes[code := g])) &&
            (r.Refused? ==> t == s) && (valid && !stored ==> r == Refused(Internal)) &&
            (!valid ==> r == Refused(if req.responseType == "code" && !known then InvalidClient else InvalidRequest))
  {}

  /** A code exchange in any run: without a stored code, or with a verifier that does not answer its
      challenge, it is an invalid grant and changes nothing. Otherwise the code is spent unless its
      deletion fails, whatever happens next, and tokens for its user and scope come back exactly when
      every further call works. */
  lemma {:induction false} ExchangeExactly(
    env: Env, run: History, code: OAuth.Code, verifier: string, token: Token, calls: Calls
  )
    requires FreshStrings(run)
    ensures var s := After(env, run); var o := Result(env, s, Exchange(code, verifier, token, calls));
            if code !in s.codes then o == Outcome(s, Denied(InvalidGrant), None)
            else
              code in Grants(env, run) &&
              var g := Grants(env, run)[code];
              if !Met(env, g, verifier) then o == Outcome(s, Denied(InvalidGrant), None)
              else
                o.state.codes == (if calls.deleted then s.codes - {code} else s.codes) &&
                o.reply == if calls.userFound && calls.signed && calls.saved && calls.identified
                           then Tokens(token, g.scope, Some(g.user)) else Denied(Internal)
  {
    InvariantHolds(env, run);
  }

  /** A refresh likewise; the old token is kept when its user is gone. */
  lemma {:induction false} RenewExactly(env: Env, run: History, refreshToken: Token, token: Token, calls: Calls)
    requires FreshStrings(Then(run, Renew(refreshToken, token, calls)))
    ensures var s := After(env, run); var o := Result(env, s, Renew(refreshToken, token, calls));
            if refreshToken !in s.refresh then o == Outcome(s, Denied(InvalidGrant), None)
            else
              var r := s.refresh[refreshToken];
              o.state.codes == s.codes &&
              (refreshToken in o.state.refresh <==> !(calls.userFound && calls.deleted)) &&
              o.reply == if calls.userFound && calls.signed && calls.saved && calls.identified
                         then Tokens(token, r.scope, Some(r.user)) else Denied(Internal)
  {
    InvariantHolds(env, run);
  }

  /** Client credentials are answered with tokens exactly when the client is registered, its
      configured secret is the one presented, and signing works; anything else about the client is an
      invalid client. No store changes either way. */
  lemma {:induction false} ClientCredentialsExactly(
    env: Env, run: History, client: string, secret: string, token: Token, calls: Calls
  )
    ensures var s := After(env, run); var o := Result(env, s, ClientCredentials(client, secret, token, calls));
            var known := client in env.apps && env.apps[client].secret.Some? && env.apps[client].secret.value == secret;
            o.state == s && (o.minted.Some? <==> known && calls.signed) &&
            o.reply == if !known then Denied(InvalidClient) else if calls.signed then Tokens(token, "", None)
                       else Denied(Internal)
  {}

  /** Under a wrong secret no run ever issues a client token: a registered client with a secret, and a
      request with another. */
  lemma {:induction false} WrongSecretRefused(
    env: Env, run: History, client: string, secret: string, token: Token, calls: Calls
  )
    requires client in env.apps && env.apps[client].secret != Some(secret)
    ensures var step := ClientCredentials(client, secret, token, calls);
            Issues(env, Then(run, step)) == Issues(env, run) && After(env, Then(run, step)) == After(env, run)
  {
    ClientCredentialsExactly(env, run, client, secret, token, calls);
  }

  // ---------- Where tokens come from ----------

  /** The step that minted issue `i`, and the state it met. */
  function IssuedBy(env: Env, run: History, i: nat): (State, Step)
    requires i < |Issues(env, run)|
  {
    if i < |Issues(env, run.before)| then IssuedBy(env, run.before, i)
    else (After(env, run.before), run.step)
  }

  /** Every issue comes from a request of the run that carried its source: a code with the verifier
      that was presented, a refresh token, or client credentials, whose secret was then the configured
      one; and the token is the one that request minted. */
  lemma {:induction false} IssuesComeFromRequests(env: Env, run: History, i: nat)
    requires i < |Issues(env, run)|
    ensures var issue, (s, step) := Issues(env, run)[i], IssuedBy(env, run, i);
            StepTokens(step) == {issue.token} && Result(env, s, step).minted == Some(issue) &&
            match issue.source
            case FromCode(code, verifier) =>
              step.Exchange? && step.code == code && step.verifier == verifier && code in s.codes &&
              issue.user == Some(s.codes[code].user) && issue.client == s.codes[code].client
            case FromRefresh(token) =>
              step.Renew? && step.refreshToken == token && token in s.refresh &&
              issue.user == Some(s.refresh[token].user) && issue.client == s.refresh[token].client
            case FromClient =>
              step.ClientCredentials? && step.client == issue.client && issue.user == None &&
              step.client in env.apps && env.apps[step.client].secret == Some(step.secret)
  {
    if i < |Issues(env, run.before)| {
      IssuesComeFromRequests(env, run.before, i);
    }
  }

  /** What expires can be used no more: an exchange or a refresh after it is an invalid grant. */
  lemma {:induction false} LapsedAreRefused(
    env: Env, run: History, codes: set<OAuth.Code>, tokens: set<Token>, next: Step
  )
    requires (next.Exchange? && next.code in codes) || (next.Renew? && next.refreshToken in tokens)
    ensures var lapsed := After(env, Then(run, Lapse(codes, tokens)));
            Result(env, lapsed, next) == Outcome(lapsed, Denied(InvalidGrant), None)
  {}
}
