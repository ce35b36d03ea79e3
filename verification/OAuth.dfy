/** The OAuth adapter of pkg/auth/protocols/oauth.go: authorization codes, refresh tokens and client
    credentials over a key store, with the PKCE check of internal/domain/auth/pkce.go. */
module OAuth {
  import opened Options

  type Code = string
  type Token = string

  /** What an authorization code stands for. */
  datatype Grant = Grant(user: string, client: string, redirectURI: string,
                         challenge: string, challengeMethod: string, scope: string, nonce: string)

  /** What a refresh token stands for. */
  datatype Renewal = Renewal(user: string, scope: string, client: string)

  datatype State = State(codes: map<Code, Grant>, refresh: map<Token, Renewal>)

  /** A registered application; a None field is a missing or ill-typed configuration entry. */
  datatype App = App(redirectURIs: Option<seq<string>>, isPublic: bool, secret: Option<string>)

  /** The application registry and the S256 transformation (SHA-256, then base64url). */
  datatype Env = Env(apps: map<string, App>, s256: string -> string)

  datatype AuthRequest = AuthRequest(responseType: string, grant: Grant, state: string)

  datatype Error = InvalidRequest | InvalidClient | InvalidGrant | Internal

  datatype AuthReply = Code(code: Code, redirectURI: string, state: string) | Refused(error: Error)

  datatype TokenReply = Tokens(token: Token, scope: string, subject: Option<string>) | Denied(error: Error)

  /** How the calls a handler makes turn out: key deletion, user lookup, signing of the access
      token, storing the refresh token, and the ID token (true also when none is asked for). */
  datatype Calls = Calls(deleted: bool, userFound: bool, signed: bool, saved: bool, identified: bool)

  datatype Source = FromCode(code: Code, verifier: string) | FromRefresh(token: Token) | FromClient

  /** A minted token: where it came from, what it carries, and whether its source was deleted. */
  datatype Issue =
    Issue(source: Source, user: Option<string>, client: string, scope: string, token: Token, spent: bool)

  datatype Outcome = Outcome(state: State, reply: TokenReply, minted: Option<Issue>)

  function VerifyPKCE(s256: string -> string, verifier: string, challenge: string, challengeMethod: string): bool {
    if challengeMethod == "S256" then s256(verifier) == challenge
    else if challengeMethod == "plain" then verifier == challenge
    else false
  }

  /** The checks an authorization request must pass before a code is stored. */
  function Objection(env: Env, req: AuthRequest): Option<Error> {
    var g := req.grant;
    if req.responseType != "code" then Some(InvalidRequest)
    else if g.client !in env.apps || env.apps[g.client].redirectURIs.None? then Some(InvalidClient)
    else if g.redirectURI !in env.apps[g.client].redirectURIs.value then Some(InvalidRequest)
    else if env.apps[g.client].isPublic && (g.challenge == "" || g.challengeMethod == "") then Some(InvalidRequest)
    else None
  }

  /** `stored` tells whether the code's key could be written. */
  function Authorized(env: Env, s: State, req: AuthRequest, code: Code, stored: bool): (State, AuthReply) {
    match Objection(env, req)
    case Some(e) => (s, Refused(e))
    case None =>
      if !stored then (s, Refused(Internal))
      else (s.(codes := s.codes[code := req.grant]), Code(code, req.grant.redirectURI, req.state))
  }

  /** generateTokens: a client without a user gets a refresh string that is stored nowhere, and a
      failing ID token leaves the refresh token stored. */
  function Generated(
    s: State, source: Source, user: Option<string>, scope: string, client: string, token: Token, calls: Calls
  ): Outcome {
    if !calls.signed || (user.Some? && !calls.saved) then Outcome(s, Denied(Internal), None)
    else
      var t := if user.Some? then s.(refresh := s.refresh[token := Renewal(user.value, scope, client)]) else s;
      var reply := if user.Some? && !calls.identified then Denied(Internal) else Tokens(token, scope, user);
      Outcome(t, reply, Some(Issue(source, user, client, scope, token, calls.deleted)))
  }

  function Exchanged(env: Env, s: State, code: Code, verifier: string, token: Token, calls: Calls): Outcome {
    if code !in s.codes then Outcome(s, Denied(InvalidGrant), None)
    else
      var g := s.codes[code];
      if !VerifyPKCE(env.s256, verifier, g.challenge, g.challengeMethod) then Outcome(s, Denied(InvalidGrant), None)
      else
        var t := if calls.deleted then s.(codes := s.codes - {code}) else s;
        if !calls.userFound then Outcome(t, Denied(Internal), None)
        else Generated(t, FromCode(code, verifier), Some(g.user), g.scope, g.client, token, calls)
  }

  function Renewed(s: State, refreshToken: Token, token: Token, calls: Calls): Outcome {
    if refreshToken !in s.refresh then Outcome(s, Denied(InvalidGrant), None)
    else
      var r := s.refresh[refreshToken];
      if !calls.userFound then Outcome(s, Denied(Internal), None)
      else
        var t := if calls.deleted then s.(refresh := s.refresh - {refreshToken}) else s;
        Generated(t, FromRefresh(refreshToken), Some(r.user), r.scope, r.client, token, calls)
  }

  function ClientGranted(env: Env, s: State, client: string, secret: string, token: Token, calls: Calls): Outcome {
    if client !in env.apps || env.apps[client].secret != Some(secret) then Outcome(s, Denied(InvalidClient), None)
    else Generated(s, FromClient, None, "", client, token, calls)
  }

  class OAuthAdapter {
    const env: Env
    var codes: map<Code, Grant>
    var refresh: map<Token, Renewal>

    function View(): State
      reads this
    {
      State(codes, refresh)
    }

    constructor (env: Env)
      ensures this.env == env && View() == State(map[], map[])
    {
      this.env := env;
      codes, refresh := map[], map[];
    }

    method HandleAuthRequest(req: AuthRequest, code: Code, stored: bool) returns (r: AuthReply)
      modifies this`codes
      ensures (View(), r) == Authorized(env, old(View()), req, code, stored)
    {
      if req.responseType != "code" {
        return Refused(InvalidRequest);
      }
      var g := req.grant;
      if g.client !in env.apps {
        return Refused(InvalidClient);
      }
      var app := env.apps[g.client];
      if app.redirectURIs.None? {
        return Refused(InvalidClient);
      }
      var uris := app.redirectURIs.value;
      var validRedirectURI := false;
      var i := 0;
      while i < |uris| && !validRedirectURI
        invariant 0 <= i <= |uris|
        invariant validRedirectURI <==> g.redirectURI in uris[..i]
      {
        if uris[i] == g.redirectURI {
          validRedirectURI := true;
        }
        i := i + 1;
      }
      assert uris[..|uris|] == uris;
      if !validRedirectURI {
        return Refused(InvalidRequest);
      }
      if app.isPublic {
        if g.challenge == "" || g.challengeMethod == "" {
          return Refused(InvalidRequest);
        }
      }
      if !stored {
        return Refused(Internal);
      }
      codes := codes[code := g];
      r := Code(code, g.redirectURI, req.state);
    }

    method GenerateTokens(
      source: Source, user: Option<string>, scope: string, client: string, token: Token, calls: Calls
    ) returns (r: TokenReply)
      modifies this`refresh
      ensures var o := Generated(old(View()), source, user, scope, client, token, calls);
              View() == o.state && r == o.reply
    {
      if !calls.signed {
        return Denied(Internal);
      }
      if user.Some? {
        if !calls.saved {
          return Denied(Internal);
        }
        refresh := refresh[token := Renewal(user.value, scope, client)];
      }
      if user.Some? && !calls.identified {
        return Denied(Internal);
      }
      r := Tokens(token, scope, user);
    }

    method HandleAuthorizationCode(code: Code, verifier: string, token: Token, calls: Calls) returns (r: TokenReply)
      modifies this
      ensures var o := Exchanged(env, old(View()), code, verifier, token, calls); View() == o.state && r == o.reply
    {
      if code !in codes {
        return Denied(InvalidGrant);
      }
      var g := codes[code];
      if !VerifyPKCE(env.s256, verifier, g.challenge, g.challengeMethod) {
        return Denied(InvalidGrant);
      }
      if calls.deleted {
        codes := codes - {code};
      }
      if !calls.userFound {
        return Denied(Internal);
      }
      r := GenerateTokens(FromCode(code, verifier), Some(g.user), g.scope, g.client, token, calls);
    }

    method HandleRefreshToken(refreshToken: Token, token: Token, calls: Calls) returns (r: TokenReply)
      modifies this`refresh
      ensures var o := Renewed(old(View()), refreshToken, token, calls); View() == o.state && r == o.reply
    {
      if refreshToken !in refresh {
        return Denied(InvalidGrant);
      }
      var data := refresh[refreshToken];
      if !calls.userFound {
        return Denied(Internal);
      }
      if calls.deleted {
        refresh := refresh - {refreshToken};
      }
      r := GenerateTokens(FromRefresh(refreshToken), Some(data.user), data.scope, data.client, token, calls);
    }

    method HandleClientCredentials(client: string, secret: string, token: Token, calls: Calls) returns (r: TokenReply)
      modifies this`refresh
      ensures var o := ClientGranted(env, old(View()), client, secret, token, calls); View() == o.state && r == o.reply
    {
      if client !in env.apps {
        return Denied(InvalidClient);
      }
      var app := env.apps[client];
      if app.secret.None? || app.secret.value != secret {
        return Denied(InvalidClient);
      }
      r := GenerateTokens(FromClient, None, "", client, token, calls);
    }
  }
}
