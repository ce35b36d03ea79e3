/** The exact effect and reply of each token-service call, under every outcome of the calls it makes. */
module TokenReplies {
  import opened Histories
  import opened Options
  import opened TokenFamily

  predicate InNoFamily(s: State, token: Token) {
    forall i :: 0 <= i < |s.families| ==> token !in s.families[i].issued
  }

  /** The states hold the same other tokens for the same users. */
  predicate OthersKept(s: State, t: State, changed: set<Token>) {
    (forall x :: x in s.tokens && x !in changed ==> x in t.tokens && t.tokens[x] == s.tokens[x]) &&
    (forall x :: x in t.tokens && x !in changed ==> x in s.tokens)
  }

  /** A login stores its token, for the user who logged in, exactly when signing and storing work, and
      answers with it exactly when the session can be created too. */
  lemma {:induction false} LoginExactly(s: State, user: User, token: Token, calls: Calls)
    ensures var (t, r) := LoggedIn(s, user, token, calls);
            t.families == s.families && OthersKept(s, t, {token}) &&
            (if calls.signed && calls.stored then token in t.tokens && t.tokens[token] == user else t == s) &&
            r == if calls.signed && calls.stored && calls.session then Granted(token, user) else Denied(Internal)
  {}

  /** The whole of a refresh in any run: who is refused with which error, and what then changes; the
      user is the one the old token was stored for. */
  lemma {:induction false} RefreshExactly(run: History, token: Token, newToken: Token, calls: Calls)
    requires FreshTokens(Then(run, Refresh(token, newToken, calls)))
    ensures var s := After(run); var (t, r) := Refreshed(s, token, newToken, calls);
            if token !in s.tokens || !calls.read then t == s && r == Denied(InvalidGrant)
            else if InNoFamily(s, token) || !calls.looked then t == s && r == Denied(Internal)
            else
              exists i :: 0 <= i < |s.families| && token in s.families[i].issued &&
                          RefreshedIn(s, t, r, i, token, newToken, calls)
  {
    InvariantHolds(run);
    var s := After(run);
    if !InNoFamily(s, token) {
      var i :| 0 <= i < |s.families| && token in s.families[i].issued;
      InOneFamily(s, UsedTokens(run), i, token);
      assert newToken !in s.tokens;
      var (t, r) := Refreshed(s, token, newToken, calls);
      if token in s.tokens && calls.read && calls.looked {
        assert RefreshedIn(s, t, r, i, token, newToken, calls);
      }
    } else {
      var at := FamilyOf(s.families, token);
    }
  }

  /** The refresh of a member of family `i`. */
  ghost predicate RefreshedIn(
    s: State, t: State, r: Response, i: int, token: Token, newToken: Token, calls: Calls
  )
    requires token in s.tokens && 0 <= i < |s.families|
  {
    var f := s.families[i];
    if f.revoked then t == s && r == Denied(InvalidGrant)
    else if !calls.signed || !calls.stored then t == s && r == Denied(Internal)
    else
      newToken in t.tokens && t.tokens[newToken] == s.tokens[token] && OthersKept(s, t, {token, newToken}) &&
      (token in t.tokens <==> !(calls.written && calls.deleted)) &&
      if !calls.written then t.families == s.families && r == Denied(Internal)
      else
        |t.families| == |s.families| &&
        (forall j :: 0 <= j < |s.families| && j != i ==> t.families[j] == s.families[j]) &&
        t.families[i] == Family(f.issued + [newToken], newToken, f.user, false) &&
        r == Granted(newToken, s.tokens[token])
  }

  /** Revoking a refresh token that is in no family, or whose family cannot be looked up: it stays
      stored exactly when it was and its deletion failed; no other token and no family changes; and
      once deleted it is never redeemed in any continuation. */
  lemma {:induction false} RevokeOutsideFamily(run: History, token: Token, calls: Calls, later: History)
    requires var revoked := Then(run, Revoke(token, REFRESH_TOKEN, calls));
             FreshTokens(later) && Extends(revoked, later)
    requires InNoFamily(After(run), token) || !calls.looked
    ensures var s, t := After(run), After(Then(run, Revoke(token, REFRESH_TOKEN, calls)));
            (token in t.tokens <==> token in s.tokens && !calls.deleted) &&
            t.families == s.families && OthersKept(s, t, {token})
    ensures token in After(run).tokens && calls.deleted ==>
              token !in After(later).tokens &&
              forall j :: |Redemptions(run)| <= j < |Redemptions(later)| ==> Redemptions(later)[j].token != token
  {
    var revoked := Then(run, Revoke(token, REFRESH_TOKEN, calls));
    FreshBefore(revoked, later, StepTokens);
    var at := FamilyOf(After(run).families, token);
    if token in After(run).tokens && calls.deleted {
      InvariantHolds(run);
      GoneForever(revoked, later, token);
    }
  }

  /** Revoking a member of a family that is found: exactly that family is revoked, if it can be
      written; no stored token is touched, and under any other hint nothing at all. */
  lemma {:induction false} RevokeInsideFamily(run: History, i: nat, token: Token, hint: string, calls: Calls)
    requires FreshTokens(run) && i < |After(run).families| && token in After(run).families[i].issued
    ensures var s, t := After(run), Revoked(After(run), token, hint, calls);
            (hint != "refresh_token" ==> t == s) &&
            (hint == "refresh_token" && calls.looked ==>
               t.tokens == s.tokens && |t.families| == |s.families| &&
               (forall j :: 0 <= j < |s.families| && j != i ==> t.families[j] == s.families[j]) &&
               t.families[i] == s.families[i].(revoked := s.families[i].revoked || calls.written))
  {
    InvariantHolds(run);
    InOneFamily(After(run), UsedTokens(run), i, token);
  }

  /** A family in use: registered for a login's token, refreshed twice, each token the next one's
      predecessor; an expired current token ends it. */
  lemma {:induction false} FamilyInUse()
    ensures var opening := Then(Then(Start(()), Login("u", "a", FINE)), Open("a"));
            var used := Then(Then(opening, Refresh("a", "b", FINE)), Refresh("b", "c", FINE));
            FreshTokens(used) && After(used).families == [Family(["a", "b", "c"], "c", "u", false)] &&
            After(used).tokens == map["c" := "u"] &&
            Redemptions(used) == [Redemption("a", "b", "u", true), Redemption("b", "c", "u", true)] &&
            After(Then(used, Lapse({"c"}))).tokens == map[]
  {
    var r1 := Then(Start(()), Login("u", "a", FINE));
    var r2 := Then(r1, Open("a"));
    assert After(r2) == State(map["a" := "u"], [Family(["a"], "a", "u", false)]);
    OneRefresh(After(r2), ["a"], "a", "b", "u");
    var r3 := Then(r2, Refresh("a", "b", FINE));
    assert ["a"] + ["b"] == ["a", "b"];
    OneRefresh(After(r3), ["a", "b"], "b", "c", "u");
    var r4 := Then(r3, Refresh("b", "c", FINE));
    assert ["a", "b"] + ["c"] == ["a", "b", "c"];
    assert Redemptions(r2) == [] && Redemptions(r3) == [Redemption("a", "b", "u", true)];
    assert After(Then(r4, Lapse({"c"}))).tokens == map[];
  }

  /** A refresh by the only stored token of the only family. */
  lemma {:induction false} OneRefresh(s: State, issued: seq<Token>, token: Token, newToken: Token, user: User)
    requires s == State(map[token := user], [Family(issued, token, user, false)])
    requires token in issued && token != newToken
    ensures Refreshed(s, token, newToken, FINE) ==
            (State(map[newToken := user], [Family(issued + [newToken], newToken, user, false)]),
             Granted(newToken, user))
  {
    assert FamilyOf(s.families, token) == Some(0);
    var next := Family(issued + [newToken], newToken, user, false);
    assert s.families[0 := next] == [next];
    assert map[token := user][newToken := user] - {token} == map[newToken := user];
  }
}
