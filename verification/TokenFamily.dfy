/** Refresh-token rotation of internal/domain/auth/service.go over a token store and a family store
    whose calls may fail (section 10.4 of RFC 6749, section 2.1 of RFC 7009). */
module TokenFamily {
  import opened Histories
  import opened Options
  import opened Strings

  type Token = string
  type User = string

  /** The position of a family in the repository is its FamilyID. */
  datatype Family = Family(issued: seq<Token>, current: Token, user: User, revoked: bool)

  datatype State = State(tokens: map<Token, User>, families: seq<Family>)

  datatype Error = InvalidGrant | Internal

  /** The refresh token handed out, and for whom. */
  datatype Response = Granted(token: Token, user: User) | Denied(error: Error)

  /** How the calls to the stores turn out: reading the token's user, looking up its family, signing
      the access token, storing the new token, writing the family, deleting a token, and creating
      the session. */
  datatype Calls = Calls(read: bool, looked: bool, signed: bool, stored: bool, written: bool, deleted: bool,
                         session: bool)

  const FINE := Calls(true, true, true, true, true, true, true)

  /** GetFamilyByToken: the family that lists the token among those it issued. */
  function FamilyOf(families: seq<Family>, token: Token): (r: Option<nat>)
    ensures r.Some? ==> r.value < |families| && token in families[r.value].issued
    ensures r.None? ==> forall f :: f in families ==> token !in f.issued
  {
    if families == [] then None
    else if token in families[0].issued then Some(0)
    else match FamilyOf(families[1..], token)
      case None => None
      case Some(i) => Some(i + 1)
  }

  /** The token stays stored when the session cannot be created. */
  function LoggedIn(s: State, user: User, token: Token, calls: Calls): (State, Response) {
    if !calls.signed || !calls.stored then (s, Denied(Internal))
    else
      (s.(tokens := s.tokens[token := user]), if calls.session then Granted(token, user) else Denied(Internal))
  }

  /** A family that cannot be written leaves the new token stored; a token that cannot be deleted
      stays, and the refresh succeeds all the same. */
  function Refreshed(s: State, token: Token, newToken: Token, calls: Calls): (State, Response) {
    if token !in s.tokens || !calls.read then (s, Denied(InvalidGrant))
    else
      var user := s.tokens[token];
      match FamilyOf(s.families, token)
      case None => (s, Denied(Internal))
      case Some(i) =>
        var f := s.families[i];
        if !calls.looked then (s, Denied(Internal))
        else if f.revoked then (s, Denied(InvalidGrant))
        else if !calls.signed || !calls.stored then (s, Denied(Internal))
        else
          var tokens := s.tokens[newToken := user];
          if !calls.written then (s.(tokens := tokens), Denied(Internal))
          else
            (State(if calls.deleted then tokens - {token} else tokens,
                   s.families[i := f.(issued := f.issued + [newToken], current := newToken)]),
             Granted(newToken, user))
  }

  const REFRESH_TOKEN := "refresh_token"

  /** Any other hint is about access tokens, which are not modelled. A family that cannot be looked
      up is taken for none. */
  function Revoked(s: State, token: Token, hint: string, calls: Calls): State {
    if hint != REFRESH_TOKEN then s
    else
      match if calls.looked then FamilyOf(s.families, token) else None
      case None => if calls.deleted then s.(tokens := s.tokens - {token}) else s
      case Some(i) =>
        if calls.written then s.(families := s.families[i := s.families[i].(revoked := true)]) else s
  }

  class Service {
    var tokens: map<Token, User>
    var families: seq<Family>

    function View(): State
      reads this
    {
      State(tokens, families)
    }

    constructor ()
      ensures View() == State(map[], [])
    {
      tokens, families := map[], [];
    }

    /** The caller supplies the new UUID. */
    method CreateSessionAndTokens(userID: User, refreshToken: Token, calls: Calls) returns (r: Response)
      modifies this`tokens
      ensures (View(), r) == LoggedIn(old(View()), userID, refreshToken, calls)
    {
      if !calls.signed {
        return Denied(Internal);
      }
      if !calls.stored {
        return Denied(Internal);
      }
      tokens := tokens[refreshToken := userID];
      if !calls.session {
        return Denied(Internal);
      }
      r := Granted(refreshToken, userID);
    }

    method RefreshAccessToken(refreshToken: Token, newRefreshToken: Token, calls: Calls) returns (r: Response)
      modifies this
      ensures (View(), r) == Refreshed(old(View()), refreshToken, newRefreshToken, calls)
    {
      if refreshToken !in tokens || !calls.read {
        return Denied(InvalidGrant);
      }
      var userID := tokens[refreshToken];
      var id := FamilyOf(families, refreshToken);
      if id.None? || !calls.looked {
        return Denied(Internal);
      }
      var family := families[id.value];
      if family.revoked {
        return Denied(InvalidGrant);
      }
      if !calls.signed {
        return Denied(Internal);
      }
      if !calls.stored {
        return Denied(Internal);
      }
      tokens := tokens[newRefreshToken := userID];
      family := family.(issued := family.issued + [newRefreshToken], current := newRefreshToken);
      if !calls.written {
        return Denied(Internal);
      }
      families := families[id.value := family];
      if calls.deleted {
        tokens := tokens - {refreshToken};
      }
      r := Granted(newRefreshToken, userID);
    }

    method RevokeToken(token: Token, tokenTypeHint: string, calls: Calls)
      modifies this
      ensures View() == Revoked(old(View()), token, tokenTypeHint, calls)
    {
      if tokenTypeHint == REFRESH_TOKEN {
        var id := FamilyOf(families, token);
        if calls.looked && id.Some? {
          if calls.written {
            families := families[id.value := families[id.value].(revoked := true)];
          }
          return;
        }
        if calls.deleted {
          tokens := tokens - {token};
        }
      }
    }
  }

  // ---------- Runs ----------

  /** `Open` registers a family for a stored token, as the repository's CreateFamily would; the
      service itself never calls that. `Lapse` lets stored tokens expire. */
  datatype Step =
    | Login(user: User, token: Token, calls: Calls)
    | Open(token: Token)
    | Refresh(token: Token, newToken: Token, calls: Calls)
    | Revoke(token: Token, hint: string, calls: Calls)
    | Lapse(tokens: set<Token>)

  function Next(s: State, step: Step): State {
    match step
    case Login(user, token, calls) => LoggedIn(s, user, token, calls).0
    case Open(token) =>
      if token in s.tokens && FamilyOf(s.families, token).None?
      then s.(families := s.families + [Family([token], token, s.tokens[token], false)]) else s
    case Refresh(token, newToken, calls) => Refreshed(s, token, newToken, calls).0
    case Revoke(token, hint, calls) => Revoked(s, token, hint, calls)
    case Lapse(tokens) => s.(tokens := s.tokens - tokens)
  }

  type History = Run<(), Step>

  function After(run: History): State {
    match run
    case Start(_) => State(map[], [])
    case Then(before, step) => Next(After(before), step)
  }

  function StepTokens(step: Step): set<Token> {
    match step
    case Login(_, token, _) => {token}
    case Refresh(_, newToken, _) => {newToken}
    case _ => {}
  }

  /** Generated UUIDs never repeat. */
  predicate FreshTokens(run: History) {
    Fresh(run, StepTokens)
  }

  function UsedTokens(run: History): set<Token> {
    Used(run, StepTokens)
  }

  /** A successful refresh; `spent` tells whether the old token was deleted. */
  datatype Redemption = Redemption(token: Token, next: Token, user: User, spent: bool)

  /** The refresh a step performs, if it succeeds. */
  function Redeemed(s: State, step: Step): Option<Redemption> {
    match step
    case Refresh(token, newToken, calls) =>
      (match Refreshed(s, token, newToken, calls).1
       case Granted(t, user) => Some(Redemption(token, t, user, calls.deleted))
       case Denied(_) => None)
    case _ => None
  }

  /** Every successful refresh, in order. */
  function Redemptions(run: History): seq<Redemption> {
    match run
    case Start(_) => []
    case Then(before, step) =>
      match Redeemed(After(before), step)
      case None => Redemptions(before)
      case Some(r) => Redemptions(before) + [r]
  }

  // ---------- The invariant ----------

  predicate Distinct(ts: seq<Token>) {
    forall i, j :: 0 <= i < j < |ts| ==> ts[i] != ts[j]
  }

  /** Issued tokens are distinct, end with the current one, and are stored for the family's user if
      at all. */
  ghost predicate FamilyOk(s: State, used: set<Token>, f: Family) {
    f.issued != [] && Distinct(f.issued) && f.issued[|f.issued| - 1] == f.current &&
    (forall t :: t in f.issued ==> t in used && (t in s.tokens ==> s.tokens[t] == f.user))
  }

  ghost predicate Disjoint(families: seq<Family>) {
    forall i, j, t | 0 <= i < |families| && 0 <= j < |families| && t in families[i].issued && t in families[j].issued ::
      i == j
  }

  ghost predicate Invariant(s: State, used: set<Token>) {
    (forall i :: 0 <= i < |s.families| ==> FamilyOk(s, used, s.families[i])) &&
    Disjoint(s.families) && s.tokens.Keys <= used
  }

  lemma {:induction false} RefreshKeepsInvariant(
    s: State, token: Token, newToken: Token, calls: Calls, used: set<Token>
  )
    requires Invariant(s, used) && newToken !in used
    ensures Invariant(Refreshed(s, token, newToken, calls).0, used + {newToken})
  {
    var t := Refreshed(s, token, newToken, calls).0;
    forall j | 0 <= j < |t.families| ensures FamilyOk(t, used + {newToken}, t.families[j]) {
      assert FamilyOk(s, used, s.families[j]);
      assert newToken !in s.families[j].issued;
    }
  }

  lemma {:induction false} OtherStepsKeepInvariant(s: State, step: Step, used: set<Token>)
    requires Invariant(s, used) && !step.Refresh? && StepTokens(step) !! used
    ensures Invariant(Next(s, step), used + StepTokens(step))
  {
    var t := Next(s, step);
    forall j | 0 <= j < |t.families| ensures FamilyOk(t, used + StepTokens(step), t.families[j]) {
      if j < |s.families| { assert FamilyOk(s, used, s.families[j]); }
    }
    if step.Open? && FamilyOf(s.families, step.token).None? {
      assert forall i :: 0 <= i < |s.families| ==> s.families[i] in s.families;
    }
  }

  /** In every state of every run, whatever calls fail: families share no token, each one's tokens
      are distinct and end with the current one, and stored ones belong to the family's user. */
  lemma {:induction false} InvariantHolds(run: History)
    requires FreshTokens(run)
    ensures Invariant(After(run), UsedTokens(run))
  {
    match run {
      case Start(_) =>
      case Then(before, step) =>
        InvariantHolds(before);
        if step.Refresh? {
          RefreshKeepsInvariant(After(before), step.token, step.newToken, step.calls, UsedTokens(before));
        } else {
          OtherStepsKeepInvariant(After(before), step, UsedTokens(before));
        }
    }
  }

  lemma {:induction false} InOneFamily(s: State, used: set<Token>, i: nat, token: Token)
    requires Invariant(s, used) && i < |s.families| && token in s.families[i].issued
    ensures FamilyOf(s.families, token) == Some(i)
  {
    assert s.families[i] in s.families;
  }

  // ---------- Who can refresh ----------

  /** In every reachable state and under every outcome of the calls: a member of a family refreshes
      exactly when it is stored, the family is not revoked and the first five calls work, and then
      for the family's user. Whether it is the current token is not asked. A refusal because the
      token is gone or the family revoked leaves everything as it was. */
  lemma {:induction false} RedeemableExactly(run: History, i: nat, token: Token, newToken: Token, calls: Calls)
    requires FreshTokens(run) && i < |After(run).families| && token in After(run).families[i].issued
    ensures var s := After(run); var f := s.families[i]; var (t, r) := Refreshed(s, token, newToken, calls);
            (r.Granted? <==> token in s.tokens && !f.revoked &&
                             calls.read && calls.looked && calls.signed && calls.stored && calls.written) &&
            (r.Granted? ==> r == Granted(newToken, f.user)) &&
            (token !in s.tokens || f.revoked ==> t == s)
  {
    InvariantHolds(run);
    InOneFamily(After(run), UsedTokens(run), i, token);
    assert FamilyOk(After(run), UsedTokens(run), After(run).families[i]);
  }

  /** Every refresh of the family so far deleted the token it used. */
  predicate LeakFree(run: History, i: nat) {
    run.Then? ==>
      LeakFree(run.before, i) &&
      var s := After(run.before);
      (Redeemed(s, run.step).Some? && FamilyOf(s.families, run.step.token) == Some(i) ==> run.step.calls.deleted)
  }

  /** Only the current token of the family can be stored. */
  ghost predicate OnlyCurrent(s: State, i: nat) {
    i < |s.families| ==> forall t :: t in s.families[i].issued && t in s.tokens ==> t == s.families[i].current
  }

  lemma {:induction false} OnlyCurrentStep(s: State, step: Step, used: set<Token>, i: nat)
    requires Invariant(s, used) && StepTokens(step) !! used && OnlyCurrent(s, i)
    requires Redeemed(s, step).Some? && FamilyOf(s.families, step.token) == Some(i) ==> step.calls.deleted
    ensures OnlyCurrent(Next(s, step), i)
  {
    if i < |s.families| { assert FamilyOk(s, used, s.families[i]); }
  }

  lemma {:induction false} LeakFreeKeepsCurrent(run: History, i: nat)
    requires FreshTokens(run) && LeakFree(run, i)
    ensures OnlyCurrent(After(run), i)
  {
    if run.Then? {
      LeakFreeKeepsCurrent(run.before, i);
      InvariantHolds(run.before);
      OnlyCurrentStep(After(run.before), run.step, UsedTokens(run.before), i);
    }
  }

  /** As long as its own deletions succeed, a family refreshes only with its current token; a
      superseded member is refused, and presenting it leaves the family as it was. */
  lemma {:induction false} RedeemableExactlyCurrent(run: History, i: nat, token: Token, newToken: Token)
    requires FreshTokens(run) && i < |After(run).families| && token in After(run).families[i].issued && LeakFree(run, i)
    ensures var s := After(run); var f := s.families[i]; var (t, r) := Refreshed(s, token, newToken, FINE);
            (r == Granted(newToken, f.user) <==> token == f.current && token in s.tokens && !f.revoked) &&
            (token != f.current ==> t == s && r == Denied(InvalidGrant))
  {
    RedeemableExactly(run, i, token, newToken, FINE);
    LeakFreeKeepsCurrent(run, i);
  }

  predicate NeverOpened(run: History) {
    run.Then? ==> NeverOpened(run.before) && !run.step.Open?
  }

  /** The service itself registers no family, and without one no token of any login is refreshed. */
  lemma {:induction false} NoFamilyNoRefresh(run: History, token: Token, newToken: Token, calls: Calls)
    requires NeverOpened(run)
    ensures After(run).families == [] && Refreshed(After(run), token, newToken, calls).1.Denied?
  {
    if run.Then? { NoFamilyNoRefresh(run.before, token, newToken, calls); }
  }

  // ---------- Single use ----------

  lemma {:induction false} GoneStep(s: State, step: Step, used: set<Token>, token: Token)
    requires StepTokens(step) !! used && token in used && token !in s.tokens
    ensures token !in Next(s, step).tokens
    ensures Redeemed(s, step).Some? ==> Redeemed(s, step).value.token != token
  {}

  /** A token that has left the store never returns to it and is never redeemed again. */
  lemma {:induction false} GoneForever(run: History, later: History, token: Token)
    requires FreshTokens(later) && Extends(run, later) && token in UsedTokens(run) && token !in After(run).tokens
    ensures token !in After(later).tokens && |Redemptions(run)| <= |Redemptions(later)|
    ensures forall j :: |Redemptions(run)| <= j < |Redemptions(later)| ==> Redemptions(later)[j].token != token
  {
    if later != run {
      GoneForever(run, later.before, token);
      UsedGrows(run, later.before, StepTokens);
      GoneStep(After(later.before), later.step, UsedTokens(later.before), token);
    }
  }

  /** A refresh spends its token exactly when the deletion in it succeeds. */
  lemma {:induction false} RefreshSpends(run: History, step: Step)
    requires FreshTokens(Then(run, step)) && Redeemed(After(run), step).Some?
    ensures step.token in UsedTokens(run) && (step.token in Next(After(run), step).tokens <==> !step.calls.deleted)
  {
    InvariantHolds(run);
  }

  /** Tokens whose redemption deleted them are in nobody's hands any more. */
  lemma {:induction false} RedeemedAreGone(run: History, k: nat)
    requires FreshTokens(run) && k < |Redemptions(run)| && Redemptions(run)[k].spent
    ensures Redemptions(run)[k].token in UsedTokens(run) && Redemptions(run)[k].token !in After(run).tokens
  {
    var before := run.before;
    if k < |Redemptions(before)| {
      RedeemedAreGone(before, k);
      GoneStep(After(before), run.step, UsedTokens(before), Redemptions(before)[k].token);
    } else {
      RefreshSpends(before, run.step);
    }
  }

  /** Over every run a refresh token that was deleted when it was redeemed is not redeemed again. */
  lemma {:induction false} RedeemedAtMostOnce(run: History, i: nat, j: nat)
    requires FreshTokens(run) && i < j < |Redemptions(run)| && Redemptions(run)[i].spent
    ensures Redemptions(run)[i].token != Redemptions(run)[j].token
  {
    var before := run.before;
    if j < |Redemptions(before)| {
      RedeemedAtMostOnce(before, i, j);
    } else {
      RedeemedAreGone(before, i);
    }
  }

  ghost predicate RedeemsAgain(run: History, later: History, token: Token) {
    FreshTokens(later) && Extends(run, later) &&
    exists j :: |Redemptions(run)| <= j < |Redemptions(later)| && Redemptions(later)[j].token == token
  }

  /** After a refresh some continuation redeems the same token again exactly when its deletion
      failed: the failure is only logged. */
  lemma {:induction false} ReusableExactly(run: History, step: Step)
    requires FreshTokens(Then(run, step)) && Redeemed(After(run), step).Some?
    ensures (exists later :: RedeemsAgain(Then(run, step), later, step.token)) <==> !step.calls.deleted
  {
    var used := Then(run, step);
    RefreshSpends(run, step);
    if step.calls.deleted {
      forall later | FreshTokens(later) && Extends(used, later) ensures !RedeemsAgain(used, later, step.token) {
        GoneForever(used, later, step.token);
      }
    } else {
      var token := UnusedString(UsedTokens(used));
      var again := Refresh(step.token, token, FINE);
      StillRedeemable(run, step, token);
      var later := Then(used, again);
      assert Extends(used, used) && Extends(used, later);
      assert Redemptions(later)[|Redemptions(used)|].token == step.token;
      assert RedeemsAgain(used, later, step.token);
    }
  }

  lemma {:induction false} StillRedeemable(run: History, step: Step, token: Token)
    requires FreshTokens(Then(run, step)) && Redeemed(After(run), step).Some? && !step.calls.deleted
    ensures Redeemed(After(Then(run, step)), Refresh(step.token, token, FINE)).Some?
  {
    var s := After(run);
    var i := FamilyOf(s.families, step.token).value;
    assert s.families[i].issued <= Next(s, step).families[i].issued;
    RefreshSpends(run, step);
    RedeemableExactly(Then(run, step), i, step.token, token, FINE);
  }

  // ---------- Revocation ----------

  /** A revoked family stays revoked, and issues nothing more. */
  lemma {:induction false} RevokedForever(run: History, later: History, i: nat)
    requires FreshTokens(later) && Extends(run, later) && i < |After(run).families| && After(run).families[i].revoked
    ensures i < |After(later).families| && After(later).families[i] == After(run).families[i]
  {
    if later != run {
      RevokedForever(run, later.before, i);
    }
  }

  /** After revocation through any member, no token of the family is ever refreshed again, leaked
      ones included. */
  lemma {:induction false} RevocationEndsFamily(
    run: History, member: Token, calls: Calls, later: History, token: Token, newToken: Token, laterCalls: Calls
  )
    requires var revoked := Then(run, Revoke(member, REFRESH_TOKEN, calls));
             calls.looked && calls.written && FreshTokens(later) && Extends(revoked, later)
    requires var id := FamilyOf(After(run).families, member);
             id.Some? && token in After(run).families[id.value].issued
    ensures Refreshed(After(later), token, newToken, laterCalls).0 == After(later)
    ensures Refreshed(After(later), token, newToken, laterCalls).1.Denied?
  {
    var i := FamilyOf(After(run).families, member).value;
    var revoked := Then(run, Revoke(member, REFRESH_TOKEN, calls));
    RevokedForever(revoked, later, i);
    RedeemableExactly(later, i, token, newToken, laterCalls);
  }

  // ---------- The history of a family ----------

  ghost predicate Linked(log: seq<Redemption>, a: Token, b: Token, user: User) {
    exists r :: r in log && r.token == a && r.next == b && r.user == user
  }

  /** A step adds at most one token to a family: the one its redemption issued. */
  lemma {:induction false} LinkStep(s: State, step: Step, used: set<Token>, i: nat, k: nat)
    requires Invariant(s, used) && i < |Next(s, step).families| && k + 1 < |Next(s, step).families[i].issued|
    ensures var f := Next(s, step).families[i];
            i < |s.families| && s.families[i].user == f.user && s.families[i].issued <= f.issued &&
            (k + 1 < |s.families[i].issued| ||
             (k + 1 == |s.families[i].issued| && FamilyOf(s.families, step.token) == Some(i) &&
              Redeemed(s, step) == Some(Redemption(step.token, f.issued[k + 1], f.user, step.calls.deleted))))
  {
    if i < |s.families| { assert FamilyOk(s, used, s.families[i]); }
  }

  lemma {:induction false} LinkedLonger(log: seq<Redemption>, more: seq<Redemption>, a: Token, b: Token, user: User)
    requires Linked(log, a, b, user) && log <= more
    ensures Linked(more, a, b, user)
  {
    var r :| r in log && r.token == a && r.next == b && r.user == user;
    assert more == log + more[|log|..];
  }

  /** The history of a family: each issued token but the first came from the redemption of an earlier
      member, for the family's user. */
  lemma {:induction false} FamilyGrowsByRedemption(run: History, i: nat, k: nat) returns (j: nat)
    requires FreshTokens(run) && i < |After(run).families| && k + 1 < |After(run).families[i].issued|
    ensures j <= k
    ensures var f := After(run).families[i]; Linked(Redemptions(run), f.issued[j], f.issued[k + 1], f.user)
    ensures LeakFree(run, i) ==> j == k
  {
    var before, s, f := run.before, After(run.before), After(run).families[i];
    InvariantHolds(before);
    LinkStep(s, run.step, UsedTokens(before), i, k);
    if k + 1 < |s.families[i].issued| {
      j := FamilyGrowsByRedemption(before, i, k);
      LinkedLonger(Redemptions(before), Redemptions(run), f.issued[j], f.issued[k + 1], f.user);
    } else {
      j :| 0 <= j < |s.families[i].issued| && s.families[i].issued[j] == run.step.token;
      assert Redemptions(run)[|Redemptions(before)|] in Redemptions(run);
      if LeakFree(run, i) {
        LeakFreeKeepsCurrent(before, i);
        assert FamilyOk(s, UsedTokens(before), s.families[i]);
      }
    }
  }
}
