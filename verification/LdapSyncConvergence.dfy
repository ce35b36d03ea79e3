/** A full directory sync reaches a fixed point in one pass. */
module LdapSyncConvergence {
  import opened Options
  import opened LdapSync

  predicate DistinctNames(users: seq<User>) {
    forall i, j :: 0 <= i < j < |users| ==> users[i].username != users[j].username
  }

  predicate SameContact(a: User, b: User) {
    a.username == b.username && a.email == b.email && a.phone == b.phone
  }

  /** The repository has the directory's user, with the directory's contact data unless local data
      is preferred. */
  ghost predicate Matched(c: Config, repo: seq<User>, u: User) {
    exists i :: 0 <= i < |repo| && MatchedAt(c, repo[i], u)
  }

  predicate MatchedAt(c: Config, r: User, u: User) {
    r.username == u.username && (c.preferLocal || SameContact(r, u))
  }

  /** Every directory user is matched, and every user the directory lacks is inactive. */
  ghost predicate Settled(c: Config, repo: seq<User>, remote: seq<User>) {
    (forall k :: 0 <= k < |remote| ==> Matched(c, repo, remote[k])) &&
    (forall i :: 0 <= i < |repo| ==> !Orphan(remote, repo[i]))
  }

  /** The first phase, one remote user further. */
  lemma {:induction false} SyncedNext(c: Config, fails: Failures, s: Sync, remote: seq<User>, n: nat)
    requires n < |remote| && |s.locals| <= |s.repo|
    ensures Synced(c, fails, s, remote[..n + 1]) == SyncedOne(c, fails, Synced(c, fails, s, remote[..n]), remote[n])
  {
    assert remote[..n + 1][..n] == remote[..n];
  }

  // ---------- A settled repository is a fixed point ----------

  ghost predicate ContactsAgree(locals: seq<User>, repo: seq<User>) {
    |locals| <= |repo| && forall i :: 0 <= i < |locals| ==> SameContact(locals[i], repo[i])
  }

  /** The directory's users that are new here, in its order, under the lifecycle rules. */
  function NewUsers(c: Config, repo: seq<User>, remote: seq<User>): seq<User> {
    if remote == [] then []
    else
      var n := |remote| - 1;
      NewUsers(c, repo, remote[..n]) + if Named(repo, remote[n].username) then [] else [Ruled(c.rules, remote[n])]
  }

  predicate SameNames(a: seq<User>, b: seq<User>) {
    |a| == |b| && forall i :: 0 <= i < |a| ==> a[i].username == b[i].username
  }

  lemma {:induction false} SettledStep(c: Config, fails: Failures, s: Sync, u: User)
    requires ContactsAgree(s.locals, s.repo) && DistinctNames(s.repo) && Matched(c, s.repo, u)
    ensures var r := SyncedOne(c, fails, s, u);
            r.repo == s.repo && ContactsAgree(r.locals, s.repo) && SameNames(r.locals, s.locals) &&
            r.stats == if Named(s.locals, u.username) then s.stats.(same := s.stats.same + 1)
                       else s.stats.(errors := s.stats.errors + 1)
  {
    var i :| 0 <= i < |s.repo| && MatchedAt(c, s.repo[i], u);
    match LastIndex(s.locals, u.username) {
      case Some(at) =>
        assert SameContact(s.locals[at], s.repo[at]);
        assert at == i;
        RuledChangesStatusOnly(c.rules, s.locals[i].(email := u.email, phone := u.phone, attributes := u.attributes));
      case None =>
        assert Named(s.repo, u.username);
    }
  }

  /** Nothing has moved but two counts: a remote user is unchanged if its record is on the page, and
      otherwise an attempt to create it was refused. */
  ghost predicate OnlyCounted(c: Config, s: Sync, repo: seq<User>, remote: seq<User>, n: nat)
    requires n <= |remote|
  {
    var missed := |NewUsers(c, Page(repo), remote[..n])|;
    s.repo == repo && missed <= n && s.stats == Stats(0, 0, 0, n - missed, missed, |remote|, |Page(repo)|) &&
    ContactsAgree(s.locals, repo) && SameNames(s.locals, Page(repo))
  }

  lemma {:induction false} CountedStep(c: Config, fails: Failures, s: Sync, repo: seq<User>, remote: seq<User>, n: nat)
    requires n < |remote| && DistinctNames(repo) && Matched(c, repo, remote[n])
    requires OnlyCounted(c, s, repo, remote, n)
    ensures OnlyCounted(c, SyncedOne(c, fails, s, remote[n]), repo, remote, n + 1)
  {
    var u := remote[n];
    SettledStep(c, fails, s, u);
    assert remote[..n + 1][..n] == remote[..n];
    assert Named(s.locals, u.username) <==> Named(Page(repo), u.username);
  }

  lemma {:induction false} SettledPass(c: Config, fails: Failures, repo: seq<User>, remote: seq<User>, n: nat)
    requires n <= |remote| && DistinctNames(repo)
    requires forall k :: 0 <= k < |remote| ==> Matched(c, repo, remote[k])
    ensures OnlyCounted(c, Synced(c, fails, Begun(repo, remote), remote[..n]), repo, remote, n)
  {
    if n > 0 {
      SettledPass(c, fails, repo, remote, n - 1);
      SyncedNext(c, fails, Begun(repo, remote), remote, n - 1);
      CountedStep(c, fails, Synced(c, fails, Begun(repo, remote), remote[..n - 1]), repo, remote, n - 1);
    }
  }

  lemma {:induction false} NothingToDisable(fails: Failures, s: Sync, remote: seq<User>, n: nat)
    requires n <= |s.locals| <= |s.repo| && forall i :: 0 <= i < |s.locals| ==> !Orphan(remote, s.locals[i])
    ensures Disabled(fails, s, remote, n) == s
  {
    if n > 0 { NothingToDisable(fails, s, remote, n - 1); }
  }

  /** On a settled repository of any size a full sync changes nothing, under every failure pattern:
      it reports the users on its page unchanged and the others as errors. */
  lemma {:induction false} SettledIsFixedPoint(c: Config, fails: Failures, repo: seq<User>, remote: seq<User>)
    requires Settled(c, repo, remote) && DistinctNames(repo)
    ensures var r, missed := FullSynced(c, fails, repo, remote), |NewUsers(c, Page(repo), remote)|;
            r.repo == repo && missed <= |remote| &&
            r.stats == Stats(0, 0, 0, |remote| - missed, missed, |remote|, |Page(repo)|)
  {
    assert remote[..|remote|] == remote;
    SettledPass(c, fails, repo, remote, |remote|);
    var s0 := Begun(repo, remote);
    var s := Synced(c, fails, s0, remote);
    SyncedAccounts(c, fails, s0, remote, remote);
    forall i | 0 <= i < |s.locals| ensures !Orphan(remote, s.locals[i]) {
      assert !Orphan(remote, repo[i]);
    }
    NothingToDisable(fails, s, remote, |s.locals|);
  }

  // ---------- A pass without failures settles the repository ----------

  /** The repository and the page agree on contact data, and entirely on users the directory lacks. */
  ghost predicate InStep(s: Sync, all: seq<User>) {
    |s.locals| <= |s.repo| &&
    forall i :: 0 <= i < |s.locals| ==>
      SameContact(s.locals[i], s.repo[i]) && (!Named(all, s.repo[i].username) ==> s.locals[i] == s.repo[i])
  }

  /** Users beyond the page were created from the first `n` remote users. */
  ghost predicate Additions(s: Sync, remote: seq<User>, n: nat)
    requires n <= |remote| && |s.locals| <= |s.repo|
  {
    forall i :: |s.locals| <= i < |s.repo| ==> Named(remote[..n], s.repo[i].username)
  }

  ghost predicate Progress(c: Config, s: Sync, remote: seq<User>, n: nat)
    requires n <= |remote|
  {
    InStep(s, remote) && DistinctNames(s.repo) && Additions(s, remote, n) &&
    forall k :: 0 <= k < n ==> Matched(c, s.repo, remote[k])
  }

  /** Replacing one repository user by one that still matches keeps a match. */
  lemma {:induction false} MatchedKept(c: Config, repo: seq<User>, i: nat, r: User, u: User)
    requires i < |repo| && Matched(c, repo, u) && r.username == repo[i].username
    requires MatchedAt(c, repo[i], u) ==> MatchedAt(c, r, u)
    ensures Matched(c, repo[i := r], u)
  {
    var j :| 0 <= j < |repo| && MatchedAt(c, repo[j], u);
    assert MatchedAt(c, repo[i := r][j], u);
  }

  lemma {:induction false} UpdateProgress(c: Config, fails: Failures, s: Sync, remote: seq<User>, n: nat, i: nat)
    requires n < |remote| && Progress(c, s, remote, n) && DistinctNames(remote) && !fails(s.writes)
    requires i < |s.locals| && s.locals[i].username == remote[n].username
    ensures Progress(c, UpdatedUser(c, fails, s, i, remote[n]), remote, n + 1)
  {
    var u := remote[n];
    var t := UpdatedUser(c, fails, s, i, u);
    RuledChangesStatusOnly(c.rules, s.locals[i].(email := u.email, phone := u.phone, attributes := u.attributes));
    assert Named(remote, u.username);
    assert MatchedAt(c, t.repo[i], u);
    forall k | 0 <= k < n + 1 ensures Matched(c, t.repo, remote[k]) {
      if k < n {
        assert remote[k].username != u.username;
        MatchedKept(c, s.repo, i, t.repo[i], remote[k]);
        assert t.repo == s.repo[i := t.repo[i]];
      }
    }
    NamedLonger(s, remote, n);
  }

  lemma {:induction false} NamedLonger(s: Sync, remote: seq<User>, n: nat)
    requires n < |remote| && |s.locals| <= |s.repo| && Additions(s, remote, n)
    ensures Additions(s, remote, n + 1)
  {}

  lemma {:induction false} CreateProgress(c: Config, fails: Failures, s: Sync, remote: seq<User>, n: nat)
    requires n < |remote| && Progress(c, s, remote, n) && DistinctNames(remote) && !fails(s.writes)
    requires LastIndex(s.locals, remote[n].username).None?
    ensures Progress(c, CreatedUser(c, fails, s, remote[n]), remote, n + 1)
  {
    var u := remote[n];
    var last := |s.repo|;
    forall i | 0 <= i < last ensures s.repo[i].username != u.username {
      if i < |s.locals| {
        assert SameContact(s.locals[i], s.repo[i]);
      } else {
        assert Named(remote[..n], s.repo[i].username);
      }
    }
    var t := CreatedUser(c, fails, s, u);
    RuledChangesStatusOnly(c.rules, u);
    assert SameContact(t.repo[last], u) && MatchedAt(c, t.repo[last], u);
    NamedLonger(s, remote, n);
    forall k | 0 <= k < n + 1 ensures Matched(c, t.repo, remote[k]) {
      if k < n {
        var i :| 0 <= i < |s.repo| && MatchedAt(c, s.repo[i], remote[k]);
        assert MatchedAt(c, t.repo[i], remote[k]);
      }
    }
    assert remote[..n + 1][n] == u;
    forall i | |t.locals| <= i < |t.repo| ensures Named(remote[..n + 1], t.repo[i].username) {
      if i < last { assert Named(remote[..n + 1], s.repo[i].username); }
    }
  }

  lemma {:induction false} SyncedProgress(c: Config, fails: Failures, repo: seq<User>, remote: seq<User>, n: nat)
    requires n <= |remote| && |repo| <= PAGE_SIZE && DistinctNames(repo) && DistinctNames(remote)
    requires forall w :: !fails(w)
    ensures Progress(c, Synced(c, fails, Begun(repo, remote), remote[..n]), remote, n)
  {
    if n > 0 {
      SyncedProgress(c, fails, repo, remote, n - 1);
      assert remote[..n][..n - 1] == remote[..n - 1];
      var s := Synced(c, fails, Begun(repo, remote), remote[..n - 1]);
      match LastIndex(s.locals, remote[n - 1].username) {
        case Some(i) => UpdateProgress(c, fails, s, remote, n - 1, i);
        case None => CreateProgress(c, fails, s, remote, n - 1);
      }
    }
  }

  lemma {:induction false} DisabledOneProgress(fails: Failures, s: Sync, remote: seq<User>, i: nat)
    requires i < |s.locals| && InStep(s, remote) && !fails(s.writes)
    ensures var r := DisabledOne(fails, s, remote, i);
            InStep(r, remote) && SameContact(r.repo[i], s.repo[i]) && !Orphan(remote, r.repo[i]) &&
            r.repo == s.repo[i := r.repo[i]]
  {}

  /** `r` is `s` after the second phase has visited the first `n`: contact data is as before, no
      orphan is left among those, and users beyond the page are untouched. */
  ghost predicate DisabledSoFar(s: Sync, r: Sync, remote: seq<User>, n: nat)
    requires n <= |s.locals|
  {
    InStep(s, remote) && InStep(r, remote) && |r.locals| == |s.locals| && |r.repo| == |s.repo| &&
    (forall i :: 0 <= i < |s.repo| ==> SameContact(r.repo[i], s.repo[i])) &&
    (forall i :: 0 <= i < n ==> !Orphan(remote, r.repo[i])) &&
    (forall i :: |s.locals| <= i < |s.repo| ==> r.repo[i] == s.repo[i])
  }

  lemma {:induction false} DisabledSoFarStep(fails: Failures, s: Sync, r: Sync, remote: seq<User>, n: nat)
    requires n < |s.locals| && DisabledSoFar(s, r, remote, n) && !fails(r.writes)
    ensures DisabledSoFar(s, DisabledOne(fails, r, remote, n), remote, n + 1)
  {
    DisabledOneProgress(fails, r, remote, n);
  }

  lemma {:induction false} DisabledProgress(fails: Failures, s: Sync, remote: seq<User>, n: nat)
    requires n <= |s.locals| && InStep(s, remote) && forall w :: !fails(w)
    ensures DisabledSoFar(s, Disabled(fails, s, remote, n), remote, n)
  {
    if n > 0 {
      DisabledProgress(fails, s, remote, n - 1);
      var r := Disabled(fails, s, remote, n - 1);
      assert Disabled(fails, s, remote, n) == DisabledOne(fails, r, remote, n - 1);
      DisabledSoFarStep(fails, s, r, remote, n - 1);
    }
  }

  lemma {:induction false} NoFailuresSettles(c: Config, fails: Failures, repo: seq<User>, remote: seq<User>)
    requires |repo| <= PAGE_SIZE && DistinctNames(repo) && DistinctNames(remote) && forall w :: !fails(w)
    ensures var r := FullSynced(c, fails, repo, remote).repo; Settled(c, r, remote) && DistinctNames(r)
  {
    assert remote[..|remote|] == remote;
    SyncedProgress(c, fails, repo, remote, |remote|);
    var s := Synced(c, fails, Begun(repo, remote), remote);
    DisabledProgress(fails, s, remote, |s.locals|);
    var r := FullSynced(c, fails, repo, remote).repo;
    forall k | 0 <= k < |remote| ensures Matched(c, r, remote[k]) {
      assert Matched(c, s.repo, remote[k]);
      var i :| 0 <= i < |s.repo| && MatchedAt(c, s.repo[i], remote[k]);
      assert SameContact(r[i], s.repo[i]) && MatchedAt(c, r[i], remote[k]);
    }
    forall i | 0 <= i < |r| ensures !Orphan(remote, r[i]) {
      if i >= |s.locals| { assert r[i] == s.repo[i] && Named(remote[..|remote|], s.repo[i].username); }
    }
  }

  // ---------- A full sync is an incremental one plus deactivation ----------

  /** The page and the repository agree on users not among the first `n` remote users. */
  ghost predicate Untouched(s: Sync, remote: seq<User>, n: nat)
    requires n <= |remote|
  {
    |s.locals| <= |s.repo| && DistinctNames(s.repo) && Additions(s, remote, n) &&
    forall i :: 0 <= i < |s.locals| ==>
      s.locals[i].username == s.repo[i].username &&
      (!Named(remote[..n], s.repo[i].username) ==> s.locals[i] == s.repo[i])
  }

  ghost predicate SameEffect(s: Sync, t: Sync) {
    s.repo == t.repo && s.writes == t.writes && s.stats == t.stats
  }

  lemma {:induction false} NamedGrows(remote: seq<User>, n: nat, name: string)
    requires n < |remote|
    ensures Named(remote[..n + 1], name) <==> Named(remote[..n], name) || remote[n].username == name
  {}

  /** The page and the repository give the same answer for a remote user not seen before. */
  lemma {:induction false} SameLookup(s: Sync, remote: seq<User>, n: nat)
    requires n < |remote| && Untouched(s, remote, n) && DistinctNames(remote)
    ensures LastIndex(s.locals, remote[n].username) == LastIndex(s.repo, remote[n].username)
    ensures var at := LastIndex(s.locals, remote[n].username); at.Some? ==> s.locals[at.value] == s.repo[at.value]
  {}

  lemma {:induction false} UntouchedUpdate(c: Config, fails: Failures, s: Sync, remote: seq<User>, n: nat, i: nat)
    requires n < |remote| && Untouched(s, remote, n) && i < |s.locals| && s.locals[i].username == remote[n].username
    ensures Untouched(UpdatedUser(c, fails, s, i, remote[n]), remote, n + 1)
  {
    var u, r := remote[n], UpdatedUser(c, fails, s, i, remote[n]);
    RuledChangesStatusOnly(c.rules, s.locals[i].(email := u.email, phone := u.phone, attributes := u.attributes));
    assert forall j :: 0 <= j < |r.repo| ==> r.repo[j].username == s.repo[j].username;
    forall j | 0 <= j < |s.repo|
      ensures Named(remote[..n + 1], s.repo[j].username) <==>
              Named(remote[..n], s.repo[j].username) || u.username == s.repo[j].username
    {
      NamedGrows(remote, n, s.repo[j].username);
    }
  }

  lemma {:induction false} UntouchedCreate(c: Config, fails: Failures, s: Sync, remote: seq<User>, n: nat)
    requires n < |remote| && Untouched(s, remote, n) && LastIndex(s.repo, remote[n].username).None?
    ensures Untouched(CreatedUser(c, fails, s, remote[n]), remote, n + 1)
  {
    var u, r := remote[n], CreatedUser(c, fails, s, remote[n]);
    RuledChangesStatusOnly(c.rules, u);
    assert forall j :: 0 <= j < |s.repo| ==> r.repo[j] == s.repo[j];
    forall j | 0 <= j < |r.repo|
      ensures Named(remote[..n + 1], r.repo[j].username) <==>
              Named(remote[..n], r.repo[j].username) || u.username == r.repo[j].username
    {
      NamedGrows(remote, n, r.repo[j].username);
    }
  }

  lemma {:induction false} UntouchedStep(c: Config, fails: Failures, s: Sync, remote: seq<User>, n: nat)
    requires n < |remote| && Untouched(s, remote, n) && DistinctNames(remote)
    ensures Untouched(SyncedOne(c, fails, s, remote[n]), remote, n + 1)
  {
    SameLookup(s, remote, n);
    match LastIndex(s.locals, remote[n].username) {
      case Some(i) => UntouchedUpdate(c, fails, s, remote, n, i);
      case None => UntouchedCreate(c, fails, s, remote, n);
    }
  }

  lemma {:induction false} SameEffectStep(c: Config, fails: Failures, s: Sync, t: Sync, remote: seq<User>, n: nat)
    requires n < |remote| && Untouched(s, remote, n) && DistinctNames(remote) && SameEffect(s, t)
    ensures SameEffect(SyncedOne(c, fails, s, remote[n]), IncrementalOne(c, fails, t, remote[n], false))
  {
    SameLookup(s, remote, n);
  }

  lemma {:induction false} FirstPhaseIsIncremental(
    c: Config, fails: Failures, never: Failures, repo: seq<User>, remote: seq<User>, n: nat
  )
    requires n <= |remote| && |repo| <= PAGE_SIZE && DistinctNames(repo)
    requires DistinctNames(remote) && forall w :: !never(w)
    ensures Untouched(Synced(c, fails, Begun(repo, remote), remote[..n]), remote, n)
    ensures SameEffect(Synced(c, fails, Begun(repo, remote), remote[..n]),
                       Incremental(c, fails, never, Begun(repo, remote), remote[..n]))
  {
    if n > 0 {
      FirstPhaseIsIncremental(c, fails, never, repo, remote, n - 1);
      assert remote[..n][..n - 1] == remote[..n - 1];
      var s := Synced(c, fails, Begun(repo, remote), remote[..n - 1]);
      UntouchedStep(c, fails, s, remote, n - 1);
      SameEffectStep(c, fails, s, Incremental(c, fails, never, Begun(repo, remote), remote[..n - 1]), remote, n - 1);
    }
  }

  /** With distinct usernames and a local set that fits the page, under every pattern of write
      failures a full sync is an incremental sync of the whole directory followed by the
      deactivation of users the directory lacks. */
  lemma {:induction false} FullIsIncrementalThenDisable(
    c: Config, fails: Failures, never: Failures, repo: seq<User>, remote: seq<User>
  )
    requires |repo| <= PAGE_SIZE && DistinctNames(repo) && DistinctNames(remote) && forall w :: !never(w)
    ensures var s := Synced(c, fails, Begun(repo, remote), remote);
            SameEffect(s, Incremental(c, fails, never, Begun(repo, remote), remote)) &&
            FullSynced(c, fails, repo, remote) == Disabled(fails, s, remote, |s.locals|)
  {
    assert remote[..|remote|] == remote;
    FirstPhaseIsIncremental(c, fails, never, repo, remote, |remote|);
  }
}
