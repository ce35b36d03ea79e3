/** Directory synchronisation of internal/services/sync/ldap_sync_service.go. */
module LdapSync {
  import opened Options

  /** Only string-valued attributes are kept: no other value can match a lifecycle rule. */
  datatype User = User(username: string, email: string, phone: string, status: string, attributes: map<string, string>)

  datatype Rule = Rule(sourceAttr: string, matchValue: string, targetStatus: string)

  datatype Config = Config(preferLocal: bool, rules: seq<Rule>)

  datatype Stats = Stats(created: nat, updated: nat, disabled: nat, same: nat, errors: nat,
                         totalRemote: nat, totalLocal: nat)

  const INACTIVE := "inactive"
  const PAGE_SIZE := 10000

  /** A sync in progress: the repository, the page of it read into memory (the same users in the
      same order), the counters, and how many repository writes were attempted. */
  datatype Sync = Sync(repo: seq<User>, locals: seq<User>, stats: Stats, writes: nat)

  /** Which repository writes fail, by their position in the sequence of attempts. */
  type Failures = nat -> bool

  function LastIndex(users: seq<User>, name: string): (r: Option<nat>)
    ensures match r
            case Some(i) => i < |users| && users[i].username == name &&
                            forall j :: i < j < |users| ==> users[j].username != name
            case None => forall j :: 0 <= j < |users| ==> users[j].username != name
  {
    if users == [] then None
    else if users[|users| - 1].username == name then Some(|users| - 1)
    else LastIndex(users[..|users| - 1], name)
  }

  /** The first rule whose attribute matches sets the status. */
  function Ruled(rules: seq<Rule>, u: User): User {
    if rules == [] then u
    else if rules[0].sourceAttr in u.attributes && u.attributes[rules[0].sourceAttr] == rules[0].matchValue
    then u.(status := rules[0].targetStatus)
    else Ruled(rules[1..], u)
  }

  /** The repository refuses a name that is taken, besides the failures it may have at any time. */
  function CreatedUser(c: Config, fails: Failures, s: Sync, u: User): Sync {
    if fails(s.writes) || Named(s.repo, u.username) then
      s.(stats := s.stats.(errors := s.stats.errors + 1), writes := s.writes + 1)
    else s.(repo := s.repo + [Ruled(c.rules, u)], stats := s.stats.(created := s.stats.created + 1),
            writes := s.writes + 1)
  }

  /** A write of the in-memory user `i` back to the repository. */
  function Saved(s: Sync, i: nat): Sync
    requires i < |s.locals| <= |s.repo|
  {
    s.(repo := s.repo[i := s.locals[i]])
  }

  function Merged(c: Config, local: User, u: User): User {
    Ruled(c.rules, local.(email := u.email, phone := u.phone, attributes := u.attributes))
  }

  function UpdatedUser(c: Config, fails: Failures, s: Sync, i: nat, u: User): Sync
    requires i < |s.locals| <= |s.repo|
  {
    if c.preferLocal then s.(stats := s.stats.(same := s.stats.same + 1))
    else
      var differs := s.locals[i].email != u.email || s.locals[i].phone != u.phone;
      var m := s.(locals := s.locals[i := Merged(c, s.locals[i], u)]);
      if !differs then m.(stats := s.stats.(same := s.stats.same + 1))
      else if fails(s.writes) then m.(stats := s.stats.(errors := s.stats.errors + 1), writes := s.writes + 1)
      else Saved(m, i).(stats := s.stats.(updated := s.stats.updated + 1), writes := s.writes + 1)
  }

  function SyncedOne(c: Config, fails: Failures, s: Sync, u: User): Sync
    requires |s.locals| <= |s.repo|
  {
    match LastIndex(s.locals, u.username)
    case Some(i) => UpdatedUser(c, fails, s, i, u)
    case None => CreatedUser(c, fails, s, u)
  }

  /** Updates and creations, in the order of the remote list. */
  function Synced(c: Config, fails: Failures, s: Sync, remote: seq<User>): (r: Sync)
    requires |s.locals| <= |s.repo|
    ensures |r.locals| == |s.locals| && |s.repo| <= |r.repo|
  {
    if remote == [] then s else SyncedOne(c, fails, Synced(c, fails, s, remote[..|remote| - 1]), remote[|remote| - 1])
  }

  predicate Named(users: seq<User>, name: string) {
    exists i :: 0 <= i < |users| && users[i].username == name
  }

  function DisabledOne(fails: Failures, s: Sync, remote: seq<User>, i: nat): Sync
    requires i < |s.locals| <= |s.repo|
  {
    if Named(remote, s.locals[i].username) || s.locals[i].status == INACTIVE then s
    else
      var m := s.(locals := s.locals[i := s.locals[i].(status := INACTIVE)], writes := s.writes + 1);
      if fails(s.writes) then m.(stats := s.stats.(errors := s.stats.errors + 1))
      else Saved(m, i).(stats := s.stats.(disabled := s.stats.disabled + 1))
  }

  /** Deactivation of the first `n` local users that the directory no longer has. */
  function Disabled(fails: Failures, s: Sync, remote: seq<User>, n: nat): (r: Sync)
    requires n <= |s.locals| <= |s.repo|
    ensures |r.locals| == |s.locals| && |r.repo| == |s.repo|
  {
    if n == 0 then s else DisabledOne(fails, Disabled(fails, s, remote, n - 1), remote, n - 1)
  }

  /** The one page of local users a full sync reads. */
  function Page(repo: seq<User>): seq<User> {
    if |repo| <= PAGE_SIZE then repo else repo[..PAGE_SIZE]
  }

  function Begun(repo: seq<User>, remote: seq<User>): (s: Sync)
    ensures |s.locals| <= |s.repo|
  {
    Sync(repo, Page(repo), Stats(0, 0, 0, 0, 0, |remote|, |Page(repo)|), 0)
  }

  function FullSynced(c: Config, fails: Failures, repo: seq<User>, remote: seq<User>): Sync {
    var s := Synced(c, fails, Begun(repo, remote), remote);
    Disabled(fails, s, remote, |s.locals|)
  }

  /** One changed user of an incremental sync: the local user is looked up afresh, and the look-up
      itself may fail. */
  function IncrementalOne(c: Config, fails: Failures, s: Sync, u: User, lookupFails: bool): Sync {
    if lookupFails then s.(stats := s.stats.(errors := s.stats.errors + 1))
    else SyncedOne(c, fails, s.(locals := s.repo), u)
  }

  function Incremental(c: Config, fails: Failures, lookupFails: Failures, s: Sync, changed: seq<User>): Sync {
    if changed == [] then s
    else
      var n := |changed| - 1;
      IncrementalOne(c, fails, Incremental(c, fails, lookupFails, s, changed[..n]), changed[n], lookupFails(n))
  }

  class LDAPSyncService {
    const config: Config
    const fails: Failures
    var repo: seq<User>
    var locals: seq<User>
    var stats: Stats
    var writes: nat

    function View(): Sync
      reads this
    {
      Sync(repo, locals, stats, writes)
    }

    constructor (config: Config, fails: Failures, repo: seq<User>)
      ensures this.config == config && this.fails == fails && this.repo == repo
    {
      this.config, this.fails, this.repo := config, fails, repo;
      locals, stats, writes := [], Stats(0, 0, 0, 0, 0, 0, 0), 0;
    }

    method ApplyLifecycleRules(user: User) returns (r: User)
      ensures r == Ruled(config.rules, user)
    {
      r := user;
      var i := 0;
      assert config.rules[0..] == config.rules;
      while i < |config.rules|
        invariant 0 <= i <= |config.rules|
        invariant r == user && Ruled(config.rules[i..], user) == Ruled(config.rules, user)
      {
        var rule := config.rules[i];
        assert config.rules[i..][1..] == config.rules[i + 1..];
        if rule.sourceAttr in user.attributes && user.attributes[rule.sourceAttr] == rule.matchValue {
          r := user.(status := rule.targetStatus);
          return;
        }
        i := i + 1;
      }
    }

    method CreateUser(ldapUser: User)
      modifies this
      ensures View() == CreatedUser(config, fails, old(View()), ldapUser)
    {
      var user := ApplyLifecycleRules(ldapUser);
      RuledChangesStatusOnly(config.rules, ldapUser);
      if fails(writes) || Named(repo, user.username) {
        stats := stats.(errors := stats.errors + 1);
      } else {
        repo := repo + [user];
        stats := stats.(created := stats.created + 1);
      }
      writes := writes + 1;
    }

    method UpdateUser(i: nat, ldapUser: User)
      requires i < |locals| <= |repo|
      modifies this
      ensures View() == UpdatedUser(config, fails, old(View()), i, ldapUser)
    {
      if config.preferLocal {
        stats := stats.(same := stats.same + 1);
        return;
      }
      var user, updated := locals[i], false;
      if user.email != ldapUser.email {
        user := user.(email := ldapUser.email);
        updated := true;
      }
      if user.phone != ldapUser.phone {
        user := user.(phone := ldapUser.phone);
        updated := true;
      }
      user := user.(attributes := ldapUser.attributes);
      user := ApplyLifecycleRules(user);
      locals := locals[i := user];
      if updated {
        if fails(writes) {
          stats := stats.(errors := stats.errors + 1);
        } else {
          repo := repo[i := user];
          stats := stats.(updated := stats.updated + 1);
        }
        writes := writes + 1;
      } else {
        stats := stats.(same := stats.same + 1);
      }
    }

    /** The first loop of FullSync. */
    method ProcessRemote(ldapUsers: seq<User>)
      requires |locals| <= |repo|
      modifies this
      ensures View() == Synced(config, fails, old(View()), ldapUsers)
    {
      var k := 0;
      while k < |ldapUsers|
        invariant 0 <= k <= |ldapUsers|
        invariant View() == Synced(config, fails, old(View()), ldapUsers[..k])
      {
        var u := ldapUsers[k];
        assert ldapUsers[..k + 1][..k] == ldapUsers[..k];
        var at := LastIndex(locals, u.username);
        if at.Some? {
          UpdateUser(at.value, u);
        } else {
          CreateUser(u);
        }
        k := k + 1;
      }
      assert ldapUsers[..k] == ldapUsers;
    }

    method DisableIfAbsent(ldapUsers: seq<User>, i: nat)
      requires i < |locals| <= |repo|
      modifies this
      ensures View() == DisabledOne(fails, old(View()), ldapUsers, i)
    {
      var known := LastIndex(ldapUsers, locals[i].username);
      if known.None? {
        if locals[i].status != INACTIVE {
          locals := locals[i := locals[i].(status := INACTIVE)];
          if fails(writes) {
            stats := stats.(errors := stats.errors + 1);
          } else {
            repo := repo[i := locals[i]];
            stats := stats.(disabled := stats.disabled + 1);
          }
          writes := writes + 1;
        }
      }
    }

    /** The second loop of FullSync. */
    method DisableAbsent(ldapUsers: seq<User>)
      requires |locals| <= |repo|
      modifies this
      ensures View() == Disabled(fails, old(View()), ldapUsers, |old(locals)|)
    {
      var i := 0;
      while i < |locals|
        invariant 0 <= i <= |locals| == |old(locals)| && |locals| <= |repo|
        invariant View() == Disabled(fails, old(View()), ldapUsers, i)
      {
        DisableIfAbsent(ldapUsers, i);
        i := i + 1;
      }
    }

    method IncrementalSync(changed: Option<seq<User>>, lookupFails: Failures) returns (r: Option<Stats>)
      modifies this
      ensures if changed.None? then r == None && repo == old(repo)
              else
                var start := Sync(old(repo), [], Stats(0, 0, 0, 0, 0, |changed.value|, 0), 0);
                var done := Incremental(config, fails, lookupFails, start, changed.value);
                repo == done.repo && r == Some(done.stats)
    {
      if changed.None? {
        return None;
      }
      var changedUsers := changed.value;
      locals, stats, writes := [], Stats(0, 0, 0, 0, 0, |changedUsers|, 0), 0;
      ghost var start := View();
      var k := 0;
      while k < |changedUsers|
        invariant 0 <= k <= |changedUsers|
        invariant View() == Incremental(config, fails, lookupFails, start, changedUsers[..k])
      {
        var ldapUser := changedUsers[k];
        assert changedUsers[..k + 1][..k] == changedUsers[..k];
        if lookupFails(k) {
          stats := stats.(errors := stats.errors + 1);
        } else {
          locals := repo;
          var at := LastIndex(locals, ldapUser.username);
          if at.None? {
            CreateUser(ldapUser);
          } else {
            UpdateUser(at.value, ldapUser);
          }
        }
        k := k + 1;
      }
      assert changedUsers[..k] == changedUsers;
      r := Some(stats);
    }

    /** None when the directory or the local listing cannot be read; then nothing changes. */
    method FullSync(remote: Option<seq<User>>, listable: bool) returns (r: Option<Stats>)
      modifies this
      ensures if remote.None? || !listable then r == None && repo == old(repo)
              else
                var done := FullSynced(config, fails, old(repo), remote.value);
                repo == done.repo && r == Some(done.stats)
    {
      if remote.None? || !listable {
        return None;
      }
      locals := Page(repo);
      stats := Stats(0, 0, 0, 0, 0, |remote.value|, |locals|);
      writes := 0;
      ProcessRemote(remote.value);
      DisableAbsent(remote.value);
      r := Some(stats);
    }
  }

  // ---------- Every remote user and every disabled user is accounted for ----------

  function Accounted(t: Stats): nat {
    t.created + t.updated + t.same + t.disabled + t.errors
  }

  predicate Orphan(remote: seq<User>, u: User) {
    !Named(remote, u.username) && u.status != INACTIVE
  }

  /** Local users among the first `n` that the directory lacks and that are not yet inactive. */
  function Orphans(remote: seq<User>, users: seq<User>, n: nat): nat
    requires n <= |users|
  {
    if n == 0 then 0 else Orphans(remote, users, n - 1) + if Orphan(remote, users[n - 1]) then 1 else 0
  }

  lemma {:induction false} RuledChangesStatusOnly(rules: seq<Rule>, u: User)
    ensures Ruled(rules, u) == u.(status := Ruled(rules, u).status)
  {
    if rules != [] { RuledChangesStatusOnly(rules[1..], u); }
  }

  /** What the first phase keeps of the in-memory page: names, and users the directory lacks. */
  ghost predicate PageKept(before: seq<User>, after: seq<User>, all: seq<User>) {
    |after| == |before| &&
    forall i :: 0 <= i < |before| ==>
      after[i].username == before[i].username && (!Named(all, before[i].username) ==> after[i] == before[i])
  }

  lemma {:induction false} SyncedOneAccounts(c: Config, fails: Failures, s: Sync, u: User, all: seq<User>)
    requires |s.locals| <= |s.repo| && Named(all, u.username)
    ensures var r := SyncedOne(c, fails, s, u);
            Accounted(r.stats) == Accounted(s.stats) + 1 && r.stats.disabled == s.stats.disabled &&
            r.stats.totalRemote == s.stats.totalRemote && r.stats.totalLocal == s.stats.totalLocal &&
            PageKept(s.locals, r.locals, all)
  {
    var at := LastIndex(s.locals, u.username);
    if at.Some? {
      var l := s.locals[at.value];
      RuledChangesStatusOnly(c.rules, l.(email := u.email, phone := u.phone, attributes := u.attributes));
    }
  }

  /** The first phase counts each remote user once and leaves absent local users as they were. */
  lemma {:induction false} SyncedAccounts(c: Config, fails: Failures, s: Sync, remote: seq<User>, all: seq<User>)
    requires |s.locals| <= |s.repo| && remote <= all
    ensures var r := Synced(c, fails, s, remote);
            Accounted(r.stats) == Accounted(s.stats) + |remote| && r.stats.disabled == s.stats.disabled &&
            r.stats.totalRemote == s.stats.totalRemote && r.stats.totalLocal == s.stats.totalLocal &&
            PageKept(s.locals, r.locals, all)
  {
    if remote != [] {
      var n := |remote| - 1;
      SyncedAccounts(c, fails, s, remote[..n], all);
      assert all[n] == remote[n] && Named(all, remote[n].username);
      SyncedOneAccounts(c, fails, Synced(c, fails, s, remote[..n]), remote[n], all);
    }
  }

  lemma {:induction false} DisabledAccounts(fails: Failures, s: Sync, remote: seq<User>, n: nat)
    requires n <= |s.locals| <= |s.repo|
    ensures var r := Disabled(fails, s, remote, n);
            Accounted(r.stats) == Accounted(s.stats) + Orphans(remote, s.locals, n) &&
            r.stats.totalRemote == s.stats.totalRemote && r.stats.totalLocal == s.stats.totalLocal &&
            forall i :: n <= i < |s.locals| ==> r.locals[i] == s.locals[i]
  {
    if n > 0 { DisabledAccounts(fails, s, remote, n - 1); }
  }

  lemma {:induction false} OrphansAgree(remote: seq<User>, a: seq<User>, b: seq<User>, n: nat)
    requires n <= |a| && PageKept(a, b, remote)
    ensures Orphans(remote, a, n) == Orphans(remote, b, n)
  {
    if n > 0 { OrphansAgree(remote, a, b, n - 1); }
  }

  /** Under every pattern of repository failures, and with any duplicates, a full sync accounts for
      each remote user and each orphaned local user exactly once. */
  lemma {:induction false} EveryUserAccountedFor(c: Config, fails: Failures, repo: seq<User>, remote: seq<User>)
    ensures var page := Begun(repo, remote).locals; var t := FullSynced(c, fails, repo, remote).stats;
            Accounted(t) == |remote| + Orphans(remote, page, |page|) &&
            t.totalRemote == |remote| && t.totalLocal == |page|
  {
    var s0 := Begun(repo, remote);
    SyncedAccounts(c, fails, s0, remote, remote);
    var s1 := Synced(c, fails, s0, remote);
    DisabledAccounts(fails, s1, remote, |s1.locals|);
    OrphansAgree(remote, s0.locals, s1.locals, |s0.locals|);
  }

  /** An incremental sync accounts for each changed user exactly once and disables nobody, whatever
      look-ups and writes fail. */
  lemma {:induction false} IncrementalAccounts(
    c: Config, fails: Failures, lookupFails: Failures, s: Sync, changed: seq<User>
  )
    ensures var r := Incremental(c, fails, lookupFails, s, changed);
            Accounted(r.stats) == Accounted(s.stats) + |changed| && r.stats.disabled == s.stats.disabled
  {
    if changed != [] {
      var n := |changed| - 1;
      IncrementalAccounts(c, fails, lookupFails, s, changed[..n]);
      assert Named(changed, changed[n].username);
      var m := Incremental(c, fails, lookupFails, s, changed[..n]);
      SyncedOneAccounts(c, fails, m.(locals := m.repo), changed[n], changed);
    }
  }
}
