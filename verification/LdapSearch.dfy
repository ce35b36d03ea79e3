/** The virtual directory of internal/protocol/ldap/virtual_tree.go: users as entries, searched by
    scope and filter. */
module LdapSearch {
  import opened Options
  import opened Strings
  import opened LdapScope
  import opened LdapFilter

  /** A user attribute: a string, or a value of another type, which the tree ignores. */
  datatype Value = Text(text: string) | Other

  datatype User = User(username: string, email: string, attributes: map<string, Value>)

  function TextOr(u: User, key: string, default: string): string {
    if key in u.attributes && u.attributes[key].Text? then u.attributes[key].text else default
  }

  function EntryOf(baseDN: string, u: User): Entry {
    var attrs := map[
      "objectClass" := ["top", "person", "organizationalPerson", "inetOrgPerson"],
      "uid" := [u.username],
      "cn" := [TextOr(u, "displayName", u.username)],
      "sn" := [TextOr(u, "lastName", TextOr(u, "sn", u.username))],
      "mail" := [u.email]];
    Entry("uid=" + u.username + ",ou=users," + baseDN,
          if "firstName" in u.attributes && u.attributes["firstName"].Text?
          then attrs["givenName" := [u.attributes["firstName"].text]] else attrs)
  }

  /** The entries of the users that satisfy `keep`, in listing order. */
  function Entries(baseDN: string, users: seq<User>, keep: User -> bool): seq<Entry> {
    if users == [] then []
    else
      var n := |users| - 1;
      Entries(baseDN, users[..n], keep) + if keep(users[n]) then [EntryOf(baseDN, users[n])] else []
  }

  predicate Selected(c: Casing, baseDN: string, base: string, scope: int, filter: Filter, u: User) {
    IsDNInScope(c.lower, EntryOf(baseDN, u).dn, base, scope) && Matches(c, EntryOf(baseDN, u), filter)
  }

  function Results(c: Casing, baseDN: string, base: string, scope: int, filter: Filter, users: seq<User>): seq<Entry> {
    Entries(baseDN, users, u => Selected(c, baseDN, base, scope, filter, u))
  }

  /** A base outside the server's tree gets nothing, even when users cannot be listed; otherwise the
      selected users in listing order, or the listing's failure. */
  function SearchResult(
    c: Casing, baseDN: string, base: string, scope: int, filter: Filter, listing: Option<seq<User>>
  ): Option<seq<Entry>> {
    if !HasSuffix(Lower(c.lower, base), Lower(c.lower, baseDN)) && base != "" then Some([])
    else if listing.None? then None
    else Some(Results(c, baseDN, Lower(c.lower, base), scope, filter, listing.value))
  }

  method Search(
    c: Casing, baseDN: string, base: string, scope: int, filter: Filter, listing: Option<seq<User>>
  ) returns (r: Option<seq<Entry>>)
    ensures r == SearchResult(c, baseDN, base, scope, filter, listing)
  {
    var lowered := Lower(c.lower, base);
    var serverBase := Lower(c.lower, baseDN);
    if !HasSuffix(lowered, serverBase) && lowered != "" {
      return Some([]);
    }
    if listing.None? {
      return None;
    }
    var users := listing.value;
    var entries := [];
    for i := 0 to |users|
      invariant entries == Results(c, baseDN, lowered, scope, filter, users[..i])
    {
      assert users[..i + 1][..i] == users[..i];
      var entry := EntryOf(baseDN, users[i]);
      if IsDNInScope(c.lower, entry.dn, lowered, scope) {
        var m := MatchesFilter(c, entry, filter);
        if m {
          entries := entries + [entry];
        }
      }
    }
    assert users[..|users|] == users;
    r := Some(entries);
  }

  // ---------- Listing ----------

  /** Complete and sound: an entry is listed exactly if some kept user has it. */
  lemma {:induction false} EntriesExact(baseDN: string, users: seq<User>, keep: User -> bool, e: Entry)
    ensures e in Entries(baseDN, users, keep) <==> exists u :: u in users && keep(u) && EntryOf(baseDN, u) == e
  {
    if users != [] {
      var n := |users| - 1;
      EntriesExact(baseDN, users[..n], keep, e);
      assert users == users[..n] + [users[n]];
    }
  }

  lemma {:induction false} EntriesAgree(baseDN: string, users: seq<User>, keep: User -> bool, other: User -> bool)
    requires forall u :: u in users ==> (keep(u) <==> other(u))
    ensures Entries(baseDN, users, keep) == Entries(baseDN, users, other)
  {
    if users != [] {
      var n := |users| - 1;
      assert users == users[..n] + [users[n]];
      EntriesAgree(baseDN, users[..n], keep, other);
    }
  }

  lemma {:induction false} EntriesNone(baseDN: string, users: seq<User>, keep: User -> bool)
    requires forall u :: u in users ==> !keep(u)
    ensures Entries(baseDN, users, keep) == []
  {
    if users != [] {
      var n := |users| - 1;
      assert users == users[..n] + [users[n]];
      EntriesNone(baseDN, users[..n], keep);
    }
  }

  // ---------- Where users live in the tree ----------

  /** The parts of a user's entry: a comma in the name, which nothing escapes, makes more of them. */
  function UserParts(u: User, suffix: seq<string>): (parts: seq<string>)
    ensures |parts| >= 2 + |suffix|
  {
    Split("uid=" + u.username) + (["ou=users"] + suffix)
  }

  lemma {:induction false} UserDNJoins(u: User, suffix: seq<string>)
    requires suffix != []
    ensures EntryOf(Join(suffix), u).dn == Join(UserParts(u, suffix))
  {
    var name := "uid=" + u.username;
    JoinSplit(name);
    JoinConcat(Split(name), ["ou=users"] + suffix);
    JoinConcat(["ou=users"], suffix);
    DNShape(name, Join(suffix));
  }

  lemma {:induction false} DNShape(name: string, server: string)
    ensures name + ",ou=users," + server == name + "," + ("ou=users" + "," + server)
  {}

  lemma {:induction false} UserPartsAreParts(u: User, suffix: seq<string>)
    requires AllCommaFree(suffix)
    ensures Parts(UserParts(u, suffix))
  {
    var head, tail := Split("uid=" + u.username), ["ou=users"] + suffix;
    JoinSplit("uid=" + u.username);
    forall i | 0 <= i < |head + tail| ensures CommaFree((head + tail)[i]) {
      if i > |head| { assert (head + tail)[i] == suffix[i - |head| - 1]; }
    }
  }

  /** Lowering is idempotent, as for any case mapping. */
  ghost predicate Idempotent(fold: Fold) {
    forall c :: fold(fold(c)) == fold(c)
  }

  lemma {:induction false} LowerTwice(fold: Fold, s: string)
    requires Idempotent(fold)
    ensures Lower(fold, Lower(fold, s)) == Lower(fold, s)
  {}

  // ---------- The whole search, in terms of RDNs ----------

  /** The entry of `d` is in scope of `base`, both as lowered RDNs; an empty base is the root. */
  predicate Under(d: seq<string>, base: seq<string>, scope: int)
    requires d != []
  {
    if scope == SCOPE_BASE_OBJECT then d == base
    else if scope == SCOPE_SINGLE_LEVEL then base == d[1..]
    else base == [] || EndsIn(d, base)
  }

  lemma {:induction false} UserInScope(
    c: Casing, suffix: seq<string>, base: string, names: seq<string>, scope: int, u: User
  )
    requires CommaSafe(c.lower) && Idempotent(c.lower) && AllCommaFree(suffix) && suffix != [] && Parts(names)
    requires Lower(c.lower, base) == Lower(c.lower, Join(names))
    ensures IsDNInScope(c.lower, EntryOf(Join(suffix), u).dn, Lower(c.lower, base), scope) <==>
            Under(LowerAll(c.lower, UserParts(u, suffix)), LowerAll(c.lower, names), scope)
  {
    UserDNJoins(u, suffix);
    UserPartsAreParts(u, suffix);
    LowerTwice(c.lower, base);
    ScopeExact(c.lower, UserParts(u, suffix), names);
  }

  /** What the gate in front of the loop lets through: the root, and names that end in the server's
      parts, the first of which may be just the end of one. */
  predicate Served(names: seq<string>, suffix: seq<string>)
    requires suffix != []
  {
    names == [] || EndsIn(names, suffix)
  }

  lemma {:induction false} GateExact(fold: Fold, suffix: seq<string>, base: string, names: seq<string>)
    requires CommaSafe(fold) && AllCommaFree(suffix) && suffix != [] && Parts(names)
    requires Lower(fold, base) == Lower(fold, Join(names))
    ensures HasSuffix(Lower(fold, base), Lower(fold, Join(suffix))) || base == "" <==>
            Served(LowerAll(fold, names), LowerAll(fold, suffix))
  {
    LowerJoin(fold, names);
    LowerJoin(fold, suffix);
    LowerParts(fold, names);
    LowerParts(fold, suffix);
    if names != [] {
      JoinNonempty(names);
      JoinSuffix(LowerAll(fold, names), LowerAll(fold, suffix));
    }
  }

  /** The users a search from these parts returns, when the gate lets it through. */
  predicate Found(c: Casing, suffix: seq<string>, b: seq<string>, scope: int, filter: Filter, u: User) {
    Under(LowerAll(c.lower, UserParts(u, suffix)), b, scope) && Matches(c, EntryOf(Join(suffix), u), filter)
  }

  lemma {:induction false} SearchByNames(
    c: Casing, suffix: seq<string>, base: string, names: seq<string>, scope: int, filter: Filter, users: seq<User>
  )
    requires CommaSafe(c.lower) && Idempotent(c.lower) && AllCommaFree(suffix) && suffix != [] && Parts(names)
    requires Lower(c.lower, base) == Lower(c.lower, Join(names))
    ensures var server, b := Join(suffix), LowerAll(c.lower, names);
            SearchResult(c, server, base, scope, filter, Some(users)) ==
            if !Served(b, LowerAll(c.lower, suffix)) then Some([])
            else Some(Entries(server, users, u => Found(c, suffix, b, scope, filter, u)))
  {
    var server, b := Join(suffix), LowerAll(c.lower, names);
    GateExact(c.lower, suffix, base, names);
    var selected := (u: User) => Selected(c, server, Lower(c.lower, base), scope, filter, u);
    forall u | u in users ensures selected(u) <==> Found(c, suffix, b, scope, filter, u) {
      UserInScope(c, suffix, base, names, scope, u);
    }
    EntriesAgree(server, users, selected, u => Found(c, suffix, b, scope, filter, u));
  }

  /** The result of every search: for every server base, every base, scope and filter and all users,
      in any case and with any commas. Nothing when the gate rejects the base,
      otherwise the matching users whose entry is in scope, read by parts. */
  lemma {:induction false} SearchExact(
    c: Casing, server: string, base: string, scope: int, filter: Filter, users: seq<User>
  )
    requires CommaSafe(c.lower) && Idempotent(c.lower)
    ensures var suffix, b := Split(server), LowerAll(c.lower, PartsOf(base));
            SearchResult(c, server, base, scope, filter, Some(users)) ==
            if !Served(b, LowerAll(c.lower, suffix)) then Some([])
            else Some(Entries(server, users, u => Found(c, suffix, b, scope, filter, u)))
  {
    JoinSplit(server);
    PartsOfJoins(base);
    SearchByNames(c, Split(server), base, PartsOf(base), scope, filter, users);
  }

  // ---------- Searching from the levels above the users ----------

  /** The RDNs `k` levels above a user entry: 1 is ou=users, 2 the server base, and so on up to the
      root. */
  function Above(suffix: seq<string>, k: nat): seq<string>
    requires 1 <= k <= |suffix| + 2
  {
    (["ou=users"] + suffix)[k - 1..]
  }

  lemma {:induction false} AboveIsParts(suffix: seq<string>, k: nat)
    requires RDNs(suffix) && 1 <= k <= |suffix| + 2
    ensures Parts(Above(suffix, k)) && AllCommaFree(suffix)
  {
    var all := ["ou=users"] + suffix;
    assert forall i :: 0 < i < |all| ==> all[i] == suffix[i - 1];
    TailIsParts(all, k - 1);
  }

  /** The gate serves ou=users, the server base and the root, and nothing between the last two. */
  lemma {:induction false} ServedAbove(fold: Fold, suffix: seq<string>, k: nat)
    requires suffix != [] && 1 <= k <= |suffix| + 2
    ensures Served(LowerAll(fold, Above(suffix, k)), LowerAll(fold, suffix)) <==> k in {1, 2, |suffix| + 2}
  {
    var all := ["ou=users"] + suffix;
    var a := LowerAll(fold, all);
    LowerTail(fold, all, 1);
    LowerTail(fold, all, k - 1);
    assert all[1..] == suffix && a[0..] == a;
    assert a[1..][1..] == a[2..];
  }

  /** Every level above a user is an ancestor; ou=users is the parent unless the name has a comma. */
  lemma {:induction false} UnderAbove(fold: Fold, suffix: seq<string>, k: nat, u: User, scope: int)
    requires suffix != [] && 1 <= k <= |suffix| + 2
    ensures Under(LowerAll(fold, UserParts(u, suffix)), LowerAll(fold, Above(suffix, k)), scope) <==>
            (scope == SCOPE_SINGLE_LEVEL && k == 1 && CommaFree(u.username)) ||
            (scope != SCOPE_SINGLE_LEVEL && scope != SCOPE_BASE_OBJECT)
  {
    var names := UserParts(u, suffix);
    var m := |names| - |suffix| - 2;
    SplitCount(u.username);
    assert names[m + k..] == Above(suffix, k);
    LowerTail(fold, names, m + k);
    TailAtDepth(LowerAll(fold, names), m + k);
  }

  lemma {:induction false} SplitCount(name: string)
    ensures |Split("uid=" + name)| == 1 <==> CommaFree(name)
  {
    var whole := "uid=" + name;
    JoinSplit(whole);
    if CommaFree(name) {
      SplitCommaFree(whole);
    } else if |Split(whole)| == 1 {
      assert whole == Split(whole)[0];
      assert forall i :: 0 <= i < |name| ==> name[i] == whole[4 + i];
    }
  }

  /** Searching from `k` levels above the user entries, in any case. From ou=users, from the server
      base and from the root, whole-subtree scope returns every matching user; single-level scope
      returns, from ou=users only, the matching users without a comma in their name; base-object
      scope returns nobody. From an ancestor of the server base the gate returns nothing in any
      scope, and hides a failed listing. */
  lemma {:induction false} SearchByDepth(
    c: Casing, suffix: seq<string>, k: nat, base: string, scope: int, filter: Filter, listing: Option<seq<User>>
  )
    requires CommaSafe(c.lower) && Idempotent(c.lower) && RDNs(suffix) && suffix != []
    requires 1 <= k <= |suffix| + 2 && Lower(c.lower, base) == Lower(c.lower, Join(Above(suffix, k)))
    requires scope in {SCOPE_BASE_OBJECT, SCOPE_SINGLE_LEVEL, SCOPE_WHOLE_SUBTREE}
    ensures var server := Join(suffix);
            SearchResult(c, server, base, scope, filter, listing) ==
            if k !in {1, 2, |suffix| + 2} then Some([])
            else if listing.None? then None
            else if scope == SCOPE_WHOLE_SUBTREE then
              Some(Entries(server, listing.value, u => Matches(c, EntryOf(server, u), filter)))
            else if scope == SCOPE_SINGLE_LEVEL && k == 1 then
              Some(Entries(server, listing.value, (u: User) =>
                CommaFree(u.username) && Matches(c, EntryOf(server, u), filter)))
            else Some([])
  {
    var server, names := Join(suffix), Above(suffix, k);
    AboveIsParts(suffix, k);
    ServedAbove(c.lower, suffix, k);
    GateExact(c.lower, suffix, base, names);
    if listing.Some? && k in {1, 2, |suffix| + 2} {
      var users, b := listing.value, LowerAll(c.lower, names);
      SearchByNames(c, suffix, base, names, scope, filter, users);
      var found := u => Found(c, suffix, b, scope, filter, u);
      forall u | u in users
        ensures Under(LowerAll(c.lower, UserParts(u, suffix)), b, scope) <==>
                (scope == SCOPE_SINGLE_LEVEL && k == 1 && CommaFree(u.username)) || scope == SCOPE_WHOLE_SUBTREE
      {
        UnderAbove(c.lower, suffix, k, u, scope);
      }
      if scope == SCOPE_WHOLE_SUBTREE {
        EntriesAgree(server, users, found, u => Matches(c, EntryOf(server, u), filter));
      } else if scope == SCOPE_SINGLE_LEVEL && k == 1 {
        EntriesAgree(server, users, found, (u: User) =>
          CommaFree(u.username) && Matches(c, EntryOf(server, u), filter));
      } else {
        EntriesNone(server, users, found);
      }
    }
  }

  /** Looking a user up: a subtree search for uid=x from the server base, in any case, returns
      exactly the users whose name EqualFold takes for x. */
  lemma {:induction false} UidLookup(c: Casing, suffix: seq<string>, base: string, x: string, users: seq<User>)
    requires CommaSafe(c.lower) && Idempotent(c.lower) && RDNs(suffix) && suffix != []
    requires Lower(c.lower, base) == Lower(c.lower, Join(suffix))
    ensures SearchResult(c, Join(suffix), base, SCOPE_WHOLE_SUBTREE, Equality(["uid", x]), Some(users)) ==
            Some(Entries(Join(suffix), users, (u: User) => c.equal(u.username, x)))
  {
    var server, filter := Join(suffix), Equality(["uid", x]);
    assert Above(suffix, 2) == suffix;
    SearchByDepth(c, suffix, 2, base, SCOPE_WHOLE_SUBTREE, filter, Some(users));
    var matching, named := u => Matches(c, EntryOf(server, u), filter), (u: User) => c.equal(u.username, x);
    forall u | u in users ensures matching(u) <==> named(u) {
      UidMatches(c, EntryOf(server, u), u.username, x);
    }
    EntriesAgree(server, users, matching, named);
  }

  lemma {:induction false} UidMatches(c: Casing, e: Entry, name: string, x: string)
    requires "uid" in e.attributes && e.attributes["uid"] == [name]
    ensures Matches(c, e, Equality(["uid", x])) <==> c.equal(name, x)
  {
    assert e.attributes["uid"][0] == name;
  }

  /** The attribute `key` of `u` is the string `v`. */
  predicate HasText(u: User, key: string, v: string) {
    key in u.attributes && u.attributes[key] == Text(v)
  }

  /** Where an entry's names come from. */
  lemma {:induction false} EntryNames(baseDN: string, u: User)
    ensures var e := EntryOf(baseDN, u).attributes;
            {"objectClass", "uid", "cn", "sn", "mail"} <= e.Keys &&
            e.Keys <= {"objectClass", "uid", "cn", "sn", "mail", "givenName"} &&
            e["objectClass"] == ["top", "person", "organizationalPerson", "inetOrgPerson"] &&
            e["uid"] == [u.username] && e["mail"] == [u.email] &&
            (forall v :: HasText(u, "lastName", v) ==> e["sn"] == [v]) &&
            (forall v :: HasText(u, "sn", v) && (forall w :: !HasText(u, "lastName", w)) ==> e["sn"] == [v]) &&
            ((forall w :: !HasText(u, "lastName", w) && !HasText(u, "sn", w)) ==> e["sn"] == [u.username]) &&
            (forall v :: HasText(u, "displayName", v) ==> e["cn"] == [v]) &&
            ((forall w :: !HasText(u, "displayName", w)) ==> e["cn"] == [u.username]) &&
            (forall v :: HasText(u, "firstName", v) <==> "givenName" in e && e["givenName"] == [v])
  {
    DistinctKeys();
    var e := EntryOf(baseDN, u).attributes;
    forall key | key in u.attributes && u.attributes[key].Text? ensures HasText(u, key, u.attributes[key].text) {}
    assert e.Keys >= {"objectClass", "uid", "cn", "sn", "mail"};
  }

  lemma {:induction false} DistinctKeys()
    ensures |"objectClass"| == 11 && |"uid"| == 3 && |"mail"| == 4 && |"givenName"| == 9
    ensures "cn"[0] == 'c' && "sn"[0] == 's' && |"cn"| == 2 && |"sn"| == 2
  {}

  /** Reading one entry: base-object scope at a user's own name, in any case, returns the matching
      users whose names agree up to case. */
  lemma {:induction false} OwnEntry(c: Casing, server: string, base: string, filter: Filter, users: seq<User>, u: User)
    requires CommaSafe(c.lower) && Idempotent(c.lower)
    requires Lower(c.lower, base) == Lower(c.lower, EntryOf(server, u).dn)
    ensures SearchResult(c, server, base, SCOPE_BASE_OBJECT, filter, Some(users)) ==
            Some(Entries(server, users, (v: User) => Lower(c.lower, v.username) == Lower(c.lower, u.username) &&
                                                     Matches(c, EntryOf(server, v), filter)))
  {
    var suffix := Split(server);
    JoinSplit(server);
    var names := UserParts(u, suffix);
    UserDNJoins(u, suffix);
    UserPartsAreParts(u, suffix);
    var b := LowerAll(c.lower, names);
    UserIsServed(c.lower, u, suffix);
    SearchByNames(c, suffix, base, names, SCOPE_BASE_OBJECT, filter, users);
    var same := (v: User) => Lower(c.lower, v.username) == Lower(c.lower, u.username) &&
                             Matches(c, EntryOf(server, v), filter);
    var found := v => Found(c, suffix, b, SCOPE_BASE_OBJECT, filter, v);
    forall v | v in users ensures found(v) <==> same(v) {
      SameName(c.lower, suffix, u, v);
    }
    EntriesAgree(server, users, found, same);
  }

  lemma {:induction false} UserIsServed(fold: Fold, u: User, suffix: seq<string>)
    requires suffix != []
    ensures Served(LowerAll(fold, UserParts(u, suffix)), LowerAll(fold, suffix))
  {
    var names := UserParts(u, suffix);
    var n := |names| - |suffix|;
    assert names[n..] == suffix;
    LowerTail(fold, names, n);
    TailAtDepth(LowerAll(fold, names), n);
  }

  lemma {:induction false} SameName(fold: Fold, suffix: seq<string>, u: User, v: User)
    requires CommaSafe(fold) && AllCommaFree(suffix) && suffix != []
    ensures LowerAll(fold, UserParts(u, suffix)) == LowerAll(fold, UserParts(v, suffix)) <==>
            Lower(fold, u.username) == Lower(fold, v.username)
  {
    var server, a, b := Join(suffix), LowerAll(fold, UserParts(u, suffix)), LowerAll(fold, UserParts(v, suffix));
    LowerUserDN(fold, suffix, u);
    LowerUserDN(fold, suffix, v);
    JoinInjective(a, b);
    var x, y := Lower(fold, u.username), Lower(fold, v.username);
    var front, back := Lower(fold, "uid="), Lower(fold, ",ou=users," + server);
    if Join(a) == Join(b) {
      assert |x| == |y|;
      assert x == (front + x + back)[|front|..|front| + |x|];
      assert y == (front + y + back)[|front|..|front| + |y|];
    }
  }

  lemma {:induction false} DNTail(name: string, server: string)
    ensures name + ",ou=users," + server == name + (",ou=users," + server)
  {}

  lemma {:induction false} LowerUserDN(fold: Fold, suffix: seq<string>, u: User)
    requires CommaSafe(fold) && AllCommaFree(suffix) && suffix != []
    ensures var a := LowerAll(fold, UserParts(u, suffix));
            Parts(a) && a != [] &&
            Join(a) == Lower(fold, "uid=") + Lower(fold, u.username) + Lower(fold, ",ou=users," + Join(suffix))
  {
    var tail := ",ou=users," + Join(suffix);
    UserDNJoins(u, suffix);
    UserPartsAreParts(u, suffix);
    LowerParts(fold, UserParts(u, suffix));
    LowerJoin(fold, UserParts(u, suffix));
    LowerConcat(fold, "uid=" + u.username, tail);
    LowerConcat(fold, "uid=", u.username);
    DNTail("uid=" + u.username, Join(suffix));
  }

  // ---------- What the listing is asked for ----------

  /** The page of users the repositories answer with. */
  function ListPage(users: seq<User>, page: int, size: int): seq<User>
    requires 0 <= (page - 1) * size && 0 <= size
  {
    var start := (page - 1) * size;
    var end := start + size;
    if start > |users| then [] else users[start..if end > |users| then |users| else end]
  }

  /** The search asks for page 0 of size 0, expecting all users, and that page holds nobody: with the
      project's repositories every search is empty. */
  lemma {:induction false} EverySearchIsEmpty(
    c: Casing, baseDN: string, base: string, scope: int, filter: Filter, users: seq<User>
  )
    ensures SearchResult(c, baseDN, base, scope, filter, Some(ListPage(users, 0, 0))) == Some([])
  {
    assert ListPage(users, 0, 0) == [];
  }
}
