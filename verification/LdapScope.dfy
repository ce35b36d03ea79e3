/** The search-scope test of internal/protocol/ldap/virtual_tree.go, checked against the scopes of
    section 4.5.1.2 of RFC 4511. */
module LdapScope {
  import opened Strings

  const SCOPE_BASE_OBJECT := 0
  const SCOPE_SINGLE_LEVEL := 1
  const SCOPE_WHOLE_SUBTREE := 2

  predicate IsDNInScope(fold: Fold, dn: string, base: string, scope: int) {
    var d, b := Lower(fold, dn), Lower(fold, base);
    if scope == SCOPE_BASE_OBJECT then d == b
    else if !HasSuffix(d, b) then false
    else
      var remaining := if b == "" then d else TrimSuffix(d, "," + b);
      scope == SCOPE_SINGLE_LEVEL ==> |Split(remaining)| == 1
  }

  /** A distinguished name as its list of RDNs, nearest first. */
  predicate RDNs(names: seq<string>) {
    forall i :: 0 <= i < |names| ==> names[i] != "" && CommaFree(names[i])
  }

  /** The parts of any string between its commas, some of them perhaps empty; the empty string has
      none. */
  predicate Parts(names: seq<string>) {
    names != [""] && AllCommaFree(names)
  }

  predicate AllCommaFree(names: seq<string>) {
    forall i :: 0 <= i < |names| ==> CommaFree(names[i])
  }

  function PartsOf(s: string): seq<string> {
    if s == "" then [] else Split(s)
  }

  lemma {:induction false} PartsOfJoins(s: string)
    ensures Parts(PartsOf(s)) && Join(PartsOf(s)) == s
  {
    JoinSplit(s);
    if s != "" { assert Join([""]) == ""; }
  }

  function LowerAll(fold: Fold, names: seq<string>): (r: seq<string>)
    ensures |r| == |names|
    ensures forall i :: 0 <= i < |names| ==> r[i] == Lower(fold, names[i])
  {
    seq(|names|, i requires 0 <= i < |names| => Lower(fold, names[i]))
  }

  lemma {:induction false} LowerTail(fold: Fold, names: seq<string>, k: nat)
    requires k <= |names|
    ensures LowerAll(fold, names[k..]) == LowerAll(fold, names)[k..]
  {}

  lemma {:induction false} LowerParts(fold: Fold, names: seq<string>)
    requires CommaSafe(fold) && AllCommaFree(names)
    ensures AllCommaFree(LowerAll(fold, names)) && (Parts(names) ==> Parts(LowerAll(fold, names)))
  {}

  lemma {:induction false} LowerJoin(fold: Fold, names: seq<string>)
    requires CommaSafe(fold)
    ensures Lower(fold, Join(names)) == Join(LowerAll(fold, names))
  {
    if |names| == 1 {
      assert LowerAll(fold, names) == [Lower(fold, names[0])];
    } else if |names| > 1 {
      var n := |names| - 1;
      LowerJoin(fold, names[..n]);
      assert LowerAll(fold, names)[..n] == LowerAll(fold, names[..n]);
      assert Lower(fold, ",") == ",";
      LowerConcat(fold, Join(names[..n]) + ",", names[n]);
      LowerConcat(fold, Join(names[..n]), ",");
    }
  }

  // ---------- String suffixes of joined names ----------

  /** `b` is the tail of `d`, except that its first RDN may be just the end of one. */
  predicate EndsIn(d: seq<string>, b: seq<string>)
    requires b != []
  {
    |b| <= |d| && d[|d| - |b| + 1..] == b[1..] && HasSuffix(d[|d| - |b|], b[0])
  }

  lemma {:induction false} JoinSuffix(d: seq<string>, b: seq<string>)
    requires d != [] && b != []
    requires forall i :: 0 <= i < |d| ==> CommaFree(d[i])
    requires forall i :: 0 <= i < |b| ==> CommaFree(b[i])
    ensures HasSuffix(Join(d), Join(b)) <==> EndsIn(d, b)
    decreases |b|
  {
    var n, m := |d| - 1, |b| - 1;
    var y, x := d[n], b[m];
    if m == 0 {
      assert d[|d|..] == b[1..];
      if n > 0 { SuffixLast(Join(d[..n]), y, x); }
    } else if n == 0 {
      NoCommaNoSuffix(y, Join(b[..m]), x);
    } else {
      SuffixCut(Join(d[..n]), y, Join(b[..m]), x);
      JoinSuffix(d[..n], b[..m]);
      if |b| <= |d| {
        var k := |d| - |b|;
        assert d[k + 1..] == d[..n][k + 1..] + [y] && b[1..] == b[..m][1..] + [x];
        assert d[..n][k] == d[k] && b[..m][0] == b[0];
      }
    }
  }

  lemma {:induction false} JoinInjective(d: seq<string>, b: seq<string>)
    requires Parts(d) && Parts(b) && d != [] && b != []
    ensures Join(d) == Join(b) <==> d == b
  {
    if Join(d) == Join(b) {
      JoinSuffix(d, b);
      JoinSuffix(b, d);
      assert |d| == |b| && d[0] == b[0] && d[1..] == b[1..];
      assert d == [d[0]] + d[1..] && b == [b[0]] + b[1..];
    }
  }

  lemma {:induction false} JoinNonempty(d: seq<string>)
    requires Parts(d) && d != []
    ensures Join(d) != ""
  {}

  lemma {:induction false} LeadingComma(b: seq<string>)
    requires Parts(b) && b != []
    ensures var c := [""] + b;
            Join(c) == "," + Join(b) && c[1..] == b && forall i :: 0 <= i < |c| ==> CommaFree(c[i])
  {
    var c := [""] + b;
    JoinConcat([""], b);
    assert Join([""]) + "," + Join(b) == "," + Join(b);
    forall i | 0 <= i < |c| ensures CommaFree(c[i]) {
      if i > 0 { assert c[i] == b[i - 1]; }
    }
  }

  /** What the trimming leaves: the RDNs in front of the base when the base is a proper tail, and
      the whole name otherwise. */
  lemma {:induction false} RemainingCount(d: seq<string>, b: seq<string>)
    requires Parts(d) && Parts(b) && d != [] && b != []
    ensures |Split(TrimSuffix(Join(d), "," + Join(b)))| ==
            if |b| < |d| && d[|d| - |b|..] == b then |d| - |b| else |d|
  {
    var c := [""] + b;
    LeadingComma(b);
    JoinSuffix(d, c);
    if EndsIn(d, c) {
      var k := |d| - |b|;
      assert d == d[..k] + b;
      JoinConcat(d[..k], b);
      assert TrimSuffix(Join(d), Join(c)) == Join(d[..k]);
      SplitJoin(d[..k]);
    } else {
      SplitJoin(d);
    }
  }

  // ---------- The scope test, exactly ----------

  /** The answer for every DN and every base, as their parts (the root has none), up to case:
      base-object scope is equality, single-level scope is "immediately below", and whole-subtree
      scope is "at or below", except that the first RDN of the base may also be cut short. */
  lemma {:induction false} ScopeExact(fold: Fold, dn: seq<string>, base: seq<string>)
    requires CommaSafe(fold) && Parts(dn) && Parts(base) && dn != []
    ensures var d, b := LowerAll(fold, dn), LowerAll(fold, base);
            (IsDNInScope(fold, Join(dn), Join(base), SCOPE_BASE_OBJECT) <==> d == b) &&
            (IsDNInScope(fold, Join(dn), Join(base), SCOPE_SINGLE_LEVEL) <==>
               b == d[1..] || (|d| == 1 && b != [] && EndsIn(d, b))) &&
            (IsDNInScope(fold, Join(dn), Join(base), SCOPE_WHOLE_SUBTREE) <==> b == [] || EndsIn(d, b))
  {
    var d, b := LowerAll(fold, dn), LowerAll(fold, base);
    LowerParts(fold, dn);
    LowerParts(fold, base);
    LowerJoin(fold, dn);
    LowerJoin(fold, base);
    JoinNonempty(d);
    if b == [] {
      assert d != b && HasSuffix(Join(d), "");
      SplitJoin(d);
    } else {
      JoinNonempty(b);
      JoinInjective(d, b);
      JoinSuffix(d, b);
      RemainingCount(d, b);
      TailsOfOne(d, b);
    }
  }

  lemma {:induction false} TailsOfOne(d: seq<string>, b: seq<string>)
    requires d != [] && b != []
    ensures b == d[1..] <==> |b| + 1 == |d| && d[|d| - |b|..] == b
    ensures |b| < |d| && d[|d| - |b|..] == b ==> EndsIn(d, b)
  {}

  lemma {:induction false} TailIsParts(dn: seq<string>, k: nat)
    requires RDNs(dn) && k <= |dn|
    ensures Parts(dn[k..])
  {
    assert k < |dn| ==> dn[k..][0] == dn[k] != "";
  }

  lemma {:induction false} TailAtDepth(d: seq<string>, k: nat)
    requires k <= |d| && |d| >= 2
    ensures (d == d[k..] <==> k == 0) && (d[k..] == d[1..] <==> k == 1)
    ensures d[k..] == [] || EndsIn(d, d[k..])
  {
    assert |d[k..]| == |d| - k && |d[1..]| == |d| - 1;
    if k < |d| {
      assert d[k..][1..] == d[k + 1..] && d[k..][0] == d[k];
    }
  }

  /** Section 4.5.1.2 for a name of at least two RDNs and the base that is `k` levels above it. */
  lemma {:induction false} ScopeByDepth(fold: Fold, dn: seq<string>, k: nat)
    requires CommaSafe(fold) && RDNs(dn) && |dn| >= 2 && k <= |dn|
    ensures var name, base := Join(dn), Join(dn[k..]);
            (IsDNInScope(fold, name, base, SCOPE_BASE_OBJECT) <==> k == 0) &&
            (IsDNInScope(fold, name, base, SCOPE_SINGLE_LEVEL) <==> k == 1) &&
            IsDNInScope(fold, name, base, SCOPE_WHOLE_SUBTREE)
  {
    TailIsParts(dn, 0);
    TailIsParts(dn, k);
    assert dn[0..] == dn;
    ScopeExact(fold, dn, dn[k..]);
    LowerTail(fold, dn, k);
    TailAtDepth(LowerAll(fold, dn), k);
  }

  /** The one-RDN name is the exception: it counts as a child of itself. */
  lemma {:induction false} OneRDNIsItsOwnChild(fold: Fold, rdn: string)
    requires CommaSafe(fold) && rdn != "" && CommaFree(rdn)
    ensures IsDNInScope(fold, rdn, rdn, SCOPE_SINGLE_LEVEL)
  {
    ScopeExact(fold, [rdn], [rdn]);
    assert LowerAll(fold, [rdn])[1..] == [];
  }

  /** Whole-subtree scope accepts a base that is not an ancestor, because it compares characters
      and not RDNs; by ScopeExact this is the only way it errs. Single-level scope does not. */
  lemma {:induction false} SubtreeAcceptsCutRDN(fold: Fold)
    requires CommaSafe(fold) && Fixes(fold, "ou=xydcz")
    ensures var dn, base := Join(["ou=xy", "dc=z"]), Join(["y", "dc=z"]);
            IsDNInScope(fold, dn, base, SCOPE_WHOLE_SUBTREE) && !IsDNInScope(fold, dn, base, SCOPE_SINGLE_LEVEL)
  {
    var d, b := ["ou=xy", "dc=z"], ["y", "dc=z"];
    FixedLiterals(fold);
    assert LowerAll(fold, d) == d && LowerAll(fold, b) == b;
    ScopeExact(fold, d, b);
    assert EndsIn(d, b) && b != d[1..];
  }

  lemma {:induction false} FixedLiterals(fold: Fold)
    requires Fixes(fold, "ou=xydcz")
    ensures Lower(fold, "ou=xy") == "ou=xy" && Lower(fold, "dc=z") == "dc=z" && Lower(fold, "y") == "y"
  {
    var all := "ou=xydcz";
    assert all[0] == 'o' && all[1] == 'u' && all[2] == '=' && all[3] == 'x' && all[4] == 'y';
    assert all[5] == 'd' && all[6] == 'c' && all[7] == 'z';
    LowerFixed(fold, "ou=xy");
    LowerFixed(fold, "dc=z");
    LowerFixed(fold, "y");
  }
}
