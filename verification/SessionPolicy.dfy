/** Priority-ordered policy choice of internal/auth/session/session_policy.go. */
module SessionPolicy {
  import Strings

  /** A float64 without its rounding. */
  datatype Float = NaN | NegInf | Finite(x: real) | PosInf

  /** IEEE 754: NaN is neither less than anything nor equal to it. */
  predicate Less(a: Float, b: Float) {
    match (a, b)
    case (Finite(x), Finite(y)) => x < y
    case (NegInf, Finite(_)) => true
    case (NegInf, PosInf) => true
    case (Finite(_), PosInf) => true
    case _ => false
  }

  predicate AtMost(a: Float, b: Float) {
    Less(a, b) || (a == b && !a.NaN?)
  }

  /** Context and condition values; `Span` is a duration in seconds, and a value of any other type
      is known by its printed form. */
  datatype Value =
    | Text(text: string)
    | Whole(n: int)
    | Number(x: Float)
    | Span(seconds: real)
    | List(items: seq<string>)
    | Other(printed: string)

  datatype Condition = Condition(field: string, operator: string, expected: Value)

  datatype Rule = Rule(id: string, priority: int, conditions: seq<Condition>, action: string, reason: string)

  datatype Decision = Decision(action: string, reason: string)

  const NO_ACTION := Decision("none", "")

  type Context = map<string, Value>

  /** Go's default formatting of a value. */
  type Show = Value -> string

  function ToFloat(v: Value): Float {
    match v
    case Whole(n) => Finite(n as real)
    case Number(x) => x
    case Span(seconds) => Finite(seconds)
    case _ => Finite(0.0)
  }

  predicate MatchCondition(show: Show, actual: Value, operator: string, expected: Value) {
    match operator
    case "==" => show(actual) == show(expected)
    case "!=" => show(actual) != show(expected)
    case ">" => Less(ToFloat(expected), ToFloat(actual))
    case "<" => Less(ToFloat(actual), ToFloat(expected))
    case ">=" => AtMost(ToFloat(expected), ToFloat(actual))
    case "<=" => AtMost(ToFloat(actual), ToFloat(expected))
    case "contains" =>
      (match actual
       case List(items) => show(expected) in items
       case Text(text) => Strings.Contains(text, show(expected))
       case _ => false)
    case _ => false
  }

  predicate ConditionHolds(show: Show, ctx: Context, c: Condition) {
    c.field in ctx && MatchCondition(show, ctx[c.field], c.operator, c.expected)
  }

  /** The rule applies: all its conditions hold. */
  predicate Fires(show: Show, ctx: Context, r: Rule) {
    forall i :: 0 <= i < |r.conditions| ==> ConditionHolds(show, ctx, r.conditions[i])
  }

  /** `r` applies and no applicable rule has a lower priority number. */
  ghost predicate Leads(show: Show, ctx: Context, rules: seq<Rule>, r: Rule) {
    r in rules && Fires(show, ctx, r) && forall q :: q in rules && Fires(show, ctx, q) ==> r.priority <= q.priority
  }

  /** What DetermineAction may answer: the action and reason of a leading rule, or none if no rule
      applies. */
  ghost predicate IsDecision(show: Show, ctx: Context, rules: seq<Rule>, d: Decision) {
    if forall r :: r in rules ==> !Fires(show, ctx, r) then d == NO_ACTION
    else exists r :: Leads(show, ctx, rules, r) && d == Decision(r.action, r.reason)
  }

  predicate Ordered(rules: seq<Rule>) {
    forall i, j :: 0 <= i < j < |rules| ==> rules[i].priority <= rules[j].priority
  }

  lemma {:induction false} InsertOrdered(sorted: seq<Rule>, r: Rule, k: nat)
    requires Ordered(sorted) && k <= |sorted|
    requires forall j :: 0 <= j < k ==> sorted[j].priority <= r.priority
    requires k < |sorted| ==> r.priority <= sorted[k].priority
    ensures Ordered(sorted[..k] + [r] + sorted[k..])
  {}

  method InsertByPriority(sorted: seq<Rule>, r: Rule) returns (t: seq<Rule>)
    requires Ordered(sorted)
    ensures Ordered(t) && multiset(t) == multiset(sorted) + multiset{r}
  {
    var k := 0;
    while k < |sorted| && sorted[k].priority <= r.priority
      invariant 0 <= k <= |sorted|
      invariant forall j :: 0 <= j < k ==> sorted[j].priority <= r.priority
    {
      k := k + 1;
    }
    InsertOrdered(sorted, r, k);
    assert sorted == sorted[..k] + sorted[k..];
    t := sorted[..k] + [r] + sorted[k..];
  }

  /** sort.Slice: some permutation in priority order; rules of equal priority may come in any order,
      so callers learn nothing about them. */
  method SortByPriority(rules: seq<Rule>) returns (sorted: seq<Rule>)
    ensures Ordered(sorted) && multiset(sorted) == multiset(rules)
  {
    sorted := [];
    for i := 0 to |rules|
      invariant Ordered(sorted) && multiset(sorted) == multiset(rules[..i])
    {
      assert rules[..i + 1] == rules[..i] + [rules[i]];
      sorted := InsertByPriority(sorted, rules[i]);
    }
    assert rules[..|rules|] == rules;
  }

  method MatchAllConditions(show: Show, ctx: Context, r: Rule) returns (b: bool)
    ensures b == Fires(show, ctx, r)
  {
    for i := 0 to |r.conditions|
      invariant forall j :: 0 <= j < i ==> ConditionHolds(show, ctx, r.conditions[j])
    {
      var cond := r.conditions[i];
      if cond.field !in ctx {
        return false;
      }
      if !MatchCondition(show, ctx[cond.field], cond.operator, cond.expected) {
        return false;
      }
    }
    return true;
  }

  lemma {:induction false} SameElements(a: seq<Rule>, b: seq<Rule>)
    requires multiset(a) == multiset(b)
    ensures forall r :: r in a <==> r in b
  {
    forall r ensures r in a <==> r in b {
      assert r in a <==> r in multiset(a);
      assert r in b <==> r in multiset(b);
    }
  }

  function Without(rules: seq<Rule>, id: string): seq<Rule> {
    if rules == [] then []
    else
      var n := |rules| - 1;
      if rules[n].id != id then Without(rules[..n], id) + [rules[n]] else Without(rules[..n], id)
  }

  class Engine {
    var rules: seq<Rule>

    constructor (rules: seq<Rule>)
      ensures this.rules == rules
    {
      this.rules := rules;
    }

    method DetermineAction(show: Show, ctx: Context) returns (d: Decision)
      ensures IsDecision(show, ctx, rules, d)
    {
      var sorted := SortByPriority(rules);
      SameElements(sorted, rules);
      for i := 0 to |sorted|
        invariant forall j :: 0 <= j < i ==> !Fires(show, ctx, sorted[j])
      {
        var fires := MatchAllConditions(show, ctx, sorted[i]);
        if fires {
          assert sorted[i] in sorted;
          forall q | q in rules && Fires(show, ctx, q) ensures sorted[i].priority <= q.priority {
            var j :| 0 <= j < |sorted| && sorted[j] == q;
          }
          assert Leads(show, ctx, rules, sorted[i]);
          return Decision(sorted[i].action, sorted[i].reason);
        }
      }
      return NO_ACTION;
    }

    method AddRule(rule: Rule)
      modifies this
      ensures rules == old(rules) + [rule]
    {
      rules := rules + [rule];
    }

    method RemoveRule(ruleID: string)
      modifies this
      ensures rules == Without(old(rules), ruleID)
    {
      var newRules: seq<Rule> := [];
      for i := 0 to |rules|
        invariant rules == old(rules) && newRules == Without(rules[..i], ruleID)
      {
        assert rules[..i + 1][..i] == rules[..i];
        if rules[i].id != ruleID {
          newRules := newRules + [rules[i]];
        }
      }
      assert rules[..|rules|] == rules;
      rules := newRules;
    }
  }

  // ---------- When the answer is determined ----------

  /** What the loop answers on a sorted list: the first rule that applies decides. */
  function FirstFiring(show: Show, ctx: Context, sorted: seq<Rule>): Decision {
    if sorted == [] then NO_ACTION
    else if Fires(show, ctx, sorted[0]) then Decision(sorted[0].action, sorted[0].reason)
    else FirstFiring(show, ctx, sorted[1..])
  }

  /** What sort.Slice promises of its result, and no more: it is not stable. */
  ghost predicate SortOf(sorted: seq<Rule>, rules: seq<Rule>) {
    Ordered(sorted) && multiset(sorted) == multiset(rules)
  }

  lemma {:induction false} FirstFiringAt(show: Show, ctx: Context, sorted: seq<Rule>, i: nat)
    requires i <= |sorted| && forall j :: 0 <= j < i ==> !Fires(show, ctx, sorted[j])
    requires i < |sorted| ==> Fires(show, ctx, sorted[i])
    ensures FirstFiring(show, ctx, sorted) ==
            if i < |sorted| then Decision(sorted[i].action, sorted[i].reason) else NO_ACTION
  {
    if i > 0 { FirstFiringAt(show, ctx, sorted[1..], i - 1); }
  }

  /** A rule put in front of all rules of its own or a greater number. */
  function Inserted(r: Rule, sorted: seq<Rule>): seq<Rule> {
    if sorted == [] || r.priority <= sorted[0].priority then [r] + sorted
    else [sorted[0]] + Inserted(r, sorted[1..])
  }

  lemma {:induction false} InsertedPermutes(r: Rule, sorted: seq<Rule>)
    ensures multiset(Inserted(r, sorted)) == multiset(sorted) + multiset{r}
  {
    if sorted != [] {
      assert sorted == [sorted[0]] + sorted[1..];
      InsertedPermutes(r, sorted[1..]);
    }
  }

  lemma {:induction false} InsertedAbove(r: Rule, sorted: seq<Rule>, low: int)
    requires low <= r.priority && forall j :: 0 <= j < |sorted| ==> low <= sorted[j].priority
    ensures forall j :: 0 <= j < |Inserted(r, sorted)| ==> low <= Inserted(r, sorted)[j].priority
  {
    if sorted != [] && r.priority > sorted[0].priority { InsertedAbove(r, sorted[1..], low); }
  }

  lemma {:induction false} OrderedCons(r: Rule, rest: seq<Rule>)
    requires Ordered(rest) && forall j :: 0 <= j < |rest| ==> r.priority <= rest[j].priority
    ensures Ordered([r] + rest)
  {}

  lemma {:induction false} InsertedOrdered(r: Rule, sorted: seq<Rule>)
    requires Ordered(sorted)
    ensures Ordered(Inserted(r, sorted))
  {
    if sorted == [] || r.priority <= sorted[0].priority {
      OrderedCons(r, sorted);
    } else {
      InsertedOrdered(r, sorted[1..]);
      InsertedAbove(r, sorted[1..], sorted[0].priority);
      OrderedCons(sorted[0], Inserted(r, sorted[1..]));
    }
  }

  function Sorted(rules: seq<Rule>): seq<Rule> {
    if rules == [] then [] else Inserted(rules[0], Sorted(rules[1..]))
  }

  lemma {:induction false} SortedSorts(rules: seq<Rule>)
    ensures SortOf(Sorted(rules), rules)
  {
    if rules != [] {
      SortedSorts(rules[1..]);
      InsertedOrdered(rules[0], Sorted(rules[1..]));
      InsertedPermutes(rules[0], Sorted(rules[1..]));
      assert rules == [rules[0]] + rules[1..];
    }
  }

  /** A rule that applies decides from its place in front of its equals, if nothing before it does. */
  lemma {:induction false} InsertedWins(show: Show, ctx: Context, r: Rule, sorted: seq<Rule>)
    requires Fires(show, ctx, r)
    requires forall q :: q in sorted && q.priority < r.priority ==> !Fires(show, ctx, q)
    ensures FirstFiring(show, ctx, Inserted(r, sorted)) == Decision(r.action, r.reason)
  {
    if sorted != [] && r.priority > sorted[0].priority {
      assert sorted[0] in sorted;
      InsertedWins(show, ctx, r, sorted[1..]);
    }
  }

  /** Every leading rule is the one that decides in some order the sort may produce. */
  lemma {:induction false} LeaderCanWin(show: Show, ctx: Context, rules: seq<Rule>, r: Rule) returns (sorted: seq<Rule>)
    requires Leads(show, ctx, rules, r)
    ensures SortOf(sorted, rules) && FirstFiring(show, ctx, sorted) == Decision(r.action, r.reason)
  {
    var k :| 0 <= k < |rules| && rules[k] == r;
    var rest := rules[..k] + rules[k + 1..];
    assert rules == rules[..k] + [r] + rules[k + 1..];
    SortedSorts(rest);
    InsertedOrdered(r, Sorted(rest));
    InsertedPermutes(r, Sorted(rest));
    SameElements(Sorted(rest), rest);
    InsertedWins(show, ctx, r, Sorted(rest));
    sorted := Inserted(r, Sorted(rest));
  }

  lemma {:induction false} SortedDecides(show: Show, ctx: Context, rules: seq<Rule>, sorted: seq<Rule>)
    requires SortOf(sorted, rules)
    ensures IsDecision(show, ctx, rules, FirstFiring(show, ctx, sorted))
  {
    SameElements(sorted, rules);
    if i: nat :| i < |sorted| && Fires(show, ctx, sorted[i]) &&
                 forall j :: 0 <= j < i ==> !Fires(show, ctx, sorted[j])
    {
      FirstFiringAt(show, ctx, sorted, i);
      forall q | q in rules && Fires(show, ctx, q) ensures sorted[i].priority <= q.priority {
        var j :| 0 <= j < |sorted| && sorted[j] == q;
      }
      assert sorted[i] in sorted && Leads(show, ctx, rules, sorted[i]);
    } else {
      NoneFires(show, ctx, sorted, |sorted|);
      FirstFiringAt(show, ctx, sorted, |sorted|);
    }
  }

  lemma {:induction false} NoneFires(show: Show, ctx: Context, sorted: seq<Rule>, n: nat)
    requires n <= |sorted|
    requires forall i: nat :: i < |sorted| && Fires(show, ctx, sorted[i]) ==>
               exists j :: 0 <= j < i && Fires(show, ctx, sorted[j])
    ensures forall i :: 0 <= i < n ==> !Fires(show, ctx, sorted[i])
  {
    if n > 0 { NoneFires(show, ctx, sorted, n - 1); }
  }

  /** The specification of DetermineAction is exact: it allows precisely the answers that some order
      of the rules the sort may produce gives. */
  lemma {:induction false} DecisionsAreSorts(show: Show, ctx: Context, rules: seq<Rule>, d: Decision)
    ensures IsDecision(show, ctx, rules, d) <==>
            exists sorted :: SortOf(sorted, rules) && FirstFiring(show, ctx, sorted) == d
  {
    if IsDecision(show, ctx, rules, d) {
      if r :| Leads(show, ctx, rules, r) && d == Decision(r.action, r.reason) {
        var sorted := LeaderCanWin(show, ctx, rules, r);
      } else {
        SortedSorts(rules);
        SortedDecides(show, ctx, rules, Sorted(rules));
      }
    }
    if sorted :| SortOf(sorted, rules) && FirstFiring(show, ctx, sorted) == d {
      SortedDecides(show, ctx, rules, sorted);
    }
  }

  /** All leading rules prescribe the same thing. */
  ghost predicate TiesAgree(show: Show, ctx: Context, rules: seq<Rule>) {
    forall p, q :: Leads(show, ctx, rules, p) && Leads(show, ctx, rules, q) ==>
                     p.action == q.action && p.reason == q.reason
  }

  /** Every order the sort may produce gives the same answer exactly when the leading rules agree. */
  lemma {:induction false} DeterminedExactly(show: Show, ctx: Context, rules: seq<Rule>)
    ensures (forall s, t :: SortOf(s, rules) && SortOf(t, rules) ==>
               FirstFiring(show, ctx, s) == FirstFiring(show, ctx, t)) <==>
            TiesAgree(show, ctx, rules)
  {
    if TiesAgree(show, ctx, rules) {
      forall s, t | SortOf(s, rules) && SortOf(t, rules)
        ensures FirstFiring(show, ctx, s) == FirstFiring(show, ctx, t)
      {
        SortedDecides(show, ctx, rules, s);
        SortedDecides(show, ctx, rules, t);
      }
    } else {
      var p, q :| Leads(show, ctx, rules, p) && Leads(show, ctx, rules, q) &&
                  !(p.action == q.action && p.reason == q.reason);
      var s := LeaderCanWin(show, ctx, rules, p);
      var t := LeaderCanWin(show, ctx, rules, q);
      assert SortOf(s, rules) && SortOf(t, rules) && FirstFiring(show, ctx, s) != FirstFiring(show, ctx, t);
    }
  }

  ghost predicate DistinctPriorities(rules: seq<Rule>) {
    forall p, q :: p in rules && q in rules && p.priority == q.priority ==> p == q
  }

  /** With distinct priorities the answer depends on the set of rules only: it is the same for every
      permutation, every sort, and every history that ends with the same rules. */
  lemma {:induction false} OrderIrrelevant(
    show: Show, ctx: Context, rules: seq<Rule>, others: seq<Rule>, s: seq<Rule>, t: seq<Rule>
  )
    requires DistinctPriorities(rules) && forall r :: r in rules <==> r in others
    requires SortOf(s, rules) && SortOf(t, others)
    ensures FirstFiring(show, ctx, s) == FirstFiring(show, ctx, t)
  {
    SortedDecides(show, ctx, rules, s);
    SortedDecides(show, ctx, others, t);
  }

  // ---------- Histories of additions and removals ----------

  datatype Edit = Add(rule: Rule) | Remove(id: string)

  function Edited(rules: seq<Rule>, e: Edit): seq<Rule> {
    match e
    case Add(rule) => rules + [rule]
    case Remove(id) => Without(rules, id)
  }

  function RulesAfter(start: seq<Rule>, edits: seq<Edit>): seq<Rule> {
    if edits == [] then start else Edited(RulesAfter(start, edits[..|edits| - 1]), edits[|edits| - 1])
  }

  lemma {:induction false} WithoutMembers(rules: seq<Rule>, id: string)
    ensures forall r :: r in Without(rules, id) <==> r in rules && r.id != id
  {
    if rules != [] {
      WithoutMembers(rules[..|rules| - 1], id);
      assert rules == rules[..|rules| - 1] + [rules[|rules| - 1]];
    }
  }

  ghost predicate AddedAt(edits: seq<Edit>, r: Rule, i: int) {
    0 <= i < |edits| && edits[i] == Add(r) && forall j :: i < j < |edits| ==> edits[j] != Remove(r.id)
  }

  ghost predicate Survives(start: seq<Rule>, edits: seq<Edit>, r: Rule) {
    (exists i :: AddedAt(edits, r, i)) || (r in start && forall j :: 0 <= j < |edits| ==> edits[j] != Remove(r.id))
  }

  lemma {:induction false} SurvivesStep(start: seq<Rule>, edits: seq<Edit>, last: Edit, r: Rule)
    ensures Survives(start, edits + [last], r) <==>
            last == Add(r) || (Survives(start, edits, r) && last != Remove(r.id))
  {
    var all, n := edits + [last], |edits|;
    if last == Add(r) {
      assert AddedAt(all, r, n);
    } else if Survives(start, edits, r) && last != Remove(r.id) {
      if i :| AddedAt(edits, r, i) { assert AddedAt(all, r, i); }
    }
    if i :| AddedAt(all, r, i) {
      if i < n {
        assert all[n] == last;
        forall j | i < j < n ensures edits[j] != Remove(r.id) { assert all[j] == edits[j]; }
        assert AddedAt(edits, r, i);
      }
    } else if Survives(start, all, r) {
      assert all[n] == last;
      forall j | 0 <= j < n ensures edits[j] != Remove(r.id) { assert all[j] == edits[j]; }
    }
  }

  /** A rule is present exactly when it was added and its id not removed since, or was there from
      the start and its id never removed. */
  lemma {:induction false} PresentExactly(start: seq<Rule>, edits: seq<Edit>, r: Rule)
    ensures r in RulesAfter(start, edits) <==> Survives(start, edits, r)
  {
    if edits != [] {
      var n := |edits| - 1;
      PresentExactly(start, edits[..n], r);
      assert edits == edits[..n] + [edits[n]];
      SurvivesStep(start, edits[..n], edits[n], r);
      if edits[n].Remove? {
        WithoutMembers(RulesAfter(start, edits[..n]), edits[n].id);
      }
    }
  }
}
