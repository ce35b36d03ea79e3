/** What the condition operators of internal/auth/session/session_policy.go mean, and what the shipped
    policy decides. */
module PolicyConditions {
  import Strings
  import opened SessionPolicy

  // ---------- Operators ----------

  /** The value is the ordinary number `x`: whole, finite or a duration in seconds. */
  predicate IsNumber(v: Value, x: real) {
    v == Number(Finite(x)) || v == Span(x) || (v.Whole? && v.n as real == x)
  }

  /** On ordinary numbers of any kind the four comparisons are those of the numbers. */
  lemma {:induction false} NumbersCompare(show: Show, a: Value, b: Value, x: real, y: real)
    requires IsNumber(a, x) && IsNumber(b, y)
    ensures MatchCondition(show, a, ">", b) <==> x > y
    ensures MatchCondition(show, a, "<", b) <==> x < y
    ensures MatchCondition(show, a, ">=", b) <==> x >= y
    ensures MatchCondition(show, a, "<=", b) <==> x <= y
  {}

  predicate IsNaN(v: Value) {
    v == Number(NaN)
  }

  /** NaN is on neither side of any comparison. Any other two values are comparable: exactly one of
      less, equal and greater holds, and "at most" and "at least" allow equality. */
  lemma {:induction false} ComparisonsAreTotalButForNaN(show: Show, a: Value, b: Value)
    ensures var lt, gt := MatchCondition(show, a, "<", b), MatchCondition(show, a, ">", b);
            var le, ge := MatchCondition(show, a, "<=", b), MatchCondition(show, a, ">=", b);
            if IsNaN(a) || IsNaN(b) then !lt && !gt && !le && !ge
            else
              !(lt && gt) && (le <==> !gt) && (ge <==> !lt) &&
              (!lt && !gt <==> le && ge)
  {}

  /** A value that is no number counts as zero. */
  lemma {:induction false} OthersCountAsZero(show: Show, a: Value, b: Value, op: string)
    requires (a.Text? || a.List? || a.Other?) && op in {"<", ">", "<=", ">="}
    ensures MatchCondition(show, a, op, b) <==> MatchCondition(show, Whole(0), op, b)
    ensures MatchCondition(show, b, op, a) <==> MatchCondition(show, b, op, Whole(0))
  {}

  /** Infinities lie beyond every ordinary number. */
  lemma {:induction false} InfinitiesAreExtreme(show: Show, a: Value, x: real)
    requires IsNumber(a, x)
    ensures MatchCondition(show, Number(PosInf), ">", a) && MatchCondition(show, Number(NegInf), "<", a)
  {}

  /** Equality is that of the printed forms, whatever the types, and its negation. */
  lemma {:induction false} EqualityIsPrinted(show: Show, a: Value, b: Value)
    ensures MatchCondition(show, a, "==", b) <==> show(a) == show(b)
    ensures MatchCondition(show, a, "!=", b) <==> show(a) != show(b)
  {}

  /** A list contains its items, a text its substrings, and nothing else contains anything. */
  lemma {:induction false} ContainsExactly(show: Show, a: Value, b: Value)
    ensures MatchCondition(show, a, "contains", b) <==>
            (a.List? && exists i :: 0 <= i < |a.items| && a.items[i] == show(b)) ||
            (a.Text? && exists l, r :: Cut(a.text, l, show(b), r))
  {
    if a.Text? {
      var t := show(b);
      if i :| 0 <= i <= |a.text| && Strings.OccursAt(a.text, t, i) {
        assert a.text == a.text[..i] + t + a.text[i + |t|..];
        assert Cut(a.text, a.text[..i], t, a.text[i + |t|..]);
      }
      if l, r :| Cut(a.text, l, t, r) { assert Strings.OccursAt(a.text, t, |l|); }
    }
  }

  predicate Cut(s: string, l: string, t: string, r: string) {
    s == l + t + r
  }

  lemma {:induction false} UnknownNeverHolds(show: Show, a: Value, op: string, b: Value)
    requires op !in {"==", "!=", "<", ">", "<=", ">=", "contains"}
    ensures !MatchCondition(show, a, op, b)
  {}

  // ---------- The shipped policy ----------

  const CRITICAL := Rule("critical_risk_terminate", 1, [Condition("risk_level", "==", Text("critical"))],
                         "terminate", "Risk level reached critical threshold")
  const HIGH := Rule("high_risk_downgrade", 2, [Condition("risk_level", "==", Text("high"))],
                     "downgrade", "High risk level detected, restricting permissions")
  const MEDIUM := Rule("medium_risk_mfa", 3, [Condition("risk_level", "==", Text("medium"))],
                       "require_mfa", "Suspicious activity detected, verification required")
  const GEO_JUMP := Rule("geo_jump_mfa", 4, [Condition("signals", "contains", Text("geo_jump"))],
                         "require_mfa", "Abnormal geographical movement detected")
  const INACTIVE := Rule("long_inactive_reauth", 5, [Condition("inactive_minutes", ">", Whole(60))],
                         "require_mfa", "Session inactive for too long")

  function DefaultPolicyRules(): seq<Rule> {
    [CRITICAL, HIGH, MEDIUM, GEO_JUMP, INACTIVE]
  }

  predicate AtLevel(show: Show, ctx: Context, level: string) {
    "risk_level" in ctx && show(ctx["risk_level"]) == level
  }

  /** The signals list the jump, or are a text that mentions it. */
  predicate Jumped(ctx: Context) {
    "signals" in ctx &&
    match ctx["signals"]
    case List(items) => "geo_jump" in items
    case Text(text) => Strings.Contains(text, "geo_jump")
    case _ => false
  }

  /** More than an hour, as a whole number, a finite or an infinite one. */
  predicate LongInactive(ctx: Context) {
    "inactive_minutes" in ctx &&
    match ctx["inactive_minutes"]
    case Whole(n) => n > 60
    case Number(Finite(x)) => x > 60.0
    case Number(PosInf) => true
    case Span(x) => x > 60.0
    case _ => false
  }

  /** The meaning of the shipped rules: the risk level decides first, then a geographical jump, then
      inactivity. */
  function DefaultDecision(show: Show, ctx: Context): Decision {
    if AtLevel(show, ctx, "critical") then Decision("terminate", "Risk level reached critical threshold")
    else if AtLevel(show, ctx, "high") then Decision("downgrade", "High risk level detected, restricting permissions")
    else if AtLevel(show, ctx, "medium") then
      Decision("require_mfa", "Suspicious activity detected, verification required")
    else if Jumped(ctx) then Decision("require_mfa", "Abnormal geographical movement detected")
    else if LongInactive(ctx) then Decision("require_mfa", "Session inactive for too long")
    else Decision("none", "")
  }

  lemma {:induction false} OneCondition(show: Show, ctx: Context, r: Rule)
    requires |r.conditions| == 1
    ensures Fires(show, ctx, r) <==> ConditionHolds(show, ctx, r.conditions[0])
  {}

  lemma {:induction false} DefaultRulesFire(show: Show, ctx: Context)
    requires forall s :: show(Text(s)) == s
    ensures Fires(show, ctx, CRITICAL) <==> AtLevel(show, ctx, "critical")
    ensures Fires(show, ctx, HIGH) <==> AtLevel(show, ctx, "high")
    ensures Fires(show, ctx, MEDIUM) <==> AtLevel(show, ctx, "medium")
    ensures Fires(show, ctx, GEO_JUMP) <==> Jumped(ctx)
    ensures Fires(show, ctx, INACTIVE) <==> LongInactive(ctx)
  {
    OneCondition(show, ctx, CRITICAL);
    OneCondition(show, ctx, HIGH);
    OneCondition(show, ctx, MEDIUM);
    OneCondition(show, ctx, GEO_JUMP);
    OneCondition(show, ctx, INACTIVE);
  }

  /** With the shipped rules, in any order, DetermineAction may answer exactly what they mean, for
      every context. */
  lemma {:induction false} DefaultPolicyExactly(show: Show, ctx: Context, rules: seq<Rule>, d: Decision)
    requires forall s :: show(Text(s)) == s
    requires multiset(rules) == multiset(DefaultPolicyRules())
    ensures IsDecision(show, ctx, rules, d) <==> d == DefaultDecision(show, ctx)
  {
    DefaultRulesFire(show, ctx);
    SameElements(rules, DefaultPolicyRules());
    DefaultMembers(rules);
    var r := if Fires(show, ctx, CRITICAL) then CRITICAL else if Fires(show, ctx, HIGH) then HIGH
             else if Fires(show, ctx, MEDIUM) then MEDIUM else if Fires(show, ctx, GEO_JUMP) then GEO_JUMP
             else INACTIVE;
    if Fires(show, ctx, r) {
      assert Leads(show, ctx, rules, r);
      assert Decision(r.action, r.reason) == DefaultDecision(show, ctx);
    }
  }

  lemma {:induction false} DefaultMembers(rules: seq<Rule>)
    requires forall r :: r in rules <==> r in DefaultPolicyRules()
    ensures forall r :: r in rules <==> r in {CRITICAL, HIGH, MEDIUM, GEO_JUMP, INACTIVE}
  {
    var all := DefaultPolicyRules();
    assert all[0] == CRITICAL && all[1] == HIGH && all[2] == MEDIUM && all[3] == GEO_JUMP && all[4] == INACTIVE;
    forall r | r in {CRITICAL, HIGH, MEDIUM, GEO_JUMP, INACTIVE} ensures r in all {
      assert r == all[0] || r == all[1] || r == all[2] || r == all[3] || r == all[4];
    }
  }

  // ---------- Removing rules ----------

  lemma {:induction false} WithoutLast(rules: seq<Rule>, r: Rule, id: string)
    ensures Without(rules + [r], id) == Without(rules, id) + if r.id == id then [] else [r]
  {
    var all := rules + [r];
    assert all[..|all| - 1] == rules && all[|all| - 1] == r;
    assert Without(rules, id) + [] == Without(rules, id);
  }

  lemma {:induction false} Associates(a: seq<Rule>, b: seq<Rule>, c: seq<Rule>)
    ensures a + (b + c) == a + b + c
  {}

  /** Removal drops the rules of that id and keeps the others in their order. */
  lemma {:induction false} WithoutKeepsOrder(a: seq<Rule>, b: seq<Rule>, r: Rule, id: string)
    ensures Without(a + b, id) == Without(a, id) + Without(b, id)
    ensures Without([r], id) == if r.id == id then [] else [r]
  {
    assert [] + [r] == [r];
    WithoutLast([], r, id);
    if b == [] {
      assert a + b == a && Without(a, id) + [] == Without(a, id);
    } else {
      var rest, last := b[..|b| - 1], b[|b| - 1];
      WithoutKeepsOrder(a, rest, r, id);
      WithoutLast(a + rest, last, id);
      WithoutLast(rest, last, id);
      assert rest + [last] == b && a + rest + [last] == a + b;
      Associates(Without(a, id), Without(rest, id), if last.id == id then [] else [last]);
    }
  }
}
