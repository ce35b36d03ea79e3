/** Filter evaluation of internal/protocol/ldap/filter_parser.go, compared with the substring
    assertion of section 4.5.1.7.2 of RFC 4511. */
module LdapFilter {
  import opened Options
  import opened Strings

  /** strings.ToLower, one character at a time, and strings.EqualFold; neither determines the other. */
  datatype Casing = Casing(lower: Fold, equal: (string, string) -> bool)

  datatype Entry = Entry(dn: string, attributes: map<string, seq<string>>)

  const INITIAL := 0
  const ANY := 1
  const FINAL := 2

  datatype Piece = Piece(tag: int, text: string)

  /** Equality keeps the raw children: fewer than two make the filter false. */
  datatype Filter =
    | And(children: seq<Filter>)
    | Or(children: seq<Filter>)
    | Not(child: Filter)
    | Equality(operands: seq<string>)
    | Substrings(attr: string, pieces: seq<Piece>)
    | Present(attr: string)
    | Unsupported

  /** One piece, looked at on its own; an unknown tag is ignored. */
  predicate PieceHolds(fold: Fold, v: string, p: Piece) {
    var s, t := Lower(fold, v), Lower(fold, p.text);
    if p.tag == INITIAL then HasPrefix(s, t)
    else if p.tag == ANY then Contains(s, t)
    else if p.tag == FINAL then HasSuffix(s, t)
    else true
  }

  predicate AllPiecesHold(fold: Fold, v: string, pieces: seq<Piece>) {
    forall i :: 0 <= i < |pieces| ==> PieceHolds(fold, v, pieces[i])
  }

  predicate EqualityHolds(matcher: (string, string) -> bool, e: Entry, operands: seq<string>) {
    |operands| >= 2 && operands[0] in e.attributes &&
    exists i :: 0 <= i < |e.attributes[operands[0]]| && matcher(e.attributes[operands[0]][i], operands[1])
  }

  predicate SubstringsHold(fold: Fold, e: Entry, attr: string, pieces: seq<Piece>) {
    attr in e.attributes &&
    exists i :: 0 <= i < |e.attributes[attr]| && AllPiecesHold(fold, e.attributes[attr][i], pieces)
  }

  predicate Matches(c: Casing, e: Entry, f: Filter) {
    match f
    case And(fs) => forall i :: 0 <= i < |fs| ==> Matches(c, e, fs[i])
    case Or(fs) => exists i :: 0 <= i < |fs| && Matches(c, e, fs[i])
    case Not(g) => !Matches(c, e, g)
    case Equality(operands) => EqualityHolds(c.equal, e, operands)
    case Substrings(attr, pieces) => SubstringsHold(c.lower, e, attr, pieces)
    case Present(attr) => attr in e.attributes
    case Unsupported => false
  }

  method CheckAttributeMatch(matcher: (string, string) -> bool, e: Entry, operands: seq<string>) returns (r: bool)
    ensures r == EqualityHolds(matcher, e, operands)
  {
    if |operands| < 2 {
      return false;
    }
    if operands[0] !in e.attributes {
      return false;
    }
    var vals := e.attributes[operands[0]];
    for i := 0 to |vals|
      invariant forall j :: 0 <= j < i ==> !matcher(vals[j], operands[1])
    {
      if matcher(vals[i], operands[1]) {
        return true;
      }
    }
    return false;
  }

  method MatchesSubstrings(fold: Fold, e: Entry, attr: string, pieces: seq<Piece>) returns (r: bool)
    ensures r == SubstringsHold(fold, e, attr, pieces)
  {
    if attr !in e.attributes {
      return false;
    }
    var vals := e.attributes[attr];
    for i := 0 to |vals|
      invariant forall j :: 0 <= j < i ==> !AllPiecesHold(fold, vals[j], pieces)
    {
      var matched := true;
      for k := 0 to |pieces|
        invariant matched <==> AllPiecesHold(fold, vals[i], pieces[..k])
      {
        assert pieces[..k + 1] == pieces[..k] + [pieces[k]];
        if !PieceHolds(fold, vals[i], pieces[k]) {
          assert pieces[..k + 1][k] == pieces[k];
          matched := false;
        }
      }
      assert pieces[..|pieces|] == pieces;
      if matched {
        return true;
      }
    }
    return false;
  }

  method MatchesFilter(c: Casing, e: Entry, f: Filter) returns (r: bool)
    ensures r == Matches(c, e, f)
    decreases f
  {
    match f {
      case And(fs) =>
        for i := 0 to |fs|
          invariant forall j :: 0 <= j < i ==> Matches(c, e, fs[j])
        {
          var m := MatchesFilter(c, e, fs[i]);
          if !m {
            return false;
          }
        }
        return true;
      case Or(fs) =>
        for i := 0 to |fs|
          invariant forall j :: 0 <= j < i ==> !Matches(c, e, fs[j])
        {
          var m := MatchesFilter(c, e, fs[i]);
          if m {
            return true;
          }
        }
        return false;
      case Not(g) =>
        var m := MatchesFilter(c, e, g);
        return !m;
      case Equality(operands) => r := CheckAttributeMatch(c.equal, e, operands);
      case Substrings(attr, pieces) => r := MatchesSubstrings(c.lower, e, attr, pieces);
      case Present(attr) => return attr in e.attributes;
      case Unsupported => return false;
    }
  }

  // ---------- The reference: pieces in order, without overlap ----------

  /** initial first, final last, any number of "any" between. */
  predicate WellFormed(pieces: seq<Piece>) {
    forall i :: 0 <= i < |pieces| ==>
      INITIAL <= pieces[i].tag <= FINAL &&
      (pieces[i].tag == INITIAL ==> i == 0) && (pieces[i].tag == FINAL ==> i == |pieces| - 1)
  }

  /** `s` decomposes into the pieces in order: each is found in what the earlier ones left over. */
  predicate Decomposes(fold: Fold, s: string, pieces: seq<Piece>)
    decreases |pieces|
  {
    if pieces == [] then true
    else
      var t, rest := Lower(fold, pieces[0].text), pieces[1..];
      if pieces[0].tag == INITIAL then HasPrefix(s, t) && Decomposes(fold, s[|t|..], rest)
      else if pieces[0].tag == ANY then
        exists i :: 0 <= i <= |s| && OccursAt(s, t, i) && Decomposes(fold, s[i + |t|..], rest)
      else HasSuffix(s, t)
  }

  /** The filter under that reading; And, Or and Not are two-valued as in the source. */
  predicate Intended(c: Casing, e: Entry, f: Filter) {
    match f
    case And(fs) => forall i :: 0 <= i < |fs| ==> Intended(c, e, fs[i])
    case Or(fs) => exists i :: 0 <= i < |fs| && Intended(c, e, fs[i])
    case Not(g) => !Intended(c, e, g)
    case Substrings(attr, pieces) =>
      attr in e.attributes &&
      exists i :: 0 <= i < |e.attributes[attr]| && Decomposes(c.lower, Lower(c.lower, e.attributes[attr][i]), pieces)
    case Equality(operands) =>
      |operands| >= 2 && operands[0] in e.attributes &&
      exists v :: v in e.attributes[operands[0]] && c.equal(v, operands[1])
    case Present(attr) => attr in e.attributes
    case Unsupported => false
  }

  /** A well-formed list without its initial piece. */
  predicate Trailing(pieces: seq<Piece>) {
    forall i :: 0 <= i < |pieces| ==>
      ANY <= pieces[i].tag <= FINAL && (pieces[i].tag == FINAL ==> i == |pieces| - 1)
  }

  lemma {:induction false} OccursInTail(s: string, from: nat, t: string, i: nat)
    requires from <= |s| && OccursAt(s[from..], t, i)
    ensures OccursAt(s, t, from + i) && s[from..][i + |t|..] == s[from + i + |t|..]
  {
    assert s[from..][i..i + |t|] == s[from + i..from + i + |t|];
  }

  /** Pieces found in a tail of the string are found in the whole of it. */
  lemma {:induction false} LongerDecomposes(fold: Fold, s: string, from: nat, pieces: seq<Piece>)
    requires from <= |s| && Trailing(pieces) && Decomposes(fold, s[from..], pieces)
    ensures Decomposes(fold, s, pieces)
  {
    if pieces != [] {
      var t := Lower(fold, pieces[0].text);
      if pieces[0].tag == ANY {
        var i: nat :| i <= |s[from..]| && OccursAt(s[from..], t, i) &&
                      Decomposes(fold, s[from..][i + |t|..], pieces[1..]);
        OccursInTail(s, from, t, i);
      } else {
        assert s[from..][|s[from..]| - |t|..] == s[|s| - |t|..];
      }
    }
  }

  lemma {:induction false} TrailingPieces(fold: Fold, v: string, pieces: seq<Piece>)
    requires Decomposes(fold, Lower(fold, v), pieces) && Trailing(pieces)
    ensures AllPiecesHold(fold, v, pieces)
    decreases |pieces|
  {
    if pieces != [] {
      var s, t := Lower(fold, v), Lower(fold, pieces[0].text);
      assert pieces == [pieces[0]] + pieces[1..];
      if pieces[0].tag == ANY {
        var i :| 0 <= i <= |s| && OccursAt(s, t, i) && Decomposes(fold, s[i + |t|..], pieces[1..]);
        LongerDecomposes(fold, s, i + |t|, pieces[1..]);
        TrailingPieces(fold, v, pieces[1..]);
      }
    }
  }

  /** The substring test never misses: a value that decomposes into the pieces is accepted. */
  lemma {:induction false} SubstringsNeverMiss(fold: Fold, v: string, pieces: seq<Piece>)
    requires WellFormed(pieces) && Decomposes(fold, Lower(fold, v), pieces)
    ensures AllPiecesHold(fold, v, pieces)
  {
    if pieces != [] && pieces[0].tag == INITIAL {
      LongerDecomposes(fold, Lower(fold, v), |pieces[0].text|, pieces[1..]);
      TrailingPieces(fold, v, pieces[1..]);
      assert pieces == [pieces[0]] + pieces[1..];
    } else {
      TrailingPieces(fold, v, pieces);
    }
  }

  /** A piece with a tag of no meaning asks for nothing. */
  lemma {:induction false} UnknownPiecesIgnored(fold: Fold, v: string, a: seq<Piece>, p: Piece, b: seq<Piece>)
    requires p.tag !in {INITIAL, ANY, FINAL}
    ensures AllPiecesHold(fold, v, a + [p] + b) <==> AllPiecesHold(fold, v, a + b)
  {
    var all, rest := a + [p] + b, a + b;
    assert forall i :: 0 <= i < |rest| ==> rest[i] == all[if i < |a| then i else i + 1];
    assert forall i :: 0 <= i < |all| && i != |a| ==> all[i] == rest[if i < |a| then i else i - 1];
  }

  // ---------- Deciding the reference by one scan ----------

  /** The leftmost occurrence of `t` in `s` from position `i` on. */
  function FirstFrom(s: string, t: string, i: nat): (r: Option<nat>)
    requires i <= |s|
    ensures r.Some? ==> i <= r.value <= |s| && OccursAt(s, t, r.value)
    ensures forall j :: i <= j <= |s| && OccursAt(s, t, j) ==> r.Some? && r.value <= j
    decreases |s| - i
  {
    if OccursAt(s, t, i) then Some(i) else if i == |s| then None else FirstFrom(s, t, i + 1)
  }

  /** Each piece at its leftmost place behind the ones before it, without going back. */
  predicate Scan(fold: Fold, s: string, pieces: seq<Piece>)
    decreases |pieces|
  {
    if pieces == [] then true
    else
      var t, rest := Lower(fold, pieces[0].text), pieces[1..];
      if pieces[0].tag == INITIAL then HasPrefix(s, t) && Scan(fold, s[|t|..], rest)
      else if pieces[0].tag == ANY then
        match FirstFrom(s, t, 0)
        case None => false
        case Some(i) => Scan(fold, s[i + |t|..], rest)
      else HasSuffix(s, t)
  }

  /** Moving a piece to its leftmost place leaves room for the others. */
  lemma {:induction false} LeftmostSuffices(fold: Fold, s: string, t: string, i: nat, rest: seq<Piece>)
    requires i <= |s| && OccursAt(s, t, i) && Trailing(rest) && Decomposes(fold, s[i + |t|..], rest)
    ensures var first := FirstFrom(s, t, 0); first.Some? && Decomposes(fold, s[first.value + |t|..], rest)
  {
    var first := FirstFrom(s, t, 0).value;
    assert s[first + |t|..][i - first..] == s[i + |t|..];
    LongerDecomposes(fold, s[first + |t|..], i - first, rest);
  }

  lemma {:induction false} ScanIsSound(fold: Fold, s: string, pieces: seq<Piece>)
    requires Trailing(pieces) && Scan(fold, s, pieces)
    ensures Decomposes(fold, s, pieces)
    decreases |pieces|
  {
    if pieces != [] && pieces[0].tag == ANY {
      var t := Lower(fold, pieces[0].text);
      ScanIsSound(fold, s[FirstFrom(s, t, 0).value + |t|..], pieces[1..]);
    }
  }

  lemma {:induction false} ScanIsComplete(fold: Fold, s: string, pieces: seq<Piece>)
    requires Trailing(pieces) && Decomposes(fold, s, pieces)
    ensures Scan(fold, s, pieces)
    decreases |pieces|
  {
    if pieces != [] && pieces[0].tag == ANY {
      var t, rest := Lower(fold, pieces[0].text), pieces[1..];
      var i: nat :| i <= |s| && OccursAt(s, t, i) && Decomposes(fold, s[i + |t|..], rest);
      LeftmostSuffices(fold, s, t, i, rest);
      ScanIsComplete(fold, s[FirstFrom(s, t, 0).value + |t|..], rest);
    }
  }

  lemma {:induction false} TrailingScan(fold: Fold, s: string, pieces: seq<Piece>)
    requires Trailing(pieces)
    ensures Scan(fold, s, pieces) <==> Decomposes(fold, s, pieces)
  {
    if Scan(fold, s, pieces) { ScanIsSound(fold, s, pieces); }
    if Decomposes(fold, s, pieces) { ScanIsComplete(fold, s, pieces); }
  }

  /** For every well-formed list of pieces the leftmost scan decides whether a value decomposes, so
      trying other places is never needed. */
  lemma {:induction false} ScanDecides(fold: Fold, s: string, pieces: seq<Piece>)
    requires WellFormed(pieces)
    ensures Scan(fold, s, pieces) <==> Decomposes(fold, s, pieces)
  {
    if pieces != [] && pieces[0].tag == INITIAL {
      var t := Lower(fold, pieces[0].text);
      if HasPrefix(s, t) { TrailingScan(fold, s[|t|..], pieces[1..]); }
    } else {
      TrailingScan(fold, s, pieces);
    }
  }

  /** With a single piece the test is exact. */
  lemma {:induction false} OnePieceExact(fold: Fold, v: string, p: Piece)
    requires WellFormed([p])
    ensures AllPiecesHold(fold, v, [p]) <==> Decomposes(fold, Lower(fold, v), [p])
  {}

  /** With an initial and a final piece it is exact precisely on values long enough for both. */
  lemma {:induction false} InitialFinalExact(fold: Fold, v: string, a: string, z: string)
    ensures Decomposes(fold, Lower(fold, v), [Piece(INITIAL, a), Piece(FINAL, z)]) <==>
            AllPiecesHold(fold, v, [Piece(INITIAL, a), Piece(FINAL, z)]) && |a| + |z| <= |v|
  {}

  lemma {:induction false} FixedLetters(fold: Fold)
    requires Fixes(fold, "ab")
    ensures Lower(fold, "a") == "a" && Lower(fold, "b") == "b" && Lower(fold, "ab") == "ab"
    ensures Lower(fold, "ba") == "ba" && Lower(fold, "aba") == "aba"
  {
    assert "ab"[0] == 'a' && "ab"[1] == 'b';
  }

  /** One way to accept too much is overlap: "aba" against "ab*ba". */
  lemma {:induction false} OverlapAccepted(fold: Fold)
    requires Fixes(fold, "ab")
    ensures var pieces := [Piece(INITIAL, "ab"), Piece(FINAL, "ba")];
            WellFormed(pieces) && AllPiecesHold(fold, "aba", pieces) && !Decomposes(fold, Lower(fold, "aba"), pieces)
  {
    FixedLetters(fold);
  }

  /** The other is order: "ab" against "*b*a*", whose pieces do not overlap. */
  lemma {:induction false} WrongOrderAccepted(fold: Fold)
    requires Fixes(fold, "ab")
    ensures var pieces := [Piece(ANY, "b"), Piece(ANY, "a")];
            WellFormed(pieces) && AllPiecesHold(fold, "ab", pieces) && !Decomposes(fold, Lower(fold, "ab"), pieces)
  {
    FixedLetters(fold);
    assert OccursAt("ab", "b", 1) && OccursAt("ab", "a", 0) && !OccursAt("ab", "b", 0);
    assert "ab"[2..] == "" && !Contains("", "a");
  }

  // ---------- Whole filters ----------

  /** Filters without substrings mean what they say: equality asks for some value among any number of
      them, presence for the attribute, and an unsupported filter is false. */
  lemma {:induction false} PlainFiltersExact(c: Casing, e: Entry, f: Filter)
    requires f.Equality? || f.Present? || f.Unsupported?
    ensures Matches(c, e, f) <==> Intended(c, e, f)
  {
    if f.Equality? && Intended(c, e, f) {
      var vals := e.attributes[f.operands[0]];
      var v :| v in vals && c.equal(v, f.operands[1]);
      var i :| 0 <= i < |vals| && vals[i] == v;
    }
  }

  /** Every substring filter inside is well formed. */
  predicate Sound(f: Filter) {
    match f
    case And(fs) => forall i :: 0 <= i < |fs| ==> Sound(fs[i])
    case Or(fs) => forall i :: 0 <= i < |fs| ==> Sound(fs[i])
    case Not(g) => Sound(g)
    case Substrings(_, pieces) => WellFormed(pieces)
    case _ => true
  }

  predicate NotFree(f: Filter) {
    match f
    case And(fs) => forall i :: 0 <= i < |fs| ==> NotFree(fs[i])
    case Or(fs) => forall i :: 0 <= i < |fs| ==> NotFree(fs[i])
    case Not(_) => false
    case _ => true
  }

  /** No substring filter inside has more than one piece. */
  predicate Simple(f: Filter) {
    match f
    case And(fs) => forall i :: 0 <= i < |fs| ==> Simple(fs[i])
    case Or(fs) => forall i :: 0 <= i < |fs| ==> Simple(fs[i])
    case Not(g) => Simple(g)
    case Substrings(_, pieces) => |pieces| <= 1
    case _ => true
  }

  /** On the values of this entry, every substring filter inside holds only where the scan succeeds. */
  predicate ScansAgree(c: Casing, e: Entry, f: Filter) {
    match f
    case And(fs) => forall i :: 0 <= i < |fs| ==> ScansAgree(c, e, fs[i])
    case Or(fs) => forall i :: 0 <= i < |fs| ==> ScansAgree(c, e, fs[i])
    case Not(g) => ScansAgree(c, e, g)
    case Substrings(attr, pieces) =>
      attr in e.attributes ==> forall v :: v in e.attributes[attr] && AllPiecesHold(c.lower, v, pieces) ==>
                                             Scan(c.lower, Lower(c.lower, v), pieces)
    case _ => true
  }

  /** A filter without negation accepts every entry it is meant to accept. */
  lemma {:induction false} PositiveFiltersNeverMiss(c: Casing, e: Entry, f: Filter)
    requires NotFree(f) && Sound(f) && Intended(c, e, f)
    ensures Matches(c, e, f)
    decreases f
  {
    match f {
      case And(fs) =>
        forall i | 0 <= i < |fs| ensures Matches(c, e, fs[i]) {
          PositiveFiltersNeverMiss(c, e, fs[i]);
        }
      case Or(fs) =>
        var i :| 0 <= i < |fs| && Intended(c, e, fs[i]);
        PositiveFiltersNeverMiss(c, e, fs[i]);
      case Substrings(attr, pieces) =>
        var vals := e.attributes[attr];
        var i :| 0 <= i < |vals| && Decomposes(c.lower, Lower(c.lower, vals[i]), pieces);
        SubstringsNeverMiss(c.lower, vals[i], pieces);
      case _ => PlainFiltersExact(c, e, f);
    }
  }

  /** Where the scans agree a filter is evaluated exactly, negation included. */
  lemma {:induction false} FiltersExact(c: Casing, e: Entry, f: Filter)
    requires Sound(f) && ScansAgree(c, e, f)
    ensures Matches(c, e, f) <==> Intended(c, e, f)
    decreases f
  {
    match f {
      case And(fs) =>
        forall i | 0 <= i < |fs| ensures Matches(c, e, fs[i]) <==> Intended(c, e, fs[i]) {
          FiltersExact(c, e, fs[i]);
        }
      case Or(fs) =>
        forall i | 0 <= i < |fs| ensures Matches(c, e, fs[i]) <==> Intended(c, e, fs[i]) {
          FiltersExact(c, e, fs[i]);
        }
      case Not(g) => FiltersExact(c, e, g);
      case Substrings(attr, pieces) =>
        if attr in e.attributes {
          var vals := e.attributes[attr];
          forall i | 0 <= i < |vals|
            ensures AllPiecesHold(c.lower, vals[i], pieces) <==> Decomposes(c.lower, Lower(c.lower, vals[i]), pieces)
          {
            assert vals[i] in vals;
            ScanDecides(c.lower, Lower(c.lower, vals[i]), pieces);
            if Decomposes(c.lower, Lower(c.lower, vals[i]), pieces) { SubstringsNeverMiss(c.lower, vals[i], pieces); }
          }
        }
      case _ =>
    }
  }

  /** A filter whose substring parts have at most one piece is exact on every entry. */
  lemma {:induction false} SimpleFiltersExact(c: Casing, e: Entry, f: Filter)
    requires Sound(f) && Simple(f)
    ensures ScansAgree(c, e, f) && (Matches(c, e, f) <==> Intended(c, e, f))
    decreases f
  {
    match f {
      case And(fs) => forall i | 0 <= i < |fs| ensures ScansAgree(c, e, fs[i]) { SimpleFiltersExact(c, e, fs[i]); }
      case Or(fs) => forall i | 0 <= i < |fs| ensures ScansAgree(c, e, fs[i]) { SimpleFiltersExact(c, e, fs[i]); }
      case Not(g) => SimpleFiltersExact(c, e, g);
      case Substrings(attr, pieces) =>
        forall v | AllPiecesHold(c.lower, v, pieces) ensures Scan(c.lower, Lower(c.lower, v), pieces) {
          if pieces != [] {
            assert pieces == [pieces[0]];
            OnePieceExact(c.lower, v, pieces[0]);
            ScanDecides(c.lower, Lower(c.lower, v), pieces);
          }
        }
      case _ =>
    }
    FiltersExact(c, e, f);
  }

  /** Under a negation an accepted overlap makes an entry that should be returned go missing. */
  lemma {:induction false} NegationCanMiss(c: Casing)
    requires Fixes(c.lower, "ab")
    ensures var f := Not(Substrings("cn", [Piece(INITIAL, "ab"), Piece(FINAL, "ba")]));
            var e := Entry("", map["cn" := ["aba"]]);
            Sound(f) && Intended(c, e, f) && !Matches(c, e, f)
  {
    OverlapAccepted(c.lower);
    var e := Entry("", map["cn" := ["aba"]]);
    assert e.attributes["cn"][0] == "aba";
  }
}
