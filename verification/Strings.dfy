/** String operations. Case mapping is a parameter: any per-character map that neither makes nor
    loses a comma. */
module Strings {

  type Fold = char -> char

  ghost predicate CommaSafe(fold: Fold) {
    forall c :: fold(c) == ',' <==> c == ','
  }

  function Lower(fold: Fold, s: string): (r: string)
    ensures |r| == |s|
  {
    seq(|s|, i requires 0 <= i < |s| => fold(s[i]))
  }

  /** The map leaves the characters of `s` alone, as lowering does with lower-case text. */
  predicate Fixes(fold: Fold, s: string) {
    forall i :: 0 <= i < |s| ==> fold(s[i]) == s[i]
  }

  lemma {:induction false} LowerFixed(fold: Fold, s: string)
    requires Fixes(fold, s)
    ensures Lower(fold, s) == s
  {}

  predicate HasPrefix(s: string, t: string) {
    |t| <= |s| && s[..|t|] == t
  }

  predicate HasSuffix(s: string, t: string) {
    |t| <= |s| && s[|s| - |t|..] == t
  }

  predicate OccursAt(s: string, t: string, i: int) {
    0 <= i <= |s| - |t| && s[i..i + |t|] == t
  }

  predicate Contains(s: string, t: string) {
    exists i :: 0 <= i <= |s| && OccursAt(s, t, i)
  }

  function TrimSuffix(s: string, t: string): string {
    if HasSuffix(s, t) then s[..|s| - |t|] else s
  }

  /** strings.Split on a comma. */
  function Split(s: string): (parts: seq<string>)
    ensures parts != []
  {
    if s == [] then [""] else Prefixed(s[0], Split(s[1..]))
  }

  /** The parts after one more character in front: a comma starts a new part. */
  function Prefixed(c: char, parts: seq<string>): seq<string>
    requires parts != []
  {
    if c == ',' then [""] + parts else [[c] + parts[0]] + parts[1..]
  }

  function Join(parts: seq<string>): string {
    if parts == [] then ""
    else if |parts| == 1 then parts[0]
    else Join(parts[..|parts| - 1]) + "," + parts[|parts| - 1]
  }

  predicate CommaFree(s: string) {
    forall i :: 0 <= i < |s| ==> s[i] != ','
  }

  lemma {:induction false} LowerConcat(fold: Fold, a: string, b: string)
    ensures Lower(fold, a + b) == Lower(fold, a) + Lower(fold, b)
  {}

  lemma {:induction false} PrefixedConcat(c: char, x: seq<string>, y: seq<string>)
    requires x != []
    ensures Prefixed(c, x + y) == Prefixed(c, x) + y
  {}

  lemma {:induction false} SplitConcat(a: string, b: string)
    ensures Split(a + "," + b) == Split(a) + Split(b)
  {
    var s := a + "," + b;
    if a == [] {
      assert s == "," + b && s[1..] == b;
    } else {
      SplitConcat(a[1..], b);
      assert s[0] == a[0] && s[1..] == a[1..] + "," + b;
      PrefixedConcat(a[0], Split(a[1..]), Split(b));
    }
  }

  lemma {:induction false} SplitCommaFree(s: string)
    requires CommaFree(s)
    ensures Split(s) == [s]
  {
    if s != [] {
      SplitCommaFree(s[1..]);
      assert [s[0]] + s[1..] == s;
    }
  }

  /** Splitting a joined list gives back its parts. */
  lemma {:induction false} SplitJoin(parts: seq<string>)
    requires parts != [] && forall i :: 0 <= i < |parts| ==> CommaFree(parts[i])
    ensures Split(Join(parts)) == parts
  {
    var n := |parts| - 1;
    SplitCommaFree(parts[n]);
    if n > 0 {
      SplitJoin(parts[..n]);
      SplitConcat(Join(parts[..n]), parts[n]);
      assert parts == parts[..n] + [parts[n]];
    }
  }

  /** Joining the parts of a string gives it back. */
  lemma {:induction false} JoinSplit(s: string)
    ensures Join(Split(s)) == s
    ensures forall i :: 0 <= i < |Split(s)| ==> CommaFree(Split(s)[i])
  {
    if s != [] {
      var c, rest := [s[0]], Split(s[1..]);
      JoinSplit(s[1..]);
      assert s == c + s[1..];
      if s[0] == ',' {
        JoinConcat([""], rest);
        assert Join([""]) == "" && "" + "," + s[1..] == s;
      } else {
        JoinFront(c, rest);
      }
    }
  }

  /** Characters put in front of the first part come out in front of the joined string. */
  lemma {:induction false} JoinFront(c: string, parts: seq<string>)
    requires parts != []
    ensures Join([c + parts[0]] + parts[1..]) == c + Join(parts)
  {
    var n, longer := |parts| - 1, [c + parts[0]] + parts[1..];
    if n > 0 {
      JoinFront(c, parts[..n]);
      assert longer[..n] == [c + parts[0]] + parts[..n][1..] && longer[n] == parts[n];
      assert c + (Join(parts[..n]) + "," + parts[n]) == c + Join(parts[..n]) + "," + parts[n];
    }
  }

  lemma {:induction false} ConcatAssociates(x: string, y: string, z: string)
    ensures x + "," + y + "," + z == x + "," + (y + "," + z)
  {}

  lemma {:induction false} JoinConcat(a: seq<string>, b: seq<string>)
    requires a != [] && b != []
    ensures Join(a + b) == Join(a) + "," + Join(b)
    decreases |b|
  {
    var n := |b| - 1;
    var all := a + b;
    assert all[..|all| - 1] == a + b[..n] && all[|all| - 1] == b[n];
    if n == 0 {
      assert a + b[..n] == a;
    } else {
      JoinConcat(a, b[..n]);
      ConcatAssociates(Join(a), Join(b[..n]), b[n]);
    }
  }

  lemma {:induction false} SuffixAt(s: string, t: string, j: nat)
    requires j < |t| <= |s|
    ensures HasSuffix(s, t) ==> s[|s| - |t| + j] == t[j]
  {}

  /** Two strings cut at their last comma: one is a suffix of the other exactly when the last parts
      agree and the earlier parts are in the suffix relation. */
  lemma {:induction false} SuffixCut(d: string, y: string, b: string, x: string)
    requires CommaFree(x) && CommaFree(y)
    ensures HasSuffix(d + "," + y, b + "," + x) <==> x == y && HasSuffix(d, b)
  {
    var s, t := d + "," + y, b + "," + x;
    if |t| <= |s| {
      if |x| < |y| {
        SuffixAt(s, t, |b|);
        assert t[|b|] == ',' && s[|s| - |t| + |b|] == y[|y| - |x| - 1];
      } else if |y| < |x| {
        var j := |t| - |y| - 1;
        SuffixAt(s, t, j);
        assert t[j] == x[|x| - |y| - 1] && s[|d|] == ',';
      } else {
        assert s[|s| - |t|..] == d[|d| - |b|..] + "," + y;
        assert (d[|d| - |b|..] + "," + y)[..|b|] == d[|d| - |b|..] && t[..|b|] == b;
        assert (d[|d| - |b|..] + "," + y)[|b| + 1..] == y && t[|b| + 1..] == x;
      }
    }
  }

  /** A comma-free string is a suffix exactly when it is one of the last part. */
  lemma {:induction false} SuffixLast(d: string, y: string, x: string)
    requires CommaFree(x)
    ensures HasSuffix(d + "," + y, x) <==> HasSuffix(y, x)
  {
    var s := d + "," + y;
    if |x| <= |y| {
      assert s[|s| - |x|..] == y[|y| - |x|..];
    } else if |x| <= |s| {
      SuffixAt(s, x, |x| - |y| - 1);
      assert s[|d|] == ',';
    }
  }

  lemma {:induction false} NoCommaNoSuffix(y: string, b: string, x: string)
    requires CommaFree(y)
    ensures !HasSuffix(y, b + "," + x)
  {
    var t := b + "," + x;
    if |t| <= |y| {
      SuffixAt(y, t, |b|);
      assert t[|b|] == ',';
    }
  }

  // ---------- Unused names ----------

  lemma {:induction false} LongerThanAll(used: set<string>) returns (n: nat)
    ensures forall t :: t in used ==> |t| < n
  {
    n := 0;
    if used != {} {
      var t :| t in used;
      var m := LongerThanAll(used - {t});
      n := if |t| < m then m else |t| + 1;
    }
  }

  lemma {:induction false} UnusedString(used: set<string>) returns (t: string)
    ensures t !in used
  {
    var n := LongerThanAll(used);
    t := seq(n, _ => 'x');
  }
}
