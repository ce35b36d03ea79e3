/** Which substring filters the piece-by-piece test of internal/protocol/ldap/filter_parser.go
    evaluates rightly on every value, told from the pieces alone. */
module LdapSubstrings {
  import opened Strings
  import opened LdapFilter

  // ---------- The condition ----------

  /** The end of `a` is the beginning of `b`. */
  predicate Meets(a: string, b: string) {
    exists k :: 1 <= k <= |a| && k <= |b| && a[|a| - k..] == b[..k]
  }

  /** Two neighbouring pieces can be found in less room than both take, or in the other order. */
  predicate Clash(fold: Fold, x: Piece, y: Piece) {
    var a, b := Lower(fold, x.text), Lower(fold, y.text);
    (x.tag == ANY && y.tag == ANY) || Meets(a, b) ||
    (x.tag == INITIAL && y.tag == ANY && Contains(a, b)) ||
    (x.tag == ANY && y.tag == FINAL && Contains(b, a))
  }

  /** The pieces that ask for something. */
  function Core(pieces: seq<Piece>): (core: seq<Piece>)
    ensures forall i :: 0 <= i < |core| ==> core[i] in pieces && core[i].text != ""
    ensures forall p :: p in pieces && p.text != "" ==> p in core
  {
    if pieces == [] then []
    else (if pieces[0].text == "" then [] else [pieces[0]]) + Core(pieces[1..])
  }

  /** No two neighbours among the non-empty pieces clash. */
  predicate Clear(fold: Fold, pieces: seq<Piece>) {
    forall i :: 0 <= i < |Core(pieces)| - 1 ==> !Clash(fold, Core(pieces)[i], Core(pieces)[i + 1])
  }

  // ---------- Empty pieces do not matter ----------

  lemma {:induction false} CoreTrailing(pieces: seq<Piece>)
    requires Trailing(pieces)
    ensures Trailing(Core(pieces))
  {
    if pieces != [] {
      CoreTrailing(pieces[1..]);
      if pieces[0].tag == FINAL { assert Core(pieces[1..]) == []; }
    }
  }

  lemma {:induction false} CoreWellFormed(pieces: seq<Piece>)
    requires WellFormed(pieces)
    ensures WellFormed(Core(pieces))
  {
    if pieces != [] {
      assert Trailing(pieces[1..]);
      CoreTrailing(pieces[1..]);
      if pieces[0].tag == FINAL { assert Core(pieces[1..]) == []; }
    }
  }

  lemma {:induction false} CoreDecomposes(fold: Fold, s: string, pieces: seq<Piece>)
    requires WellFormed(pieces) || Trailing(pieces)
    ensures Decomposes(fold, s, pieces) <==> Decomposes(fold, s, Core(pieces))
    decreases |pieces|
  {
    if pieces != [] {
      var p, rest := pieces[0], pieces[1..];
      assert Trailing(rest);
      if p.text == "" {
        assert Core(pieces) == Core(rest);
        CoreDecomposes(fold, s, rest);
        EmptyPiece(fold, s, pieces);
      } else {
        assert Core(pieces)[0] == p && Core(pieces)[1..] == Core(rest);
        forall r: string ensures Decomposes(fold, r, rest) <==> Decomposes(fold, r, Core(rest)) {
          CoreDecomposes(fold, r, rest);
        }
        SamePieces(fold, s, pieces, Core(pieces));
      }
    }
  }

  /** Lists with the same first piece and equivalent rests. */
  lemma {:induction false} SamePieces(fold: Fold, s: string, a: seq<Piece>, b: seq<Piece>)
    requires a != [] && b != [] && a[0] == b[0]
    requires forall r: string :: Decomposes(fold, r, a[1..]) <==> Decomposes(fold, r, b[1..])
    ensures Decomposes(fold, s, a) <==> Decomposes(fold, s, b)
  {}

  lemma {:induction false} EmptyPiece(fold: Fold, s: string, pieces: seq<Piece>)
    requires pieces != [] && pieces[0].text == "" && (WellFormed(pieces) || Trailing(pieces))
    ensures Decomposes(fold, s, pieces) <==> Decomposes(fold, s, pieces[1..])
  {
    var t, rest := Lower(fold, pieces[0].text), pieces[1..];
    assert t == "" && s[0..] == s;
    if pieces[0].tag == ANY {
      assert Trailing(rest) && OccursAt(s, t, 0) && s[0 + |t|..] == s;
      if i :| 0 <= i <= |s| && OccursAt(s, t, i) && Decomposes(fold, s[i + |t|..], rest) {
        LongerDecomposes(fold, s, i + |t|, rest);
      }
    }
  }

  lemma {:induction false} CoreHolds(fold: Fold, v: string, pieces: seq<Piece>)
    requires WellFormed(pieces)
    ensures AllPiecesHold(fold, v, pieces) <==> AllPiecesHold(fold, v, Core(pieces))
  {
    var core := Core(pieces);
    if AllPiecesHold(fold, v, core) {
      forall i | 0 <= i < |pieces| ensures PieceHolds(fold, v, pieces[i]) {
        if pieces[i].text == "" {
          assert OccursAt(Lower(fold, v), "", 0);
        } else {
          assert pieces[i] in core;
        }
      }
    }
  }

  // ---------- How much room the pieces need ----------

  function Concat(fold: Fold, pieces: seq<Piece>): string {
    if pieces == [] then "" else Lower(fold, pieces[0].text) + Concat(fold, pieces[1..])
  }

  /** A value that decomposes is at least as long as all pieces together, and if it is no longer it
      is their concatenation. */
  lemma {:induction false} RoomNeeded(fold: Fold, s: string, pieces: seq<Piece>)
    requires (WellFormed(pieces) || Trailing(pieces)) && Decomposes(fold, s, pieces)
    ensures |s| >= |Concat(fold, pieces)| && (|s| == |Concat(fold, pieces)| ==> s == Concat(fold, pieces))
    decreases |pieces|
  {
    if pieces != [] {
      var t, rest := Lower(fold, pieces[0].text), pieces[1..];
      assert Trailing(rest);
      if pieces[0].tag == FINAL {
        assert rest == [] && Concat(fold, rest) == "" && t + "" == t;
        assert s[|s| - |t|..] == t;
      } else {
        var i :| 0 <= i <= |s| && OccursAt(s, t, i) && Decomposes(fold, s[i + |t|..], rest) &&
                 (pieces[0].tag == INITIAL ==> i == 0);
        RoomNeeded(fold, s[i + |t|..], rest);
        assert i == 0 ==> s == s[..|t|] + s[|t|..];
      }
    }
  }

  lemma {:induction false} ConcatCons(fold: Fold, p: Piece, rest: seq<Piece>)
    ensures Concat(fold, [p] + rest) == Lower(fold, p.text) + Concat(fold, rest)
  {
    assert ([p] + rest)[1..] == rest;
  }

  lemma {:induction false} Associates(x: string, y: string, z: string)
    ensures x + (y + z) == x + y + z
  {}

  lemma {:induction false} ConcatSplits(fold: Fold, a: seq<Piece>, b: seq<Piece>)
    ensures Concat(fold, a + b) == Concat(fold, a) + Concat(fold, b)
    decreases |a|
  {
    if a == [] {
      assert a + b == b;
    } else {
      var p, rest := a[0], a[1..];
      ConcatSplits(fold, rest, b);
      ConcatCons(fold, p, rest + b);
      ConcatCons(fold, p, rest);
      assert [p] + rest == a && [p] + (rest + b) == a + b;
      Associates(Lower(fold, p.text), Concat(fold, rest), Concat(fold, b));
    }
  }

  // ---------- A clash makes some value go wrong ----------

  function Raw(pieces: seq<Piece>): string {
    if pieces == [] then "" else pieces[0].text + Raw(pieces[1..])
  }

  lemma {:induction false} LowerRaw(fold: Fold, pieces: seq<Piece>)
    ensures Lower(fold, Raw(pieces)) == Concat(fold, pieces)
  {
    if pieces != [] {
      LowerRaw(fold, pieces[1..]);
      LowerConcat(fold, pieces[0].text, Raw(pieces[1..]));
    }
  }

  lemma {:induction false} ContainsMiddle(l: string, m: string, r: string, t: string)
    requires Contains(m, t)
    ensures Contains(l + m + r, t)
  {
    var i :| 0 <= i <= |m| && OccursAt(m, t, i);
    var s := l + m + r;
    assert s[|l| + i..|l| + i + |t|] == m[i..i + |t|];
    assert OccursAt(s, t, |l| + i);
  }

  lemma {:induction false} ContainsSelf(t: string)
    ensures Contains(t, t)
  {
    assert OccursAt(t, t, 0);
  }

  /** Every piece is in the concatenation, the first one in front and the last one at the end. */
  lemma {:induction false} ConcatContains(fold: Fold, pieces: seq<Piece>, i: nat)
    requires i < |pieces|
    ensures var s, t := Concat(fold, pieces), Lower(fold, pieces[i].text);
            Contains(s, t) && (i == 0 ==> HasPrefix(s, t)) && (i == |pieces| - 1 ==> HasSuffix(s, t))
  {
    var t := Lower(fold, pieces[i].text);
    var l, r := Concat(fold, pieces[..i]), Concat(fold, pieces[i + 1..]);
    assert pieces == pieces[..i] + ([pieces[i]] + pieces[i + 1..]);
    ConcatSplits(fold, pieces[..i], [pieces[i]] + pieces[i + 1..]);
    assert ([pieces[i]] + pieces[i + 1..])[1..] == pieces[i + 1..];
    assert Concat(fold, pieces) == l + (t + r) == l + t + r;
    ContainsSelf(t);
    ContainsMiddle(l, t, r, t);
  }

  /** The pieces with `w` in the place of pieces `p` and `p + 1`. */
  function Surrounded(pieces: seq<Piece>, p: nat, w: string): string
    requires p + 1 < |pieces|
  {
    Raw(pieces[..p]) + w + Raw(pieces[p + 2..])
  }

  lemma {:induction false} LowerSurrounded(fold: Fold, pieces: seq<Piece>, p: nat, w: string)
    requires p + 1 < |pieces|
    ensures Lower(fold, Surrounded(pieces, p, w)) ==
            Concat(fold, pieces[..p]) + Lower(fold, w) + Concat(fold, pieces[p + 2..])
  {
    LowerRaw(fold, pieces[..p]);
    LowerRaw(fold, pieces[p + 2..]);
    LowerConcat(fold, Raw(pieces[..p]) + w, Raw(pieces[p + 2..]));
    LowerConcat(fold, Raw(pieces[..p]), w);
  }

  /** If `w` satisfies the two pieces it stands for, the whole satisfies all. */
  lemma {:induction false} SurroundedHolds(fold: Fold, pieces: seq<Piece>, p: nat, w: string)
    requires WellFormed(pieces) && p + 1 < |pieces|
    requires PieceHolds(fold, w, pieces[p]) && PieceHolds(fold, w, pieces[p + 1])
    ensures AllPiecesHold(fold, Surrounded(pieces, p, w), pieces)
  {
    var v := Surrounded(pieces, p, w);
    forall i | 0 <= i < |pieces| ensures PieceHolds(fold, v, pieces[i]) {
      if i < p {
        EarlierHolds(fold, pieces, p, w, i);
      } else if i > p + 1 {
        LaterHolds(fold, pieces, p, w, i);
      } else {
        MiddleHolds(fold, pieces, p, w, i);
      }
    }
  }

  lemma {:induction false} EarlierHolds(fold: Fold, pieces: seq<Piece>, p: nat, w: string, i: nat)
    requires WellFormed(pieces) && i < p && p + 1 < |pieces|
    ensures PieceHolds(fold, Surrounded(pieces, p, w), pieces[i])
  {
    var l, m, r := Concat(fold, pieces[..p]), Lower(fold, w), Concat(fold, pieces[p + 2..]);
    LowerSurrounded(fold, pieces, p, w);
    ConcatContains(fold, pieces[..p], i);
    InFront(l, m + r, Lower(fold, pieces[i].text));
    assert l + m + r == l + (m + r);
  }

  lemma {:induction false} LaterHolds(fold: Fold, pieces: seq<Piece>, p: nat, w: string, i: nat)
    requires WellFormed(pieces) && p + 1 < i < |pieces|
    ensures PieceHolds(fold, Surrounded(pieces, p, w), pieces[i])
  {
    var l, m, r := Concat(fold, pieces[..p]), Lower(fold, w), Concat(fold, pieces[p + 2..]);
    LowerSurrounded(fold, pieces, p, w);
    ConcatContains(fold, pieces[p + 2..], i - (p + 2));
    assert pieces[p + 2..][i - (p + 2)] == pieces[i];
    AtEnd(l + m, r, Lower(fold, pieces[i].text));
  }

  lemma {:induction false} MiddleHolds(fold: Fold, pieces: seq<Piece>, p: nat, w: string, i: nat)
    requires WellFormed(pieces) && p <= i <= p + 1 < |pieces| && PieceHolds(fold, w, pieces[i])
    ensures PieceHolds(fold, Surrounded(pieces, p, w), pieces[i])
  {
    var l, m, r := Concat(fold, pieces[..p]), Lower(fold, w), Concat(fold, pieces[p + 2..]);
    var t := Lower(fold, pieces[i].text);
    LowerSurrounded(fold, pieces, p, w);
    if pieces[i].tag == INITIAL {
      assert l == "" && l + m + r == m + r;
      InFront(m, r, t);
    } else if pieces[i].tag == FINAL {
      assert r == "" && l + m + r == l + m;
      AtEnd(l, m, t);
    } else {
      ContainsMiddle(l, m, r, t);
    }
  }

  lemma {:induction false} InFront(a: string, b: string, t: string)
    ensures (HasPrefix(a, t) ==> HasPrefix(a + b, t)) && (Contains(a, t) ==> Contains(a + b, t))
  {
    if HasPrefix(a, t) { assert (a + b)[..|t|] == a[..|t|]; }
    if Contains(a, t) {
      ContainsMiddle("", a, b, t);
      assert "" + a + b == a + b;
    }
  }

  lemma {:induction false} AtEnd(a: string, b: string, t: string)
    ensures (HasSuffix(b, t) ==> HasSuffix(a + b, t)) && (Contains(b, t) ==> Contains(a + b, t))
  {
    if HasSuffix(b, t) { assert (a + b)[|a + b| - |t|..] == b[|b| - |t|..]; }
    if Contains(b, t) {
      ContainsMiddle(a, b, "", t);
      assert a + b + "" == a + b;
    }
  }

  /** The room of all pieces, two neighbours apart. */
  lemma {:induction false} ConcatAround(fold: Fold, pieces: seq<Piece>, p: nat)
    requires p + 1 < |pieces|
    ensures Concat(fold, pieces) ==
            Concat(fold, pieces[..p]) + (Lower(fold, pieces[p].text) + Lower(fold, pieces[p + 1].text)) +
            Concat(fold, pieces[p + 2..])
  {
    var x, y, rest := pieces[p], pieces[p + 1], pieces[p + 2..];
    assert pieces == pieces[..p] + ([x] + ([y] + rest));
    ConcatSplits(fold, pieces[..p], [x] + ([y] + rest));
    assert ([x] + ([y] + rest))[1..] == [y] + rest && ([y] + rest)[1..] == rest;
    assert Concat(fold, [x] + ([y] + rest)) == Lower(fold, x.text) + (Lower(fold, y.text) + Concat(fold, rest));
  }

  /** The code accepts the value although it does not decompose. */
  predicate Misjudged(fold: Fold, v: string, pieces: seq<Piece>) {
    AllPiecesHold(fold, v, pieces) && !Decomposes(fold, Lower(fold, v), pieces)
  }

  /** Two neighbours found in less room than both take. */
  lemma {:induction false} ShortMisjudged(fold: Fold, pieces: seq<Piece>, p: nat, w: string)
    requires WellFormed(pieces) && p + 1 < |pieces| && |w| < |pieces[p].text| + |pieces[p + 1].text|
    requires PieceHolds(fold, w, pieces[p]) && PieceHolds(fold, w, pieces[p + 1])
    ensures Misjudged(fold, Surrounded(pieces, p, w), pieces)
  {
    var v := Surrounded(pieces, p, w);
    SurroundedHolds(fold, pieces, p, w);
    LowerSurrounded(fold, pieces, p, w);
    ConcatAround(fold, pieces, p);
    if Decomposes(fold, Lower(fold, v), pieces) { RoomNeeded(fold, Lower(fold, v), pieces); }
  }

  /** Two strings that can be exchanged: the shorter one is part of the longer. */
  lemma {:induction false} Commuting(a: string, b: string, l: string, r: string)
    requires l + (b + a) + r == l + (a + b) + r
    ensures Contains(a, b) || Contains(b, a)
  {
    var s := l + (b + a) + r;
    var n := if |a| <= |b| then |a| else |b|;
    assert s[|l|..|l| + n] == b[..n];
    assert (l + (a + b) + r)[|l|..|l| + n] == a[..n];
    if |a| <= |b| { assert OccursAt(b, a, 0); } else { assert OccursAt(a, b, 0); }
  }

  /** Two ANY neighbours, neither part of the other, in the wrong order. */
  lemma {:induction false} SwappedMisjudged(fold: Fold, pieces: seq<Piece>, p: nat)
    requires WellFormed(pieces) && p + 1 < |pieces| && pieces[p].tag == ANY && pieces[p + 1].tag == ANY
    requires var a, b := Lower(fold, pieces[p].text), Lower(fold, pieces[p + 1].text);
             !Contains(a, b) && !Contains(b, a)
    ensures Misjudged(fold, Surrounded(pieces, p, pieces[p + 1].text + pieces[p].text), pieces)
  {
    var x, y := pieces[p].text, pieces[p + 1].text;
    var a, b := Lower(fold, x), Lower(fold, y);
    LowerConcat(fold, y, x);
    ContainsSelf(a);
    ContainsSelf(b);
    AtEnd(b, a, a);
    InFront(b, a, b);
    SurroundedHolds(fold, pieces, p, y + x);
    LowerSurrounded(fold, pieces, p, y + x);
    ConcatAround(fold, pieces, p);
    var s := Lower(fold, Surrounded(pieces, p, y + x));
    if Decomposes(fold, s, pieces) {
      RoomNeeded(fold, s, pieces);
      Commuting(a, b, Concat(fold, pieces[..p]), Concat(fold, pieces[p + 2..]));
    }
  }

  /** Strings whose ends meet, laid over each other. */
  lemma {:induction false} Merged(fold: Fold, x: string, y: string) returns (w: string)
    requires Meets(Lower(fold, x), Lower(fold, y))
    ensures |w| < |x| + |y| && HasPrefix(Lower(fold, w), Lower(fold, x)) && HasSuffix(Lower(fold, w), Lower(fold, y))
    ensures Contains(Lower(fold, w), Lower(fold, x)) && Contains(Lower(fold, w), Lower(fold, y))
  {
    var a, b := Lower(fold, x), Lower(fold, y);
    var k :| 1 <= k <= |a| && k <= |b| && a[|a| - k..] == b[..k];
    w := x + y[k..];
    LowerConcat(fold, x, y[k..]);
    assert Lower(fold, y[k..]) == b[k..];
    var m := Lower(fold, w);
    assert m[..|a|] == a;
    assert m[|m| - |b|..] == a[|a| - k..] + b[k..] == b;
    assert OccursAt(m, a, 0) && OccursAt(m, b, |m| - |b|);
  }

  lemma {:induction false} ClashMisjudged(fold: Fold, core: seq<Piece>, p: nat) returns (v: string)
    requires WellFormed(core) && p + 1 < |core| && core[p].text != "" && core[p + 1].text != ""
    requires Clash(fold, core[p], core[p + 1])
    ensures Misjudged(fold, v, core)
  {
    var x, y := core[p], core[p + 1];
    var a, b := Lower(fold, x.text), Lower(fold, y.text);
    var w;
    ContainsSelf(a);
    ContainsSelf(b);
    if Meets(a, b) {
      w := Merged(fold, x.text, y.text);
    } else if x.tag != FINAL && y.tag == ANY && Contains(a, b) {
      w := x.text;
    } else if x.tag == ANY && Contains(b, a) {
      w := y.text;
    } else {
      v := Surrounded(core, p, y.text + x.text);
      SwappedMisjudged(fold, core, p);
      return;
    }
    v := Surrounded(core, p, w);
    ShortMisjudged(fold, core, p, w);
  }

  // ---------- Without a clash every value goes right ----------

  /** What is left when no neighbours clash: at most one ANY piece, between the other two. */
  lemma {:induction false} ClearShape(fold: Fold, core: seq<Piece>)
    requires WellFormed(core) && forall i :: 0 <= i < |core| - 1 ==> !Clash(fold, core[i], core[i + 1])
    ensures |core| <= 3
    ensures |core| == 2 ==>
              core[0].tag != FINAL && core[1].tag != INITIAL && (core[0].tag == INITIAL || core[1].tag == FINAL)
    ensures |core| == 3 ==> core[0].tag == INITIAL && core[1].tag == ANY && core[2].tag == FINAL
  {
    if |core| >= 3 {
      assert core[1].tag == ANY && !Clash(fold, core[0], core[1]) && !Clash(fold, core[1], core[2]);
    }
    if |core| >= 2 { assert !Clash(fold, core[0], core[1]); }
  }

  /** A piece that reaches into the initial piece clashes with it. */
  lemma {:induction false} BehindInitial(s: string, a: string, b: string, i: nat)
    requires HasPrefix(s, a) && OccursAt(s, b, i)
    ensures i < |a| ==> Meets(a, b) || Contains(a, b)
  {
    if i < |a| {
      if i + |b| <= |a| {
        assert a[i..i + |b|] == s[i..i + |b|];
        assert OccursAt(a, b, i);
      } else {
        var k := |a| - i;
        assert a[|a| - k..] == s[i..|a|] == b[..k];
      }
    }
  }

  lemma {:induction false} BeforeFinal(s: string, b: string, z: string, i: nat)
    requires HasSuffix(s, z) && OccursAt(s, b, i)
    ensures i + |b| > |s| - |z| ==> Meets(b, z) || Contains(z, b)
  {
    var from := |s| - |z|;
    if i + |b| > from {
      if from <= i {
        assert z[i - from..i - from + |b|] == s[i..i + |b|];
        assert OccursAt(z, b, i - from);
      } else {
        var k := i + |b| - from;
        assert b[|b| - k..] == s[from..from + k] == z[..k];
      }
    }
  }

  lemma {:induction false} InitialBeforeFinal(s: string, a: string, z: string)
    requires HasPrefix(s, a) && HasSuffix(s, z)
    ensures |a| + |z| > |s| ==> Meets(a, z)
  {
    if |a| + |z| > |s| {
      var k := |a| + |z| - |s|;
      assert a[|a| - k..] == s[|s| - |z|..|a|] == z[..k];
    }
  }

  lemma {:induction false} SuffixOfRest(s: string, n: nat, z: string)
    requires n <= |s| - |z| && HasSuffix(s, z)
    ensures HasSuffix(s[n..], z)
  {
    assert s[n..][|s[n..]| - |z|..] == s[|s| - |z|..];
  }

  lemma {:induction false} OccursInRest(s: string, n: nat, t: string, i: nat)
    requires n <= i && OccursAt(s, t, i)
    ensures OccursAt(s[n..], t, i - n) && s[n..][i - n + |t|..] == s[i + |t|..]
  {
    assert s[n..][i - n..i - n + |t|] == s[i..i + |t|];
  }

  lemma {:induction false} TwoClear(fold: Fold, s: string, x: Piece, y: Piece, v: string)
    requires x.text != "" && y.text != "" && s == Lower(fold, v) && !Clash(fold, x, y)
    requires (x.tag, y.tag) in {(INITIAL, FINAL), (INITIAL, ANY), (ANY, FINAL)}
    requires PieceHolds(fold, v, x) && PieceHolds(fold, v, y)
    ensures Decomposes(fold, s, [x, y])
  {
    var a, b := Lower(fold, x.text), Lower(fold, y.text);
    assert [x, y][1..] == [y];
    if x.tag == INITIAL && y.tag == FINAL {
      InitialBeforeFinal(s, a, b);
      SuffixOfRest(s, |a|, b);
    } else if x.tag == INITIAL {
      var i: nat :| i <= |s| && OccursAt(s, b, i);
      BehindInitial(s, a, b, i);
      OccursInRest(s, |a|, b, i);
      assert Decomposes(fold, s[|a|..][i - |a| + |b|..], []);
      assert Decomposes(fold, s[|a|..], [y]);
    } else {
      var i: nat :| i <= |s| && OccursAt(s, a, i);
      BeforeFinal(s, a, b, i);
      SuffixOfRest(s, i + |a|, b);
      assert Decomposes(fold, s[i + |a|..], [y]);
    }
  }

  lemma {:induction false} ThreeClear(fold: Fold, v: string, x: Piece, y: Piece, z: Piece)
    requires x.text != "" && y.text != "" && z.text != "" && !Clash(fold, x, y) && !Clash(fold, y, z)
    requires x.tag == INITIAL && y.tag == ANY && z.tag == FINAL
    requires PieceHolds(fold, v, x) && PieceHolds(fold, v, y) && PieceHolds(fold, v, z)
    ensures Decomposes(fold, Lower(fold, v), [x, y, z])
  {
    var s, a, b, c := Lower(fold, v), Lower(fold, x.text), Lower(fold, y.text), Lower(fold, z.text);
    var i: nat :| i <= |s| && OccursAt(s, b, i);
    BehindInitial(s, a, b, i);
    BeforeFinal(s, b, c, i);
    OccursInRest(s, |a|, b, i);
    SuffixOfRest(s, i + |b|, c);
    assert [x, y, z][1..] == [y, z] && [y, z][1..] == [z];
    assert Decomposes(fold, s[|a|..][i - |a| + |b|..], [z]);
    assert Decomposes(fold, s[|a|..], [y, z]);
  }

  lemma {:induction false} ClearDecomposes(fold: Fold, v: string, core: seq<Piece>)
    requires WellFormed(core) && AllPiecesHold(fold, v, core)
    requires forall i :: 0 <= i < |core| ==> core[i].text != ""
    requires forall i :: 0 <= i < |core| - 1 ==> !Clash(fold, core[i], core[i + 1])
    ensures Decomposes(fold, Lower(fold, v), core)
  {
    ClearShape(fold, core);
    if |core| == 1 {
      assert core == [core[0]];
      OnePieceExact(fold, v, core[0]);
    } else if |core| == 2 {
      assert core == [core[0], core[1]] && !Clash(fold, core[0], core[1]);
      TwoClear(fold, Lower(fold, v), core[0], core[1], v);
    } else if |core| == 3 {
      assert core == [core[0], core[1], core[2]] && !Clash(fold, core[0], core[1]) && !Clash(fold, core[1], core[2]);
      ThreeClear(fold, v, core[0], core[1], core[2]);
    }
  }

  // ---------- Exactly ----------

  /** For every well-formed list of pieces: the code judges every value rightly exactly when no two
      neighbours among the non-empty pieces clash. That bars two ANY pieces, an initial piece whose
      end begins the next one or that holds it, and a final piece likewise. */
  lemma {:induction false} SubstringsExactly(fold: Fold, pieces: seq<Piece>)
    requires WellFormed(pieces)
    ensures (forall v :: AllPiecesHold(fold, v, pieces) <==> Decomposes(fold, Lower(fold, v), pieces)) <==>
            Clear(fold, pieces)
  {
    var core := Core(pieces);
    CoreWellFormed(pieces);
    forall v ensures (AllPiecesHold(fold, v, pieces) <==> AllPiecesHold(fold, v, core)) &&
                     (Decomposes(fold, Lower(fold, v), pieces) <==> Decomposes(fold, Lower(fold, v), core))
    {
      CoreHolds(fold, v, pieces);
      CoreDecomposes(fold, Lower(fold, v), pieces);
    }
    if Clear(fold, pieces) {
      forall v ensures AllPiecesHold(fold, v, pieces) <==> Decomposes(fold, Lower(fold, v), pieces) {
        if AllPiecesHold(fold, v, core) { ClearDecomposes(fold, v, core); }
        if Decomposes(fold, Lower(fold, v), pieces) { SubstringsNeverMiss(fold, v, pieces); }
      }
    } else {
      var p :| 0 <= p < |core| - 1 && Clash(fold, core[p], core[p + 1]);
      var v := ClashMisjudged(fold, core, p);
      assert Misjudged(fold, v, core);
    }
  }

  // ---------- Whole filters ----------

  /** As a filter: right on every entry exactly when no neighbours clash. */
  lemma {:induction false} SubstringFilterExactly(c: Casing, attr: string, pieces: seq<Piece>)
    requires WellFormed(pieces)
    ensures (forall e :: Matches(c, e, Substrings(attr, pieces)) <==> Intended(c, e, Substrings(attr, pieces))) <==>
            Clear(c.lower, pieces)
  {
    var f := Substrings(attr, pieces);
    SubstringsExactly(c.lower, pieces);
    if !Clear(c.lower, pieces) {
      var v :| !(AllPiecesHold(c.lower, v, pieces) <==> Decomposes(c.lower, Lower(c.lower, v), pieces));
      var e := Entry("", map[attr := [v]]);
      assert e.attributes[attr][0] == v;
      assert !(Matches(c, e, f) <==> Intended(c, e, f));
    }
  }

  predicate AllClear(fold: Fold, f: Filter) {
    match f
    case And(fs) => forall i :: 0 <= i < |fs| ==> AllClear(fold, fs[i])
    case Or(fs) => forall i :: 0 <= i < |fs| ==> AllClear(fold, fs[i])
    case Not(g) => AllClear(fold, g)
    case Substrings(_, pieces) => Clear(fold, pieces)
    case _ => true
  }

  /** A filter all of whose substring parts are clear is exact on every entry, negation included. */
  lemma {:induction false} ClearFiltersExact(c: Casing, e: Entry, f: Filter)
    requires Sound(f) && AllClear(c.lower, f)
    ensures ScansAgree(c, e, f) && (Matches(c, e, f) <==> Intended(c, e, f))
    decreases f
  {
    match f {
      case And(fs) => forall i | 0 <= i < |fs| ensures ScansAgree(c, e, fs[i]) { ClearFiltersExact(c, e, fs[i]); }
      case Or(fs) => forall i | 0 <= i < |fs| ensures ScansAgree(c, e, fs[i]) { ClearFiltersExact(c, e, fs[i]); }
      case Not(g) => ClearFiltersExact(c, e, g);
      case Substrings(attr, pieces) =>
        SubstringsExactly(c.lower, pieces);
        forall v | AllPiecesHold(c.lower, v, pieces) ensures Scan(c.lower, Lower(c.lower, v), pieces) {
          ScanDecides(c.lower, Lower(c.lower, v), pieces);
        }
      case _ =>
    }
    FiltersExact(c, e, f);
  }
}
