/** User-Password hiding of internal/protocol/radius/attributes.go (section 5.2 of RFC 2865). */
module RadiusPassword {
  import opened Bytes

  /** NUL padding: the empty password takes a whole block, others round up to one. */
  function Padded(password: seq<byte>): (r: seq<byte>)
    ensures |r| > 0 && |r| % 16 == 0
    ensures password <= r && |r| <= |password| + 16
    ensures forall i :: |password| <= i < |r| ==> r[i] == 0
  {
    if |password| == 0 then Zeros(16)
    else if |password| % 16 != 0 then password + Zeros(16 - |password| % 16)
    else password
  }

  /** Each block is masked with the digest of the secret and the previous HIDDEN block. */
  function Hide(md5: Digest, secret: seq<byte>, prev: Block, plain: seq<byte>): (r: seq<byte>)
    requires |plain| % 16 == 0
    ensures |r| == |plain|
    decreases |plain|
  {
    if plain == [] then []
    else
      var c := XorBlock(plain[..16], md5(secret + prev));
      c + Hide(md5, secret, c, plain[16..])
  }

  function Unhide(md5: Digest, secret: seq<byte>, prev: Block, hidden: seq<byte>): (r: seq<byte>)
    requires |hidden| % 16 == 0
    ensures |r| == |hidden|
    decreases |hidden|
  {
    if hidden == [] then []
    else XorBlock(hidden[..16], md5(secret + prev)) + Unhide(md5, secret, hidden[..16], hidden[16..])
  }

  /** `bytes.TrimRight(s, "\x00")`: the one prefix not ending in NUL whose removal leaves only NULs. */
  function TrimRight(s: seq<byte>): (t: seq<byte>)
    ensures t <= s && (t == [] || t[|t| - 1] != 0)
    ensures forall i :: |t| <= i < |s| ==> s[i] == 0
  {
    if s != [] && s[|s| - 1] == 0 then TrimRight(s[..|s| - 1]) else s
  }

  function Encoded(md5: Digest, password: seq<byte>, auth: Block, secret: seq<byte>): seq<byte> {
    Hide(md5, secret, auth, Padded(password))
  }

  function Decoded(md5: Digest, hidden: seq<byte>, auth: Block, secret: seq<byte>): seq<byte> {
    if |hidden| == 0 || |hidden| % 16 != 0 then []
    else TrimRight(Unhide(md5, secret, auth, hidden))
  }

  /** The inner loop of both directions: masks one block of `source` into `result`. */
  method MaskBlock(result: array<byte>, i: nat, source: seq<byte>, hash: Block)
    requires i + 16 <= |source| == result.Length
    modifies result
    ensures result[..i] == old(result[..i])
    ensures result[i..i + 16] == XorBlock(source[i..i + 16], hash)
  {
    ghost var c := XorBlock(source[i..i + 16], hash);
    var j := 0;
    while j < 16
      invariant 0 <= j <= 16
      invariant result[..i] == old(result[..i])
      invariant forall k :: 0 <= k < j ==> result[i + k] == c[k]
    {
      result[i + j] := Xor(source[i + j], hash[j]);
      j := j + 1;
    }
  }

  lemma {:induction false} HideStep(
    md5: Digest, secret: seq<byte>, prev: Block, pass: seq<byte>, i: nat, done: seq<byte>
  )
    requires i + 16 <= |pass| && (|pass| - i) % 16 == 0
    ensures (|pass| - (i + 16)) % 16 == 0
    ensures var c := XorBlock(pass[i..i + 16], md5(secret + prev));
            done + Hide(md5, secret, prev, pass[i..]) == done + c + Hide(md5, secret, c, pass[i + 16..])
  {
    assert pass[i..][..16] == pass[i..i + 16] && pass[i..][16..] == pass[i + 16..];
  }

  lemma {:induction false} UnhideStep(
    md5: Digest, secret: seq<byte>, prev: Block, hidden: seq<byte>, i: nat, done: seq<byte>
  )
    requires i + 16 <= |hidden| && (|hidden| - i) % 16 == 0
    ensures (|hidden| - (i + 16)) % 16 == 0
    ensures done + Unhide(md5, secret, prev, hidden[i..]) ==
            done + XorBlock(hidden[i..i + 16], md5(secret + prev)) +
            Unhide(md5, secret, hidden[i..i + 16], hidden[i + 16..])
  {
    assert hidden[i..][..16] == hidden[i..i + 16] && hidden[i..][16..] == hidden[i + 16..];
  }

  /** The block loop of EncodePassword. */
  method HideBlocks(md5: Digest, plain: seq<byte>, authenticator: Block, secret: seq<byte>) returns (r: seq<byte>)
    requires |plain| % 16 == 0
    ensures r == Hide(md5, secret, authenticator, plain)
  {
    var result := new byte[|plain|];
    var prevBlock: Block := authenticator;
    var i := 0;
    ghost var whole := Hide(md5, secret, authenticator, plain);
    assert plain[0..] == plain;
    while i < |plain|
      invariant 0 <= i <= |plain| && (|plain| - i) % 16 == 0
      invariant whole == result[..i] + Hide(md5, secret, prevBlock, plain[i..])
    {
      HideStep(md5, secret, prevBlock, plain, i, result[..i]);
      ghost var done := result[..i];
      var hash := md5(secret + prevBlock);
      MaskBlock(result, i, plain, hash);
      assert result[..i + 16] == done + result[i..i + 16];
      prevBlock := result[i..i + 16];
      i := i + 16;
    }
    assert plain[i..] == [];
    r := result[..];
    assert r == result[..i];
  }

  /** The block loop of DecodePassword. */
  method UnhideBlocks(md5: Digest, hidden: seq<byte>, authenticator: Block, secret: seq<byte>) returns (r: seq<byte>)
    requires |hidden| % 16 == 0
    ensures r == Unhide(md5, secret, authenticator, hidden)
  {
    var result := new byte[|hidden|];
    var prevBlock: Block := authenticator;
    var i := 0;
    ghost var whole := Unhide(md5, secret, authenticator, hidden);
    assert hidden[0..] == hidden;
    while i < |hidden|
      invariant 0 <= i <= |hidden| && (|hidden| - i) % 16 == 0
      invariant whole == result[..i] + Unhide(md5, secret, prevBlock, hidden[i..])
    {
      UnhideStep(md5, secret, prevBlock, hidden, i, result[..i]);
      ghost var done := result[..i];
      var hash := md5(secret + prevBlock);
      MaskBlock(result, i, hidden, hash);
      assert result[..i + 16] == done + result[i..i + 16];
      prevBlock := hidden[i..i + 16];
      i := i + 16;
    }
    assert hidden[i..] == [];
    r := result[..];
    assert r == result[..i];
  }

  method EncodePassword(md5: Digest, password: seq<byte>, authenticator: Block, secret: seq<byte>)
    returns (hidden: seq<byte>)
    ensures hidden == Encoded(md5, password, authenticator, secret)
  {
    var pass := password;
    if |pass| == 0 {
      pass := Zeros(16);
    } else if |pass| % 16 != 0 {
      var padLen := 16 - |pass| % 16;
      pass := pass + Zeros(padLen);
    }
    hidden := HideBlocks(md5, pass, authenticator, secret);
  }

  method DecodePassword(md5: Digest, encoded: seq<byte>, authenticator: Block, secret: seq<byte>)
    returns (password: seq<byte>)
    ensures password == Decoded(md5, encoded, authenticator, secret)
  {
    if |encoded| == 0 || |encoded| % 16 != 0 {
      return [];
    }
    var result := UnhideBlocks(md5, encoded, authenticator, secret);
    password := TrimRight(result);
  }

  // ---------- The reference: the block equations of section 5.2 ----------

  function BlockAt(s: seq<byte>, k: nat): Block
    requires 16 * k + 16 <= |s|
  {
    s[16 * k..16 * k + 16]
  }

  /** c(1) = p(1) xor MD5(S + RA), c(k) = p(k) xor MD5(S + c(k-1)); blocks count from 0 here. */
  ghost predicate ChainedAt(md5: Digest, secret: seq<byte>, auth: Block, plain: seq<byte>, hidden: seq<byte>, k: nat)
    requires 16 * k + 16 <= |plain| == |hidden|
  {
    BlockAt(hidden, k) == XorBlock(BlockAt(plain, k), md5(secret + if k == 0 then auth else BlockAt(hidden, k - 1)))
  }

  ghost predicate Chained(md5: Digest, secret: seq<byte>, auth: Block, plain: seq<byte>, hidden: seq<byte>) {
    |plain| == |hidden| && |plain| % 16 == 0 &&
    forall k: nat :: 16 * k + 16 <= |plain| ==> ChainedAt(md5, secret, auth, plain, hidden, k)
  }

  /** The hidden string is the one and only solution of the block equations. */
  lemma {:induction false} HideSolvesBlockEquations(
    md5: Digest, secret: seq<byte>, auth: Block, plain: seq<byte>, hidden: seq<byte>
  )
    requires |plain| % 16 == 0
    ensures Chained(md5, secret, auth, plain, hidden) <==> hidden == Hide(md5, secret, auth, plain)
    decreases |plain|
  {
    if plain == [] || |hidden| != |plain| {
      return;
    }
    var c := XorBlock(plain[..16], md5(secret + auth));
    var rest := hidden[16..];
    assert hidden == hidden[..16] + rest;
    assert BlockAt(hidden, 0) == hidden[..16] && BlockAt(plain, 0) == plain[..16];
    assert ChainedAt(md5, secret, auth, plain, hidden, 0) <==> hidden[..16] == c;
    if hidden[..16] == c {
      HideSolvesBlockEquations(md5, secret, c, plain[16..], rest);
      ChainedTail(md5, secret, auth, plain, hidden);
    }
  }

  lemma {:induction false} BlockTail(s: seq<byte>, k: nat)
    requires 16 * k + 32 <= |s|
    ensures BlockAt(s[16..], k) == BlockAt(s, k + 1)
  {}

  lemma {:induction false} ChainedTail(md5: Digest, secret: seq<byte>, auth: Block, plain: seq<byte>, hidden: seq<byte>)
    requires |plain| == |hidden| && |plain| % 16 == 0 && |plain| > 0
    requires hidden[..16] == XorBlock(plain[..16], md5(secret + auth))
    ensures Chained(md5, secret, auth, plain, hidden) <==>
            Chained(md5, secret, hidden[..16], plain[16..], hidden[16..])
  {
    var p, h := plain[16..], hidden[16..];
    assert BlockAt(hidden, 0) == hidden[..16] && BlockAt(plain, 0) == plain[..16];
    forall k: nat | 16 * k + 16 <= |p|
      ensures ChainedAt(md5, secret, hidden[..16], p, h, k) <==> ChainedAt(md5, secret, auth, plain, hidden, k + 1)
    {
      BlockTail(plain, k);
      BlockTail(hidden, k);
      if k > 0 { BlockTail(hidden, k - 1); }
    }
    if Chained(md5, secret, hidden[..16], p, h) {
      forall k: nat | 16 * k + 16 <= |plain|
        ensures ChainedAt(md5, secret, auth, plain, hidden, k)
      {
        if k > 0 { assert ChainedAt(md5, secret, hidden[..16], p, h, k - 1); }
      }
    }
  }

  // ---------- Inverses ----------

  lemma {:induction false} UnhideInvertsHide(md5: Digest, secret: seq<byte>, prev: Block, plain: seq<byte>)
    requires |plain| % 16 == 0
    ensures Unhide(md5, secret, prev, Hide(md5, secret, prev, plain)) == plain
    decreases |plain|
  {
    if plain != [] {
      var c := XorBlock(plain[..16], md5(secret + prev));
      XorBlockCancels(plain[..16], md5(secret + prev));
      UnhideInvertsHide(md5, secret, c, plain[16..]);
      var h := Hide(md5, secret, prev, plain);
      assert h[..16] == c && h[16..] == Hide(md5, secret, c, plain[16..]);
    }
  }

  lemma {:induction false} HideInvertsUnhide(md5: Digest, secret: seq<byte>, prev: Block, hidden: seq<byte>)
    requires |hidden| % 16 == 0
    ensures Hide(md5, secret, prev, Unhide(md5, secret, prev, hidden)) == hidden
    decreases |hidden|
  {
    if hidden != [] {
      var p := Unhide(md5, secret, prev, hidden);
      XorBlockCancels(hidden[..16], md5(secret + prev));
      HideInvertsUnhide(md5, secret, hidden[..16], hidden[16..]);
      assert p[..16] == XorBlock(hidden[..16], md5(secret + prev));
      assert p[16..] == Unhide(md5, secret, hidden[..16], hidden[16..]);
    }
  }

  lemma {:induction false} TrimRightUnique(s: seq<byte>, t: seq<byte>)
    requires t <= s && (t == [] || t[|t| - 1] != 0)
    requires forall i :: |t| <= i < |s| ==> s[i] == 0
    ensures TrimRight(s) == t
  {}

  /** Decoding an encoded password gives the password without its trailing NULs, and the hidden
      form is a positive number of whole blocks. */
  lemma {:induction false} PasswordRoundTrip(md5: Digest, password: seq<byte>, auth: Block, secret: seq<byte>)
    ensures Decoded(md5, Encoded(md5, password, auth, secret), auth, secret) == TrimRight(password)
    ensures password == [] || password[|password| - 1] != 0 ==>
              Decoded(md5, Encoded(md5, password, auth, secret), auth, secret) == password
    ensures var n := |Encoded(md5, password, auth, secret)|; n > 0 && n % 16 == 0
  {
    var padded := Padded(password);
    UnhideInvertsHide(md5, secret, auth, padded);
    var t := TrimRight(password);
    forall i | |t| <= i < |padded| ensures padded[i] == 0 {
      if i < |password| { assert padded[i] == password[i]; }
    }
    TrimRightUnique(padded, t);
    if password == [] || password[|password| - 1] != 0 {
      TrimRightUnique(password, password);
    }
  }

  /** Stripping and re-padding whole blocks loses nothing exactly when the last block carries data. */
  lemma {:induction false} PaddedTrim(plain: seq<byte>)
    requires |plain| > 0 && |plain| % 16 == 0
    ensures Padded(TrimRight(plain)) == plain <==> |plain| == 16 || plain[|plain| - 16..] != Zeros(16)
  {
    var t, n := TrimRight(plain), |plain|;
    LastBlockZero(plain, t);
    if |t| > n - 16 || n == 16 {
      PaddedSize(t, n);
      assert Padded(t) == plain;
    } else {
      PaddedSize(t, n - 16);
    }
  }

  /** Padding completes the last block and no more. */
  lemma {:induction false} PaddedSize(s: seq<byte>, n: nat)
    requires n > 0 && n % 16 == 0 && |s| <= n
    ensures |Padded(s)| <= n && (n == 16 || |s| > n - 16 ==> |Padded(s)| == n)
  {}

  lemma {:induction false} LastBlockZero(plain: seq<byte>, t: seq<byte>)
    requires |plain| >= 16 && t == TrimRight(plain)
    ensures plain[|plain| - 16..] == Zeros(16) <==> |t| <= |plain| - 16
  {
    var n, last := |plain|, plain[|plain| - 16..];
    if |t| > n - 16 {
      assert last[|t| - 1 - (n - 16)] == t[|t| - 1] != 0;
    } else {
      assert forall i :: 0 <= i < 16 ==> last[i] == plain[n - 16 + i] == 0;
    }
  }

  /** The converse inverse: decoding then encoding restores a received attribute exactly when its
      last plaintext block is not all NUL, or it is a single block. */
  lemma {:induction false} HiddenRoundTrip(md5: Digest, hidden: seq<byte>, auth: Block, secret: seq<byte>)
    requires |hidden| > 0 && |hidden| % 16 == 0
    ensures Encoded(md5, Decoded(md5, hidden, auth, secret), auth, secret) == hidden
            <==> |hidden| == 16 || Unhide(md5, secret, auth, hidden)[|hidden| - 16..] != Zeros(16)
  {
    var plain := Unhide(md5, secret, auth, hidden);
    HideInvertsUnhide(md5, secret, auth, hidden);
    UnhideInvertsHide(md5, secret, auth, Padded(TrimRight(plain)));
    PaddedTrim(plain);
  }

  /** Two passwords hide alike exactly when they differ only in trailing padding. */
  lemma {:induction false} EncodedInjective(md5: Digest, p: seq<byte>, q: seq<byte>, auth: Block, secret: seq<byte>)
    ensures Encoded(md5, p, auth, secret) == Encoded(md5, q, auth, secret) <==> Padded(p) == Padded(q)
  {
    UnhideInvertsHide(md5, secret, auth, Padded(p));
    UnhideInvertsHide(md5, secret, auth, Padded(q));
  }
}
