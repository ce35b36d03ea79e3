/** Octets, 16-octet blocks and the exclusive-or that the RADIUS codec is built on. */
module Bytes {

  newtype byte = x: int | 0 <= x < 256

  /** An authenticator, an MD5 digest or one block of a hidden password. */
  type Block = s: seq<byte> | |s| == 16 witness seq(16, _ => 0)

  /** MD5 is a parameter of the model: any function into 16 octets. */
  type Digest = seq<byte> -> Block

  function Pow2(n: nat): (p: nat)
    ensures p >= 1
  {
    if n == 0 then 1 else 2 * Pow2(n - 1)
  }

  /** Exclusive or of the low `n` bits, lowest bit last. */
  function XorBits(a: nat, b: nat, n: nat): (r: nat)
    ensures r < Pow2(n)
  {
    if n == 0 then 0 else 2 * XorBits(a / 2, b / 2, n - 1) + (a + b) % 2
  }

  lemma {:induction false} LowBit(h: nat, a: nat, b: nat)
    ensures var x := 2 * h + (a + b) % 2; x / 2 == h && (x + b) % 2 == a % 2
  {}

  lemma {:induction false} XorBitsTop(x: nat, b: nat, n: nat)
    requires n > 0
    ensures XorBits(x, b, n) == 2 * XorBits(x / 2, b / 2, n - 1) + (x + b) % 2
  {}

  lemma {:induction false} XorBitsCancels(a: nat, b: nat, n: nat)
    requires a < Pow2(n)
    ensures XorBits(XorBits(a, b, n), b, n) == a
  {
    if n > 0 {
      var h := XorBits(a / 2, b / 2, n - 1);
      assert a / 2 < Pow2(n - 1);
      XorBitsCancels(a / 2, b / 2, n - 1);
      LowBit(h, a, b);
      XorBitsTop(2 * h + (a + b) % 2, b, n);
    }
  }

  lemma {:induction false} EightBits()
    ensures Pow2(8) == 256
  {}

  function Xor(a: byte, b: byte): byte {
    EightBits();
    XorBits(a as nat, b as nat, 8) as byte
  }

  lemma {:induction false} XorCancels(a: byte, b: byte)
    ensures Xor(Xor(a, b), b) == a
  {
    EightBits();
    XorBitsCancels(a as nat, b as nat, 8);
  }

  /** Bit `k` of a number, the lowest being bit 0. */
  function Bit(a: nat, k: nat): nat {
    if k == 0 then a % 2 else Bit(a / 2, k - 1)
  }

  lemma {:induction false} XorBitsBit(a: nat, b: nat, n: nat, k: nat)
    requires k < n
    ensures Bit(XorBits(a, b, n), k) == if Bit(a, k) == Bit(b, k) then 0 else 1
  {
    XorBitsTop(a, b, n);
    Halves(XorBits(a / 2, b / 2, n - 1), a, b);
    if k > 0 { XorBitsBit(a / 2, b / 2, n - 1, k - 1); }
  }

  lemma {:induction false} Halves(h: nat, a: nat, b: nat)
    ensures var x := 2 * h + (a + b) % 2; x / 2 == h && x % 2 == if a % 2 == b % 2 then 0 else 1
  {}

  /** Each of the eight bits is set exactly when it differs in the two octets. */
  lemma {:induction false} XorIsBitwise(a: byte, b: byte, k: nat)
    requires k < 8
    ensures Bit(Xor(a, b) as nat, k) == if Bit(a as nat, k) == Bit(b as nat, k) then 0 else 1
  {
    EightBits();
    XorBitsBit(a as nat, b as nat, 8, k);
  }

  function XorBlock(a: Block, b: Block): Block {
    seq(16, i requires 0 <= i < 16 => Xor(a[i], b[i]))
  }

  lemma XorBlockCancels(a: Block, b: Block)
    ensures XorBlock(XorBlock(a, b), b) == a
  {
    forall i | 0 <= i < 16
      ensures XorBlock(XorBlock(a, b), b)[i] == a[i]
    {
      XorCancels(a[i], b[i]);
    }
  }

  function Zeros(n: nat): (z: seq<byte>)
    ensures |z| == n
    ensures forall i :: 0 <= i < n ==> z[i] == 0
  {
    seq(n, _ => 0)
  }

  /** A Go conversion `byte(n)`: the low eight bits. */
  function LowByte(n: int): byte {
    (n % 256) as byte
  }

  /** Big-endian 16-bit read. */
  function U16(hi: byte, lo: byte): int {
    hi as int * 256 + lo as int
  }

  /** Big-endian 32-bit read. */
  function U32(s: seq<byte>): int
    requires |s| == 4
  {
    ((s[0] as int * 256 + s[1] as int) * 256 + s[2] as int) * 256 + s[3] as int
  }

  function PutU32(n: int): (s: seq<byte>)
    requires 0 <= n < 0x1_0000_0000
    ensures |s| == 4
  {
    [LowByte(n / 0x100_0000), LowByte(n / 0x1_0000), LowByte(n / 0x100), LowByte(n)]
  }

  lemma U32RoundTrip(n: int)
    requires 0 <= n < 0x1_0000_0000
    ensures U32(PutU32(n)) == n
  {
    var a, b, c := n / 0x100, n / 0x1_0000, n / 0x100_0000;
    assert a == b * 256 + a % 256;
    assert b == c * 256 + b % 256;
    assert n == a * 256 + n % 256;
    assert 0 <= c < 256;
  }

  /** The most significant octet comes first. */
  lemma {:induction false} U32IsBigEndian(n: int)
    requires 0 <= n < 0x1_0000_0000
    ensures var s := PutU32(n);
            s[0] as int == n / 16777216 && s[1] as int == n / 65536 % 256 &&
            s[2] as int == n / 256 % 256 && s[3] as int == n % 256
    ensures U32([0, 0, 1, 2]) == 258 && U32([1, 0, 0, 0]) == 16777216
  {}

  lemma U16RoundTrip(n: int)
    requires 0 <= n < 0x1_0000
    ensures U16(LowByte(n / 256), LowByte(n)) == n
  {}
}
