/** Arithmetic on 32-bit words. */
module Words {
  type Word = bv32

  function Add(x: Word, y: Word): Word { x + y }

  function Sum(a: Word, b: Word, c: Word, d: Word): Word { a + b + c + d }

  function RotateLeft(x: Word, n: nat): Word
    requires 0 < n < 32
  {
    (x << n) | (x >> (32 - n))
  }

  lemma AddCommutes(x: Word, y: Word)
    ensures Add(x, y) == Add(y, x)
  {
  }
}

/** The MD5 message digest as sections 3.1 to 3.5 of RFC 1321 define it: padding, 64 operations per block, output. */
module Md5Reference {
  import opened Words

  type Byte = bv8

  datatype Registers = Registers(a: Word, b: Word, c: Word, d: Word)

  // ----- section 3.4: the four round functions and the tables that drive the 64 operations

  function F(x: Word, y: Word, z: Word): Word { (x & y) | (!x & z) }

  function G(x: Word, y: Word, z: Word): Word { (x & z) | (y & !z) }

  function H(x: Word, y: Word, z: Word): Word { x ^ y ^ z }

  function I(x: Word, y: Word, z: Word): Word { y ^ (x | !z) }

  function Mix(i: nat, x: Word, y: Word, z: Word): Word {
    if i < 16 then F(x, y, z) else if i < 32 then G(x, y, z) else if i < 48 then H(x, y, z) else I(x, y, z)
  }

  /** Which word of the block operation i uses. */
  function K(i: nat): (k: nat)
    ensures k < 16
  {
    if i < 16 then i else if i < 32 then (5 * i + 1) % 16 else if i < 48 then (3 * i + 5) % 16 else (7 * i) % 16
  }

  /** How far operation i rotates: four distances per round, used in turn. */
  function S(i: nat): (s: nat)
    ensures 0 < s < 32
  {
    if i < 16 then Turn(i, 7, 12, 17, 22)
    else if i < 32 then Turn(i, 5, 9, 14, 20)
    else if i < 48 then Turn(i, 4, 11, 16, 23)
    else Turn(i, 6, 10, 15, 21)
  }

  function Turn(i: nat, s0: nat, s1: nat, s2: nat, s3: nat): nat {
    if i % 4 == 0 then s0 else if i % 4 == 1 then s1 else if i % 4 == 2 then s2 else s3
  }

  /** T[i + 1] of the RFC: the integer part of 4294967296 * |sin(i + 1)|, a row for each round. */
  function T(i: nat): Word {
    if i < 16 then Row1(i) else if i < 32 then Row2(i - 16) else if i < 48 then Row3(i - 32) else Row4(i - 48)
  }

  function Row1(j: nat): Word {
    match j
    case 0 => 0xd76aa478 case 1 => 0xe8c7b756 case 2 => 0x242070db case 3 => 0xc1bdceee
    case 4 => 0xf57c0faf case 5 => 0x4787c62a case 6 => 0xa8304613 case 7 => 0xfd469501
    case 8 => 0x698098d8 case 9 => 0x8b44f7af case 10 => 0xffff5bb1 case 11 => 0x895cd7be
    case 12 => 0x6b901122 case 13 => 0xfd987193 case 14 => 0xa679438e case _ => 0x49b40821
  }

  function Row2(j: nat): Word {
    match j
    case 0 => 0xf61e2562 case 1 => 0xc040b340 case 2 => 0x265e5a51 case 3 => 0xe9b6c7aa
    case 4 => 0xd62f105d case 5 => 0x02441453 case 6 => 0xd8a1e681 case 7 => 0xe7d3fbc8
    case 8 => 0x21e1cde6 case 9 => 0xc33707d6 case 10 => 0xf4d50d87 case 11 => 0x455a14ed
    case 12 => 0xa9e3e905 case 13 => 0xfcefa3f8 case 14 => 0x676f02d9 case _ => 0x8d2a4c8a
  }

  function Row3(j: nat): Word {
    match j
    case 0 => 0xfffa3942 case 1 => 0x8771f681 case 2 => 0x6d9d6122 case 3 => 0xfde5380c
    case 4 => 0xa4beea44 case 5 => 0x4bdecfa9 case 6 => 0xf6bb4b60 case 7 => 0xbebfbc70
    case 8 => 0x289b7ec6 case 9 => 0xeaa127fa case 10 => 0xd4ef3085 case 11 => 0x04881d05
    case 12 => 0xd9d4d039 case 13 => 0xe6db99e5 case 14 => 0x1fa27cf8 case _ => 0xc4ac5665
  }

  function Row4(j: nat): Word {
    match j
    case 0 => 0xf4292244 case 1 => 0x432aff97 case 2 => 0xab9423a7 case 3 => 0xfc93a039
    case 4 => 0x655b59c3 case 5 => 0x8f0ccc92 case 6 => 0xffeff47d case 7 => 0x85845dd1
    case 8 => 0x6fa87e4f case 9 => 0xfe2ce6e0 case 10 => 0xa3014314 case 11 => 0x4e0811a1
    case 12 => 0xf7537e82 case 13 => 0xbd3af235 case 14 => 0x2ad7d2bb case _ => 0xeb86d391
  }

  /** Operation i on (a, b, c, d); the registers then turn by one place. */
  function Operation(r: Registers, x: seq<Word>, i: nat): Registers
    requires |x| == 16
  {
    Registers(r.d, Add(r.b, RotateLeft(Sum(r.a, Mix(i, r.b, r.c, r.d), x[K(i)], T(i)), S(i))), r.b, r.c)
  }

  function Operations(r: Registers, x: seq<Word>, i: nat): Registers
    requires |x| == 16 && i <= 64
    decreases 64 - i, |x|
  {
    if i == 64 then r else Operations(Operation(r, x, i), x, i + 1)
  }

  /** Low-order byte first. */
  function WordAt(s: seq<Byte>, k: nat): Word
    requires 4 * k + 4 <= |s|
  {
    (s[4 * k] as Word) | ((s[4 * k + 1] as Word) << 8) | ((s[4 * k + 2] as Word) << 16) | ((s[4 * k + 3] as Word) << 24)
  }

  function BlockWords(block: seq<Byte>): (x: seq<Word>)
    requires |block| == 64
    ensures |x| == 16
  {
    seq(16, k requires 0 <= k < 16 => WordAt(block, k))
  }

  function Process(r: Registers, block: seq<Byte>): Registers
    requires |block| == 64
  {
    var q := Operations(r, BlockWords(block), 0);
    Registers(Add(r.a, q.a), Add(r.b, q.b), Add(r.c, q.c), Add(r.d, q.d))
  }

  /** Every full block of s in turn; what is left over is not looked at. */
  function Blocks(r: Registers, s: seq<Byte>): Registers
    decreases |s|
  {
    if |s| < 64 then r else Blocks(Process(r, s[..64]), s[64..])
  }

  // ----- sections 3.1, 3.2, 3.3 and 3.5

  const INITIAL := Registers(0x67452301, 0xefcdab89, 0x98badcfe, 0x10325476)

  const TWO64: nat := 0x1_0000_0000_0000_0000

  /** The number of zero bytes that bring a message of n bytes and one marker byte to 56 modulo 64. */
  function Zeros(n: nat): nat {
    (55 - n) % 64
  }

  /** z zero bytes after the marker bring a message of n bytes to 56 modulo 64. */
  predicate Pads(n: nat, z: nat) {
    (n + 1 + z) % 64 == 56
  }

  function Power256(i: nat): nat {
    match i
    case 0 => 1
    case 1 => 0x100
    case 2 => 0x1_0000
    case 3 => 0x100_0000
    case 4 => 0x1_0000_0000
    case 5 => 0x100_0000_0000
    case 6 => 0x1_0000_0000_0000
    case _ => 0x100_0000_0000_0000
  }

  /** Byte i of a 64-bit number, low-order byte first. */
  function ByteOf(v: nat, i: nat): Byte {
    ((v / Power256(i)) % 256) as Byte
  }

  function LengthBytes(n: nat): (s: seq<Byte>)
    ensures |s| == 8
  {
    seq(8, i requires 0 <= i < 8 => ByteOf((8 * n) % TWO64, i))
  }

  function Padding(n: nat): seq<Byte> {
    [0x80] + seq(Zeros(n), _ => 0) + LengthBytes(n)
  }

  function WordByte(w: Word, j: nat): Byte {
    var shifted := match j case 0 => w case 1 => w >> 8 case 2 => w >> 16 case _ => w >> 24;
    (shifted & 0xff) as Byte
  }

  function Register(r: Registers, k: nat): Word {
    match k case 0 => r.a case 1 => r.b case 2 => r.c case _ => r.d
  }

  function Output(r: Registers): (s: seq<Byte>)
    ensures |s| == 16
  {
    seq(16, i requires 0 <= i < 16 => WordByte(Register(r, i / 4), i % 4))
  }

  function Md5(message: seq<Byte>): seq<Byte> {
    Output(Blocks(INITIAL, message + Padding(|message|)))
  }

  /** Section 3.1: the fewest zeros that bring the message to 56 modulo 64; section 3.2 completes the block. */
  lemma PaddingIsRight(n: nat)
    ensures Pads(n, Zeros(n))
    ensures forall z: nat :: Pads(n, z) ==> Zeros(n) <= z
    ensures (n + |Padding(n)|) % 64 == 0
  {
    hide LengthBytes;
    forall z: nat | Pads(n, z)
      ensures Zeros(n) <= z
    {
      PadsModulo(n, z);
    }
  }

  lemma PadsModulo(n: nat, z: nat)
    requires Pads(n, z)
    ensures z % 64 == (55 - n) % 64
  {
  }

  lemma {:induction false} BlocksAppend(r: Registers, s: seq<Byte>, t: seq<Byte>)
    requires |s| % 64 == 0
    ensures Blocks(r, s + t) == Blocks(Blocks(r, s), t)
    decreases |s|
  {
    if |s| == 0 {
      assert s + t == t;
    } else {
      assert (s + t)[..64] == s[..64] && (s + t)[64..] == s[64..] + t;
      BlocksAppend(Process(r, s[..64]), s[64..], t);
    }
  }
}
