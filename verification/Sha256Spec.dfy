/** SHA-256 as FIPS 180-4 defines it: the reference the streaming digest is proved against.
    Bytes are integers below 256; words are 32-bit vectors, so additions wrap as section 2.2.2 asks. */
module Sha256Spec {
  import opened Common

  type Word = bv32

  const BLOCK: nat := 64
  const TWO_61: nat := 0x2000_0000_0000_0000
  const TWO_64: nat := 0x1_0000_0000_0000_0000

  // Section 5.3.3
  const INITIAL: seq<Word> := [
    0x6a09e667, 0xbb67ae85, 0x3c6ef372, 0xa54ff53a, 0x510e527f, 0x9b05688c, 0x1f83d9ab, 0x5be0cd19]

  // Section 4.2.2
  const K: seq<Word> := K0 + K1 + K2 + K3 + K4 + K5 + K6 + K7

  const K0: seq<Word> := [0x428a2f98, 0x71374491, 0xb5c0fbcf, 0xe9b5dba5,
                         0x3956c25b, 0x59f111f1, 0x923f82a4, 0xab1c5ed5]
  const K1: seq<Word> := [0xd807aa98, 0x12835b01, 0x243185be, 0x550c7dc3,
                         0x72be5d74, 0x80deb1fe, 0x9bdc06a7, 0xc19bf174]
  const K2: seq<Word> := [0xe49b69c1, 0xefbe4786, 0x0fc19dc6, 0x240ca1cc,
                         0x2de92c6f, 0x4a7484aa, 0x5cb0a9dc, 0x76f988da]
  const K3: seq<Word> := [0x983e5152, 0xa831c66d, 0xb00327c8, 0xbf597fc7,
                         0xc6e00bf3, 0xd5a79147, 0x06ca6351, 0x14292967]
  const K4: seq<Word> := [0x27b70a85, 0x2e1b2138, 0x4d2c6dfc, 0x53380d13,
                         0x650a7354, 0x766a0abb, 0x81c2c92e, 0x92722c85]
  const K5: seq<Word> := [0xa2bfe8a1, 0xa81a664b, 0xc24b8b70, 0xc76c51a3,
                         0xd192e819, 0xd6990624, 0xf40e3585, 0x106aa070]
  const K6: seq<Word> := [0x19a4c116, 0x1e376c08, 0x2748774c, 0x34b0bcb5,
                         0x391c0cb3, 0x4ed8aa4a, 0x5b9cca4f, 0x682e6ff3]
  const K7: seq<Word> := [0x748f82ee, 0x78a5636f, 0x84c87814, 0x8cc70208,
                         0x90befffa, 0xa4506ceb, 0xbef9a3f7, 0xc67178f2]

  // Sections 3.2 and 4.1.2
  function Rotr(x: Word, n: Word): Word
    requires 0 < n < 32
  {
    (x >> n) | (x << (32 - n))
  }

  // Addition modulo 2^32 (section 2.2.2)
  function Add(x: Word, y: Word): Word { x + y }

  function Ch(x: Word, y: Word, z: Word): Word { (x & y) ^ (!x & z) }
  function Maj(x: Word, y: Word, z: Word): Word { (x & y) ^ (x & z) ^ (y & z) }
  function BigSigma0(x: Word): Word { Rotr(x, 2) ^ Rotr(x, 13) ^ Rotr(x, 22) }
  function BigSigma1(x: Word): Word { Rotr(x, 6) ^ Rotr(x, 11) ^ Rotr(x, 25) }
  function SmallSigma0(x: Word): Word { Rotr(x, 7) ^ Rotr(x, 18) ^ (x >> 3) }
  function SmallSigma1(x: Word): Word { Rotr(x, 17) ^ Rotr(x, 19) ^ (x >> 10) }

  // Section 5.2.1: a block is sixteen big-endian words
  function BigEndian(b0: Byte, b1: Byte, b2: Byte, b3: Byte): Word {
    ((b0 as bv32) << 24) | ((b1 as bv32) << 16) | ((b2 as bv32) << 8) | (b3 as bv32)
  }

  // Section 6.2.2, step 1: the word that follows the first |w| words of a block's message schedule. The standard
  // lists the four terms of the sum from last to first; addition modulo 2^32 does not care.
  function NextWord(block: seq<Byte>, w: seq<Word>): Word
    requires |block| == BLOCK && |w| < 64
  {
    var t := |w|;
    if t < 16 then BigEndian(block[4 * t], block[4 * t + 1], block[4 * t + 2], block[4 * t + 3])
    else Add(Add(Add(w[t - 16], SmallSigma0(w[t - 15])), w[t - 7]), SmallSigma1(w[t - 2]))
  }

  function Schedule(block: seq<Byte>, n: nat): (w: seq<Word>)
    requires |block| == BLOCK && n <= 64
    ensures |w| == n
  {
    if n == 0 then []
    else
      var w := Schedule(block, n - 1);
      w + [NextWord(block, w)]
  }

  datatype Vars = Vars(a: Word, b: Word, c: Word, d: Word, e: Word, f: Word, g: Word, h: Word)

  // Section 6.2.2, step 3
  function Round(v: Vars, k: Word, w: Word): Vars {
    var t1 := Add(Add(Add(Add(v.h, BigSigma1(v.e)), Ch(v.e, v.f, v.g)), k), w);
    var t2 := Add(BigSigma0(v.a), Maj(v.a, v.b, v.c));
    Vars(Add(t1, t2), v.a, v.b, v.c, Add(v.d, t1), v.e, v.f, v.g)
  }

  function Rounds(w: seq<Word>, v: Vars, t: nat): Vars
    requires |w| == 64 && t <= 64
  {
    if t == 0 then v else Round(Rounds(w, v, t - 1), K[t - 1], w[t - 1])
  }

  function VarsOf(h: seq<Word>): Vars
    requires |h| == 8
  {
    Vars(h[0], h[1], h[2], h[3], h[4], h[5], h[6], h[7])
  }

  function Sum(h: seq<Word>, v: Vars): (r: seq<Word>)
    requires |h| == 8
    ensures |r| == 8
  {
    [Add(h[0], v.a), Add(h[1], v.b), Add(h[2], v.c), Add(h[3], v.d),
     Add(h[4], v.e), Add(h[5], v.f), Add(h[6], v.g), Add(h[7], v.h)]
  }

  // Section 6.2.2, steps 2 and 4
  function Compress(h: seq<Word>, block: seq<Byte>): (r: seq<Word>)
    requires |h| == 8 && |block| == BLOCK
    ensures |r| == 8
  {
    Sum(h, Rounds(Schedule(block, 64), VarsOf(h), 64))
  }

  // Section 6.2.2: the hash value after the last of the message's blocks
  function HashBlocks(m: seq<Byte>): (r: seq<Word>)
    requires |m| % BLOCK == 0
    ensures |r| == 8
    decreases |m|
  {
    if |m| == 0 then INITIAL
    else Compress(HashBlocks(m[..|m| - BLOCK]), m[|m| - BLOCK..])
  }

  // Section 5.1.1, as bytes. `bits` is what the length field holds.
  function Zeros(n: nat): (r: seq<Byte>)
    ensures |r| == n
  {
    seq(n, _ => 0)
  }

  // As many zero bytes after 0x80 as leave exactly eight for the length.
  function ZeroBytes(length: nat): nat {
    var r := length % BLOCK;
    if r < 56 then 55 - r else 119 - r
  }

  function Pow2(n: nat): (p: nat)
    ensures p > 0
  {
    if n == 0 then 1 else 2 * Pow2(n - 1)
  }

  function LengthBytes(bits: nat): (r: seq<Byte>)
    ensures |r| == 8
  {
    seq(8, i requires 0 <= i < 8 => bits / Pow2(56 - 8 * i) % 256)
  }

  function Trailer(length: nat): seq<Byte> {
    [0x80] + Zeros(ZeroBytes(length)) + LengthBytes(8 * length % TWO_64)
  }

  function Pad(m: seq<Byte>): (p: seq<Byte>)
    ensures |p| % BLOCK == 0
  {
    WholeBlocks(|m|);
    m + Trailer(|m|)
  }

  lemma WholeBlocks(length: nat)
    ensures (length + |Trailer(length)|) % BLOCK == 0
  {
    assert |Trailer(length)| == 9 + ZeroBytes(length);
    var q := length / BLOCK;
    assert length == BLOCK * q + length % BLOCK;
    assert length + 9 + ZeroBytes(length) == BLOCK * (q + 1) || length + 9 + ZeroBytes(length) == BLOCK * (q + 2);
  }

  const DIGITS: string := "0123456789abcdef"

  function HexDigit(w: Word, shift: nat): char
    requires shift <= 28
  {
    DIGITS[((w >> shift) & 0xf) as int]
  }

  function HexWord(w: Word): (r: string)
    ensures |r| == 8
  {
    seq(8, i requires 0 <= i < 8 => HexDigit(w, 28 - 4 * i))
  }

  function HexWords(h: seq<Word>): string
  {
    if |h| == 0 then "" else HexWords(h[..|h| - 1]) + HexWord(h[|h| - 1])
  }

  // The digest of a message, as the standard's whole-message form gives it.
  function Sha256Hex(m: seq<Byte>): string { HexWords(HashBlocks(Pad(m))) }

  // ---- the padding, bit by bit ---------------------------------------------------------------------------

  // The low `width` bits of n, most significant first.
  function BitString(n: nat, width: nat): (r: seq<bool>)
    ensures |r| == width
  {
    seq(width, j requires 0 <= j < width => n / Pow2(width - 1 - j) % 2 == 1)
  }

  function Bits(m: seq<Byte>): (r: seq<bool>)
    ensures |r| == 8 * |m|
  {
    if |m| == 0 then [] else Bits(m[..|m| - 1]) + BitString(m[|m| - 1], 8)
  }

  function FalseBits(n: nat): (r: seq<bool>)
    ensures |r| == n
  {
    seq(n, _ => false)
  }

  // k is the smallest non-negative solution of l + 1 + k = 448 mod 512.
  ghost predicate IsZeroBits(l: nat, k: nat) {
    Solves(l, k) && forall j: nat :: j < k ==> !Solves(l, j)
  }

  ghost predicate Solves(l: nat, k: nat) { (l + 1 + k) % 512 == 448 }

  lemma {:induction false} BitsAppend(a: seq<Byte>, b: seq<Byte>)
    ensures Bits(a + b) == Bits(a) + Bits(b)
    decreases |b|
  {
    if |b| == 0 {
      assert a + b == a;
    } else {
      assert (a + b)[..|a + b| - 1] == a + b[..|b| - 1];
      BitsAppend(a, b[..|b| - 1]);
    }
  }

  lemma {:induction false} BitsOfZeros(n: nat)
    ensures Bits(Zeros(n)) == FalseBits(8 * n)
  {
    if n > 0 {
      assert Zeros(n)[..n - 1] == Zeros(n - 1);
      BitsOfZeros(n - 1);
      assert BitString(0, 8) == FalseBits(8);
    }
  }

  lemma BitsOfOne()
    ensures Bits([0x80]) == [true] + FalseBits(7)
  {
    assert [0x80][..0] == [];
    assert Pow2(7) == 128;
    var b := BitString(0x80, 8);
    assert b[0];
    forall j | 1 <= j < 8
      ensures !b[j]
    {
      Halves(j);
    }
  }

  lemma Halves(j: nat)
    requires 1 <= j < 8
    ensures 128 / Pow2(7 - j) % 2 == 0
  {
    assert Pow2(0) == 1 && Pow2(1) == 2 && Pow2(2) == 4 && Pow2(3) == 8;
    assert Pow2(4) == 16 && Pow2(5) == 32 && Pow2(6) == 64;
  }

  lemma {:induction false} Pow2Add(a: nat, b: nat)
    ensures Pow2(a + b) == Pow2(a) * Pow2(b)
  {
    if a > 0 {
      Pow2Add(a - 1, b);
      assert Pow2(a + b) == 2 * Pow2(a - 1 + b);
    }
  }

  lemma DivDiv(x: nat, a: nat, b: nat)
    requires a > 0 && b > 0
    ensures a * b > 0 && x / a / b == x / (a * b)
  {
    var q := x / a;
    var p := q / b;
    assert x == q * a + x % a;
    assert q == p * b + q % b;
    assert x == p * (b * a) + (q % b) * a + x % a by {
      assert (p * b + q % b) * a == p * (b * a) + (q % b) * a by { Distribute(p, b, q % b, a); }
    }
    var r := (q % b) * a + x % a;
    assert 0 <= r < a * b by {
      assert (q % b) <= b - 1;
      assert (q % b) * a <= (b - 1) * a by { MulLe(q % b, b - 1, a); }
      assert (b - 1) * a == a * b - a;
      assert (q % b) * a >= 0;
    }
    assert a * b > 0;
    DivUnique(x, a * b, p, r);
  }

  lemma Distribute(p: int, b: int, r: int, a: int)
    ensures (p * b + r) * a == p * (b * a) + r * a
  {
  }

  lemma MulLe(x: int, y: int, z: nat)
    requires x <= y
    ensures x * z <= y * z
  {
  }

  lemma DivUnique(x: int, d: int, q: int, r: int)
    requires d > 0 && 0 <= r < d && x == q * d + r
    ensures x / d == q
  {
    var p, s := x / d, x % d;
    assert x == p * d + s;
    assert (p - q) * d == r - s;
    if p > q {
      MulLe(1, p - q, d);
    } else if p < q {
      MulLe(p - q, -1, d);
    }
  }

  lemma ByteBit(x: nat, s: nat)
    requires s < 8
    ensures x % 256 / Pow2(s) % 2 == x / Pow2(s) % 2
  {
    assert Pow2(0) == 1 && Pow2(1) == 2 && Pow2(2) == 4 && Pow2(3) == 8;
    assert Pow2(4) == 16 && Pow2(5) == 32 && Pow2(6) == 64 && Pow2(7) == 128;
    var p := Pow2(s);
    var q := x / 256;
    if s == 0 { LowBits(x, q, 1); } else if s == 1 { LowBits(x, q, 2); }
    else if s == 2 { LowBits(x, q, 4); } else if s == 3 { LowBits(x, q, 8); }
    else if s == 4 { LowBits(x, q, 16); } else if s == 5 { LowBits(x, q, 32); }
    else if s == 6 { LowBits(x, q, 64); } else { LowBits(x, q, 128); }
  }

  // Dropping whole multiples of 256 leaves each of the low eight bits as it was.
  lemma LowBits(x: nat, q: nat, p: nat)
    requires q == x / 256 && p in {1, 2, 4, 8, 16, 32, 64, 128}
    ensures x % 256 / p % 2 == x / p % 2
  {
    var m := if p == 1 then 128 else if p == 2 then 64 else if p == 4 then 32 else if p == 8 then 16
             else if p == 16 then 8 else if p == 32 then 4 else if p == 64 then 2 else 1;
    Shifted(x % 256, q, m, p);
  }

  lemma Shifted(low: nat, q: nat, m: nat, p: nat)
    requires p > 0 && 2 * m * p == 256
    ensures low / p % 2 == (256 * q + low) / p % 2
  {
    var h := low / p;
    assert low == h * p + low % p;
    assert 256 * q + low == (2 * m * q + h) * p + low % p by {
      assert 2 * m * q * p == 256 * q by { assert (2 * m * p) * q == 256 * q; }
    }
    DivUnique(256 * q + low, p, 2 * m * q + h, low % p);
    assert (2 * m * q + h) % 2 == h % 2 by { assert 2 * m * q == 2 * (m * q); }
  }

  lemma {:induction false} BitsAt(m: seq<Byte>, i: nat, j: nat)
    requires i < |m| && j < 8
    ensures Bits(m)[8 * i + j] == BitString(m[i], 8)[j]
    decreases |m|
  {
    if i < |m| - 1 {
      BitsAt(m[..|m| - 1], i, j);
    }
  }

  lemma LengthBit(bits: nat, i: nat, j: nat)
    requires i < 8 && j < 8
    ensures BitString(LengthBytes(bits)[i], 8)[j] == BitString(bits, 64)[8 * i + j]
  {
    hide Pow2;
    BitOfByte(bits, 56 - 8 * i, 7 - j);
    assert 56 - 8 * i + (7 - j) == 63 - (8 * i + j);
  }

  // A bit of one byte of a number is a bit of the number.
  lemma BitOfByte(bits: nat, low: nat, s: nat)
    requires s < 8
    ensures bits / Pow2(low) % 256 / Pow2(s) % 2 == bits / Pow2(low + s) % 2
  {
    hide Pow2;
    ByteBit(bits / Pow2(low), s);
    DivDiv(bits, Pow2(low), Pow2(s));
    Pow2Add(low, s);
  }

  // The eight length bytes are the 64-bit big-endian representation of the number of bits.
  lemma BitsOfLength(bits: nat)
    ensures Bits(LengthBytes(bits)) == BitString(bits, 64)
  {
    var all, expected := Bits(LengthBytes(bits)), BitString(bits, 64);
    forall p | 0 <= p < 64
      ensures all[p] == expected[p]
    {
      var i, j := p / 8, p % 8;
      assert p == 8 * i + j;
      BitsAt(LengthBytes(bits), i, j);
      LengthBit(bits, i, j);
    }
  }

  lemma ModShift(q: nat, x: nat)
    ensures (512 * q + x) % 512 == x % 512
  {
  }

  // Only the bits in the last 512 matter.
  lemma SolvesRest(length: nat, k: nat)
    ensures Solves(8 * length, k) <==> Solves(8 * (length % 64), k)
  {
    var q, r := length / 64, length % 64;
    assert 8 * length + 1 + k == 512 * q + (8 * r + 1 + k);
    ModShift(q, 8 * r + 1 + k);
  }

  lemma SmallestSolution(r: nat, k: nat)
    requires r < 64 && k <= 7 + 8 * ZeroBytes(r)
    ensures Solves(8 * r, k) <==> k == 7 + 8 * ZeroBytes(r)
  {
    var x := 8 * r + 1 + k;
    if r < 56 {
      assert x <= 448;
    } else {
      assert 448 < x <= 960;
      ModShift(if x < 512 then 0 else 1, if x < 512 then x else x - 512);
    }
  }

  lemma ZeroBitsOf(length: nat)
    ensures IsZeroBits(8 * length, 7 + 8 * ZeroBytes(length))
  {
    hide Solves;
    var k := 7 + 8 * ZeroBytes(length);
    assert ZeroBytes(length) == ZeroBytes(length % 64);
    forall j: nat | j <= k
      ensures Solves(8 * length, j) <==> j == k
    {
      SolvesRest(length, j);
      SmallestSolution(length % 64, j);
    }
  }

  // A one bit, then 7 + 8z zero bits, then the length.
  lemma BitsOfTrailer(length: nat)
    ensures Bits(Trailer(length))
         == [true] + FalseBits(7 + 8 * ZeroBytes(length)) + BitString(8 * length % TWO_64, 64)
  {
    var z, bits := ZeroBytes(length), 8 * length % TWO_64;
    BitsAppend([0x80] + Zeros(z), LengthBytes(bits));
    BitsAppend([0x80], Zeros(z));
    BitsOfOne();
    BitsOfZeros(z);
    BitsOfLength(bits);
    assert FalseBits(7) + FalseBits(8 * z) == FalseBits(7 + 8 * z);
    assert [true] + FalseBits(7) + FalseBits(8 * z) == [true] + (FalseBits(7) + FalseBits(8 * z));
  }

  // What section 5.1.1 appends to a message of l bits.
  ghost function Padding(l: nat, k: nat): seq<bool> {
    [true] + FalseBits(k) + BitString(l, 64)
  }

  lemma TrailerBits(length: nat)
    requires length < TWO_61
    ensures Bits(Trailer(length)) == Padding(8 * length, 7 + 8 * ZeroBytes(length))
  {
    BitsOfTrailer(length);
    assert 8 * length % TWO_64 == 8 * length by { assert 8 * length < TWO_64; }
  }

  lemma PadBits(m: seq<Byte>)
    ensures Bits(Pad(m)) == Bits(m) + Bits(Trailer(|m|))
  {
    BitsAppend(m, Trailer(|m|));
  }

  // The padded message of section 5.1.1: the message, a one bit, the fewest zero bits, the 64-bit length.
  lemma PadIsStandard(m: seq<Byte>, k: nat)
    requires |m| < TWO_61 && IsZeroBits(8 * |m|, k)
    ensures Bits(Pad(m)) == Bits(m) + Padding(8 * |m|, k)
  {
    PadBits(m);
    TrailerBits(|m|);
    ZeroBitsOf(|m|);
    assert k == 7 + 8 * ZeroBytes(|m|) by {
      assert Solves(8 * |m|, k) && Solves(8 * |m|, 7 + 8 * ZeroBytes(|m|));
    }
  }
}
