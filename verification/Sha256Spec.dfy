/** SHA-256 as FIPS 180-4 defines it: functions of section 4.1.2, padding of 5.1.1, computation of 6.2.2. */
module Sha256Spec {

  type Byte = x: int | 0 <= x < 256
  type Word = bv32

  function Rotr(x: Word, n: nat): Word
    requires n <= 32
  {
    (x >> n) | (x << (32 - n))
  }

  function Ch(x: Word, y: Word, z: Word): Word { (x & y) ^ (!x & z) }
  function Maj(x: Word, y: Word, z: Word): Word { (x & y) ^ (x & z) ^ (y & z) }
  function BigSigma0(x: Word): Word { Rotr(x, 2) ^ Rotr(x, 13) ^ Rotr(x, 22) }
  function BigSigma1(x: Word): Word { Rotr(x, 6) ^ Rotr(x, 11) ^ Rotr(x, 25) }
  function SmallSigma0(x: Word): Word { Rotr(x, 7) ^ Rotr(x, 18) ^ (x >> 3) }
  function SmallSigma1(x: Word): Word { Rotr(x, 17) ^ Rotr(x, 19) ^ (x >> 10) }

  const K: seq<Word> := [
    0x428a2f98, 0x71374491, 0xb5c0fbcf, 0xe9b5dba5, 0x3956c25b, 0x59f111f1, 0x923f82a4, 0xab1c5ed5,
    0xd807aa98, 0x12835b01, 0x243185be, 0x550c7dc3, 0x72be5d74, 0x80deb1fe, 0x9bdc06a7, 0xc19bf174,
    0xe49b69c1, 0xefbe4786, 0x0fc19dc6, 0x240ca1cc, 0x2de92c6f, 0x4a7484aa, 0x5cb0a9dc, 0x76f988da,
    0x983e5152, 0xa831c66d, 0xb00327c8, 0xbf597fc7, 0xc6e00bf3, 0xd5a79147, 0x06ca6351, 0x14292967,
    0x27b70a85, 0x2e1b2138, 0x4d2c6dfc, 0x53380d13, 0x650a7354, 0x766a0abb, 0x81c2c92e, 0x92722c85,
    0xa2bfe8a1, 0xa81a664b, 0xc24b8b70, 0xc76c51a3, 0xd192e819, 0xd6990624, 0xf40e3585, 0x106aa070,
    0x19a4c116, 0x1e376c08, 0x2748774c, 0x34b0bcb5, 0x391c0cb3, 0x4ed8aa4a, 0x5b9cca4f, 0x682e6ff3,
    0x748f82ee, 0x78a5636f, 0x84c87814, 0x8cc70208, 0x90befffa, 0xa4506ceb, 0xbef9a3f7, 0xc67178f2]

  /** Eight words: a hash value, or the working variables a to h. */
  datatype Vars = Vars(a: Word, b: Word, c: Word, d: Word, e: Word, f: Word, g: Word, h: Word)

  function InitialHash(): Vars {
    Vars(0x6a09e667, 0xbb67ae85, 0x3c6ef372, 0xa54ff53a, 0x510e527f, 0x9b05688c, 0x1f83d9ab, 0x5be0cd19)
  }

  function WordAt(block: seq<Byte>, i: nat): Word
    requires i + 4 <= |block|
  {
    ((block[i] as bv32) << 24) | ((block[i + 1] as bv32) << 16) | ((block[i + 2] as bv32) << 8) | (block[i + 3] as bv32)
  }

  /** Message schedule word W_t. */
  function Schedule(block: seq<Byte>, t: nat): Word
    requires |block| == 64
  {
    if t < 16 then WordAt(block, 4 * t)
    else Mix(Schedule(block, t - 2), Schedule(block, t - 7), Schedule(block, t - 15), Schedule(block, t - 16))
  }

  function Mix(w2: Word, w7: Word, w15: Word, w16: Word): Word {
    SmallSigma1(w2) + w7 + SmallSigma0(w15) + w16
  }

  function Round(v: Vars, k: Word, w: Word): Vars {
    var t1 := v.h + BigSigma1(v.e) + Ch(v.e, v.f, v.g) + k + w;
    var t2 := BigSigma0(v.a) + Maj(v.a, v.b, v.c);
    Vars(t1 + t2, v.a, v.b, v.c, v.d + t1, v.e, v.f, v.g)
  }

  /** Working variables after t rounds. */
  function Rounds(v: Vars, block: seq<Byte>, t: nat): Vars
    requires |block| == 64 && t <= |K|
  {
    if t == 0 then v else Round(Rounds(v, block, t - 1), K[t - 1], Schedule(block, t - 1))
  }

  function Sum(x: Vars, y: Vars): Vars {
    Vars(x.a + y.a, x.b + y.b, x.c + y.c, x.d + y.d, x.e + y.e, x.f + y.f, x.g + y.g, x.h + y.h)
  }

  /** The hash value after one more block. */
  function Compress(hash: Vars, block: seq<Byte>): Vars
    requires |block| == 64
  {
    assert |K| == 64;
    Sum(hash, Rounds(hash, block, 64))
  }

  function Absorb(hash: Vars, data: seq<Byte>): Vars
    requires |data| % 64 == 0
    decreases |data|
  {
    if data == [] then hash else Absorb(Compress(hash, data[..64]), data[64..])
  }

  lemma {:induction false} AbsorbConcat(hash: Vars, x: seq<Byte>, y: seq<Byte>)
    requires |x| % 64 == 0 && |y| % 64 == 0
    ensures Absorb(hash, x + y) == Absorb(Absorb(hash, x), y)
    decreases |x|
  {
    hide Compress;
    if x == [] {
      assert x + y == y;
    } else {
      assert (x + y)[..64] == x[..64] && (x + y)[64..] == x[64..] + y;
      AbsorbConcat(Compress(hash, x[..64]), x[64..], y);
    }
  }

  // ---- padding ----------------------------------------------------------------------------

  const MAX_BITS: nat := 0x1_0000_0000_0000_0000

  /** The k low-order bytes of n, most significant first. */
  function BigEndian(n: nat, k: nat): (r: seq<Byte>)
    ensures |r| == k
    decreases k
  {
    if k == 0 then [] else BigEndian(n / 256, k - 1) + [n % 256]
  }

  function FromBigEndian(s: seq<Byte>): nat {
    if s == [] then 0 else 256 * FromBigEndian(s[..|s| - 1]) + s[|s| - 1]
  }

  function Pow256(k: nat): nat {
    if k == 0 then 1 else 256 * Pow256(k - 1)
  }

  lemma {:induction false} BigEndianValue(n: nat, k: nat)
    requires n < Pow256(k)
    ensures FromBigEndian(BigEndian(n, k)) == n
    decreases k
  {
    if k > 0 {
      var r := BigEndian(n, k);
      assert r[..|r| - 1] == BigEndian(n / 256, k - 1);
      BigEndianValue(n / 256, k - 1);
    }
  }

  function Zeros(k: nat): (r: seq<Byte>)
    ensures |r| == k
  {
    seq(k, i => 0)
  }

  /** The smallest k with len + 1 + k congruent to 56 modulo 64. */
  function PadZeros(len: nat): (k: nat)
    ensures k < 64 && (len + 1 + k) % 64 == 56
  {
    (119 - len % 64) % 64
  }

  lemma PadLength(len: nat)
    ensures (len + 1 + PadZeros(len) + 8) % 64 == 0
  {
  }

  function Pad(m: seq<Byte>): (r: seq<Byte>)
    ensures |r| % 64 == 0
  {
    PadLength(|m|);
    m + [0x80] + Zeros(PadZeros(|m|)) + BigEndian(8 * |m|, 8)
  }

  /** The padding is the only one of its form, so an implementation may count zeros as it likes. */
  lemma PadUnique(m: seq<Byte>, k: nat)
    requires k < 64 && (|m| + 1 + k + 8) % 64 == 0
    ensures m + [0x80] + Zeros(k) + BigEndian(8 * |m|, 8) == Pad(m)
  {
    hide BigEndian, Zeros;
    assert k == PadZeros(|m|);
  }

  /** Different messages have different padded messages. */
  lemma PadInjective(m: seq<Byte>, m': seq<Byte>)
    requires 8 * |m| < MAX_BITS && 8 * |m'| < MAX_BITS && Pad(m) == Pad(m')
    ensures m == m'
  {
    var p, p' := Pad(m), Pad(m');
    assert p[|p| - 8..] == BigEndian(8 * |m|, 8);
    assert p'[|p'| - 8..] == BigEndian(8 * |m'|, 8);
    assert Pow256(8) == MAX_BITS;
    BigEndianValue(8 * |m|, 8);
    BigEndianValue(8 * |m'|, 8);
    hide BigEndian, Zeros;
    assert p[..|m|] == m && p'[..|m'|] == m';
  }

  function LowByte(w: Word): Byte {
    (w as int) % 256
  }

  function WordBytes(w: Word): seq<Byte> {
    [LowByte(w >> 24), LowByte(w >> 16), LowByte(w >> 8), LowByte(w)]
  }

  function Digest(v: Vars): seq<Byte> {
    WordBytes(v.a) + WordBytes(v.b) + WordBytes(v.c) + WordBytes(v.d)
    + WordBytes(v.e) + WordBytes(v.f) + WordBytes(v.g) + WordBytes(v.h)
  }

  /** SHA-256 of a whole message. */
  function Sha256(m: seq<Byte>): seq<Byte> {
    Digest(Absorb(InitialHash(), Pad(m)))
  }
}
