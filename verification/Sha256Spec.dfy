/** SHA-256 as section 6.2 of FIPS 180-4 states it: a recursive message schedule, sixty-four rounds over
    eight working variables, and the compression function folded over the padded message. */
module Sha256Spec {

  type byte = x: int | 0 <= x < 256
  type word = bv32

  const TWO_TO_THE_64: int := 0x1_0000_0000_0000_0000

  // The sixty-four round constants of section 4.2.2, eight to a row.
  const K0: seq<word> :=
    [0x428a2f98, 0x71374491, 0xb5c0fbcf, 0xe9b5dba5, 0x3956c25b, 0x59f111f1, 0x923f82a4, 0xab1c5ed5]
  const K1: seq<word> :=
    [0xd807aa98, 0x12835b01, 0x243185be, 0x550c7dc3, 0x72be5d74, 0x80deb1fe, 0x9bdc06a7, 0xc19bf174]
  const K2: seq<word> :=
    [0xe49b69c1, 0xefbe4786, 0x0fc19dc6, 0x240ca1cc, 0x2de92c6f, 0x4a7484aa, 0x5cb0a9dc, 0x76f988da]
  const K3: seq<word> :=
    [0x983e5152, 0xa831c66d, 0xb00327c8, 0xbf597fc7, 0xc6e00bf3, 0xd5a79147, 0x06ca6351, 0x14292967]
  const K4: seq<word> :=
    [0x27b70a85, 0x2e1b2138, 0x4d2c6dfc, 0x53380d13, 0x650a7354, 0x766a0abb, 0x81c2c92e, 0x92722c85]
  const K5: seq<word> :=
    [0xa2bfe8a1, 0xa81a664b, 0xc24b8b70, 0xc76c51a3, 0xd192e819, 0xd6990624, 0xf40e3585, 0x106aa070]
  const K6: seq<word> :=
    [0x19a4c116, 0x1e376c08, 0x2748774c, 0x34b0bcb5, 0x391c0cb3, 0x4ed8aa4a, 0x5b9cca4f, 0x682e6ff3]
  const K7: seq<word> :=
    [0x748f82ee, 0x78a5636f, 0x84c87814, 0x8cc70208, 0x90befffa, 0xa4506ceb, 0xbef9a3f7, 0xc67178f2]

  function ConstantRow(r: nat): (row: seq<word>)
    requires r < 8
    ensures |row| == 8
  {
    match r
    case 0 => K0
    case 1 => K1
    case 2 => K2
    case 3 => K3
    case 4 => K4
    case 5 => K5
    case 6 => K6
    case 7 => K7
  }

  function RoundConstant(t: nat): word
    requires t < 64
  {
    ConstantRow(t / 8)[t % 8]
  }

  /** The eight 32-bit words of a hash value, also the eight working variables. */
  datatype Hash = Hash(a: word, b: word, c: word, d: word, e: word, f: word, g: word, h: word)

  // Section 5.3.3.
  const INITIAL: Hash :=
    Hash(0x6a09e667, 0xbb67ae85, 0x3c6ef372, 0xa54ff53a, 0x510e527f, 0x9b05688c, 0x1f83d9ab, 0x5be0cd19)

  /** Addition modulo 2^32. */
  function Add(x: word, y: word): word { x + y }

  // Section 4.1.2: the six logical functions.

  function RotR(x: word, n: bv6): word
    requires 0 < n < 32
  {
    (x >> n) | (x << (32 - n))
  }

  function Ch(x: word, y: word, z: word): word { (x & y) ^ (!x & z) }

  function Maj(x: word, y: word, z: word): word { (x & y) ^ (x & z) ^ (y & z) }

  function Xor3(x: word, y: word, z: word): word { x ^ y ^ z }

  function BigSigma0(x: word): word { Xor3(RotR(x, 2), RotR(x, 13), RotR(x, 22)) }

  function BigSigma1(x: word): word { Xor3(RotR(x, 6), RotR(x, 11), RotR(x, 25)) }

  function SmallSigma0(x: word): word { Xor3(RotR(x, 7), RotR(x, 18), x >> 3) }

  function SmallSigma1(x: word): word { Xor3(RotR(x, 17), RotR(x, 19), x >> 10) }

  /** The big-endian word formed by four bytes. */
  function WordOf(b0: byte, b1: byte, b2: byte, b3: byte): word {
    (b0 as word << 24) | (b1 as word << 16) | (b2 as word << 8) | b3 as word
  }

  /** Section 6.2.2, step 1: word t of the message schedule of a block. */
  function Schedule(block: seq<byte>, t: nat): word
    requires |block| == 64 && t < 64
  {
    if t < 16 then WordOf(block[4 * t], block[4 * t + 1], block[4 * t + 2], block[4 * t + 3])
    else Add(Add(Add(Schedule(block, t - 16), SmallSigma0(Schedule(block, t - 15))), Schedule(block, t - 7)),
             SmallSigma1(Schedule(block, t - 2)))
  }

  function Temp1(v: Hash, t: nat, w: word): word
    requires t < 64
  {
    Add(Add(Add(Add(v.h, BigSigma1(v.e)), Ch(v.e, v.f, v.g)), RoundConstant(t)), w)
  }

  function Temp2(v: Hash): word { Add(BigSigma0(v.a), Maj(v.a, v.b, v.c)) }

  /** Section 6.2.2, step 3: round t with schedule word w. */
  function Round(v: Hash, t: nat, w: word): Hash
    requires t < 64
  {
    Hash(Add(Temp1(v, t, w), Temp2(v)), v.a, v.b, v.c, Add(v.d, Temp1(v, t, w)), v.e, v.f, v.g)
  }

  function ScheduleOf(block: seq<byte>): (ws: seq<word>)
    requires |block| == 64
    ensures |ws| == 64 && forall t :: 0 <= t < 64 ==> ws[t] == Schedule(block, t)
  {
    seq(64, t requires 0 <= t < 64 => Schedule(block, t))
  }

  /** The working variables after one round for each of the first schedule words. */
  function Rounds(v: Hash, ws: seq<word>): Hash
    requires |ws| <= 64
  {
    if ws == [] then v else Round(Rounds(v, ws[..|ws| - 1]), |ws| - 1, ws[|ws| - 1])
  }

  /** Section 6.2.2, step 4: the next intermediate hash value. */
  function Compress(v: Hash, block: seq<byte>): Hash
    requires |block| == 64
  {
    var r := Rounds(v, ScheduleOf(block));
    Hash(Add(v.a, r.a), Add(v.b, r.b), Add(v.c, r.c), Add(v.d, r.d),
         Add(v.e, r.e), Add(v.f, r.f), Add(v.g, r.g), Add(v.h, r.h))
  }

  /** The hash value after all the 64-byte blocks of m. */
  function HashBlocks(m: seq<byte>): Hash
    requires |m| % 64 == 0
  {
    if m == [] then INITIAL else Compress(HashBlocks(m[..|m| - 64]), m[|m| - 64..])
  }

  // ---------- Padding and digest ----------

  /** The k low-order base-256 digits of n, most significant first. */
  function BigEndian(n: nat, k: nat): (r: seq<byte>)
    ensures |r| == k
  {
    if k == 0 then [] else BigEndian(n / 256, k - 1) + [n % 256]
  }

  /** n shifted right by k bytes. */
  function ShiftBytes(n: nat, k: nat): nat {
    if k == 0 then n else ShiftBytes(n / 256, k - 1)
  }

  /** The number a string of base-256 digits stands for. */
  function FromBigEndian(s: seq<byte>): nat {
    if s == [] then 0 else 256 * FromBigEndian(s[..|s| - 1]) + s[|s| - 1]
  }

  function Zeros(k: nat): (r: seq<byte>)
    ensures |r| == k
  {
    seq(k, _ => 0)
  }

  /** With k zero bytes after the 0x80 byte, a message of n bytes ends 8 bytes short of a block boundary. */
  predicate Aligned(n: nat, k: nat) { (n + 1 + k) % 64 == 56 }

  /** The number of zero bytes section 5.1.1 asks for: the least that aligns the message. */
  function ZeroCount(n: nat): (k: nat)
    ensures Aligned(n, k) && (n + 9 + k) % 64 == 0
    ensures forall j: nat :: Aligned(n, j) ==> k <= j
  {
    (55 - n) % 64
  }

  /** The bit length of an n-byte message in the 64-bit length field, hence modulo 2^64. */
  function LengthField(n: nat): (r: seq<byte>)
    ensures |r| == 8
  {
    BigEndian(8 * n % TWO_TO_THE_64, 8)
  }

  /** Section 5.1.1. */
  function Pad(m: seq<byte>): (r: seq<byte>)
    ensures |r| == |m| + 9 + ZeroCount(|m|) && |r| % 64 == 0
  {
    hide ZeroCount, Zeros, LengthField, Aligned;
    m + [0x80] + Zeros(ZeroCount(|m|)) + LengthField(|m|)
  }

  const HEX := "0123456789abcdef"

  /** Byte j of a word, counted from the most significant one. */
  function ByteOf(w: word, j: nat): (b: word)
    requires j < 4
    ensures b <= 0xFF
  {
    match j
    case 0 => (w >> 24) & 0xFF
    case 1 => (w >> 16) & 0xFF
    case 2 => (w >> 8) & 0xFF
    case 3 => w & 0xFF
  }

  function HighDigit(b: word): char
    requires b <= 0xFF
  {
    HEX[(b >> 4) as int]
  }

  function LowDigit(b: word): char { HEX[(b & 0xF) as int] }

  /** Hexadecimal digit d of a word, counted from the most significant one. */
  function HexDigit(w: word, d: nat): char
    requires d < 8
  {
    var b := ByteOf(w, d / 2);
    if d % 2 == 0 then HighDigit(b) else LowDigit(b)
  }

  function HexWord(w: word): (r: string)
    ensures |r| == 8
  {
    seq(8, d requires 0 <= d < 8 => HexDigit(w, d))
  }

  function HexDigest(v: Hash): (r: string)
    ensures |r| == 64
  {
    HexWord(v.a) + HexWord(v.b) + HexWord(v.c) + HexWord(v.d)
    + HexWord(v.e) + HexWord(v.f) + HexWord(v.g) + HexWord(v.h)
  }

  /** The SHA-256 digest of a message, in lower-case hexadecimal. */
  function Sha256Hex(m: seq<byte>): string {
    HexDigest(HashBlocks(Pad(m)))
  }
}
