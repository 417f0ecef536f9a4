/** The streaming hasher: a 64-byte carry buffer, an in-place message schedule, and padding that re-enters Update. */
module Sha256 {
  import opened Sha256Spec
  import opened DigestText
  import opened Wrappers

  class Hasher {
    const state: array<word>
    var bitLen: nat
    const buffer: array<byte>
    var bufferLen: nat
    ghost var message: seq<byte>

    ghost predicate Shape() {
      state.Length == 8 && buffer.Length == 64 && state as object != buffer
    }

    ghost function StateValue(): Hash
      requires Shape()
      reads state
    {
      Hash(state[0], state[1], state[2], state[3], state[4], state[5], state[6], state[7])
    }

    /** The first n bytes of m are in: every complete block compressed, the rest in the buffer. */
    ghost predicate Absorbed(m: seq<byte>, n: nat)
      requires n <= |m|
      reads this`bufferLen, state, buffer
    {
      && Shape() && bufferLen < 64
      && bufferLen <= n && (n - bufferLen) % 64 == 0
      && StateValue() == HashBlocks(m[..n - bufferLen])
      && buffer[..bufferLen] == m[n - bufferLen..n]
    }

    ghost predicate Valid()
      reads this`message, this`bufferLen, state, buffer
    {
      Absorbed(message, |message|)
    }

    /** The bit counter agrees with the message. FinalizeHex breaks and repairs this while it pads. */
    ghost predicate Counted()
      reads this
    {
      bitLen == 8 * |message| % TWO_TO_THE_64
    }

    constructor ()
      ensures Valid() && Counted() && message == []
      ensures fresh(state) && fresh(buffer)
    {
      state := new word[8];
      buffer := new byte[64](_ => 0);
      bitLen, bufferLen, message := 0, 0, [];
      new;
      state[0] := 0x6a09e667;
      state[1] := 0xbb67ae85;
      state[2] := 0x3c6ef372;
      state[3] := 0xa54ff53a;
      state[4] := 0x510e527f;
      state[5] := 0x9b05688c;
      state[6] := 0x1f83d9ab;
      state[7] := 0x5be0cd19;
    }

    /** Expands a block into the message schedule, in place. */
    static method ExpandSchedule(block: seq<byte>) returns (w: array<word>)
      requires |block| == 64
      ensures fresh(w) && w[..] == ScheduleOf(block)
    {
      hide Add, WordOf, SmallSigma0, SmallSigma1;
      w := new word[64];
      for i := 0 to 16
        invariant forall t :: 0 <= t < i ==> w[t] == Schedule(block, t)
      {
        w[i] := WordOf(block[i * 4], block[i * 4 + 1], block[i * 4 + 2], block[i * 4 + 3]);
      }
      for i := 16 to 64
        invariant forall t :: 0 <= t < i ==> w[t] == Schedule(block, t)
      {
        var s0 := SmallSigma0(w[i - 15]);
        var s1 := SmallSigma1(w[i - 2]);
        w[i] := Add(Add(Add(w[i - 16], s0), w[i - 7]), s1);
      }
    }

    /** The sixty-four rounds, rotating eight local variables. */
    static method RunRounds(start: Hash, w: array<word>) returns (v: Hash)
      requires w.Length == 64
      ensures v == Rounds(start, w[..])
    {
      hide Add, BigSigma0, BigSigma1, Ch, Maj, RoundConstant;
      var a, b, c, d, e, f, g, h := start.a, start.b, start.c, start.d, start.e, start.f, start.g, start.h;
      for i := 0 to 64
        invariant Hash(a, b, c, d, e, f, g, h) == Rounds(start, w[..i])
      {
        var S1 := BigSigma1(e);
        var ch := Ch(e, f, g);
        var temp1 := Add(Add(Add(Add(h, S1), ch), RoundConstant(i)), w[i]);
        var S0 := BigSigma0(a);
        var maj := Maj(a, b, c);
        var temp2 := Add(S0, maj);
        h := g; g := f; f := e; e := Add(d, temp1);
        d := c; c := b; b := a; a := Add(temp1, temp2);
        assert w[..i + 1][..i] == w[..i];
      }
      assert w[..64] == w[..];
      v := Hash(a, b, c, d, e, f, g, h);
    }

    method ProcessBlock(block: seq<byte>)
      requires Shape() && |block| == 64
      modifies state
      ensures StateValue() == Compress(old(StateValue()), block)
    {
      hide Add, Rounds;
      var w := ExpandSchedule(block);
      var start := Hash(state[0], state[1], state[2], state[3], state[4], state[5], state[6], state[7]);
      var v := RunRounds(start, w);
      state[0], state[1] := Add(state[0], v.a), Add(state[1], v.b);
      state[2], state[3] := Add(state[2], v.c), Add(state[3], v.d);
      state[4], state[5] := Add(state[4], v.e), Add(state[5], v.f);
      state[6], state[7] := Add(state[6], v.g), Add(state[7], v.h);
    }

    /** Compresses the full buffer. */
    method FlushBuffer(ghost m: seq<byte>, ghost n: nat)
      requires Shape() && bufferLen == 64
      requires n + 64 <= |m| && n % 64 == 0 && buffer[..] == m[n..n + 64]
      requires StateValue() == HashBlocks(m[..n])
      modifies this`bufferLen, state
      ensures Absorbed(m, n + 64) && bufferLen == 0
    {
      hide HashBlocks, Compress;
      AppendPrefixBlock(m, n);
      ProcessBlock(buffer[..]);
      assert StateValue() == HashBlocks(m[..n + 64]);
      assert buffer[..0] == m[n + 64..n + 64];
      bufferLen := 0;
    }

    /** Tops up a non-empty buffer, compressing it if that completes a block. */
    method FillBuffer(data: seq<byte>) returns (take: nat)
      requires Valid() && bufferLen > 0
      modifies this`bufferLen, state, buffer
      ensures take <= |data| && Absorbed(message + data, |message| + take)
      ensures bufferLen > 0 ==> take == |data|
    {
      hide HashBlocks, StateValue;
      ghost var total := message + data;
      ghost var done := |message| - bufferLen;
      var need := 64 - bufferLen;
      take := if |data| < need then |data| else need;
      forall i | 0 <= i < take { buffer[bufferLen + i] := data[i]; }
      assert message[..done] == total[..done];
      assert buffer[..bufferLen] == old(buffer[..bufferLen]) == total[done..|message|];
      bufferLen := bufferLen + take;
      assert buffer[..bufferLen] == total[done..done + bufferLen];
      if bufferLen == 64 {
        assert buffer[..] == buffer[..64];
        FlushBuffer(total, done);
      }
    }

    /** Compresses the next block of m straight from the input. */
    method CompressNext(ghost m: seq<byte>, ghost n: nat, block: seq<byte>)
      requires n + 64 <= |m| && block == m[n..n + 64]
      requires Absorbed(m, n) && bufferLen == 0
      modifies state
      ensures Absorbed(m, n + 64)
    {
      hide HashBlocks, Compress;
      AppendPrefixBlock(m, n);
      assert m[..n - bufferLen] == m[..n];
      ProcessBlock(block);
      assert StateValue() == HashBlocks(m[..n + 64]);
      assert buffer[..0] == m[n + 64..n + 64];
    }

    /** Keeps the last bytes of m, fewer than a block, for later. */
    method StashTail(ghost m: seq<byte>, tail: seq<byte>)
      requires |tail| <= |m| && |tail| < 64 && m[|m| - |tail|..] == tail
      requires Absorbed(m, |m| - |tail|) && bufferLen == 0
      modifies this`bufferLen, buffer
      ensures Absorbed(m, |m|)
    {
      hide StateValue, HashBlocks;
      forall i | 0 <= i < |tail| { buffer[i] := tail[i]; }
      assert StateValue() == HashBlocks(m[..|m| - |tail|]);
      bufferLen := |tail|;
      assert buffer[..bufferLen] == m[|m| - bufferLen..|m|];
    }

    /** Absorbs the bytes of data, compressing every block they complete. */
    method Update(data: seq<byte>)
      requires Valid()
      modifies this, state, buffer
      ensures Valid() && message == old(message) + data && bufferLen == |message| % 64
      ensures old(Counted()) ==> Counted()
      ensures bitLen == (old(bitLen) + 8 * |data|) % TWO_TO_THE_64
    {
      hide HashBlocks, StateValue;
      ghost var total := message + data;
      ghost var base := |message|;
      var len := |data|;
      bitLen := (bitLen + len * 8) % TWO_TO_THE_64;
      AddModulo(8 * base, 8 * len);
      var offset := 0;
      assert message[..base - bufferLen] == total[..base - bufferLen];
      if bufferLen > 0 {
        offset := FillBuffer(data);
      }
      AbsorbRest(data, offset, total, base);
      message := total;
      BufferedBytes();
    }

    /** The rest of Update once the buffer is empty or the input used up. */
    method AbsorbRest(data: seq<byte>, start: nat, ghost total: seq<byte>, ghost base: nat)
      requires base <= |total| && total[base..] == data && start <= |data|
      requires Absorbed(total, base + start) && bufferLen < 64
      requires bufferLen > 0 ==> start == |data|
      modifies this`bufferLen, state, buffer
      ensures Absorbed(total, |total|)
    {
      hide Absorbed;
      var len, offset := |data|, start;
      while offset + 64 <= len
        invariant offset <= len && Absorbed(total, base + offset)
        invariant bufferLen > 0 ==> offset == len
      {
        CompressNext(total, base + offset, data[offset..offset + 64]);
        offset := offset + 64;
      }
      if offset < len {
        StashTail(total, data[offset..]);
      }
    }

    lemma BufferedBytes()
      requires Valid()
      ensures bufferLen == |message| % 64
    {
      hide HashBlocks, StateValue;
    }

    /** The eight bytes of the 64-bit length field, shifted out from the top. */
    static method LengthBytes(n: nat) returns (s: seq<byte>)
      requires n < TWO_TO_THE_64
      ensures s == BigEndian(n, 8)
    {
      s := [];
      for i := 0 to 8
        invariant s == BigEndian(n, 8)[..i]
      {
        BigEndianDigit(n, 8, i);
        s := s + [ShiftBytes(n, 7 - i) % 256];
      }
    }

    /** Two lower-case digits for each byte of each word, written at their final place. */
    static method RenderHex(state: array<word>) returns (hex: string)
      requires state.Length == 8
      ensures hex == HexDigest(Hash(state[0], state[1], state[2], state[3], state[4], state[5], state[6], state[7]))
      ensures ReadDigest(hex) ==
              Some(Hash(state[0], state[1], state[2], state[3], state[4], state[5], state[6], state[7]))
      ensures LowerCaseText(hex)
    {
      hide HexDigit, ReadDigest, LowerCaseText;
      var out := new char[64];
      for i := 0 to 8
        invariant forall k :: 0 <= k < 8 * i ==> out[k] == HexDigit(state[k / 8], k % 8)
      {
        for j := 0 to 4
          invariant forall k :: 0 <= k < 8 * i + 2 * j ==> out[k] == HexDigit(state[k / 8], k % 8)
        {
          var hi, lo := ByteDigits(state[i], j);
          out[i * 8 + j * 2] := hi;
          out[i * 8 + j * 2 + 1] := lo;
          assert (i * 8 + j * 2) / 8 == i && (i * 8 + j * 2 + 1) / 8 == i;
        }
      }
      hex := out[..];
      HexDigestAt(state[..], hex);
      DigestRead(Hash(state[0], state[1], state[2], state[3], state[4], state[5], state[6], state[7]));
    }

    /** The two digits of byte j of a word, counted from the most significant byte. */
    static method ByteDigits(w: word, j: nat) returns (hi: char, lo: char)
      requires j < 4
      ensures hi == HexDigit(w, 2 * j) && lo == HexDigit(w, 2 * j + 1)
    {
      hide ByteOf, HighDigit, LowDigit;
      var b := ByteOf(w, j);
      hi, lo := HighDigit(b), LowDigit(b);
    }

    /** Absorbs 0x80 and then zero bytes up to offset 56, undoing each time what Update adds to the counter. */
    method AbsorbPadding()
      requires Valid() && Counted()
      modifies this, state, buffer
      ensures Valid() && bufferLen == 56 && bitLen == old(bitLen)
      ensures message == old(message) + [0x80] + Zeros(ZeroCount(|old(message)|))
    {
      hide Absorbed, ZeroCount;
      ghost var m := message;
      var originalBitLen := bitLen;
      Update([0x80]);
      bitLen := originalBitLen;
      ghost var k: nat := 0;
      while bufferLen != 56
        invariant Valid() && bufferLen == |message| % 64 && bitLen == originalBitLen
        invariant k <= ZeroCount(|m|)
        invariant message == m + [0x80] + Zeros(k)
        decreases ZeroCount(|m|) - k
      {
        assert |message| == |m| + 1 + k;
        Update([0x00]);
        assert Zeros(k) + [0x00] == Zeros(k + 1);
        bitLen := originalBitLen;
        k := k + 1;
      }
      assert Aligned(|m|, k);
    }

    /** Pads, writes the length field straight into the buffer and renders the digest. */
    method FinalizeHex() returns (hex: string)
      requires Valid() && Counted()
      modifies this, state, buffer
      ensures hex == Sha256Hex(old(message))
      ensures ReadDigest(hex) == Some(HashBlocks(Pad(old(message)))) && LowerCaseText(hex)
    {
      hide ReadDigest, LowerCaseText, HashBlocks, Compress, BigEndian, HexDigest, ZeroCount;
      ghost var m := message;
      var originalBitLen := bitLen;
      AbsorbPadding();
      var lenBytes := LengthBytes(originalBitLen);
      forall i | 0 <= i < 8 { buffer[56 + i] := lenBytes[i]; }
      ghost var head := message[..|message| - 56];
      assert head + buffer[..] == Pad(m);
      AppendBlock(head, buffer[..]);
      ProcessBlock(buffer[..]);
      bufferLen := 0;
      hex := RenderHex(state);
    }
  }

  lemma {:induction false} BigEndianDigit(n: nat, k: nat, i: nat)
    requires i < k
    ensures BigEndian(n, k)[i] == ShiftBytes(n, k - 1 - i) % 256
  {
    if i < k - 1 {
      BigEndianDigit(n / 256, k - 1, i);
    }
  }

  lemma AddModulo(a: nat, b: nat)
    ensures (a % TWO_TO_THE_64 + b) % TWO_TO_THE_64 == (a + b) % TWO_TO_THE_64
  {
  }

  /** A string that holds the digits of the eight words in order is the digest. */
  lemma HexDigestAt(words: seq<word>, hex: string)
    requires |words| == 8 && |hex| == 64
    requires forall k :: 0 <= k < 64 ==> hex[k] == HexDigit(words[k / 8], k % 8)
    ensures hex == HexDigest(Hash(words[0], words[1], words[2], words[3], words[4], words[5], words[6], words[7]))
  {
    hide HexDigit;
    forall i | 0 <= i < 8 ensures hex[8 * i..8 * i + 8] == HexWord(words[i]) {
      forall d | 0 <= d < 8 ensures hex[8 * i..8 * i + 8][d] == HexDigit(words[i], d) {
        assert (8 * i + d) / 8 == i && (8 * i + d) % 8 == d;
      }
    }
    assert hex == hex[0..8] + hex[8..16] + hex[16..24] + hex[24..32]
                  + hex[32..40] + hex[40..48] + hex[48..56] + hex[56..64];
  }

  lemma AppendBlock(m: seq<byte>, block: seq<byte>)
    requires |m| % 64 == 0 && |block| == 64
    ensures HashBlocks(m + block) == Compress(HashBlocks(m), block)
  {
    hide Compress, INITIAL;
    assert (m + block)[..|m|] == m;
    assert (m + block)[|m|..] == block;
  }

  lemma AppendPrefixBlock(m: seq<byte>, n: nat)
    requires n + 64 <= |m| && n % 64 == 0
    ensures HashBlocks(m[..n + 64]) == Compress(HashBlocks(m[..n]), m[n..n + 64])
  {
    hide HashBlocks, Compress;
    assert m[..n + 64] == m[..n] + m[n..n + 64];
    AppendBlock(m[..n], m[n..n + 64]);
  }
}
