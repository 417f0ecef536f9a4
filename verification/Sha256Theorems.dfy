/** What the padding and the digest guarantee, and the file hashing built on the hasher. */
module Sha256Theorems {
  import opened Sha256Spec
  import opened DigestText
  import opened Sha256
  import opened Wrappers

  lemma {:induction false} BigEndianRoundTrip(n: nat, k: nat)
    requires n < Power256(k)
    ensures FromBigEndian(BigEndian(n, k)) == n
  {
    if k > 0 {
      BigEndianRoundTrip(n / 256, k - 1);
      assert BigEndian(n, k)[..k - 1] == BigEndian(n / 256, k - 1);
    }
  }

  /** Below 2^61 bytes the last eight bytes of the padded message are its exact bit length, and the padding is
      the shortest that leaves room for the 0x80 byte and that field: one or two blocks. */
  lemma PaddingIsTheStandards(m: seq<byte>)
    requires 8 * |m| < TWO_TO_THE_64
    ensures FromBigEndian(Pad(m)[|Pad(m)| - 8..]) == 8 * |m|
    ensures Pad(m)[..|m| + 1] == m + [0x80]
    ensures forall i :: |m| < i < |Pad(m)| - 8 ==> Pad(m)[i] == 0
    ensures |m| + 9 <= |Pad(m)| < |m| + 9 + 64
  {
    hide BigEndian, ZeroCount, Aligned;
    assert Power256(8) == TWO_TO_THE_64;
    BigEndianRoundTrip(8 * |m|, 8);
    assert Pad(m)[|Pad(m)| - 8..] == LengthField(|m|);
    FewZeros(|m|);
  }

  lemma FewZeros(n: nat)
    ensures ZeroCount(n) < 64
    ensures n + 9 + ZeroCount(n) == n - n % 64 + (if n % 64 < 56 then 64 else 128)
  {
  }

  lemma PaddingIsInjective(m1: seq<byte>, m2: seq<byte>)
    requires 8 * |m1| < TWO_TO_THE_64 && 8 * |m2| < TWO_TO_THE_64
    requires Pad(m1) == Pad(m2)
    ensures m1 == m2
  {
    hide BigEndian, ZeroCount;
    PaddingIsTheStandards(m1);
    PaddingIsTheStandards(m2);
    assert m1 == Pad(m1)[..|m1|];
    assert m2 == Pad(m2)[..|m2|];
  }

  /** The printed digest loses nothing: equal identities mean equal hash values. */
  lemma HexDigestIsInjective(v: Hash, u: Hash)
    requires HexDigest(v) == HexDigest(u)
    ensures v == u
  {
    hide HexDigest;
    DigestRead(v);
    DigestRead(u);
  }

  function Concat(chunks: seq<seq<byte>>): seq<byte> {
    if chunks == [] then [] else Concat(chunks[..|chunks| - 1]) + chunks[|chunks| - 1]
  }

  /** However a message is cut into chunks (empty ones included), streaming them gives its digest. */
  method HashChunks(chunks: seq<seq<byte>>) returns (hex: string)
    ensures hex == Sha256Hex(Concat(chunks))
    ensures ReadDigest(hex) == Some(HashBlocks(Pad(Concat(chunks)))) && LowerCaseText(hex)
  {
    hide ReadDigest, LowerCaseText, HashBlocks, Pad;
    hide Hasher.Absorbed, Hasher.Valid, Hasher.Counted, Sha256Hex;
    var hasher := new Hasher();
    for i := 0 to |chunks|
      invariant hasher.Valid() && hasher.Counted() && fresh(hasher) && fresh(hasher.state) && fresh(hasher.buffer)
      invariant hasher.message == Concat(chunks[..i])
    {
      hasher.Update(chunks[i]);
      assert chunks[..i + 1][..i] == chunks[..i];
    }
    assert chunks[..|chunks|] == chunks;
    hex := hasher.FinalizeHex();
  }

  datatype ModelIdentity = ModelIdentity(computed: bool, sha256Hex: string)

  const CHUNK_BYTES: nat := 1024 * 1024

  /** Hashes a file in bounded chunks. The file is None when it cannot be opened; failingRead is the read call
      that reports a device error, if any (a file of n bytes takes n / CHUNK_BYTES + 1 calls). */
  method ComputeModelIdentity(file: Option<seq<byte>>, failingRead: Option<nat>) returns (identity: ModelIdentity)
    ensures identity.computed <==>
              file.Some? && (failingRead.None? || failingRead.value > |file.value| / CHUNK_BYTES)
    ensures identity.sha256Hex == if identity.computed then Sha256Hex(file.value) else ""
    ensures identity.computed ==> ReadDigest(identity.sha256Hex) == Some(HashBlocks(Pad(file.value)))
  {
    hide ReadDigest, LowerCaseText, HashBlocks, Pad;
    hide Hasher.Absorbed, Hasher.Valid, Hasher.Counted, Sha256Hex;
    identity := ModelIdentity(false, "");
    if file.None? {
      return;
    }
    var bytes := file.value;
    var hasher := new Hasher();
    var offset, call := 0, 0;
    while true
      invariant hasher.Valid() && hasher.Counted() && fresh(hasher) && fresh(hasher.state) && fresh(hasher.buffer)
      invariant offset == call * CHUNK_BYTES <= |bytes|
      invariant failingRead.None? || call <= failingRead.value
      invariant hasher.message == bytes[..offset]
      decreases |bytes| - offset
    {
      if failingRead == Some(call) {
        return;
      }
      var got := if |bytes| - offset < CHUNK_BYTES then |bytes| - offset else CHUNK_BYTES;
      if got > 0 {
        hasher.Update(bytes[offset..offset + got]);
        assert bytes[..offset] + bytes[offset..offset + got] == bytes[..offset + got];
      }
      offset := offset + got;
      if got < CHUNK_BYTES {
        break;
      }
      call := call + 1;
    }
    assert bytes[..offset] == bytes;
    var hex := hasher.FinalizeHex();
    identity := ModelIdentity(true, hex);
  }
}
