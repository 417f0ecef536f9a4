/** The reader accepts exactly the files that begin with an encoded header and key-value list. */
module GgufTheorems {
  import opened Wrappers
  import opened GgufFormat
  import opened GgufParse
  import opened GgufMetadata
  import opened GgufReader

  lemma HeaderRead(file: string, version: nat, tensorCount: nat, kvCount: nat)
    requires version < Power256(4) && tensorCount < Power256(8) && kvCount < Power256(8)
    requires At(file, 0, EncodeHeader(version, tensorCount, kvCount))
    ensures |file| >= 24 && file[..4] == MAGIC
    ensures HeaderVersion(file) == version && HeaderTensors(file) == tensorCount && HeaderKVs(file) == kvCount
  {
    hide At, LE, FromLE;
    var counts := LE(tensorCount, 8) + LE(kvCount, 8);
    AtConcat(file, 0, MAGIC, LE(version, 4) + counts);
    AtConcat(file, 4, LE(version, 4), counts);
    AtConcat(file, 8, LE(tensorCount, 8), LE(kvCount, 8));
    AtMeans(file, 0, MAGIC);
    AtMeans(file, 16, LE(kvCount, 8));
    NumberComplete(file, 4, version, 4);
    NumberComplete(file, 8, tensorCount, 8);
    NumberComplete(file, 16, kvCount, 8);
  }

  lemma HeaderWritten(file: string)
    requires Octets(file) && |file| >= 24 && file[..4] == MAGIC
    ensures At(file, 0, EncodeHeader(HeaderVersion(file), HeaderTensors(file), HeaderKVs(file)))
  {
    hide LE, FromLE;
    NumberSound(file, 4, 4);
    NumberSound(file, 8, 8);
    NumberSound(file, 16, 8);
    hide At;
    var v, t, n := LE(HeaderVersion(file), 4), LE(HeaderTensors(file), 8), LE(HeaderKVs(file), 8);
    AtConcat(file, 8, t, n);
    AtConcat(file, 4, v, t + n);
    AtSlice(file, 0, 4);
    AtConcat(file, 0, MAGIC, v + (t + n));
  }

  /** Acceptance, one way: any file that begins with a well-formed encoding is accepted with its metadata. */
  lemma EncodedFilesAreAccepted(file: string, version: nat, tensorCount: nat, kvs: seq<KV>)
    requires WellFormedFile(version, tensorCount, kvs) && EncodeFile(version, tensorCount, kvs) <= file
    ensures Verdict(file) == (Valid, Report(version, tensorCount, kvs))
    ensures HeaderVersion(file) == version && HeaderTensors(file) == tensorCount
    ensures ScanKVs(file, 24, HeaderKVs(file)) == Scan(kvs, true)
  {
    hide EncodeHeader, KV.WellFormed, Report;
    Eight();
    assert At(file, 0, EncodeFile(version, tensorCount, kvs));
    AtConcat(file, 0, EncodeHeader(version, tensorCount, |kvs|), EncodeKVs(kvs));
    HeaderRead(file, version, tensorCount, |kvs|);
    KVsComplete(file, 24, kvs);
  }

  /** Acceptance, the other way: an accepted file begins with a well-formed encoding, and the reported metadata
      is that list's. */
  lemma AcceptedFilesAreEncoded(file: string) returns (version: nat, tensorCount: nat, kvs: seq<KV>)
    requires Octets(file) && Verdict(file).0 == Valid
    ensures WellFormedFile(version, tensorCount, kvs) && EncodeFile(version, tensorCount, kvs) <= file
    ensures Verdict(file).1 == Report(version, tensorCount, kvs)
  {
    hide EncodeHeader, KV.WellFormed, Report, EncodeKVs, ScanKVs, FromLE, LE;
    version, tensorCount := HeaderVersion(file), HeaderTensors(file);
    var n := HeaderKVs(file);
    kvs := ScanKVs(file, 24, n).kvs;
    HeaderWritten(file);
    KVsSound(file, 24, n);
    AtConcat(file, 0, EncodeHeader(version, tensorCount, n), EncodeKVs(kvs));
    AtMeans(file, 0, EncodeFile(version, tensorCount, kvs));
  }

  ghost predicate BeginsWithEncoding(file: string) {
    exists version: nat, tensorCount: nat, kvs: seq<KV> ::
      WellFormedFile(version, tensorCount, kvs) && EncodeFile(version, tensorCount, kvs) <= file
  }

  lemma AcceptedExactly(file: string)
    requires Octets(file)
    ensures Verdict(file).0 == Valid <==> BeginsWithEncoding(file)
  {
    if Verdict(file).0 == Valid {
      var v, t, kvs := AcceptedFilesAreEncoded(file);
    }
    if BeginsWithEncoding(file) {
      var version: nat, tensorCount: nat, kvs: seq<KV> :|
        WellFormedFile(version, tensorCount, kvs) && EncodeFile(version, tensorCount, kvs) <= file;
      EncodedFilesAreAccepted(file, version, tensorCount, kvs);
    }
  }

  /** No file begins with two different encodings. */
  lemma EncodingIsUnambiguous(file: string, v1: nat, t1: nat, kvs1: seq<KV>, v2: nat, t2: nat, kvs2: seq<KV>)
    requires WellFormedFile(v1, t1, kvs1) && EncodeFile(v1, t1, kvs1) <= file
    requires WellFormedFile(v2, t2, kvs2) && EncodeFile(v2, t2, kvs2) <= file
    ensures v1 == v2 && t1 == t2 && kvs1 == kvs2
  {
    hide EncodeFile, WellFormedFile, Report, Verdict, ScanKVs;
    EncodedFilesAreAccepted(file, v1, t1, kvs1);
    EncodedFilesAreAccepted(file, v2, t2, kvs2);
  }

  /** Whatever follows the metadata section is irrelevant. */
  lemma TrailingBytesAreIgnored(file: string, rest: string)
    requires Octets(file) && Verdict(file).0 == Valid
    ensures Verdict(file + rest) == Verdict(file)
  {
    var v, t, kvs := AcceptedFilesAreEncoded(file);
    EncodedFilesAreAccepted(file, v, t, kvs);
    EncodedFilesAreAccepted(file + rest, v, t, kvs);
  }

  /** A file cut anywhere inside its header or metadata section is rejected. */
  lemma TruncatedFilesAreRejected(version: nat, tensorCount: nat, kvs: seq<KV>, cut: string)
    requires WellFormedFile(version, tensorCount, kvs) && Octets(cut)
    requires cut < EncodeFile(version, tensorCount, kvs)
    ensures Verdict(cut).0 != Valid
  {
    if Verdict(cut).0 == Valid {
      var full := EncodeFile(version, tensorCount, kvs);
      var v, t, list := AcceptedFilesAreEncoded(cut);
      EncodingIsUnambiguous(full, version, tensorCount, kvs, v, t, list);
    }
  }

  // ---------- Order of entries ----------

  ghost predicate DistinctKeys(kvs: seq<KV>) {
    forall i, j :: 0 <= i < j < |kvs| ==> kvs[i].key != kvs[j].key
  }

  lemma {:induction false} LastMatchOfDistinct(kvs: seq<KV>, key: string, types: set<nat>)
    requires DistinctKeys(kvs)
    ensures match LastMatch(kvs, key, types)
            case Some(v) => KV(key, v) in kvs && v.Type() in types
            case None => forall v: Value :: v.Type() in types ==> KV(key, v) !in kvs
  {
    if kvs != [] {
      LastMatchOfDistinct(kvs[..|kvs| - 1], key, types);
      assert kvs == kvs[..|kvs| - 1] + [kvs[|kvs| - 1]];
    }
  }

  lemma SameMembers(kvs: seq<KV>, other: seq<KV>)
    requires multiset(kvs) == multiset(other)
    ensures forall kv :: kv in kvs <==> kv in other
  {
    assert forall kv :: kv in kvs <==> kv in multiset(kvs);
  }

  lemma UniqueValue(kvs: seq<KV>, key: string, v: Value, u: Value)
    requires DistinctKeys(kvs) && KV(key, v) in kvs && KV(key, u) in kvs
    ensures v == u
  {
  }

  lemma LastMatchIgnoresOrder(kvs: seq<KV>, other: seq<KV>, key: string, types: set<nat>)
    requires DistinctKeys(kvs) && DistinctKeys(other) && multiset(kvs) == multiset(other)
    ensures LastMatch(kvs, key, types) == LastMatch(other, key, types)
  {
    SameMembers(kvs, other);
    LastMatchOfDistinct(kvs, key, types);
    LastMatchOfDistinct(other, key, types);
    var a, b := LastMatch(kvs, key, types), LastMatch(other, key, types);
    if a.Some? && b.Some? {
      UniqueValue(kvs, key, a.value, b.value);
    }
  }

  /** The report does not depend on the order of entries with distinct keys: in particular the context length
      is found whether its key comes before or after the architecture's. */
  lemma ReportIgnoresOrder(version: nat, tensorCount: nat, kvs: seq<KV>, other: seq<KV>)
    requires DistinctKeys(kvs) && DistinctKeys(other) && multiset(kvs) == multiset(other)
    ensures Report(version, tensorCount, kvs) == Report(version, tensorCount, other)
  {
    hide LastMatch, FactsOf;
    LastMatchIgnoresOrder(kvs, other, ARCHITECTURE_KEY, {STRING_TYPE});
    LastMatchIgnoresOrder(kvs, other, NAME_KEY, {STRING_TYPE});
    LastMatchIgnoresOrder(kvs, other, QUANTIZATION_KEY, {UINT32, INT32});
    LastMatchIgnoresOrder(kvs, other, FILE_TYPE_KEY, {UINT32, INT32});
    var architecture := match LastText(kvs, ARCHITECTURE_KEY) case Some(a) => a case None => "";
    LastMatchIgnoresOrder(kvs, other, architecture + CONTEXT_SUFFIX, CONTEXT_TYPES);
    FactsAreLastMatches(kvs, architecture);
    FactsAreLastMatches(other, architecture);
    assert |kvs| == |multiset(kvs)| == |multiset(other)| == |other|;
  }
}
