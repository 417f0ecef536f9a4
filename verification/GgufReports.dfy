/** What the reader answers, in the terms of the format: the numbers of the header byte by byte, the metadata as the
    values of the last entries with their keys, and the cause of each refusal. */
module GgufReports {
  import opened Wrappers
  import opened GgufFormat
  import opened GgufParse
  import opened GgufMetadata
  import opened GgufReader
  import opened GgufTheorems

  // ---------- Little-endian numbers, by position ----------

  function U32At(s: string, pos: nat): nat
    requires pos + 4 <= |s|
  {
    s[pos] as int + 0x100 * s[pos + 1] as int + 0x1_0000 * s[pos + 2] as int + 0x100_0000 * s[pos + 3] as int
  }

  function U64At(s: string, pos: nat): nat
    requires pos + 8 <= |s|
  {
    U32At(s, pos) + 0x1_0000_0000 * U32At(s, pos + 4)
  }

  lemma FourBytes(s: string)
    requires |s| == 4
    ensures FromLE(s) == U32At(s, 0)
  {
    assert FromLE(s[1..]) == s[1] as int + 256 * FromLE(s[1..][1..]);
    assert FromLE(s[1..][1..]) == s[2] as int + 256 * FromLE(s[1..][1..][1..]);
  }

  lemma EightBytes(s: string)
    requires |s| == 8
    ensures FromLE(s) == U64At(s, 0)
  {
    var t := s[1..];
    var u := t[1..];
    var v := u[1..];
    assert v[1..] == s[4..];
    FourBytes(s[4..]);
    assert FromLE(s) == s[0] as int + 256 * FromLE(t) && FromLE(t) == s[1] as int + 256 * FromLE(u);
    assert FromLE(u) == s[2] as int + 256 * FromLE(v) && FromLE(v) == s[3] as int + 256 * FromLE(s[4..]);
  }

  /** The three numbers of the header stand at offsets 4, 8 and 16. */
  lemma HeaderNumbers(file: string)
    requires |file| >= 24
    ensures HeaderVersion(file) == U32At(file, 4)
    ensures HeaderTensors(file) == U64At(file, 8) && HeaderKVs(file) == U64At(file, 16)
  {
    FourBytes(file[4..8]);
    EightBytes(file[8..16]);
    EightBytes(file[16..24]);
    hide FromLE;
  }

  lemma EncodedFour(s: string, pos: nat, n: nat)
    requires n < 0x1_0000_0000 && At(s, pos, LE(n, 4))
    ensures pos + 4 <= |s| && U32At(s, pos) == n
  {
    hide FromLE, LE;
    Eight();
    FromLEOfLE(n, 4);
    FourBytes(s[pos..pos + 4]);
  }

  lemma EncodedEight(s: string, pos: nat, n: nat)
    requires n < 0x1_0000_0000_0000_0000 && At(s, pos, LE(n, 8))
    ensures pos + 8 <= |s| && U64At(s, pos) == n
  {
    hide FromLE, LE;
    Eight();
    FromLEOfLE(n, 8);
    EightBytes(s[pos..pos + 8]);
  }

  // ---------- Where everything stands ----------

  lemma HeaderLayout(version: nat, tensorCount: nat, kvCount: nat)
    requires version < 0x1_0000_0000
    requires tensorCount < 0x1_0000_0000_0000_0000 && kvCount < 0x1_0000_0000_0000_0000
    ensures var h := EncodeHeader(version, tensorCount, kvCount);
            && |h| == 24 && h[..4] == "GGUF" && U32At(h, 4) == version
            && U64At(h, 8) == tensorCount && U64At(h, 16) == kvCount
  {
    Eight();
    HeaderRead(EncodeHeader(version, tensorCount, kvCount), version, tensorCount, kvCount);
    HeaderNumbers(EncodeHeader(version, tensorCount, kvCount));
    hide FromLE, LE, U32At, U64At;
  }

  /** An entry is its key's length, its key, the code of its type and its payload. */
  lemma EntryLayout(kv: KV)
    requires kv.WellFormed()
    ensures var e, k := EncodeKV(kv), |kv.key|;
            && |e| == 12 + k + |EncodePayload(kv.value)|
            && U64At(e, 0) == k && e[8..8 + k] == kv.key
            && U32At(e, 8 + k) == kv.value.Type() && e[12 + k..] == EncodePayload(kv.value)
  {
    hide LE, EncodePayload, Value.WellFormed;
    TypeIsKnown(kv.value);
    var e, k, t := EncodeKV(kv), |kv.key|, LE(kv.value.Type(), 4);
    assert e == LE(k, 8) + kv.key + t + EncodePayload(kv.value);
    assert e[..8] == LE(k, 8) && e[8 + k..12 + k] == t;
    EncodedEight(e, 0, k);
    EncodedFour(e, 8 + k, kv.value.Type());
  }

  /** A payload is the bytes of a scalar, a counted string, or an element type, a count and the elements. */
  lemma PayloadLayout(v: Value)
    requires v.WellFormed()
    ensures var p := EncodePayload(v);
            match v
            case Scalar(_, raw) => p == raw
            case Text(text) => |p| == 8 + |text| && U64At(p, 0) == |text| && p[8..] == text
            case ScalarArray(elem, count, raw) =>
              |p| == 12 + |raw| && U32At(p, 0) == elem && U64At(p, 4) == count && p[12..] == raw
            case TextArray(items) =>
              |p| >= 12 && U32At(p, 0) == 8 && U64At(p, 4) == |items| && p[12..] == EncodeTexts(items)
  {
    hide LE, EncodeTexts, U32At, U64At;
    var p := EncodePayload(v);
    match v {
      case Scalar(_, _) =>
      case Text(text) =>
        EncodedEight(p, 0, |text|);
      case ScalarArray(elem, count, raw) =>
        assert p == LE(elem, 4) + LE(count, 8) + raw;
        assert p[..4] == LE(elem, 4) && p[4..12] == LE(count, 8);
        EncodedFour(p, 0, elem);
        EncodedEight(p, 4, count);
      case TextArray(items) =>
        assert p == LE(8, 4) + LE(|items|, 8) + EncodeTexts(items);
        assert p[..4] == LE(8, 4) && p[4..12] == LE(|items|, 8);
        EncodedFour(p, 0, 8);
        EncodedEight(p, 4, |items|);
    }
  }

  /** Entries stand one after the other. */
  lemma {:induction false} EntriesInOrder(kvs: seq<KV>, kv: KV, others: seq<KV>)
    ensures EncodeKVs(kvs + [kv] + others) == EncodeKVs(kvs) + EncodeKV(kv) + EncodeKVs(others)
  {
    hide EncodeKV;
    if kvs == [] {
      assert [] + [kv] + others == [kv] + others && ([kv] + others)[1..] == others;
      assert EncodeKVs([]) == [];
    } else {
      EntriesInOrder(kvs[1..], kv, others);
      assert (kvs + [kv] + others)[1..] == kvs[1..] + [kv] + others;
      var first, rest := EncodeKV(kvs[0]), EncodeKVs(kvs[1..]);
      assert first + (rest + EncodeKV(kv) + EncodeKVs(others)) == first + rest + EncodeKV(kv) + EncodeKVs(others);
    }
  }

  /** The number of a scalar entry. */
  lemma ScalarNumber(v: Value)
    requires v.WellFormed() && v.Type() in {4, 5, 10, 11}
    ensures if v.Type() in {4, 5} then |v.raw| == 4 && NumberOf(v) == U32At(v.raw, 0)
            else |v.raw| == 8 && NumberOf(v) == U64At(v.raw, 0)
  {
    hide FromLE;
    if v.Type() in {4, 5} {
      FourBytes(v.raw);
    } else {
      EightBytes(v.raw);
    }
  }

  /** How wide a scalar is, and how long a key, a string and an array may be. */
  lemma Limits(key: string, value: Value)
    requires Octets(key)
    ensures value.WellFormed() ==> (KV(key, value).WellFormed() <==> |key| <= 65535)
    ensures Text(key).WellFormed() <==> |key| <= 16777216
    ensures value.Scalar? && value.WellFormed() ==>
              (value.ty, |value.raw|) in {(0, 1), (1, 1), (7, 1), (2, 2), (3, 2), (4, 4), (5, 4), (6, 4),
                                          (10, 8), (11, 8), (12, 8)}
    ensures value.TextArray? && value.WellFormed() ==> |value.items| <= 10000000
    ensures value.ScalarArray? && value.WellFormed() ==> value.count <= 10000000
  {
  }

  // ---------- The metadata of an accepted file ----------

  const INTEGERS: set<nat> := {4, 5}
  const WIDE_INTEGERS: set<nat> := {4, 5, 10, 11}

  /** Each field is the value of the last entry with its key and an allowed type; the context length is looked
      up under the architecture. */
  ghost predicate Describes(m: ModelMetadata, kvs: seq<KV>) {
    && m.architecture == LastText(kvs, "general.architecture")
    && m.name == LastText(kvs, "general.name")
    && m.quantizationVersion == LastNumber(kvs, "general.quantization_version", INTEGERS)
    && m.fileType == LastNumber(kvs, "general.file_type", INTEGERS)
    && m.contextLength == if m.architecture.Some? && m.architecture.value != "" then
                            LastNumber(kvs, m.architecture.value + ".context_length", WIDE_INTEGERS)
                          else None
  }

  lemma ReportDescribes(version: nat, tensorCount: nat, kvs: seq<KV>)
    ensures Describes(Report(version, tensorCount, kvs), kvs)
  {
    var architecture := FactsOf(kvs).architecture.UnwrapOr("");
    FactsAreLastMatches(kvs, architecture);
    hide FactsOf, LastMatch, LastText, LastNumber;
    assert {UINT32, INT32} == INTEGERS && CONTEXT_TYPES == WIDE_INTEGERS;
  }

  lemma MetadataOfEncoded(file: string, version: nat, tensorCount: nat, kvs: seq<KV>)
    requires WellFormedFile(version, tensorCount, kvs) && EncodeFile(version, tensorCount, kvs) <= file
    ensures Verdict(file).0 == Valid
    ensures var m := Verdict(file).1;
            && m.version == version && m.tensorCount == tensorCount && m.kvCount == |kvs|
            && Describes(m, kvs)
  {
    EncodedFilesAreAccepted(file, version, tensorCount, kvs);
    ReportDescribes(version, tensorCount, kvs);
    hide Verdict, Describes, FactsOf;
  }

  // ---------- Refusals ----------

  /** The cause of each answer, in the bytes of the file. */
  lemma VerdictCauses(file: string)
    requires Octets(file)
    ensures var status := Verdict(file).0;
            if |file| < 24 then status == if |file| == 0 then FileEmpty else TruncatedHeader
            else if file[..4] != "GGUF" then status == InvalidMagic
            else if U32At(file, 4) != 2 && U32At(file, 4) != 3 then status == UnsupportedVersion
            else status == if BeginsWithEncoding(file) then Valid else MalformedMetadata
  {
    if |file| >= 24 {
      HeaderNumbers(file);
    }
    AcceptedExactly(file);
    hide U32At, U64At, BeginsWithEncoding, ScanKVs, FactsOf;
  }

  lemma {:induction false} ScanStopsAtMalformed(file: string, pos: nat, n: nat)
    ensures var r := ScanKVs(file, pos, n);
            !r.complete ==> |r.kvs| < n && ParseKV(file, pos + |EncodeKVs(r.kvs)|).None?
    decreases n
  {
    hide ParseKV, EncodeKV;
    if n > 0 && ParseKV(file, pos).Some? {
      var kv := ParseKV(file, pos).value;
      var next := pos + |EncodeKV(kv)|;
      ScanStopsAtMalformed(file, next, n - 1);
      var rest := ScanKVs(file, next, n - 1).kvs;
      assert ([kv] + rest)[1..] == rest;
    }
  }

  /** A well-formed entry stands at pos. */
  ghost predicate EntryAt(file: string, pos: nat) {
    exists kv: KV :: kv.WellFormed() && At(file, pos, EncodeKV(kv))
  }

  lemma NoEntryAt(file: string, pos: nat)
    requires ParseKV(file, pos).None?
    ensures !EntryAt(file, pos)
  {
    if EntryAt(file, pos) {
      var kv: KV :| kv.WellFormed() && At(file, pos, EncodeKV(kv));
      KVComplete(file, pos, kv);
    }
  }

  lemma PartialReportIs(version: nat, tensorCount: nat, kvCount: nat, kvs: seq<KV>)
    ensures PartialReport(version, tensorCount, kvCount, kvs) ==
            ModelMetadata(version, tensorCount, kvCount, LastText(kvs, "general.architecture"),
                          LastText(kvs, "general.name"), None, None, None)
  {
    FactsAreLastMatches(kvs, "");
    hide FactsOf, LastText, LastNumber;
  }

  lemma MalformedVerdict(file: string)
    requires Verdict(file).0 == MalformedMetadata
    ensures |file| >= 24
    ensures var (v, t, n) := (HeaderVersion(file), HeaderTensors(file), HeaderKVs(file));
            var scan := ScanKVs(file, 24, n);
            if t > 1000000 || n > 100000 then
              Verdict(file).1 == ModelMetadata(0, 0, 0, None, None, None, None, None)
            else !scan.complete && Verdict(file).1 == PartialReport(v, t, n, scan.kvs)
  {
    hide ScanKVs, FromLE, PartialReport, Report;
  }

  /** A malformed file with acceptable counts leaves the numbers of its header, and the texts of the entries
      before the first malformed one; no number of an entry. With too large a count it leaves nothing. */
  lemma MetadataOfMalformed(file: string) returns (kvs: seq<KV>)
    requires Octets(file) && Verdict(file).0 == MalformedMetadata
    ensures |file| >= 24
    ensures var m := Verdict(file).1;
            if U64At(file, 8) > 1000000 || U64At(file, 16) > 100000 then
              m == ModelMetadata(0, 0, 0, None, None, None, None, None)
            else
              && |kvs| < U64At(file, 16) && (forall i :: 0 <= i < |kvs| ==> kvs[i].WellFormed())
              && At(file, 24, EncodeKVs(kvs)) && !EntryAt(file, 24 + |EncodeKVs(kvs)|)
              && m == ModelMetadata(U32At(file, 4), U64At(file, 8), U64At(file, 16),
                                    LastText(kvs, "general.architecture"), LastText(kvs, "general.name"),
                                    None, None, None)
  {
    hide *;
    MalformedVerdict(file);
    HeaderNumbers(file);
    var n := HeaderKVs(file);
    kvs := ScanKVs(file, 24, n).kvs;
    PartialReportIs(HeaderVersion(file), HeaderTensors(file), n, kvs);
    KVsSound(file, 24, n);
    ScanStopsAtMalformed(file, 24, n);
    if ParseKV(file, 24 + |EncodeKVs(kvs)|).None? {
      NoEntryAt(file, 24 + |EncodeKVs(kvs)|);
    }
  }
}
