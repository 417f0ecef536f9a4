/** The GGUF header and metadata section as an encoder of a key-value list: the format the reader must accept. */
module GgufFormat {
  import opened Wrappers

  // ---------- Little-endian integers; a file is a string of characters below 256 ----------

  ghost predicate Octets(s: string) {
    forall i :: 0 <= i < |s| ==> s[i] as int < 256
  }

  /** The k-byte little-endian encoding of n. */
  function LE(n: nat, k: nat): (s: string)
    ensures |s| == k
  {
    if k == 0 then [] else [(n % 256) as char] + LE(n / 256, k - 1)
  }

  function FromLE(s: string): (n: nat) {
    if s == [] then 0 else s[0] as int + 256 * FromLE(s[1..])
  }

  lemma {:induction false} FromLEOfLE(n: nat, k: nat)
    requires n < Power256(k)
    ensures FromLE(LE(n, k)) == n && Octets(LE(n, k))
  {
    if k > 0 {
      FromLEOfLE(n / 256, k - 1);
      assert LE(n, k)[1..] == LE(n / 256, k - 1);
    }
  }

  lemma {:induction false} LEOfFromLE(s: string)
    requires Octets(s)
    ensures FromLE(s) < Power256(|s|) && LE(FromLE(s), |s|) == s
  {
    if s != [] {
      LEOfFromLE(s[1..]);
      var n := FromLE(s);
      assert n % 256 == s[0] as int && n / 256 == FromLE(s[1..]);
      assert [s[0]] + s[1..] == s;
    }
  }

  // ---------- Values ----------

  const STRING_TYPE: nat := 8
  const ARRAY_TYPE: nat := 9
  const LAST_TYPE: nat := 12

  const MAX_KEY_BYTES: nat := 65535
  const MAX_STRING_BYTES: nat := 16 * 1024 * 1024
  const MAX_ARRAY_COUNT: nat := 10_000_000
  const MAX_KV_COUNT: nat := 100_000
  const MAX_TENSOR_COUNT: nat := 1_000_000

  /** Byte width of a scalar type; 0 for strings, arrays and unknown codes. */
  function Width(ty: nat): nat {
    if ty in {0, 1, 7} then 1
    else if ty in {2, 3} then 2
    else if ty in {4, 5, 6} then 4
    else if ty in {10, 11, 12} then 8
    else 0
  }

  datatype Value =
    | Scalar(ty: nat, raw: string)
    | Text(text: string)
    | ScalarArray(elem: nat, count: nat, raw: string)
    | TextArray(items: seq<string>)
  {
    function Type(): nat {
      match this
      case Scalar(ty, _) => ty
      case Text(_) => STRING_TYPE
      case ScalarArray(_, _, _) => ARRAY_TYPE
      case TextArray(_) => ARRAY_TYPE
    }

    ghost predicate WellFormed() {
      match this
      case Scalar(ty, raw) => Width(ty) > 0 && |raw| == Width(ty) && Octets(raw)
      case Text(text) => |text| <= MAX_STRING_BYTES && Octets(text)
      case ScalarArray(elem, count, raw) =>
        Width(elem) > 0 && count <= MAX_ARRAY_COUNT && |raw| == count * Width(elem) && Octets(raw)
      case TextArray(items) =>
        && |items| <= MAX_ARRAY_COUNT
        && forall i :: 0 <= i < |items| ==> |items[i]| <= MAX_STRING_BYTES && Octets(items[i])
    }
  }

  datatype KV = KV(key: string, value: Value) {
    ghost predicate WellFormed() {
      |key| <= MAX_KEY_BYTES && Octets(key) && value.WellFormed()
    }
  }

  // ---------- Encoder ----------

  function EncodeText(s: string): (r: string)
    ensures |r| == 8 + |s|
  {
    LE(|s|, 8) + s
  }

  function EncodeTexts(items: seq<string>): string {
    if items == [] then [] else EncodeText(items[0]) + EncodeTexts(items[1..])
  }

  /** A value without its leading type code. */
  function EncodePayload(v: Value): string {
    match v
    case Scalar(_, raw) => raw
    case Text(text) => EncodeText(text)
    case ScalarArray(elem, count, raw) => LE(elem, 4) + (LE(count, 8) + raw)
    case TextArray(items) => LE(STRING_TYPE, 4) + (LE(|items|, 8) + EncodeTexts(items))
  }

  function EncodeKV(kv: KV): string {
    EncodeText(kv.key) + (LE(kv.value.Type(), 4) + EncodePayload(kv.value))
  }

  function EncodeKVs(kvs: seq<KV>): string {
    if kvs == [] then [] else EncodeKV(kvs[0]) + EncodeKVs(kvs[1..])
  }

  const MAGIC := "GGUF"

  function EncodeHeader(version: nat, tensorCount: nat, kvCount: nat): (s: string)
    ensures |s| == 24
  {
    MAGIC + (LE(version, 4) + (LE(tensorCount, 8) + LE(kvCount, 8)))
  }

  ghost predicate WellFormedFile(version: nat, tensorCount: nat, kvs: seq<KV>) {
    && version in {2, 3} && tensorCount <= MAX_TENSOR_COUNT && |kvs| <= MAX_KV_COUNT
    && forall i :: 0 <= i < |kvs| ==> kvs[i].WellFormed()
  }

  function EncodeFile(version: nat, tensorCount: nat, kvs: seq<KV>): string {
    EncodeHeader(version, tensorCount, |kvs|) + EncodeKVs(kvs)
  }
}
