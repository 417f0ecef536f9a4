/** The metadata extracted from a key-value list: the fold the reader performs, and what it amounts to. */
module GgufMetadata {
  import opened Wrappers
  import opened GgufFormat

  const ARCHITECTURE_KEY := "general.architecture"
  const NAME_KEY := "general.name"
  const QUANTIZATION_KEY := "general.quantization_version"
  const FILE_TYPE_KEY := "general.file_type"
  const CONTEXT_SUFFIX := ".context_length"

  const UINT32: nat := 4
  const INT32: nat := 5
  const UINT64: nat := 10
  const INT64: nat := 11

  /** What the reader has noted so far. */
  datatype Facts = Facts(architecture: Option<string>, name: Option<string>, quantizationVersion: Option<nat>,
                         fileType: Option<nat>, contexts: map<string, nat>)

  const NO_FACTS := Facts(None, None, None, None, map[])

  predicate IsContextKey(key: string) {
    |key| > |CONTEXT_SUFFIX| && key[|key| - |CONTEXT_SUFFIX|..] == CONTEXT_SUFFIX
  }

  predicate WantsArchitecture(key: string, ty: nat) { key == ARCHITECTURE_KEY && ty == STRING_TYPE }

  predicate WantsName(key: string, ty: nat) { key == NAME_KEY && ty == STRING_TYPE }

  predicate WantsQuantization(key: string, ty: nat) { key == QUANTIZATION_KEY && (ty == UINT32 || ty == INT32) }

  predicate WantsFileType(key: string, ty: nat) { key == FILE_TYPE_KEY && (ty == UINT32 || ty == INT32) }

  predicate WantsContext(key: string, ty: nat) {
    IsContextKey(key) && (ty == UINT32 || ty == UINT64 || ty == INT32 || ty == INT64)
  }

  /** The branch taken after an entry has been read, given the captured string and number. */
  function Note(f: Facts, key: string, ty: nat, text: string, number: nat): Facts {
    if WantsArchitecture(key, ty) then f.(architecture := Some(text))
    else if WantsName(key, ty) then f.(name := Some(text))
    else if WantsQuantization(key, ty) then f.(quantizationVersion := Some(number))
    else if WantsFileType(key, ty) then f.(fileType := Some(number))
    else if WantsContext(key, ty) then f.(contexts := f.contexts[key[..|key| - |CONTEXT_SUFFIX|] := number])
    else f
  }

  function TextOf(v: Value): string { if v.Text? then v.text else "" }

  /** Integers are captured as unsigned little-endian numbers, signed types included. */
  function NumberOf(v: Value): nat { if v.Scalar? then FromLE(v.raw) else 0 }

  function Absorb(f: Facts, kv: KV): Facts {
    Note(f, kv.key, kv.value.Type(), TextOf(kv.value), NumberOf(kv.value))
  }

  function FactsOf(kvs: seq<KV>): Facts {
    if kvs == [] then NO_FACTS else Absorb(FactsOf(kvs[..|kvs| - 1]), kvs[|kvs| - 1])
  }

  datatype ModelMetadata = ModelMetadata(
    version: nat, tensorCount: nat, kvCount: nat, architecture: Option<string>, name: Option<string>,
    quantizationVersion: Option<nat>, fileType: Option<nat>, contextLength: Option<nat>)

  const NO_METADATA := ModelMetadata(0, 0, 0, None, None, None, None, None)

  /** The report for an accepted file. */
  function Report(version: nat, tensorCount: nat, kvs: seq<KV>): ModelMetadata {
    var f := FactsOf(kvs);
    ModelMetadata(version, tensorCount, |kvs|, f.architecture, f.name, f.quantizationVersion, f.fileType,
                  if f.architecture.Some? then Get(f.contexts, f.architecture.value) else None)
  }

  /** What is left behind when the entry after kvs is malformed: numbers are only published at the end. */
  function PartialReport(version: nat, tensorCount: nat, kvCount: nat, kvs: seq<KV>): ModelMetadata {
    var f := FactsOf(kvs);
    ModelMetadata(version, tensorCount, kvCount, f.architecture, f.name, None, None, None)
  }

  // ---------- What the fold computes ----------

  /** The value of the last entry with this key and one of these types. */
  function LastMatch(kvs: seq<KV>, key: string, types: set<nat>): Option<Value> {
    if kvs == [] then None
    else
      var kv := kvs[|kvs| - 1];
      if kv.key == key && kv.value.Type() in types then Some(kv.value)
      else LastMatch(kvs[..|kvs| - 1], key, types)
  }

  function LastText(kvs: seq<KV>, key: string): Option<string> {
    match LastMatch(kvs, key, {STRING_TYPE})
    case None => None
    case Some(v) => Some(TextOf(v))
  }

  function LastNumber(kvs: seq<KV>, key: string, types: set<nat>): Option<nat> {
    match LastMatch(kvs, key, types)
    case None => None
    case Some(v) => Some(NumberOf(v))
  }

  const CONTEXT_TYPES: set<nat> := {UINT32, INT32, UINT64, INT64}

  lemma KeysAreDistinct()
    ensures !IsContextKey(ARCHITECTURE_KEY) && !IsContextKey(NAME_KEY)
    ensures !IsContextKey(QUANTIZATION_KEY) && !IsContextKey(FILE_TYPE_KEY)
    ensures ARCHITECTURE_KEY != NAME_KEY && QUANTIZATION_KEY != FILE_TYPE_KEY
  {
    assert ARCHITECTURE_KEY[|ARCHITECTURE_KEY| - 1] == 'e' != CONTEXT_SUFFIX[14];
    assert QUANTIZATION_KEY[|QUANTIZATION_KEY| - 1] == 'n' != CONTEXT_SUFFIX[14];
    assert FILE_TYPE_KEY[|FILE_TYPE_KEY| - 1] == 'e' != CONTEXT_SUFFIX[14];
    assert |ARCHITECTURE_KEY| != |NAME_KEY| && |QUANTIZATION_KEY| != |FILE_TYPE_KEY|;
  }

  /** The else-if chain never lets one wanted key shadow another. */
  lemma NoteEffect(f: Facts, key: string, ty: nat, text: string, number: nat)
    ensures var r := Note(f, key, ty, text, number);
            && r.architecture == (if WantsArchitecture(key, ty) then Some(text) else f.architecture)
            && r.name == (if WantsName(key, ty) then Some(text) else f.name)
            && r.quantizationVersion == (if WantsQuantization(key, ty) then Some(number) else f.quantizationVersion)
            && r.fileType == (if WantsFileType(key, ty) then Some(number) else f.fileType)
            && r.contexts == if WantsContext(key, ty) then f.contexts[key[..|key| - |CONTEXT_SUFFIX|] := number]
                             else f.contexts
  {
    KeysAreDistinct();
    hide ARCHITECTURE_KEY, NAME_KEY, QUANTIZATION_KEY, FILE_TYPE_KEY;
  }

  lemma ContextKeySplits(key: string, architecture: string)
    requires architecture != ""
    ensures IsContextKey(architecture + CONTEXT_SUFFIX)
    ensures IsContextKey(key) ==>
              (key[..|key| - |CONTEXT_SUFFIX|] == architecture <==> key == architecture + CONTEXT_SUFFIX)
  {
    var full := architecture + CONTEXT_SUFFIX;
    assert full[|full| - |CONTEXT_SUFFIX|..] == CONTEXT_SUFFIX;
    assert full[..|full| - |CONTEXT_SUFFIX|] == architecture;
    if IsContextKey(key) {
      assert key == key[..|key| - |CONTEXT_SUFFIX|] + key[|key| - |CONTEXT_SUFFIX|..];
    }
  }

  lemma {:induction false} FactsAreLastMatches(kvs: seq<KV>, architecture: string)
    ensures var f := FactsOf(kvs);
            && f.architecture == LastText(kvs, ARCHITECTURE_KEY)
            && f.name == LastText(kvs, NAME_KEY)
            && f.quantizationVersion == LastNumber(kvs, QUANTIZATION_KEY, {UINT32, INT32})
            && f.fileType == LastNumber(kvs, FILE_TYPE_KEY, {UINT32, INT32})
            && "" !in f.contexts
            && (architecture != "" ==>
                  Get(f.contexts, architecture) == LastNumber(kvs, architecture + CONTEXT_SUFFIX, CONTEXT_TYPES))
  {
    hide ARCHITECTURE_KEY, NAME_KEY, QUANTIZATION_KEY, FILE_TYPE_KEY, CONTEXT_SUFFIX, Note;
    if kvs != [] {
      var kv := kvs[|kvs| - 1];
      var before := kvs[..|kvs| - 1];
      FactsAreLastMatches(before, architecture);
      NoteEffect(FactsOf(before), kv.key, kv.value.Type(), TextOf(kv.value), NumberOf(kv.value));
      if architecture != "" {
        ContextKeySplits(kv.key, architecture);
      }
    }
  }
}
