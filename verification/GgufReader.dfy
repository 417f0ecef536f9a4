/** The cursor-based reader. Its methods move the cursor over the file exactly as the functional reading does. */
module GgufReader {
  import opened Wrappers
  import opened GgufFormat
  import opened GgufParse
  import opened GgufMetadata

  class BoundedReader {
    const file: string
    var pos: nat
    // Key-value and string-element iterations completed so far.
    ghost var work: nat

    /** The cursor is inside the file, and every completed iteration has consumed at least eight bytes of it. */
    ghost predicate Valid()
      reads this
    {
      pos <= |file| && 24 + 8 * work <= pos
    }

    constructor (file: string)
      requires |file| >= 24
      ensures this.file == file && pos == 0 && work == 0
    {
      this.file, pos, work := file, 0, 0;
    }

    /** A short read leaves the cursor at end of file. */
    method ReadBytes(n: nat) returns (ok: bool, s: string)
      requires pos <= |file|
      modifies this`pos
      ensures ok <==> old(pos) + n <= |file|
      ensures ok ==> pos == old(pos) + n && s == file[old(pos)..pos]
      ensures old(pos) <= pos <= |file|
    {
      if n == 0 {
        return true, "";
      }
      if pos + n <= |file| {
        s := file[pos..pos + n];
        pos := pos + n;
        return true, s;
      }
      pos := |file|;
      return false, "";
    }

    /** Reads a k-byte little-endian integer, most significant byte last. */
    method ReadNumber(k: nat) returns (ok: bool, n: nat)
      requires pos <= |file|
      modifies this`pos
      ensures ok <==> Number(file, old(pos), k).Some?
      ensures ok ==> pos == old(pos) + k && Number(file, old(pos), k) == Some(n)
      ensures old(pos) <= pos <= |file|
    {
      var b;
      ok, b := ReadBytes(k);
      n := 0;
      if !ok {
        return;
      }
      var i := k;
      while i > 0
        invariant 0 <= i <= k && n == FromLE(b[i..])
      {
        i := i - 1;
        n := n * 256 + b[i] as int;
        assert b[i..][1..] == b[i + 1..];
      }
      assert b[0..] == b;
    }

    method Skip(n: nat) returns (ok: bool)
      requires pos <= |file|
      modifies this`pos
      ensures ok <==> old(pos) + n <= |file|
      ensures pos == if ok then old(pos) + n else old(pos)
    {
      if n > |file| || pos > |file| - n {
        return false;
      }
      pos := pos + n;
      return true;
    }

    method ReadStringBounded(len: nat, maxLen: nat) returns (ok: bool, s: string)
      requires pos <= |file|
      modifies this`pos
      ensures ok <==> len <= maxLen && old(pos) + len <= |file|
      ensures ok ==> pos == old(pos) + len && s == file[old(pos)..pos]
      ensures old(pos) <= pos <= |file|
    {
      if len > maxLen {
        return false, "";
      }
      if len > |file| || pos > |file| - len {
        return false, "";
      }
      if len == 0 {
        return true, "";
      }
      ok, s := ReadBytes(len);
    }

    /** A length-prefixed string, captured or skipped: the cursor moves the same way. */
    method ConsumeStringValue(capture: bool) returns (ok: bool, text: string)
      requires pos <= |file|
      modifies this`pos
      ensures ok <==> ParseText(file, old(pos), MAX_STRING_BYTES).Some?
      ensures ok ==> var s := ParseText(file, old(pos), MAX_STRING_BYTES).value;
                     pos == old(pos) + 8 + |s| && text == if capture then s else ""
      ensures old(pos) <= pos <= |file|
    {
      text := "";
      var len;
      ok, len := ReadNumber(8);
      if !ok {
        return;
      }
      if len > MAX_STRING_BYTES {
        return false, "";
      }
      if capture {
        ok, text := ReadStringBounded(len, MAX_STRING_BYTES);
      } else {
        ok := Skip(len);
      }
    }

    /** A scalar or string payload. Numbers are captured only for the integer types. */
    method ConsumeScalarValue(ty: nat, captureNumeric: bool, captureString: bool)
      returns (ok: bool, number: nat, text: string)
      requires pos <= |file| && ty != ARRAY_TYPE
      modifies this`pos
      ensures ok <==> ParseValue(file, old(pos), ty).Some?
      ensures ok ==> var v := ParseValue(file, old(pos), ty).value;
                     && pos == old(pos) + |EncodePayload(v)|
                     && text == (if captureString then TextOf(v) else "")
                     && number == if captureNumeric && ty !in {6, 12} then NumberOf(v) else 0
      ensures old(pos) <= pos <= |file|
    {
      number, text := 0, "";
      if ty == STRING_TYPE {
        ok, text := ConsumeStringValue(captureString);
        return;
      }
      var width := Width(ty);
      if width == 0 {
        return false, 0, "";
      }
      if !captureNumeric || ty in {6, 12} {
        ok := Skip(width);
      } else {
        ok, number := ReadNumber(width);
      }
    }

    /** The elements of a string array, each skipped after its own bounded length. */
    method ConsumeStringArray(count: nat) returns (ok: bool)
      requires pos <= |file|
      modifies this
      ensures ok <==> ParseTexts(file, old(pos), count).Some?
      ensures ok ==> pos == old(pos) + |EncodeTexts(ParseTexts(file, old(pos), count).value)|
      ensures work == old(work) + ReadableTexts(file, old(pos), count)
      ensures old(pos) + 8 * (work - old(work)) <= pos <= |file|
    {
      hide ParseText, EncodeText, EncodeTexts;
      ghost var start := pos;
      ghost var done: seq<string> := [];
      PrefixedMore(done, [], ParseTexts(file, start, count));
      EncodeNoTexts();
      for i := 0 to count
        invariant start <= pos <= |file|
        invariant work == old(work) + i && start + 8 * i <= pos
        invariant ReadableTexts(file, start, count) == i + ReadableTexts(file, pos, count - i)
        invariant pos == start + |EncodeTexts(done)|
        invariant ParseTexts(file, start, count) == Prefixed(done, ParseTexts(file, pos, count - i))
      {
        ghost var at := pos;
        var skipped;
        ok, skipped := ConsumeStringValue(false);
        if !ok {
          return false;
        }
        ghost var s := ParseText(file, at, MAX_STRING_BYTES).value;
        EncodeTextsAppend(done, s);
        PrefixedMore(done, [s], ParseTexts(file, pos, count - i - 1));
        done := done + [s];
        work := work + 1;
      }
      PrefixedMore(done, [], ParseTexts(file, pos, 0));
      return true;
    }

    /** A whole value: scalar, string, or an array of scalars or of strings. Nested arrays are refused. */
    method ConsumeValue(ty: nat, captureNumeric: bool, captureString: bool)
      returns (ok: bool, number: nat, text: string)
      requires pos <= |file|
      modifies this
      ensures ok <==> ParseValue(file, old(pos), ty).Some?
      ensures ok ==> var v := ParseValue(file, old(pos), ty).value;
                     && pos == old(pos) + |EncodePayload(v)|
                     && text == (if captureString then TextOf(v) else "")
                     && number == if captureNumeric && ty !in {6, 12} then NumberOf(v) else 0
      ensures work == old(work) + ElementsRead(file, old(pos), ty)
      ensures old(pos) + 8 * (work - old(work)) <= pos <= |file|
    {
      hide ParseArray, ParseTexts, EncodeTexts, LE, FromLE;
      number, text := 0, "";
      if ty != ARRAY_TYPE {
        ok, number, text := ConsumeScalarValue(ty, captureNumeric, captureString);
      } else {
        ok := ConsumeArray();
      }
    }

    /** The element type, the count and the elements of an array. */
    method ConsumeArray() returns (ok: bool)
      requires pos <= |file|
      modifies this
      ensures ok <==> ParseArray(file, old(pos)).Some?
      ensures ok ==> pos == old(pos) + |EncodePayload(ParseArray(file, old(pos)).value)|
      ensures work == old(work) + ElementsRead(file, old(pos), ARRAY_TYPE)
      ensures old(pos) + 8 * (work - old(work)) <= pos <= |file|
    {
      hide ParseTexts, EncodeTexts, LE, FromLE;
      var elem, count;
      ok, elem := ReadNumber(4);
      if !ok || elem > LAST_TYPE || elem == ARRAY_TYPE {
        return false;
      }
      ok, count := ReadNumber(8);
      if !ok || count > MAX_ARRAY_COUNT {
        return false;
      }
      if elem == STRING_TYPE {
        ok := ConsumeStringArray(count);
        return;
      }
      var width := Width(elem);
      var totalBytes := width * count;
      ok := Skip(totalBytes);
    }
  }

  datatype GgufStatus =
    PathNotFound | PathUnreadable | FileEmpty | InvalidMagic | UnsupportedVersion | TruncatedHeader
    | MalformedMetadata | Valid

  /** What the fixed 24-byte header declares. */
  function HeaderVersion(file: string): nat
    requires |file| >= 24
  {
    FromLE(file[4..8])
  }

  function HeaderTensors(file: string): nat
    requires |file| >= 24
  {
    FromLE(file[8..16])
  }

  function HeaderKVs(file: string): nat
    requires |file| >= 24
  {
    FromLE(file[16..24])
  }

  /** The verdict on the header. */
  function HeaderStatus(file: string): GgufStatus {
    if file == "" then FileEmpty
    else if |file| < 24 then TruncatedHeader
    else if file[..4] != MAGIC then InvalidMagic
    else if HeaderVersion(file) !in {2, 3} then UnsupportedVersion
    else if HeaderTensors(file) > MAX_TENSOR_COUNT || HeaderKVs(file) > MAX_KV_COUNT then MalformedMetadata
    else Valid
  }

  /** What validate answers, as a function of the bytes. */
  function Verdict(file: string): (GgufStatus, ModelMetadata) {
    var status := HeaderStatus(file);
    if status != Valid then (status, NO_METADATA)
    else
      var version, tensors, n := HeaderVersion(file), HeaderTensors(file), HeaderKVs(file);
      var scan := ScanKVs(file, 24, n);
      if scan.complete then (Valid, Report(version, tensors, scan.kvs))
      else (MalformedMetadata, PartialReport(version, tensors, n, scan.kvs))
  }

  // ---------- Iterations, completed before a failure included ----------

  /** How many of the next n strings can be read. */
  function ReadableTexts(file: string, pos: nat, n: nat): (k: nat)
    ensures k <= n && (ParseTexts(file, pos, n).Some? ==> k == n)
    decreases n
  {
    if n == 0 then 0
    else match ParseText(file, pos, MAX_STRING_BYTES)
         case None => 0
         case Some(s) => 1 + ReadableTexts(file, pos + 8 + |s|, n - 1)
  }

  /** The elements of a string array read one by one, whether or not the array ends well. */
  function ElementsRead(file: string, pos: nat, ty: nat): nat {
    if ty != ARRAY_TYPE then 0
    else match (Number(file, pos, 4), Number(file, pos + 4, 8))
         case (Some(elem), Some(count)) =>
           if elem == STRING_TYPE && count <= MAX_ARRAY_COUNT then ReadableTexts(file, pos + 12, count) else 0
         case _ => 0
  }

  /** The iterations spent on one entry: its string elements, and itself once it has been read. */
  function EntryWork(file: string, pos: nat): nat {
    match ParseText(file, pos, MAX_KEY_BYTES)
    case None => 0
    case Some(key) =>
      match Number(file, pos + 8 + |key|, 4)
      case None => 0
      case Some(ty) =>
        ElementsRead(file, pos + 8 + |key| + 4, ty)
        + if ParseValue(file, pos + 8 + |key| + 4, ty).Some? then 1 else 0
  }

  /** The iterations spent on the next n entries, up to the first malformed one and into it. */
  function Work(file: string, pos: nat, n: nat): nat
    decreases n
  {
    if n == 0 then 0
    else EntryWork(file, pos) + match ParseKV(file, pos)
                                case None => 0
                                case Some(kv) => Work(file, pos + |EncodeKV(kv)|, n - 1)
  }

  function WorkOf(file: string): nat {
    if HeaderStatus(file) == Valid then Work(file, 24, HeaderKVs(file)) else 0
  }

  lemma ElementsOfValue(file: string, pos: nat, ty: nat)
    ensures ParseValue(file, pos, ty).Some? ==> ElementsRead(file, pos, ty) == Items(ParseValue(file, pos, ty).value)
  {
    hide ParseTexts, ReadableTexts;
  }

  lemma WorkOfEntry(file: string, pos: nat)
    ensures ParseKV(file, pos).Some? ==> EntryWork(file, pos) == 1 + Items(ParseKV(file, pos).value.value)
  {
    hide ParseValue, ElementsRead, ParseText, Items;
    var key := ParseText(file, pos, MAX_KEY_BYTES);
    if key.Some? && Number(file, pos + 8 + |key.value|, 4).Some? {
      ElementsOfValue(file, pos + 12 + |key.value|, Number(file, pos + 8 + |key.value|, 4).value);
    }
  }

  /** The work is one iteration for each entry that was read and each string element of one, and the elements read of
      the entry that was not. */
  lemma {:induction false} WorkIsIterations(file: string, pos: nat, n: nat)
    ensures var scan := ScanKVs(file, pos, n);
            && Iterations(scan.kvs) <= Work(file, pos, n)
            && (scan.complete ==> Work(file, pos, n) == Iterations(scan.kvs))
    decreases n
  {
    hide ParseKV, EncodeKV, EntryWork, Iterations;
    if n == 0 {
      NoEntries();
    } else {
      WorkOfEntry(file, pos);
      if ParseKV(file, pos).Some? {
        var kv := ParseKV(file, pos).value;
        var next := pos + |EncodeKV(kv)|;
        WorkIsIterations(file, next, n - 1);
        IterationsOfFirst(kv, ScanKVs(file, next, n - 1).kvs);
      } else {
        NoEntries();
      }
    }
  }

  lemma {:induction false} IterationsOfFirst(kv: KV, rest: seq<KV>)
    ensures Iterations([kv] + rest) == 1 + Items(kv.value) + Iterations(rest)
  {
    hide Items;
    if rest == [] {
      assert [kv] + rest == [kv] && [kv][..0] == [];
    } else {
      IterationsOfFirst(kv, rest[..|rest| - 1]);
      assert ([kv] + rest)[..|[kv] + rest| - 1] == [kv] + rest[..|rest| - 1];
    }
  }

  lemma UnknownType(file: string, pos: nat, ty: nat)
    requires ty > LAST_TYPE
    ensures ParseValue(file, pos, ty).None?
  {
  }

  /** One iteration of the key-value loop. */
  method ConsumeEntry(r: BoundedReader, f: Facts) returns (ok: bool, facts: Facts)
    requires r.Valid()
    modifies r
    ensures ok <==> ParseKV(r.file, old(r.pos)).Some?
    ensures ok ==> var kv := ParseKV(r.file, old(r.pos)).value;
                   r.pos == old(r.pos) + |EncodeKV(kv)| && facts == Absorb(f, kv)
    ensures !ok ==> facts == f
    ensures r.work == old(r.work) + EntryWork(r.file, old(r.pos))
    ensures r.Valid()
  {
    hide FromLE, LE, ParseTexts, EncodeTexts, ParseArray, ParseValue, Octets, EncodePayload, TextOf, NumberOf;
    hide ARCHITECTURE_KEY, NAME_KEY, QUANTIZATION_KEY, FILE_TYPE_KEY, CONTEXT_SUFFIX;
    facts := f;
    var keyLen, key, ty, number, text;
    ok, keyLen := r.ReadNumber(8);
    if !ok { return; }
    ok, key := r.ReadStringBounded(keyLen, MAX_KEY_BYTES);
    if !ok { return; }
    ok, ty := r.ReadNumber(4);
    if !ok { return; }
    if ty > LAST_TYPE {
      UnknownType(r.file, r.pos, ty);
      return false, f;
    }
    var captureString := WantsArchitecture(key, ty) || WantsName(key, ty);
    var captureNumeric := WantsQuantization(key, ty) || WantsFileType(key, ty) || WantsContext(key, ty);
    ok, number, text := r.ConsumeValue(ty, captureNumeric, captureString);
    if !ok { return; }
    ghost var v := ParseKV(r.file, old(r.pos)).value.value;
    assert captureString ==> text == TextOf(v);
    assert captureNumeric ==> number == NumberOf(v);
    facts := Note(f, key, ty, text, number);
    r.work := r.work + 1;
  }

  /** The key-value loop: the facts of the entries before the first malformed one, if any. */
  method ConsumeEntries(r: BoundedReader, kvCount: nat) returns (ok: bool, facts: Facts)
    requires r.Valid()
    modifies r
    ensures r.Valid()
    ensures var scan := ScanKVs(r.file, old(r.pos), kvCount);
            ok == scan.complete && facts == FactsOf(scan.kvs)
    ensures r.work == old(r.work) + Work(r.file, old(r.pos), kvCount)
  {
    hide ParseKV, EncodeKV, Absorb, FactsOf, Items, Iterations, BoundedReader.Valid;
    NoEntries();
    ghost var start := r.pos;
    facts := NO_FACTS;
    ghost var done: seq<KV> := [];
    ScanEnds(done, ScanKVs(r.file, start, kvCount));
    for i := 0 to kvCount
      invariant r.Valid() && |done| == i && facts == FactsOf(done)
      invariant r.work + Work(r.file, r.pos, kvCount - i) == old(r.work) + Work(r.file, start, kvCount)
      invariant ScanKVs(r.file, start, kvCount) == Extend(done, ScanKVs(r.file, r.pos, kvCount - i))
    {
      ghost var at := r.pos;
      ok, facts := ConsumeEntry(r, facts);
      if !ok {
        ScanEnds(done, Scan([], true));
        return;
      }
      ghost var kv := ParseKV(r.file, at).value;
      ExtendMore(done, kv, ScanKVs(r.file, r.pos, kvCount - i - 1));
      OneMoreEntry(done, kv);
      done := done + [kv];
    }
    ScanEnds(done, Scan([], true));
    ok := true;
  }

  /** The verdict and metadata for a file (None when it cannot be opened), with the number of loop iterations
      completed: bounded by the file's size, whatever counts it declares. */
  method Validate(file: Option<string>, seekable: bool)
    returns (status: GgufStatus, metadata: ModelMetadata, ghost work: nat)
    ensures work == if file.Some? && seekable then WorkOf(file.value) else 0
    ensures work > 0 ==> 24 + 8 * work <= |file.value|
    ensures file.None? ==> status == PathNotFound && metadata == NO_METADATA
    ensures file.Some? && !seekable ==> status == PathUnreadable && metadata == NO_METADATA
    ensures file.Some? && seekable ==> (status, metadata) == Verdict(file.value)
  {
    hide FromLE, ScanKVs, FactsOf, BoundedReader.Valid;
    metadata, work := NO_METADATA, 0;
    if file.None? { status := PathNotFound; return; }
    if !seekable { status := PathUnreadable; return; }
    var bytes := file.value;
    if |bytes| == 0 { status := FileEmpty; return; }
    if |bytes| < 24 { status := TruncatedHeader; return; }
    var r := new BoundedReader(bytes);
    var ok, magic, version, tensorCount, kvCount;
    ok, magic := r.ReadBytes(4);
    if !ok { status := TruncatedHeader; return; }
    if magic != MAGIC { status := InvalidMagic; return; }
    ok, version := r.ReadNumber(4);
    if !ok { status := TruncatedHeader; return; }
    if version != 2 && version != 3 { status := UnsupportedVersion; return; }
    ok, tensorCount := r.ReadNumber(8);
    if !ok { status := TruncatedHeader; return; }
    ok, kvCount := r.ReadNumber(8);
    if !ok { status := TruncatedHeader; return; }
    if tensorCount > MAX_TENSOR_COUNT || kvCount > MAX_KV_COUNT { status := MalformedMetadata; return; }
    metadata := metadata.(version := version, tensorCount := tensorCount, kvCount := kvCount);

    ReaderStarts(r);
    var facts;
    ok, facts := ConsumeEntries(r, kvCount);
    if !ok {
      metadata := metadata.(architecture := facts.architecture, name := facts.name);
      return MalformedMetadata, metadata, IterationsOf(r);
    }
    metadata := metadata.(architecture := facts.architecture, name := facts.name,
                          quantizationVersion := facts.quantizationVersion, fileType := facts.fileType);
    if facts.architecture.Some? && facts.architecture.value in facts.contexts {
      metadata := metadata.(contextLength := Some(facts.contexts[facts.architecture.value]));
    }
    return Valid, metadata, IterationsOf(r);
  }

  ghost function IterationsOf(r: BoundedReader): (n: nat)
    requires r.Valid()
    reads r
    ensures n == r.work && 24 + 8 * n <= |r.file|
  {
    r.work
  }

  lemma NoEntries()
    ensures FactsOf([]) == NO_FACTS && Iterations([]) == 0
  {
  }

  lemma OneMoreEntry(done: seq<KV>, kv: KV)
    ensures FactsOf(done + [kv]) == Absorb(FactsOf(done), kv)
  {
    hide Absorb, Items;
    assert (done + [kv])[..|done|] == done;
  }

  function Extend(done: seq<KV>, scan: Scan): Scan { Scan(done + scan.kvs, scan.complete) }

  lemma ScanEnds(done: seq<KV>, scan: Scan)
    ensures Extend([], scan) == scan && Extend(done, Scan([], true)) == Scan(done, true)
    ensures Extend(done, Scan([], false)) == Scan(done, false)
  {
    assert done + [] == done && [] + scan.kvs == scan.kvs;
  }

  lemma ExtendMore(done: seq<KV>, kv: KV, scan: Scan)
    ensures Extend(done, Extend([kv], scan)) == Extend(done + [kv], scan)
  {
    assert done + ([kv] + scan.kvs) == done + [kv] + scan.kvs;
  }

  lemma ReaderStarts(r: BoundedReader)
    requires r.pos == 24 <= |r.file| && r.work == 0
    ensures r.Valid()
  {
  }

  function Items(v: Value): nat { if v.TextArray? then |v.items| else 0 }

  /** One iteration for each entry and one for each element of a string array. */
  function Iterations(kvs: seq<KV>): nat {
    if kvs == [] then 0 else Iterations(kvs[..|kvs| - 1]) + 1 + Items(kvs[|kvs| - 1].value)
  }

  lemma EncodeNoTexts()
    ensures EncodeTexts([]) == []
  {
  }

  lemma {:induction false} EncodeTextsAppend(items: seq<string>, s: string)
    ensures EncodeTexts(items + [s]) == EncodeTexts(items) + EncodeText(s)
  {
    hide EncodeText;
    if items == [] {
      assert ([] + [s])[1..] == [];
      assert EncodeTexts([]) == [];
    } else {
      var head, rest := EncodeText(items[0]), EncodeTexts(items[1..]);
      EncodeTextsAppend(items[1..], s);
      assert (items + [s])[1..] == items[1..] + [s] && (items + [s])[0] == items[0];
      assert head + (rest + EncodeText(s)) == head + rest + EncodeText(s);
    }
  }
}
