/** The model registry file: percent-encoded key=value blocks, one for each entry. */
module Registry {
  import opened Wrappers
  import opened TextCodec

  const LAST_STATUS: nat := 10

  /** status is the number of the verification status: 0 not yet verified, 9 checksum mismatch, 10 verified. */
  datatype Entry = Entry(modelId: string, displayName: string, localPath: string, fileSize: nat, format: string,
                         architecture: string, quantization: string, status: nat, verifiedAt: int, checksum: string)
  {
    /** The ranges of the fields' types. */
    predicate InRange() { fileSize <= MAX_U64 && status <= LAST_STATUS && MIN_I64 <= verifiedAt <= MAX_I64 }
  }

  const MAGIC := "SYJ_EDGEMIND_MODEL_REGISTRY_V1"
  const MODEL_ID := "model_id"
  const DISPLAY_NAME := "display_name"
  const LOCAL_PATH := "local_path"
  const FILE_SIZE := "file_size_bytes"
  const FORMAT := "format"
  const ARCHITECTURE := "architecture"
  const QUANTIZATION := "quantization"
  const STATUS := "verification_status"
  const VERIFIED_AT := "verified_at_unix"
  const CHECKSUM := "expected_checksum_sha256"

  predicate KnownKey(key: string) {
    key in [MODEL_ID, DISPLAY_NAME, LOCAL_PATH, FILE_SIZE, FORMAT, ARCHITECTURE, QUANTIZATION, STATUS, VERIFIED_AT,
            CHECKSUM]
  }

  // ---------- Printer ----------

  function Line(key: string, value: string): string { key + "=" + value }

  function FirstLines(e: Entry): seq<string> {
    [Line(MODEL_ID, Encoded(e.modelId)), Line(DISPLAY_NAME, Encoded(e.displayName)),
     Line(LOCAL_PATH, Encoded(e.localPath)), Line(FILE_SIZE, PrintNat(e.fileSize)), Line(FORMAT, Encoded(e.format))]
  }

  function LastLines(e: Entry): seq<string> {
    [Line(ARCHITECTURE, Encoded(e.architecture)), Line(QUANTIZATION, Encoded(e.quantization)),
     Line(STATUS, PrintNat(e.status)), Line(VERIFIED_AT, PrintInt(e.verifiedAt)),
     Line(CHECKSUM, Encoded(e.checksum))]
  }

  /** Ten fields and a blank line. */
  function EntryLines(e: Entry): seq<string> { FirstLines(e) + LastLines(e) + [""] }

  function EntriesLines(entries: seq<Entry>): seq<string> {
    if entries == [] then [] else EntriesLines(entries[..|entries| - 1]) + EntryLines(entries[|entries| - 1])
  }

  function RegistryText(entries: seq<Entry>): string { Unlines([MAGIC] + EntriesLines(entries)) }

  // ---------- Parser ----------

  datatype LoadResult = Ok | NotFound | Corrupted

  /** entries holds what was parsed before the end or the first error: only an Ok result makes it trustworthy. */
  datatype Loaded = Loaded(result: LoadResult, entries: seq<Entry>)

  type Fields = map<string, string>

  function TextField(fields: Fields, key: string): Option<string> {
    if key in fields then Decoded(fields[key]) else None
  }

  function NatField(fields: Fields, key: string): Option<nat> {
    if key in fields then ParseU64(fields[key]) else None
  }

  /** One entry from the fields collected between blank lines. */
  function EntryOfFields(fields: Fields): (r: Option<Entry>)
    ensures r.Some? ==> r.value.InRange() && r.value.modelId != ""
  {
    match (TextField(fields, MODEL_ID), TextField(fields, DISPLAY_NAME), TextField(fields, LOCAL_PATH),
           NatField(fields, FILE_SIZE), TextField(fields, FORMAT), TextField(fields, ARCHITECTURE),
           TextField(fields, QUANTIZATION), IntField(fields, STATUS), IntField(fields, VERIFIED_AT),
           TextField(fields, CHECKSUM))
    case (Some(id), Some(name), Some(path), Some(size), Some(format), Some(architecture), Some(quantization),
          Some(status), Some(verifiedAt), Some(checksum)) =>
      if 0 <= status <= LAST_STATUS && id != "" then
        Some(Entry(id, name, path, size, format, architecture, quantization, status, verifiedAt, checksum))
      else None
    case _ => None
  }

  /** A block yields an entry exactly when it has all ten fields, each of them well-formed: percent-encoded texts, a
      64-bit size, a status up to 10, a 64-bit time, and an id that is not empty. */
  lemma EntryExactly(fields: Fields, e: Entry)
    ensures EntryOfFields(fields) == Some(e) <==>
            && e.modelId != "" && e.status <= 10
            && TextField(fields, "model_id") == Some(e.modelId)
            && TextField(fields, "display_name") == Some(e.displayName)
            && TextField(fields, "local_path") == Some(e.localPath)
            && TextField(fields, "format") == Some(e.format)
            && TextField(fields, "architecture") == Some(e.architecture)
            && TextField(fields, "quantization") == Some(e.quantization)
            && TextField(fields, "expected_checksum_sha256") == Some(e.checksum)
            && NatField(fields, "file_size_bytes") == Some(e.fileSize)
            && IntField(fields, "verification_status") == Some(e.status)
            && IntField(fields, "verified_at_unix") == Some(e.verifiedAt)
  {
    hide TextField, NatField, IntField;
  }

  /** Ends a block: nothing to do when no field has been read since the last one. */
  function Flush(fields: Fields, entries: seq<Entry>): Loaded {
    if fields == map[] then Loaded(Ok, entries)
    else match EntryOfFields(fields)
         case None => Loaded(Corrupted, entries)
         case Some(e) => Loaded(Ok, entries + [e])
  }

  function ReadLines(lines: seq<string>, fields: Fields, entries: seq<Entry>): Loaded {
    if lines == [] then Flush(fields, entries)
    else if lines[0] == "" then
      var flushed := Flush(fields, entries);
      if flushed.result == Ok then ReadLines(lines[1..], map[], flushed.entries) else flushed
    else match SplitField(lines[0])
         case None => Loaded(Corrupted, entries)
         case Some((key, value)) =>
           if KnownKey(key) then ReadLines(lines[1..], fields[key := value], entries) else Loaded(Corrupted, entries)
  }

  /** What load answers for a file's contents (None when it cannot be opened). */
  function LoadText(text: Option<string>): Loaded {
    match text
    case None => Loaded(NotFound, [])
    case Some(t) =>
      var lines := Lines(t);
      if lines == [] || lines[0] != MAGIC then Loaded(Corrupted, []) else ReadLines(lines[1..], map[], [])
  }

  ghost predicate Storable(entries: seq<Entry>) {
    forall i :: 0 <= i < |entries| ==> entries[i].InRange() && entries[i].modelId != ""
  }

  lemma {:induction false} ReadEntriesAreStorable(lines: seq<string>, fields: Fields, entries: seq<Entry>)
    requires Storable(entries)
    ensures Storable(ReadLines(lines, fields, entries).entries)
  {
    hide EntryOfFields, SplitField, KnownKey;
    if lines != [] {
      ReadEntriesAreStorable(lines[1..], map[], Flush(fields, entries).entries);
      match SplitField(lines[0]) {
        case None =>
        case Some((key, value)) => ReadEntriesAreStorable(lines[1..], fields[key := value], entries);
      }
    }
  }

  lemma LoadedEntriesAreStorable(text: Option<string>)
    ensures Storable(LoadText(text).entries)
  {
    match text {
      case None =>
      case Some(t) =>
        var lines := Lines(t);
        if lines != [] {
          ReadEntriesAreStorable(lines[1..], map[], []);
        }
    }
  }

  // ---------- Loading what was saved ----------

  lemma KeysAreDistinct()
    ensures MODEL_ID !in [DISPLAY_NAME, LOCAL_PATH, FILE_SIZE, FORMAT, ARCHITECTURE, QUANTIZATION, STATUS, VERIFIED_AT,
                          CHECKSUM]
    ensures DISPLAY_NAME !in [LOCAL_PATH, FILE_SIZE, FORMAT, ARCHITECTURE, QUANTIZATION, STATUS, VERIFIED_AT, CHECKSUM]
    ensures LOCAL_PATH !in [FILE_SIZE, FORMAT, ARCHITECTURE, QUANTIZATION, STATUS, VERIFIED_AT, CHECKSUM]
    ensures FILE_SIZE !in [FORMAT, ARCHITECTURE, QUANTIZATION, STATUS, VERIFIED_AT, CHECKSUM]
    ensures FORMAT !in [ARCHITECTURE, QUANTIZATION, STATUS, VERIFIED_AT, CHECKSUM]
    ensures ARCHITECTURE !in [QUANTIZATION, STATUS, VERIFIED_AT, CHECKSUM]
    ensures QUANTIZATION !in [STATUS, VERIFIED_AT, CHECKSUM]
    ensures STATUS !in [VERIFIED_AT, CHECKSUM] && VERIFIED_AT != CHECKSUM
  {
    assert |MODEL_ID| == 8 && |DISPLAY_NAME| == 12 && |LOCAL_PATH| == 10 && |FILE_SIZE| == 15 && |FORMAT| == 6;
    assert |ARCHITECTURE| == 12 && |QUANTIZATION| == 12 && |STATUS| == 19 && |VERIFIED_AT| == 16 && |CHECKSUM| == 24;
    assert DISPLAY_NAME[0] == 'd' && ARCHITECTURE[0] == 'a' && QUANTIZATION[0] == 'q';
  }

  lemma KeysArePlain()
    ensures PlainKey(MODEL_ID) && PlainKey(DISPLAY_NAME) && PlainKey(LOCAL_PATH) && PlainKey(FILE_SIZE)
    ensures PlainKey(FORMAT) && PlainKey(ARCHITECTURE) && PlainKey(QUANTIZATION) && PlainKey(STATUS)
    ensures PlainKey(VERIFIED_AT) && PlainKey(CHECKSUM) && OneLine(MAGIC)
  {
    hide PlainKey, OneLine;
    PlainByIndex(MODEL_ID);
    PlainByIndex(DISPLAY_NAME);
    PlainByIndex(LOCAL_PATH);
    PlainByIndex(FILE_SIZE);
    PlainByIndex(FORMAT);
    PlainByIndex(ARCHITECTURE);
    PlainByIndex(QUANTIZATION);
    PlainByIndex(STATUS);
    PlainByIndex(VERIFIED_AT);
    PlainByIndex(CHECKSUM);
    PlainByIndex(MAGIC);
  }

  /** The fields an entry's lines spell. */
  function FirstFields(e: Entry): Fields {
    map[][MODEL_ID := Encoded(e.modelId)][DISPLAY_NAME := Encoded(e.displayName)][LOCAL_PATH := Encoded(e.localPath)]
    [FILE_SIZE := PrintNat(e.fileSize)][FORMAT := Encoded(e.format)]
  }

  function FieldsOf(e: Entry): Fields {
    FirstFields(e)[ARCHITECTURE := Encoded(e.architecture)][QUANTIZATION := Encoded(e.quantization)]
    [STATUS := PrintNat(e.status)][VERIFIED_AT := PrintInt(e.verifiedAt)][CHECKSUM := Encoded(e.checksum)]
  }

  lemma EntryOfItsFields(e: Entry)
    requires e.InRange() && e.modelId != ""
    ensures EntryOfFields(FieldsOf(e)) == Some(e)
  {
    KeysAreDistinct();
    hide MODEL_ID, DISPLAY_NAME, LOCAL_PATH, FILE_SIZE, FORMAT;
    hide ARCHITECTURE, QUANTIZATION, STATUS, VERIFIED_AT, CHECKSUM;
    hide Encoded, Decoded, PrintNat, PrintInt, ParseU64, ParseI64;
    DecodedOfEncoded(e.modelId);
    DecodedOfEncoded(e.displayName);
    DecodedOfEncoded(e.localPath);
    DecodedOfEncoded(e.format);
    DecodedOfEncoded(e.architecture);
    DecodedOfEncoded(e.quantization);
    DecodedOfEncoded(e.checksum);
    ParseOfPrintNat(e.fileSize);
    ParseOfPrintInt(e.status);
    ParseOfPrintInt(e.verifiedAt);
    assert PrintInt(e.status) == PrintNat(e.status) by { PrintIntOfNat(e.status); }
  }

  lemma PrintIntOfNat(n: nat)
    ensures PrintInt(n) == PrintNat(n)
  {
  }

  lemma ReadLine(key: string, value: string, rest: seq<string>, fields: Fields, entries: seq<Entry>)
    requires PlainKey(key) && KnownKey(key)
    ensures ReadLines([Line(key, value)] + rest, fields, entries) == ReadLines(rest, fields[key := value], entries)
  {
    hide KnownKey;
    SplitFieldOfJoin(key, value);
    assert ([Line(key, value)] + rest)[1..] == rest;
  }

  lemma KeysAreKnown()
    ensures KnownKey(MODEL_ID) && KnownKey(DISPLAY_NAME) && KnownKey(LOCAL_PATH) && KnownKey(FILE_SIZE)
    ensures KnownKey(FORMAT) && KnownKey(ARCHITECTURE) && KnownKey(QUANTIZATION) && KnownKey(STATUS)
    ensures KnownKey(VERIFIED_AT) && KnownKey(CHECKSUM)
  {
    hide MODEL_ID, DISPLAY_NAME, LOCAL_PATH, FILE_SIZE, FORMAT;
    hide ARCHITECTURE, QUANTIZATION, STATUS, VERIFIED_AT, CHECKSUM;
  }

  lemma ReadFive(k1: string, v1: string, k2: string, v2: string, k3: string, v3: string, k4: string, v4: string,
                 k5: string, v5: string, rest: seq<string>, fields: Fields, entries: seq<Entry>)
    requires PlainKey(k1) && PlainKey(k2) && PlainKey(k3) && PlainKey(k4) && PlainKey(k5)
    requires KnownKey(k1) && KnownKey(k2) && KnownKey(k3) && KnownKey(k4) && KnownKey(k5)
    ensures ReadLines([Line(k1, v1), Line(k2, v2), Line(k3, v3), Line(k4, v4), Line(k5, v5)] + rest, fields, entries)
            == ReadLines(rest, fields[k1 := v1][k2 := v2][k3 := v3][k4 := v4][k5 := v5], entries)
  {
    hide ReadLines, Line, KnownKey, PlainKey;
    var r4 := [Line(k5, v5)] + rest;
    var r3 := [Line(k4, v4)] + r4;
    var r2 := [Line(k3, v3)] + r3;
    var r1 := [Line(k2, v2)] + r2;
    assert [Line(k1, v1), Line(k2, v2), Line(k3, v3), Line(k4, v4), Line(k5, v5)] + rest == [Line(k1, v1)] + r1;
    ReadLine(k1, v1, r1, fields, entries);
    ReadLine(k2, v2, r2, fields[k1 := v1], entries);
    ReadLine(k3, v3, r3, fields[k1 := v1][k2 := v2], entries);
    ReadLine(k4, v4, r4, fields[k1 := v1][k2 := v2][k3 := v3], entries);
    ReadLine(k5, v5, rest, fields[k1 := v1][k2 := v2][k3 := v3][k4 := v4], entries);
  }

  lemma ReadBlank(rest: seq<string>, fields: Fields, entries: seq<Entry>, e: Entry)
    requires fields != map[] && EntryOfFields(fields) == Some(e)
    ensures ReadLines([""] + rest, fields, entries) == ReadLines(rest, map[], entries + [e])
  {
    hide EntryOfFields;
    assert ([""] + rest)[1..] == rest;
  }

  lemma ReadFirstLines(e: Entry, rest: seq<string>, entries: seq<Entry>)
    ensures ReadLines(FirstLines(e) + rest, map[], entries) == ReadLines(rest, FirstFields(e), entries)
  {
    KeysArePlain();
    KeysAreKnown();
    hide MODEL_ID, DISPLAY_NAME, LOCAL_PATH, FILE_SIZE, FORMAT;
    hide ARCHITECTURE, QUANTIZATION, STATUS, VERIFIED_AT, CHECKSUM;
    hide Encoded, PrintNat, ReadLines, Line, KnownKey, PlainKey;
    ReadFive(MODEL_ID, Encoded(e.modelId), DISPLAY_NAME, Encoded(e.displayName), LOCAL_PATH, Encoded(e.localPath),
             FILE_SIZE, PrintNat(e.fileSize), FORMAT, Encoded(e.format), rest, map[], entries);
  }

  lemma ReadLastLines(e: Entry, rest: seq<string>, entries: seq<Entry>)
    ensures ReadLines(LastLines(e) + rest, FirstFields(e), entries) == ReadLines(rest, FieldsOf(e), entries)
    ensures FieldsOf(e) != map[]
  {
    KeysArePlain();
    KeysAreKnown();
    hide MODEL_ID, DISPLAY_NAME, LOCAL_PATH, FILE_SIZE, FORMAT;
    hide ARCHITECTURE, QUANTIZATION, STATUS, VERIFIED_AT, CHECKSUM;
    hide Encoded, PrintNat, PrintInt, ReadLines, Line, KnownKey, PlainKey, FirstFields;
    ReadFive(ARCHITECTURE, Encoded(e.architecture), QUANTIZATION, Encoded(e.quantization), STATUS, PrintNat(e.status),
             VERIFIED_AT, PrintInt(e.verifiedAt), CHECKSUM, Encoded(e.checksum), rest, FirstFields(e), entries);
    assert CHECKSUM in FieldsOf(e);
  }

  lemma ReadEntry(e: Entry, rest: seq<string>, entries: seq<Entry>)
    requires e.InRange() && e.modelId != ""
    ensures ReadLines(EntryLines(e) + rest, map[], entries) == ReadLines(rest, map[], entries + [e])
  {
    hide FirstLines, LastLines, FirstFields, FieldsOf, ReadLines, EntryOfFields;
    var blank := [""] + rest;
    assert EntryLines(e) + rest == FirstLines(e) + (LastLines(e) + blank);
    ReadFirstLines(e, LastLines(e) + blank, entries);
    ReadLastLines(e, blank, entries);
    EntryOfItsFields(e);
    ReadBlank(rest, FieldsOf(e), entries, e);
  }

  lemma {:induction false} ReadEntries(entries: seq<Entry>, rest: seq<string>)
    requires Storable(entries)
    ensures ReadLines(EntriesLines(entries) + rest, map[], []) == ReadLines(rest, map[], entries)
  {
    hide ReadLines, EntryLines;
    if entries == [] {
      assert EntriesLines(entries) + rest == rest;
    } else {
      var before, e := entries[..|entries| - 1], entries[|entries| - 1];
      ReadEntries(before, EntryLines(e) + rest);
      assert EntriesLines(entries) + rest == EntriesLines(before) + (EntryLines(e) + rest);
      ReadEntry(e, rest, before);
      assert before + [e] == entries;
    }
  }

  lemma EntryLinesAreLines(e: Entry)
    ensures forall i :: 0 <= i < |EntryLines(e)| ==> OneLine(EntryLines(e)[i])
  {
    KeysArePlain();
    hide MODEL_ID, DISPLAY_NAME, LOCAL_PATH, FILE_SIZE, FORMAT;
    hide ARCHITECTURE, QUANTIZATION, STATUS, VERIFIED_AT, CHECKSUM;
    EncodedIsPlain(e.modelId);
    EncodedIsPlain(e.displayName);
    EncodedIsPlain(e.localPath);
    EncodedIsPlain(e.format);
    EncodedIsPlain(e.architecture);
    EncodedIsPlain(e.quantization);
    EncodedIsPlain(e.checksum);
    PrintIntOfNat(e.fileSize);
    PrintIntOfNat(e.status);
    PrintIntIsPlain(e.fileSize);
    PrintIntIsPlain(e.status);
    PrintIntIsPlain(e.verifiedAt);
    hide Encoded, PrintNat, PrintInt;
  }

  lemma {:induction false} EntriesLinesAreLines(entries: seq<Entry>)
    ensures forall i :: 0 <= i < |EntriesLines(entries)| ==> OneLine(EntriesLines(entries)[i])
  {
    hide EntryLines, OneLine;
    if entries != [] {
      EntriesLinesAreLines(entries[..|entries| - 1]);
      EntryLinesAreLines(entries[|entries| - 1]);
    }
  }

  lemma FirstLinesAre(e: Entry)
    ensures FirstLines(e) == ["model_id=" + Encoded(e.modelId), "display_name=" + Encoded(e.displayName),
                              "local_path=" + Encoded(e.localPath), "file_size_bytes=" + PrintNat(e.fileSize),
                              "format=" + Encoded(e.format)]
  {
    hide Encoded, PrintNat;
    assert MODEL_ID + "=" == "model_id=" && DISPLAY_NAME + "=" == "display_name=" && FORMAT + "=" == "format=";
    assert LOCAL_PATH + "=" == "local_path=" && FILE_SIZE + "=" == "file_size_bytes=";
  }

  lemma LastLinesAre(e: Entry)
    ensures LastLines(e) == ["architecture=" + Encoded(e.architecture), "quantization=" + Encoded(e.quantization),
                             "verification_status=" + PrintNat(e.status),
                             "verified_at_unix=" + PrintInt(e.verifiedAt),
                             "expected_checksum_sha256=" + Encoded(e.checksum)]
  {
    hide Encoded, PrintNat, PrintInt;
    assert ARCHITECTURE + "=" == "architecture=" && QUANTIZATION + "=" == "quantization=";
    assert STATUS + "=" == "verification_status=" && VERIFIED_AT + "=" == "verified_at_unix=";
    assert CHECKSUM + "=" == "expected_checksum_sha256=";
  }

  /** The lines of a registry file with one entry. */
  lemma RegistryTextLines(e: Entry)
    ensures Lines(RegistryText([e])) ==
            ["SYJ_EDGEMIND_MODEL_REGISTRY_V1"]
            + (["model_id=" + Encoded(e.modelId), "display_name=" + Encoded(e.displayName),
                "local_path=" + Encoded(e.localPath), "file_size_bytes=" + PrintNat(e.fileSize),
                "format=" + Encoded(e.format)]
               + ["architecture=" + Encoded(e.architecture), "quantization=" + Encoded(e.quantization),
                  "verification_status=" + PrintNat(e.status), "verified_at_unix=" + PrintInt(e.verifiedAt),
                  "expected_checksum_sha256=" + Encoded(e.checksum)]
               + [""])
  {
    hide Encoded, PrintNat, PrintInt, OneLine, Lines, Unlines, FirstLines, LastLines;
    KeysArePlain();
    EntryLinesAreLines(e);
    FirstLinesAre(e);
    LastLinesAre(e);
    assert EntriesLines([e]) == EntryLines(e) by {
      assert [e][..0] == [] && EntriesLines([]) == [] && [] + EntryLines(e) == EntryLines(e);
    }
    LinesOfUnlines([MAGIC] + EntryLines(e));
  }

  /** Whatever bytes the text fields hold, loading what was saved gives back the list, in order. */
  lemma LoadOfRegistryText(entries: seq<Entry>)
    requires Storable(entries)
    ensures LoadText(Some(RegistryText(entries))) == Loaded(Ok, entries)
  {
    KeysArePlain();
    hide MAGIC, ReadLines, EntriesLines;
    var body := EntriesLines(entries);
    EntriesLinesAreLines(entries);
    LinesOfUnlines([MAGIC] + body);
    assert ([MAGIC] + body)[1..] == body;
    var none: seq<string> := [];
    ReadEntries(entries, none);
    assert body + none == body;
    ReadNothing(entries);
  }

  lemma ReadNothing(entries: seq<Entry>)
    ensures ReadLines([], map[], entries) == Loaded(Ok, entries)
  {
  }

  // ---------- What a corrupt registry leaves in the list ----------

  /** The lines up to the end of the first block yield no entry: there is no block, it lacks a field or has a bad
      one, or a line in it has no known key. */
  predicate NoFirstEntry(lines: seq<string>, fields: Fields) {
    if lines == [] then fields == map[] || EntryOfFields(fields).None?
    else if lines[0] == "" then
      if fields == map[] then NoFirstEntry(lines[1..], fields) else EntryOfFields(fields).None?
    else match SplitField(lines[0])
         case None => true
         case Some((key, value)) => KnownKey(key) ==> NoFirstEntry(lines[1..], fields[key := value])
  }

  lemma {:induction false} EntriesStay(lines: seq<string>, fields: Fields, entries: seq<Entry>)
    ensures entries <= ReadLines(lines, fields, entries).entries
  {
    hide EntryOfFields, SplitField, KnownKey;
    if lines != [] {
      EntriesStay(lines[1..], map[], Flush(fields, entries).entries);
      match SplitField(lines[0]) {
        case None =>
        case Some((key, value)) => EntriesStay(lines[1..], fields[key := value], entries);
      }
    }
  }

  lemma {:induction false} ReadNoEntry(lines: seq<string>, fields: Fields)
    ensures ReadLines(lines, fields, []).entries == [] <==> NoFirstEntry(lines, fields)
  {
    hide EntryOfFields, SplitField, KnownKey;
    if lines != [] {
      if lines[0] == "" {
        if fields == map[] {
          ReadNoEntry(lines[1..], fields);
        } else if EntryOfFields(fields).Some? {
          var e := EntryOfFields(fields).value;
          assert [] + [e] == [e];
          EntriesStay(lines[1..], map[], [e]);
        }
      } else {
        match SplitField(lines[0]) {
          case None =>
          case Some((key, value)) => ReadNoEntry(lines[1..], fields[key := value]);
        }
      }
    }
  }

  /** For every file, corrupt or not: a load leaves nothing in the list if and only if the magic line is missing or the
      first block yields no entry. */
  lemma NothingLeftExactly(text: string)
    ensures LoadText(Some(text)).entries == []
       <==> Lines(text) == [] || Lines(text)[0] != MAGIC || NoFirstEntry(Lines(text)[1..], map[])
  {
    hide MAGIC, ReadLines, NoFirstEntry;
    var lines := Lines(text);
    if lines != [] {
      ReadNoEntry(lines[1..], map[]);
    }
  }

  /** A registry can be corrupt and still have entries in it: those read before a line without a key. */
  lemma CorruptedKeepsEntries(entries: seq<Entry>)
    requires Storable(entries)
    ensures LoadText(Some(RegistryText(entries) + "x\n")) == Loaded(Corrupted, entries)
  {
    KeysArePlain();
    hide MAGIC, EntriesLines, ReadLines;
    var body, rest := EntriesLines(entries), ["x"];
    EntriesLinesAreLines(entries);
    UnlinesAppend([MAGIC] + body, rest);
    assert Unlines(rest) == "x\n" by {
      assert Unlines(rest) == "x" + "\n" + Unlines(rest[1..]);
      assert rest[1..] == [] && "x" + "\n" + [] == "x\n";
    }
    assert RegistryText(entries) + "x\n" == Unlines([MAGIC] + body + rest);
    LinesOfUnlines([MAGIC] + body + rest);
    assert ([MAGIC] + body + rest)[1..] == body + rest;
    ReadEntries(entries, rest);
    ReadGarbage(entries);
  }

  lemma ReadGarbage(entries: seq<Entry>)
    ensures ReadLines(["x"], map[], entries) == Loaded(Corrupted, entries)
  {
  }
}
