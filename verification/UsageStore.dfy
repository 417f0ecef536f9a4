/** The persisted usage state: a text file with a magic line and five key=value lines. */
module UsageStore {
  import opened Wrappers
  import opened TextCodec
  import opened FileSystem
  import opened UsageTypes

  datatype LoadResult = Ok | NotFound | Corrupted

  /** What a load yields; the state is the fresh one unless the result is Ok. */
  datatype Loaded = Loaded(result: LoadResult, state: UsageState)

  const MAGIC := "SYJ_EDGEMIND_USAGE_STATE_V1"
  const VERSION := "version"
  const PERIOD_START := "period_start_unix"
  const MESSAGES := "messages_used_this_period"
  const TOKENS := "tokens_used_this_period"
  const SESSION_START := "session_start_unix"

  function Field(key: string, value: int): string { key + "=" + PrintInt(value) }

  function StateLines(s: UsageState): seq<string> {
    [MAGIC, Field(VERSION, s.version), Field(PERIOD_START, s.periodStart), Field(MESSAGES, s.messages),
     Field(TOKENS, s.tokens), Field(SESSION_START, s.sessionStart)]
  }

  function StateText(s: UsageState): string { Unlines(StateLines(s)) }

  /** The fields read from lines on top of those already known; None at a line without a key. */
  function ReadFields(lines: seq<string>, fields: map<string, string>): Option<map<string, string>> {
    if lines == [] then Some(fields)
    else if lines[0] == "" then ReadFields(lines[1..], fields)
    else match SplitField(lines[0])
         case None => None
         case Some((key, value)) => ReadFields(lines[1..], fields[key := value])
  }

  function StateOfFields(fields: map<string, string>): Option<UsageState> {
    match (IntField(fields, VERSION), IntField(fields, PERIOD_START), IntField(fields, MESSAGES),
           IntField(fields, TOKENS), IntField(fields, SESSION_START))
    case (Some(version), Some(period), Some(messages), Some(tokens), Some(session)) =>
      var s := UsageState(version, period, messages, tokens, session);
      if 0 <= version <= MAX_I32 && ValidState(s) then Some(s) else None
    case _ => None
  }

  /** The fields make a state exactly when all five are there as numbers and in range. */
  lemma StateExactly(fields: map<string, string>, s: UsageState)
    ensures StateOfFields(fields) == Some(s) <==>
            && IntField(fields, "version") == Some(1) && s.version == 1
            && IntField(fields, "period_start_unix") == Some(s.periodStart) && 0 <= s.periodStart <= 4102444800
            && IntField(fields, "session_start_unix") == Some(s.sessionStart) && 0 <= s.sessionStart <= 4102444800
            && IntField(fields, "messages_used_this_period") == Some(s.messages)
            && 0 <= s.messages <= 1_000_000_000_000_000
            && IntField(fields, "tokens_used_this_period") == Some(s.tokens)
            && 0 <= s.tokens <= 1_000_000_000_000_000
  {
    hide IntField;
  }

  /** What load answers for a file's contents (None when it cannot be opened). */
  function LoadText(text: Option<string>): Loaded {
    match text
    case None => Loaded(NotFound, FRESH)
    case Some(t) =>
      var lines := Lines(t);
      if lines == [] || lines[0] != MAGIC then Loaded(Corrupted, FRESH)
      else match ReadFields(lines[1..], map[])
           case None => Loaded(Corrupted, FRESH)
           case Some(fields) =>
             match StateOfFields(fields)
             case None => Loaded(Corrupted, FRESH)
             case Some(s) => Loaded(Ok, s)
  }

  lemma LoadedStatesAreValid(text: Option<string>)
    ensures ValidState(LoadText(text).state)
  {
  }

  lemma KeysAreDistinct()
    ensures VERSION != PERIOD_START && VERSION != MESSAGES && VERSION != TOKENS && VERSION != SESSION_START
    ensures PERIOD_START != MESSAGES && PERIOD_START != TOKENS && PERIOD_START != SESSION_START
    ensures MESSAGES != TOKENS && MESSAGES != SESSION_START && TOKENS != SESSION_START
  {
    assert |VERSION| == 7 && |PERIOD_START| == 17 && |MESSAGES| == 25 && |TOKENS| == 23 && |SESSION_START| == 18;
  }

  lemma KeysArePlain()
    ensures PlainKey(VERSION) && PlainKey(PERIOD_START) && PlainKey(MESSAGES)
    ensures PlainKey(TOKENS) && PlainKey(SESSION_START) && OneLine(MAGIC)
  {
    hide PlainKey, OneLine;
    PlainByIndex(VERSION);
    PlainByIndex(PERIOD_START);
    PlainByIndex(MESSAGES);
    PlainByIndex(TOKENS);
    PlainByIndex(SESSION_START);
    PlainByIndex(MAGIC);
  }

  lemma ReadField(key: string, value: int, rest: seq<string>, fields: map<string, string>)
    requires PlainKey(key)
    ensures OneLine(Field(key, value))
    ensures ReadFields([Field(key, value)] + rest, fields) == ReadFields(rest, fields[key := PrintInt(value)])
  {
    PrintIntIsPlain(value);
    SplitFieldOfJoin(key, PrintInt(value));
    assert ([Field(key, value)] + rest)[1..] == rest;
  }

  /** The lines of a state file. */
  lemma StateTextLines(s: UsageState)
    ensures Lines(StateText(s)) ==
            ["SYJ_EDGEMIND_USAGE_STATE_V1", "version=" + PrintInt(s.version),
             "period_start_unix=" + PrintInt(s.periodStart), "messages_used_this_period=" + PrintInt(s.messages),
             "tokens_used_this_period=" + PrintInt(s.tokens), "session_start_unix=" + PrintInt(s.sessionStart)]
  {
    KeysArePlain();
    ReadField(VERSION, s.version, [], map[]);
    ReadField(PERIOD_START, s.periodStart, [], map[]);
    ReadField(MESSAGES, s.messages, [], map[]);
    ReadField(TOKENS, s.tokens, [], map[]);
    ReadField(SESSION_START, s.sessionStart, [], map[]);
    assert VERSION + "=" == "version=" && PERIOD_START + "=" == "period_start_unix=";
    assert MESSAGES + "=" == "messages_used_this_period=" && TOKENS + "=" == "tokens_used_this_period=";
    assert SESSION_START + "=" == "session_start_unix=";
    hide PrintInt, OneLine, Lines, Unlines;
    LinesOfUnlines(StateLines(s));
  }

  /** A valid state is reloaded unchanged. */
  lemma LoadOfStateText(s: UsageState)
    requires ValidState(s)
    ensures LoadText(Some(StateText(s))) == Loaded(Ok, s)
  {
    KeysAreDistinct();
    KeysArePlain();
    hide MAGIC, VERSION, PERIOD_START, MESSAGES, TOKENS, SESSION_START, Field, ReadFields, PrintInt, ParseI64;
    var none: seq<string> := [];
    var f5 := [Field(SESSION_START, s.sessionStart)];
    var f4 := [Field(TOKENS, s.tokens)] + f5;
    var f3 := [Field(MESSAGES, s.messages)] + f4;
    var f2 := [Field(PERIOD_START, s.periodStart)] + f3;
    var m1 := map[VERSION := PrintInt(s.version)];
    var m2 := m1[PERIOD_START := PrintInt(s.periodStart)];
    var m3 := m2[MESSAGES := PrintInt(s.messages)];
    var m4 := m3[TOKENS := PrintInt(s.tokens)];
    ReadField(VERSION, s.version, f2, map[]);
    ReadField(PERIOD_START, s.periodStart, f3, m1);
    ReadField(MESSAGES, s.messages, f4, m2);
    ReadField(TOKENS, s.tokens, f5, m3);
    ReadField(SESSION_START, s.sessionStart, none, m4);
    assert f5 == [Field(SESSION_START, s.sessionStart)] + none;
    var m5 := m4[SESSION_START := PrintInt(s.sessionStart)];
    assert ReadFields(none, m5) == Some(m5) by { ReadNothing(m5); }
    assert StateLines(s)[1..] == [Field(VERSION, s.version)] + f2;
    LinesOfUnlines(StateLines(s));
    ParseOfPrintInt(s.version);
    ParseOfPrintInt(s.periodStart);
    ParseOfPrintInt(s.messages);
    ParseOfPrintInt(s.tokens);
    ParseOfPrintInt(s.sessionStart);
  }

  lemma ReadNothing(fields: map<string, string>)
    ensures ReadFields([], fields) == Some(fields)
  {
  }

  // ---------- The store ----------

  method Load(disk: Disk, path: string) returns (loaded: Loaded)
    ensures loaded == LoadText(Get(disk.files, path))
  {
    hide MAGIC, ValidState, ParseI64;
    if path !in disk.files {
      return Loaded(NotFound, FRESH);
    }
    var lines := Lines(disk.files[path]);
    if |lines| == 0 || lines[0] != MAGIC {
      return Loaded(Corrupted, FRESH);
    }
    var fields: map<string, string> := map[];
    for i := 1 to |lines|
      invariant ReadFields(lines[1..], map[]) == ReadFields(lines[i..], fields)
    {
      var line := lines[i];
      assert lines[i..][1..] == lines[i + 1..];
      if line != "" {
        var eq := Find(line, '=');
        if eq == |line| || eq == 0 {
          return Loaded(Corrupted, FRESH);
        }
        fields := fields[line[..eq] := line[eq + 1..]];
      }
    }
    var parsed := StateOfFields(fields);
    loaded := if parsed.None? then Loaded(Corrupted, FRESH) else Loaded(Ok, parsed.value);
  }

  /** The files after a save: a state that could not be loaded back is refused. */
  function SavedState(files: Files, path: string, s: UsageState, io: Io): Files {
    if ValidState(s) then SavedFiles(files, path, StateText(s), false, io) else files
  }

  /** What a load sees after a save, of this file and of any other. */
  lemma LoadOfSavedState(files: Files, path: string, s: UsageState, io: Io)
    ensures var after := SavedState(files, path, s, io);
            && LoadText(Get(after, path)) == (if ValidState(s) && io.Works() then Loaded(Ok, s)
                                              else LoadText(Get(files, path)))
            && OnlyTouches(files, after, path)
  {
    hide StateText, LoadText, ValidState;
    if ValidState(s) {
      LoadOfStateText(s);
      SavedFilesAt(files, path, StateText(s), false, io);
    }
  }

  /** Persists a valid state through a temporary file; refuses any other without touching the disk. */
  method Save(disk: Disk, path: string, state: UsageState, io: Io) returns (ok: bool)
    modifies disk
    ensures ok <==> ValidState(state) && io.Works()
    ensures disk.files == SavedState(old(disk.files), path, state, io)
    ensures LoadText(Get(disk.files, path)) == if ok then Loaded(Ok, state) else LoadText(Get(old(disk.files), path))
    ensures !ValidState(state) ==> disk.states == old(disk.states)
    ensures forall d :: d in disk.states && d !in old(disk.states) ==>
                          CrashSafe(old(disk.files), d, path, StateText(state), false)
  {
    hide StateText, LoadText, CrashSafe, SavedFiles;
    LoadOfSavedState(disk.files, path, state, io);
    if !ValidState(state) {
      return false;
    }
    ok := disk.Replace(path, StateText(state), false, io);
  }

  /** A load after a crash during the save of a valid state sees the old state or the new one. */
  lemma CrashedSavesLoadOldOrNew(before: Files, after: Files, path: string, state: UsageState)
    requires ValidState(state) && CrashSafe(before, after, path, StateText(state), false)
    ensures LoadText(Get(after, path)) in {LoadText(Get(before, path)), Loaded(Ok, state)}
  {
    LoadOfStateText(state);
  }
}
