/** What a load request asks for, and the request a reload builds for itself. */
module Reload {
  import opened Wrappers
  import opened TextCodec
  import opened Json

  /** RuntimeConfigState without its two floating-point fields. */
  datatype ConfigState = ConfigState(
    modelPath: string,
    modelId: string,
    expectedChecksum: string,
    registryPath: string,
    usageStatePath: string,
    contextSize: nat,
    threads: nat,
    topK: int,
    maxTokens: int,
    memoryBudgetMb: int,
    safetyReserveMb: int,
    sessionTimeLimit: int,
    dailyMessageLimit: int,
    dailyTokenLimit: int,
    resetPeriod: int
  )
  {
    /** A model has been selected, by id or by path but not by both: what every accepted request leaves. */
    predicate OneSelector() { (modelId == "") != (modelPath == "") }

    function Selected(): string { if modelId == "" then modelPath else modelId }

    function SelectorKey(): string { if modelId == "" then MODEL_PATH else MODEL_ID }
  }

  const MODEL_ID := "model_id"
  const MODEL_PATH := "model_path"
  const CONTEXT_SIZE := "context_size"
  const THREADS := "threads"

  datatype Request = Accepted(candidate: ConfigState) | TooLarge | NotOneSelector

  /** A selector counts only when its key reads as a non-empty string. */
  function Selector(body: string, key: string): string {
    StringValue(body, key).UnwrapOr("")
  }

  /** The part of load_from_request that decides what to load. */
  function ParseRequest(state: ConfigState, body: string): (r: Request)
    ensures r.Accepted? ==> r.candidate.OneSelector()
  {
    if |body| > MAX_REQUEST_BODY then TooLarge
    else
      var id, path := Selector(body, MODEL_ID), Selector(body, MODEL_PATH);
      if (id != "") == (path != "") then NotOneSelector
      else
        Accepted(state.(
          modelId := id,
          modelPath := path,
          contextSize := IntValue(body, CONTEXT_SIZE).UnwrapOr(state.contextSize),
          threads := IntValue(body, THREADS).UnwrapOr(state.threads)))
  }

  /** An object that begins with a string member: the key, the inside of its string, and what follows the string. */
  function BodyWith(key: string, inside: string, tail: string): string {
    "{\"" + key + "\":\"" + inside + "\"" + tail
  }

  /** A one-member object. */
  function SelectorBody(key: string, inside: string): string { BodyWith(key, inside, "}") }

  /** The body reload_current builds from the stored configuration. */
  function ReloadBody(state: ConfigState): string {
    SelectorBody(state.SelectorKey(), Escaped(state.Selected()))
  }

  /** A key of the protocol: no quote, no backslash, and not the one character between a key and its value. */
  predicate PlainJsonKey(key: string) {
    key != "" && key != ":" && forall i :: 0 <= i < |key| ==> key[i] != '"' && key[i] != '\\'
  }

  lemma KeysArePlain()
    ensures PlainJsonKey(MODEL_ID) && PlainJsonKey(MODEL_PATH) && PlainJsonKey(CONTEXT_SIZE) && PlainJsonKey(THREADS)
    ensures |MODEL_ID| == 8 && |MODEL_PATH| == 10 && |CONTEXT_SIZE| == 12 && |THREADS| == 7
  {
  }

  lemma FoundAt(s: string, needle: string, from: nat, i: nat)
    requires from <= i && OccursAt(s, needle, i)
    requires forall k :: from <= k < i ==> !OccursAt(s, needle, k)
    ensures FindText(s, needle, from) == Some(i)
  {
    hide FindText, OccursAt;
    var r := FindText(s, needle, from);
  }

  lemma FoundNowhere(s: string, needle: string, from: nat)
    requires forall i :: from <= i ==> !OccursAt(s, needle, i)
    ensures FindText(s, needle, from) == None
  {
    hide FindText, OccursAt;
    var r := FindText(s, needle, from);
  }

  /** Every quote in the inside of a string literal is escaped. */
  ghost predicate QuotesEscaped(inside: string) {
    forall i :: 0 <= i < |inside| && inside[i] == '"' ==> i > 0 && inside[i - 1] == '\\'
  }

  /** Where the parts of a body lie, and where its quotes can be. */
  lemma BodyShape(key: string, inside: string, tail: string)
    requires QuotesEscaped(inside)
    ensures var body, v := BodyWith(key, inside, tail), |key| + 5;
            && |body| == v + |inside| + 1 + |tail| && body[0] == '{' && body[1] == '"' && body[2..2 + |key|] == key
            && body[2 + |key|] == '"' && body[3 + |key|] == ':' && body[4 + |key|] == '"'
            && body[v..] == inside + "\"" + tail
            && body[v + |inside|] == '"' && body[v + |inside| + 1..] == tail
            && forall j :: v <= j < v + |inside| && body[j] == '"' ==> body[j - 1] == '\\'
  {
    var body, v := BodyWith(key, inside, tail), |key| + 5;
    assert body == (("{\"" + key) + "\":\"") + (inside + "\"" + tail);
    assert body[v..] == inside + "\"" + tail;
    assert body[v + |inside| + 1..] == tail;
    forall j | v <= j < v + |inside| && body[j] == '"' ensures body[j - 1] == '\\' {
      assert body[j] == inside[j - v];
      assert body[j - 1] == inside[j - v - 1];
    }
  }

  /** The key a body begins with is found at once. */
  lemma OwnKeyIsFound(key: string, inside: string, tail: string)
    requires PlainJsonKey(key) && QuotesEscaped(inside)
    ensures ValuePosition(BodyWith(key, inside, tail), key) == Some(4 + |key|)
  {
    hide BodyWith, FindText, QuotesEscaped;
    var body, needle := BodyWith(key, inside, tail), Quoted(key);
    BodyShape(key, inside, tail);
    assert body[1..3 + |key|] == [body[1]] + body[2..2 + |key|] + [body[2 + |key|]];
    assert OccursAt(body, needle, 1);
    assert !OccursAt(body, needle, 0) by {
      assert |needle| <= |body| ==> body[0..|needle|][0] == '{';
    }
    FoundAt(body, needle, 0, 1);
    FoundAt(body, ":", 3 + |key|, 3 + |key|);
    assert SkipSpacesFrom(body, 4 + |key|) == 4 + |key|;
  }

  /** Reading it reads the literal, whatever it is. */
  lemma OwnKeyIsRead(key: string, inside: string, tail: string)
    requires PlainJsonKey(key) && QuotesEscaped(inside)
    ensures StringValue(BodyWith(key, inside, tail), key) == ReadLiteral(inside + "\"" + tail, 0)
  {
    hide BodyWith, ValuePosition, ReadLiteral, QuotesEscaped;
    BodyShape(key, inside, tail);
    OwnKeyIsFound(key, inside, tail);
    assert BodyWith(key, inside, tail)[5 + |key|..] == inside + "\"" + tail;
  }

  /** Another quoted key can occur only up to the quote that closes the string, or from there on. */
  lemma OtherKeyPlaces(key: string, inside: string, tail: string, other: string, k: nat)
    requires PlainJsonKey(key) && PlainJsonKey(other) && other != key && QuotesEscaped(inside)
    requires OccursAt(BodyWith(key, inside, tail), Quoted(other), k)
    ensures var close := |key| + 5 + |inside|; (k + |other| + 1 == close && |other| <= |inside|) || k >= close
  {
    hide BodyWith, QuotesEscaped;
    var body, needle := BodyWith(key, inside, tail), Quoted(other);
    BodyShape(key, inside, tail);
    var j := k + |other| + 1;
    forall i | 0 <= i < |needle| ensures body[k + i] == needle[i] {
      assert body[k..k + |needle|][i] == needle[i];
    }
    assert body[j] == '"' && body[k] == '"';
    forall i | k < i < j ensures body[i] == other[i - k - 1] && body[i] != '"' && body[i] != '\\' {
      assert body[k + (i - k)] == needle[i - k];
    }
    assert body[j - 1] != '\\' && other == body[k + 1..j];
    forall i | 2 <= i < 2 + |key| ensures body[i] != '"' {
      assert body[i] == body[2..2 + |key|][i - 2];
    }
    assert body[3 + |key|..4 + |key|] == ":";
  }

  /** In a one-selector body no other key has a value, whatever the literal contains. */
  lemma OtherKeyIsAbsent(key: string, inside: string, other: string)
    requires PlainJsonKey(key) && PlainJsonKey(other) && other != key && QuotesEscaped(inside)
    ensures ValuePosition(SelectorBody(key, inside), other) == None
  {
    hide BodyWith, FindText, PlainJsonKey, QuotesEscaped;
    var body, needle := SelectorBody(key, inside), Quoted(other);
    var k := FindText(body, needle, 0);
    if k.Some? {
      OtherKeyPlaces(key, inside, "}", other, k.value);
      BodyShape(key, inside, "}");
      assert body[|body| - 1..|body|] == "}";
      FoundNowhere(body, ":", |body| - 1);
    }
  }

  /** What parsing a one-selector body gives: only the literal decides. */
  lemma ParseSelectorBody(state: ConfigState, key: string, inside: string)
    requires key == MODEL_ID || key == MODEL_PATH
    requires QuotesEscaped(inside)
    ensures ParseRequest(state, SelectorBody(key, inside))
         == var value := ReadLiteral(inside + "\"}", 0).UnwrapOr("");
            if |SelectorBody(key, inside)| > MAX_REQUEST_BODY then TooLarge
            else if value == "" then NotOneSelector
            else if key == MODEL_ID then Accepted(state.(modelId := value, modelPath := ""))
            else Accepted(state.(modelPath := value, modelId := ""))
  {
    hide BodyWith, ValuePosition, ReadLiteral, PlainJsonKey, LeadingI64, QuotesEscaped;
    KeysArePlain();
    hide MODEL_ID, MODEL_PATH, CONTEXT_SIZE, THREADS;
    OtherKeyIsAbsent(key, inside, if key == MODEL_ID then MODEL_PATH else MODEL_ID);
    OtherKeyIsAbsent(key, inside, CONTEXT_SIZE);
    OtherKeyIsAbsent(key, inside, THREADS);
    OwnKeyIsRead(key, inside, "}");
    assert inside + "\"" + "}" == inside + "\"}";
  }

  /** Whether a stored selection survives the round through the reload body. */
  ghost predicate Reloadable(state: ConfigState) {
    |ReloadBody(state)| <= MAX_REQUEST_BODY && AllRereadable(state.Selected())
  }

  /** A reload asks for exactly the configuration in force if its body is short enough and the selection holds
      no control character without a short escape; otherwise it is refused. */
  lemma ReloadIsIdentity(state: ConfigState)
    requires state.OneSelector()
    ensures Reloadable(state) ==> ParseRequest(state, ReloadBody(state)) == Accepted(state)
    ensures !Reloadable(state) ==> !ParseRequest(state, ReloadBody(state)).Accepted?
  {
    hide ParseRequest, AllRereadable, ReadLiteral, Escaped;
    KeysArePlain();
    hide MODEL_ID, MODEL_PATH;
    var key, value := state.SelectorKey(), state.Selected();
    EscapedIsLegal(value);
    QuotesFollowBackslashes(value);
    ParseSelectorBody(state, key, Escaped(value));
    if |ReloadBody(state)| <= MAX_REQUEST_BODY {
      ReadEscaped(value, "}", 0);
      assert Escaped(value) + "\"" + "}" == Escaped(value) + "\"}";
    }
  }

  lemma {:induction false} ReadRaw(value: string, rest: string, size: nat)
    requires '"' !in value && '\\' !in value
    ensures ReadLiteral(value + "\"" + rest, size) == Some(value)
  {
    var s := value + "\"" + rest;
    if value == [] {
      assert s == "\"" + rest;
    } else {
      ReadRaw(value[1..], rest, size + 1);
      assert s[1..] == value[1..] + "\"" + rest;
      assert value == [value[0]] + value[1..];
    }
  }

  /** The failing family is reachable: a path sent with a raw control character is accepted, and its reload is not. */
  lemma AcceptedButNotReloadable(state: ConfigState, path: string)
    requires '"' !in path && '\\' !in path && !AllRereadable(path)
    requires |path| <= MAX_REQUEST_BODY - 17
    ensures var sent := ParseRequest(state, SelectorBody(MODEL_PATH, path));
            && sent == Accepted(state.(modelPath := path, modelId := ""))
            && !Reloadable(sent.candidate)
  {
    hide ParseRequest, ReadLiteral, Rereadable;
    KeysArePlain();
    hide MODEL_PATH, MODEL_ID;
    ParseSelectorBody(state, MODEL_PATH, path);
    ReadRaw(path, "}", 0);
    assert path + "\"" + "}" == path + "\"}";
  }

  // ---------- Numbers ----------

  function NumberBody(key: string, n: nat): string {
    "{\"" + key + "\":" + (PrintNat(n) + "}")
  }

  lemma LeadingOfPrinted(n: nat, rest: string)
    requires rest != "" && !IsDigit(rest[0])
    ensures LeadingI64(PrintNat(n) + rest) == if n <= MAX_I64 then Some(n) else None
  {
    hide DigitRun, Digits;
    var s := PrintNat(n);
    var t := s + rest;
    DigitsOfPrintNat(n);
    assert t[0] == s[0] && SkipSpaces(t) == t;
    var run := DigitRun(t);
    assert forall i :: 0 <= i < |s| ==> t[i] == s[i];
    assert t[|s|] == rest[0];
    assert t[..run] == s;
  }

  /** parse_json_int reads a printed number back, and refuses it beyond 2^31 - 1. */
  lemma NumberIsRead(key: string, n: nat)
    requires PlainJsonKey(key)
    ensures IntValue(NumberBody(key, n), key) == if n <= MAX_I32 then Some(n) else None
  {
    hide FindText, LeadingI64, PrintNat;
    var digits := PrintNat(n) + "}";
    var body, needle := NumberBody(key, n), Quoted(key);
    assert body == "{" + needle + ":" + digits;
    assert body[1..3 + |key|] == needle && body[3 + |key|..4 + |key|] == ":" && body[4 + |key|..] == digits;
    assert OccursAt(body, needle, 1) && OccursAt(body, ":", 3 + |key|);
    assert !OccursAt(body, needle, 0) by {
      assert |needle| <= |body| ==> body[0..|needle|][0] == '{';
    }
    FoundAt(body, needle, 0, 1);
    FoundAt(body, ":", 3 + |key|, 3 + |key|);
    assert body[4 + |key|] == PrintNat(n)[0];
    assert SkipSpacesFrom(body, 4 + |key|) == 4 + |key|;
    LeadingOfPrinted(n, "}");
  }
}
