/** The load request the dashboard page sends: one selector, then a context size, then a thread count. */
module PageRequest {
  import opened Wrappers
  import opened TextCodec
  import opened Json
  import opened Reload

  const BEFORE_CONTEXT := ",\"context_size\":"
  const BEFORE_THREADS := ",\"threads\":"

  /** What follows the selector's string. */
  function Numbers(context: nat, threads: nat): string {
    BEFORE_CONTEXT + (PrintNat(context) + (BEFORE_THREADS + (PrintNat(threads) + "}")))
  }

  /** JSON.stringify of the page's three members; the selector's value is escaped as the dashboard itself escapes. */
  function PageBody(key: string, value: string, context: nat, threads: nat): string {
    BodyWith(key, Escaped(value), Numbers(context, threads))
  }

  ghost predicate EndsWith(s: string, end: string) { |end| <= |s| && s[|s| - |end|..] == end }

  lemma PartsOf(a: string, b: string, c: string, d: string)
    ensures var s, i, j := a + (b + (c + d)), |a| + |b|, |a| + |b| + |c|;
            && |s| == j + |d| && s[..|a|] == a && s[|a|..i] == b && s[i..j] == c && s[j..] == d
            && s[|a|..] == b + (c + d)
  {
    var s, i, j := a + (b + (c + d)), |a| + |b|, |a| + |b| + |c|;
    assert s[|a|..] == b + (c + d);
    assert s[i..] == c + d;
  }

  lemma ContextLiteral()
    ensures |BEFORE_CONTEXT| == 16 && BEFORE_CONTEXT[1..15] == Quoted(CONTEXT_SIZE) && BEFORE_CONTEXT[15] == ':'
    ensures forall i :: 0 <= i < 15 ==> BEFORE_CONTEXT[i] != ':'
    ensures forall i :: 0 <= i < 16 ==> (BEFORE_CONTEXT[i] == '"' <==> i == 1 || i == 14)
    ensures BEFORE_CONTEXT[0] == ',' && BEFORE_CONTEXT[2] == 'c'
  {
    assert |CONTEXT_SIZE| == 12 && BEFORE_CONTEXT[1..15] == [BEFORE_CONTEXT[1]] + BEFORE_CONTEXT[2..14] + "\"";
    assert BEFORE_CONTEXT[2..14] == CONTEXT_SIZE;
  }

  lemma ThreadsLiteral()
    ensures |BEFORE_THREADS| == 11 && BEFORE_THREADS[1..10] == Quoted(THREADS) && BEFORE_THREADS[10] == ':'
    ensures forall i :: 0 <= i < 11 ==> (BEFORE_THREADS[i] == '"' <==> i == 1 || i == 9)
    ensures BEFORE_THREADS[0] == ',' && BEFORE_THREADS[2] == 't'
  {
    assert |THREADS| == 7 && BEFORE_THREADS[1..10] == [BEFORE_THREADS[1]] + BEFORE_THREADS[2..9] + "\"";
    assert BEFORE_THREADS[2..9] == THREADS;
  }

  lemma Shift(body: string, p: nat, tail: string, needle: string, i: nat)
    requires p <= |body| && body[p..] == tail
    ensures OccursAt(body, needle, p + i) <==> OccursAt(tail, needle, i)
  {
    if p + i + |needle| <= |body| {
      var a, b := body[p + i..p + i + |needle|], tail[i..i + |needle|];
      forall k | 0 <= k < |needle| ensures a[k] == b[k] {
        assert b[k] == body[p..][i + k];
      }
      assert a == b;
    }
  }

  lemma OccurrenceBegins(s: string, key: string, i: nat)
    requires key != ""
    ensures OccursAt(s, Quoted(key), i) ==> i + 1 < |s| && s[i] == '"' && s[i + 1] == key[0]
  {
    if i + |key| + 2 <= |s| {
      var t := s[i..i + |key| + 2];
      assert t[0] == s[i] && t[1] == s[i + 1] && Quoted(key)[1] == key[0];
    }
  }

  /** Where the two keys, their colons and their numbers stand. */
  lemma TailPlaces(context: nat, threads: nat)
    ensures var s, n := Numbers(context, threads), |PrintNat(context)|;
            && |s| >= 28 + n
            && OccursAt(s, Quoted(CONTEXT_SIZE), 1) && OccursAt(s, ":", 15)
            && s[16..] == PrintNat(context) + (BEFORE_THREADS + (PrintNat(threads) + "}"))
            && OccursAt(s, Quoted(THREADS), 17 + n) && OccursAt(s, ":", 26 + n)
            && s[27 + n..] == PrintNat(threads) + "}"
  {
    hide PrintNat, BEFORE_CONTEXT, BEFORE_THREADS;
    ContextLiteral();
    ThreadsLiteral();
    hide Quoted;
    var c, t := PrintNat(context), PrintNat(threads) + "}";
    PartsOf(BEFORE_CONTEXT, c, BEFORE_THREADS, t);
    var s, n := Numbers(context, threads), |c|;
    assert s[1..15] == s[..16][1..15] && s[15..16] == [s[..16][15]];
    assert s[17 + n..26 + n] == s[16 + n..27 + n][1..10] && s[26 + n..27 + n] == [s[16 + n..27 + n][10]];
  }

  /** The character at position i of the tail. */
  lemma TailChar(context: nat, threads: nat, i: nat)
    requires i < |Numbers(context, threads)|
    ensures var c, t := PrintNat(context), PrintNat(threads) + "}";
            |BEFORE_CONTEXT| == 16 && |BEFORE_THREADS| == 11 && |Numbers(context, threads)| == 27 + |c| + |t|
            && Numbers(context, threads)[i] ==
               (if i < 16 then BEFORE_CONTEXT[i] else if i < 16 + |c| then c[i - 16]
                else if i < 27 + |c| then BEFORE_THREADS[i - 16 - |c|] else t[i - 27 - |c|])
  {
    hide PrintNat, BEFORE_CONTEXT, BEFORE_THREADS;
    ContextLiteral();
    ThreadsLiteral();
    hide Quoted;
  }

  /** A quote in the tail is followed by the first letter of a key or by a colon. */
  lemma TailQuotes(context: nat, threads: nat, i: nat)
    requires var s := Numbers(context, threads); i < |s| && s[i] == '"'
    ensures var s, n := Numbers(context, threads), |PrintNat(context)|;
            && i + 1 < |s| && i in {1, 14, 17 + n, 25 + n}
            && s[i + 1] == (if i == 1 then 'c' else if i == 17 + n then 't' else ':')
  {
    hide PrintNat, BEFORE_CONTEXT, BEFORE_THREADS, Numbers;
    ContextLiteral();
    ThreadsLiteral();
    hide Quoted;
    TailChar(context, threads, i);
    if i + 1 < |Numbers(context, threads)| {
      TailChar(context, threads, i + 1);
    }
  }

  lemma FirstColon(context: nat, threads: nat)
    ensures var s := Numbers(context, threads);
            s != "" && s[0] == ',' && forall i :: 0 <= i < 15 ==> !OccursAt(s, ":", i)
  {
    hide PrintNat, BEFORE_CONTEXT, BEFORE_THREADS;
    ContextLiteral();
    ThreadsLiteral();
    hide Quoted;
    var s := Numbers(context, threads);
    forall i | 0 <= i < 15 ensures !OccursAt(s, ":", i) {
      assert s[i] == BEFORE_CONTEXT[i];
      assert s[i..i + 1] == [s[i]];
    }
  }

  /** The number behind a key's colon. */
  lemma NumberAt(body: string, key: string, colon: nat, n: nat, rest: string)
    requires colon < |body| && ValuePosition(body, key) == Some(SkipSpacesFrom(body, colon + 1))
    requires body[colon + 1..] == PrintNat(n) + rest && rest != "" && !IsDigit(rest[0])
    ensures IntValue(body, key) == Readable(n) && StringValue(body, key) == None
  {
    hide ValuePosition, LeadingI64, PrintNat, ReadLiteral;
    assert body[colon + 1..][0] == PrintNat(n)[0];
    assert SkipSpacesFrom(body, colon + 1) == colon + 1;
    LeadingOfPrinted(n, rest);
  }

  function Readable(n: nat): Option<nat> { if n <= MAX_I32 then Some(n) else None }

  // ---------- Where a key is found ----------

  /** Where the tail of a body begins. */
  function TailStart(key: string, inside: string): nat { |key| + 6 + |inside| }

  lemma TailStands(key: string, inside: string, tail: string)
    requires QuotesEscaped(inside)
    ensures var body, p := BodyWith(key, inside, tail), TailStart(key, inside);
            p <= |body| && body[p..] == tail && body[p - 1] == '"'
  {
    hide BodyWith, QuotesEscaped;
    BodyShape(key, inside, tail);
  }

  /** The selector's string, seen with its quotes, ends with the quoted key. */
  ghost predicate Misleads(inside: string, other: string) { EndsWith("\"" + inside + "\"", Quoted(other)) }

  lemma MisleadsExactly(key: string, inside: string, tail: string, other: string)
    requires QuotesEscaped(inside)
    ensures var body, p := BodyWith(key, inside, tail), TailStart(key, inside);
            Misleads(inside, other) <==>
              |Quoted(other)| <= |inside| + 2 && OccursAt(body, Quoted(other), p - |Quoted(other)|)
  {
    hide BodyWith, QuotesEscaped;
    BodyShape(key, inside, tail);
    var body, p, m := BodyWith(key, inside, tail), TailStart(key, inside), |Quoted(other)|;
    var shown := "\"" + inside + "\"";
    assert body[p - |shown|..p] == shown by {
      assert body[5 + |key|..][..|inside| + 1] == inside + "\"";
      assert body[4 + |key|..p] == [body[4 + |key|]] + body[5 + |key|..][..|inside| + 1];
    }
    if m <= |shown| {
      assert shown[|shown| - m..] == body[p - m..p];
    }
  }

  /** Where another key is found first: in the selector's string if that misleads, and behind it otherwise. */
  lemma OtherKeyFound(key: string, inside: string, tail: string, other: string)
    requires PlainJsonKey(key) && PlainJsonKey(other) && other != key && QuotesEscaped(inside)
    ensures var body, p, m := BodyWith(key, inside, tail), TailStart(key, inside), |Quoted(other)|;
            var k := FindText(body, Quoted(other), 0);
            && (Misleads(inside, other) ==> k == Some(p - m))
            && (!Misleads(inside, other) && k.Some? ==> k.value >= p - 1)
            && forall i :: 0 <= i < p - 1 && OccursAt(body, Quoted(other), i) ==> Misleads(inside, other)
  {
    hide BodyWith, QuotesEscaped, FindText, OccursAt, PlainJsonKey, Misleads;
    MisleadsExactly(key, inside, tail, other);
    var body, p, m := BodyWith(key, inside, tail), TailStart(key, inside), |Quoted(other)|;
    forall i: nat | OccursAt(body, Quoted(other), i)
      ensures (i == p - m && m <= |inside| + 2) || i >= p - 1
    {
      OtherKeyPlaces(key, inside, tail, other, i);
    }
    var k := FindText(body, Quoted(other), 0);
    if Misleads(inside, other) {
      FoundAt(body, Quoted(other), 0, p - m);
    }
  }

  /** The page's own key with nothing to mislead the search: it is found where it stands. */
  lemma FoundInTail(key: string, inside: string, tail: string, other: string, i: nat)
    requires PlainJsonKey(key) && PlainJsonKey(other) && other != key && QuotesEscaped(inside)
    requires !Misleads(inside, other) && OccursAt(tail, Quoted(other), i)
    requires forall j :: 0 <= j < i ==> !OccursAt(tail, Quoted(other), j)
    requires tail != "" && tail[0] != other[0]
    ensures FindText(BodyWith(key, inside, tail), Quoted(other), 0) == Some(TailStart(key, inside) + i)
  {
    hide BodyWith, QuotesEscaped, FindText, Misleads;
    var body, p := BodyWith(key, inside, tail), TailStart(key, inside);
    OtherKeyFound(key, inside, tail, other);
    TailStands(key, inside, tail);
    Shift(body, p, tail, Quoted(other), i);
    assert body[p] == tail[0];
    forall k | 0 <= k < p + i ensures !OccursAt(body, Quoted(other), k) {
      if k >= p {
        Shift(body, p, tail, Quoted(other), k - p);
      } else {
        OccurrenceBegins(body, other, k);
      }
    }
    hide OccursAt;
    FoundAt(body, Quoted(other), 0, p + i);
  }

  lemma PageKeys(key: string, other: string)
    requires key in {MODEL_ID, MODEL_PATH} && other in {MODEL_ID, MODEL_PATH, CONTEXT_SIZE, THREADS} && other != key
    ensures PlainJsonKey(key) && PlainJsonKey(other)
    ensures other[0] == if other == CONTEXT_SIZE then 'c' else if other == THREADS then 't' else 'm'
  {
    KeysArePlain();
  }

  /** A key is read behind the first colon behind it. */
  lemma ReadBehind(body: string, p: nat, tail: string, key: string, e: nat, j: nat, n: nat, rest: string)
    requires p <= |body| && body[p..] == tail && |Quoted(key)| <= p + e && e <= j < |tail|
    requires FindText(body, Quoted(key), 0) == Some(p + e - |Quoted(key)|)
    requires OccursAt(tail, ":", j) && forall i :: e <= i < j ==> !OccursAt(tail, ":", i)
    requires tail[j + 1..] == PrintNat(n) + rest && rest != "" && !IsDigit(rest[0])
    ensures IntValue(body, key) == Readable(n) && StringValue(body, key) == None
  {
    hide FindText, OccursAt, PrintNat, IntValue, StringValue, Quoted;
    Shift(body, p, tail, ":", j);
    forall k | p + e <= k < p + j ensures !OccursAt(body, ":", k) {
      Shift(body, p, tail, ":", k - p);
    }
    FoundAt(body, ":", p + e, p + j);
    assert body[p + j + 1..] == body[p..][j + 1..];
    NumberAt(body, key, p + j, n, rest);
  }

  /** A key found in the selector's string reads as the context size. */
  lemma MisledRead(key: string, inside: string, context: nat, threads: nat, other: string)
    requires PlainJsonKey(key) && PlainJsonKey(other) && other != key && QuotesEscaped(inside)
    requires Misleads(inside, other)
    ensures var body := BodyWith(key, inside, Numbers(context, threads));
            IntValue(body, other) == Readable(context) && StringValue(body, other) == None
  {
    hide BodyWith, QuotesEscaped, FindText, PlainJsonKey, PrintNat, OccursAt, IntValue, StringValue, Quoted;
    hide EndsWith, Numbers;
    var tail, rest := Numbers(context, threads), BEFORE_THREADS + (PrintNat(threads) + "}");
    var body, p := BodyWith(key, inside, tail), TailStart(key, inside);
    OtherKeyFound(key, inside, tail, other);
    MisleadsExactly(key, inside, tail, other);
    TailStands(key, inside, tail);
    TailPlaces(context, threads);
    FirstColon(context, threads);
    ReadBehind(body, p, tail, other, 0, 15, context, rest);
  }

  /** The context size is read as it is sent, whatever the selector. */
  lemma ContextIsRead(key: string, inside: string, context: nat, threads: nat)
    requires key in {MODEL_ID, MODEL_PATH} && QuotesEscaped(inside)
    ensures IntValue(BodyWith(key, inside, Numbers(context, threads)), CONTEXT_SIZE) == Readable(context)
  {
    hide BodyWith, QuotesEscaped, FindText, PrintNat, Misleads, IntValue, StringValue, OccursAt, PlainJsonKey, Numbers;
    PageKeys(key, CONTEXT_SIZE);
    if Misleads(inside, CONTEXT_SIZE) {
      MisledRead(key, inside, context, threads, CONTEXT_SIZE);
    } else {
      var tail, rest := Numbers(context, threads), BEFORE_THREADS + (PrintNat(threads) + "}");
      var body, p := BodyWith(key, inside, tail), TailStart(key, inside);
      TailStands(key, inside, tail);
      TailPlaces(context, threads);
      FirstColon(context, threads);
      OccurrenceBegins(tail, CONTEXT_SIZE, 0);
      FoundInTail(key, inside, tail, CONTEXT_SIZE, 1);
      assert |Quoted(CONTEXT_SIZE)| == 14;
      ReadBehind(body, p, tail, CONTEXT_SIZE, 15, 15, context, rest);
    }
  }

  /** The number of threads is read as it is sent unless the selector misleads the search, and then as the context
      size. */
  lemma ThreadsAreRead(key: string, inside: string, context: nat, threads: nat)
    requires key in {MODEL_ID, MODEL_PATH} && QuotesEscaped(inside)
    ensures IntValue(BodyWith(key, inside, Numbers(context, threads)), THREADS) ==
            Readable(if Misleads(inside, THREADS) then context else threads)
  {
    hide BodyWith, QuotesEscaped, FindText, PrintNat, Misleads, IntValue, StringValue, OccursAt, PlainJsonKey, Numbers;
    PageKeys(key, THREADS);
    if Misleads(inside, THREADS) {
      MisledRead(key, inside, context, threads, THREADS);
    } else {
      var tail, n := Numbers(context, threads), |PrintNat(context)|;
      var body, p := BodyWith(key, inside, tail), TailStart(key, inside);
      TailStands(key, inside, tail);
      TailPlaces(context, threads);
      FirstColon(context, threads);
      forall j | 0 <= j < 17 + n ensures !OccursAt(tail, Quoted(THREADS), j) {
        NoEarlierThreads(context, threads, j);
      }
      FoundInTail(key, inside, tail, THREADS, 17 + n);
      assert |Quoted(THREADS)| == 9;
      ReadBehind(body, p, tail, THREADS, 26 + n, 26 + n, threads, "}");
    }
  }

  lemma NoEarlierThreads(context: nat, threads: nat, j: nat)
    requires j < 17 + |PrintNat(context)|
    ensures !OccursAt(Numbers(context, threads), Quoted(THREADS), j)
  {
    hide Numbers, PrintNat, OccursAt;
    var s := Numbers(context, threads);
    OccurrenceBegins(s, THREADS, j);
    if OccursAt(s, Quoted(THREADS), j) {
      TailQuotes(context, threads, j);
    }
  }

  /** A selector that does not mislead occurs nowhere: no key behind it begins with an m. */
  lemma NoOtherSelector(key: string, inside: string, context: nat, threads: nat, other: string)
    requires PlainJsonKey(key) && PlainJsonKey(other) && other != key && QuotesEscaped(inside)
    requires other[0] == 'm' && !Misleads(inside, other)
    ensures FindText(BodyWith(key, inside, Numbers(context, threads)), Quoted(other), 0) == None
  {
    hide BodyWith, QuotesEscaped, FindText, PrintNat, Misleads, OccursAt, Numbers, Quoted;
    var tail := Numbers(context, threads);
    var body, p := BodyWith(key, inside, tail), TailStart(key, inside);
    OtherKeyFound(key, inside, tail, other);
    TailStands(key, inside, tail);
    FirstColon(context, threads);
    var k := FindText(body, Quoted(other), 0);
    if k.Some? {
      OccurrenceBegins(body, other, k.value);
      if k.value >= p {
        assert tail[k.value - p] == body[k.value] && tail[k.value + 1 - p] == body[k.value + 1];
        TailQuotes(context, threads, k.value - p);
      }
    }
  }

  /** So the other selector has no value. */
  lemma OtherSelectorIsAbsent(key: string, inside: string, context: nat, threads: nat)
    requires key in {MODEL_ID, MODEL_PATH} && QuotesEscaped(inside)
    ensures var other := if key == MODEL_ID then MODEL_PATH else MODEL_ID;
            StringValue(BodyWith(key, inside, Numbers(context, threads)), other) == None
  {
    hide BodyWith, QuotesEscaped, FindText, OccursAt, PrintNat, Misleads, IntValue, PlainJsonKey, Numbers, Quoted;
    hide ReadLiteral;
    var other := if key == MODEL_ID then MODEL_PATH else MODEL_ID;
    assert MODEL_ID != MODEL_PATH by { KeysArePlain(); }
    PageKeys(key, other);
    if Misleads(inside, other) {
      MisledRead(key, inside, context, threads, other);
    } else {
      NoOtherSelector(key, inside, context, threads, other);
    }
  }

  // ---------- When a selector misleads ----------

  /** Escaping neither makes nor breaks an end that is a quote and small letters. */
  lemma {:induction false} EscapedEnd(value: string, end: string)
    requires end != "" && end[0] == '"' && forall i :: 0 < i < |end| ==> 'a' <= end[i] <= 'z'
    ensures EndsWith(Escaped(value), end) <==> EndsWith(value, end)
    decreases |end|
  {
    hide Escaped, EscapeOf, EndsWith;
    if value == "" {
      NothingEndsEmpty(end);
      return;
    }
    var before, init, whole := value[..|value| - 1], end[..|end| - 1], Escaped(value);
    EndOfEscaped(value);
    EndsByOne(value, end);
    EndsByOne(whole, end);
    if init == "" {
      NothingIsAnEnd(before);
      NothingIsAnEnd(whole[..|whole| - 1]);
    } else {
      EscapedEnd(before, init);
      LastOfEnd(whole[..|whole| - 1], init);
    }
  }

  /** How an escaped text ends: with a quote only for a quote, and with a small letter behind something else than a
      backslash, a 0 or a 1 only for that letter. */
  lemma EndOfEscaped(value: string)
    requires value != ""
    ensures var whole, before, c := Escaped(value), value[..|value| - 1], value[|value| - 1];
            && whole != "" && (whole[|whole| - 1] == '"' <==> c == '"')
            && ('a' <= c <= 'z' ==> whole[|whole| - 1] == c && whole[..|whole| - 1] == Escaped(before))
            && ((whole[|whole| - 1] == c && whole[..|whole| - 1] == Escaped(before))
                || (|whole| >= 2 && whole[|whole| - 2] in ['\\', '0', '1']))
  {
    hide Escaped, EscapeOf;
    var before, c := value[..|value| - 1], value[|value| - 1];
    assert value == before + [c];
    EscapedAppend(before, c);
    LastOfEscape(c);
    var e, whole := EscapeOf(c), Escaped(before) + EscapeOf(c);
    assert whole[|whole| - 1] == e[|e| - 1];
    if |e| == 1 {
      assert whole[..|whole| - 1] == Escaped(before);
    } else {
      assert whole[|whole| - 2] == e[|e| - 2];
    }
  }

  lemma NothingEndsEmpty(end: string)
    requires end != ""
    ensures Escaped("") == "" && !EndsWith("", end)
  {
  }

  lemma NothingIsAnEnd(s: string)
    ensures EndsWith(s, "")
  {
  }

  lemma LastOfEnd(s: string, end: string)
    requires end != ""
    ensures EndsWith(s, end) ==> s != "" && s[|s| - 1] == end[|end| - 1]
  {
    if EndsWith(s, end) {
      assert s[|s| - |end|..][|end| - 1] == s[|s| - 1];
    }
  }

  lemma EndsByOne(s: string, end: string)
    requires end != "" && s != ""
    ensures EndsWith(s, end) <==> s[|s| - 1] == end[|end| - 1] && EndsWith(s[..|s| - 1], end[..|end| - 1])
  {
    var n, m := |s| - 1, |end| - 1;
    if m <= n {
      assert s[n - m..] == s[..n][n - m..] + [s[n]];
      assert end == end[..m] + [end[m]];
    }
  }

  /** How an escape ends: a quote only for a quote, and a small letter only behind what no key holds. */
  lemma LastOfEscape(c: char)
    ensures var e := EscapeOf(c);
            && e != "" && (e[|e| - 1] == '"' <==> c == '"')
            && (|e| == 1 ==> e == [c])
            && (|e| > 1 ==> e[|e| - 2] == '\\' || e[|e| - 2] in ['0', '1'])
            && ('a' <= c <= 'z' ==> |e| == 1)
  {
    if c < ' ' && !HasShortEscape(c) {
      HexIsPlain(c as int % 16);
      assert c as int / 16 == 0 || c as int / 16 == 1;
    }
  }

  lemma {:induction false} PlainWhenEscapedPlain(value: string)
    ensures '\\' !in Escaped(value) ==> Escaped(value) == value
  {
    hide EscapeOf;
    if value != "" {
      PlainWhenEscapedPlain(value[1..]);
      FirstOfEscape(value[0]);
      assert value == [value[0]] + value[1..];
    }
  }

  lemma FirstOfEscape(c: char)
    ensures EscapeOf(c) == [c] || '\\' in EscapeOf(c)
  {
    assert EscapeOf(c)[0] in EscapeOf(c);
  }

  /** With its quotes around it, a text ends with a quoted word when it is the word or ends with it behind a quote. */
  lemma QuotedEnd(inside: string, word: string)
    ensures EndsWith("\"" + inside + "\"", "\"" + word + "\"") <==> inside == word || EndsWith(inside, "\"" + word)
  {
    var s, t := "\"" + inside, "\"" + word;
    EndsByOne(s + "\"", t + "\"");
    assert (s + "\"")[..|s|] == s && (t + "\"")[..|t|] == t;
    if |inside| > |word| {
      assert s[|s| - |t|..] == inside[|inside| - |t|..];
    } else if |inside| == |word| {
      assert s[0..] == s && s[1..] == inside && t[1..] == word;
    }
  }

  /** A selector misleads the search for a word exactly when it is the word, or ends with it behind a quote. */
  lemma MisleadingExactly(value: string, word: string)
    requires forall i :: 0 <= i < |word| ==> 'a' <= word[i] <= 'z'
    ensures Misleads(Escaped(value), word) <==> value == word || EndsWith(value, "\"" + word)
  {
    PlainTextStays(word);
    assert '\\' !in word;
    PlainWhenEscapedPlain(value);
    EscapedEnd(value, "\"" + word);
    hide Escaped, EndsWith;
    QuotedEnd(Escaped(value), word);
  }

  /** A request with one selector, from what its four keys read as. */
  lemma ParsedFromKeys(state: ConfigState, body: string, isId: bool, context: nat, threads: nat)
    requires StringValue(body, if isId then MODEL_PATH else MODEL_ID) == None
    requires IntValue(body, CONTEXT_SIZE) == Readable(context) && IntValue(body, THREADS) == Readable(threads)
    ensures var value := StringValue(body, if isId then MODEL_ID else MODEL_PATH).UnwrapOr("");
            ParseRequest(state, body) ==
              if |body| > MAX_REQUEST_BODY then TooLarge
              else if value == "" then NotOneSelector
              else
                Accepted(state.(
                  modelId := if isId then value else "", modelPath := if isId then "" else value,
                  contextSize := if context <= 0x7fff_ffff then context else state.contextSize,
                  threads := if threads <= 0x7fff_ffff then threads else state.threads))
  {
    hide StringValue, IntValue, MODEL_ID, MODEL_PATH, CONTEXT_SIZE, THREADS;
  }

  /** What the server makes of the page's request, for any selector, context size and thread count: it asks for them as
      sent, except that it takes the context size for the thread count when the selector is the word "threads" or ends
      with it behind a quote. Numbers beyond 2^31 - 1 leave what was in force. */
  lemma PageRequestIsParsed(state: ConfigState, byId: bool, value: string, context: nat, threads: nat)
    ensures var body := PageBody(if byId then "model_id" else "model_path", value, context, threads);
            var misread := value == "threads" || EndsWith(value, "\"threads");
            ParseRequest(state, body) ==
              if |body| > 16384 then TooLarge
              else if value == "" || !AllRereadable(value) then NotOneSelector
              else
                Accepted(state.(
                  modelId := if byId then value else "", modelPath := if byId then "" else value,
                  contextSize := if context <= 0x7fff_ffff then context else state.contextSize,
                  threads := var t := if misread then context else threads;
                             if t <= 0x7fff_ffff then t else state.threads))
  {
    var inside, tail := Escaped(value), Numbers(context, threads);
    var key := if byId then MODEL_ID else MODEL_PATH;
    var body := BodyWith(key, inside, tail);
    assert body == PageBody(if byId then "model_id" else "model_path", value, context, threads);
    InsideIsEscaped(value);
    KeysArePlain();
    hide BodyWith, EndsWith, Misleads, Numbers, AllRereadable, ReadLiteral, Escaped, IntValue, StringValue;
    hide PlainJsonKey, QuotesEscaped, ParseRequest, MODEL_ID, MODEL_PATH;
    MisleadsThreads(value);
    ContextIsRead(key, inside, context, threads);
    ThreadsAreRead(key, inside, context, threads);
    OtherSelectorIsAbsent(key, inside, context, threads);
    OwnKeyIsRead(key, inside, tail);
    ParsedFromKeys(state, body, byId, context, if Misleads(inside, THREADS) then context else threads);
    if |body| <= MAX_REQUEST_BODY {
      BodyHoldsInside(key, inside, tail);
      ReadEscaped(value, tail, 0);
    }
  }

  lemma InsideIsEscaped(value: string)
    ensures QuotesEscaped(Escaped(value)) && |Escaped(value)| >= |value|
  {
    EscapedIsLegal(value);
    QuotesFollowBackslashes(value);
  }

  lemma MisleadsThreads(value: string)
    ensures Misleads(Escaped(value), THREADS) <==> value == "threads" || EndsWith(value, "\"threads")
  {
    hide Misleads, EndsWith, Escaped;
    MisleadingExactly(value, THREADS);
    assert "\"" + THREADS == "\"threads";
  }

  lemma BodyHoldsInside(key: string, inside: string, tail: string)
    ensures |inside| <= |BodyWith(key, inside, tail)|
  {
  }

  /** A model file named threads is asked for with as many threads as context positions. */
  lemma MisreadExample(state: ConfigState)
    ensures var parsed := ParseRequest(state, PageBody("model_path", "threads", 5, 8));
            parsed.Accepted? && parsed.candidate.threads == 5
  {
    hide ParseRequest, PageBody, EndsWith, AllRereadable;
    ExampleFits();
    PageRequestIsParsed(state, false, "threads", 5, 8);
  }

  lemma ExampleFits()
    ensures |PageBody("model_path", "threads", 5, 8)| <= MAX_REQUEST_BODY && AllRereadable("threads")
  {
    PlainTextStays("threads");
    assert |PrintNat(5)| == 1 && |PrintNat(8)| == 1;
    hide Escaped, PrintNat;
  }
}
