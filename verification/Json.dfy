/** The dashboard's JSON text codec: string escaping, and the search-based readers of a request body. */
module Json {
  import opened Wrappers
  import opened TextCodec

  const MAX_REQUEST_BODY: nat := 16 * 1024

  const BACKSPACE: char := '\U{0008}'
  const FORM_FEED: char := '\U{000C}'
  const LOWER_HEX := "0123456789abcdef"

  // ---------- Printing ----------

  function EscapeOf(c: char): string {
    if c == '"' then "\\\""
    else if c == '\\' then "\\\\"
    else if c == BACKSPACE then "\\b"
    else if c == FORM_FEED then "\\f"
    else if c == '\n' then "\\n"
    else if c == '\r' then "\\r"
    else if c == '\t' then "\\t"
    else if c < ' ' then ['\\', 'u', '0', '0', LOWER_HEX[c as int / 16], LOWER_HEX[c as int % 16]]
    else [c]
  }

  function Escaped(s: string): string {
    if s == [] then [] else EscapeOf(s[0]) + Escaped(s[1..])
  }

  lemma {:induction false} EscapedAppend(s: string, c: char)
    ensures Escaped(s + [c]) == Escaped(s) + EscapeOf(c)
  {
    hide EscapeOf;
    if s == [] {
      assert ([] + [c])[1..] == [] && Escaped([]) == [];
    } else {
      EscapedAppend(s[1..], c);
      assert (s + [c])[1..] == s[1..] + [c];
    }
  }

  /** Text without control characters, quotes and backslashes is printed as it is. */
  lemma {:induction false} PlainTextStays(value: string)
    requires forall i :: 0 <= i < |value| ==> value[i] >= ' ' && value[i] != '"' && value[i] != '\\'
    ensures Escaped(value) == value
  {
    if value != "" {
      PlainTextStays(value[1..]);
      assert value == [value[0]] + value[1..];
    }
  }

  /** The control characters by their codes: the five short escapes, and two of the long ones. */
  lemma EscapeExamples()
    ensures EscapeOf(8 as char) == "\\b" && EscapeOf(12 as char) == "\\f" && EscapeOf(10 as char) == "\\n"
    ensures EscapeOf(13 as char) == "\\r" && EscapeOf(9 as char) == "\\t"
    ensures EscapeOf(0 as char) == "\\u0000" && EscapeOf(31 as char) == "\\u001f"
    ensures EscapeOf('"') == "\\\"" && EscapeOf('\\') == "\\\\"
  {
  }

  /** json_escape */
  method JsonEscape(input: string) returns (out: string)
    ensures out == Escaped(input)
  {
    hide EscapeOf;
    out := "";
    for i := 0 to |input|
      invariant out == Escaped(input[..i])
    {
      EscapedAppend(input[..i], input[i]);
      assert input[..i + 1] == input[..i] + [input[i]];
      out := out + EscapeOf(input[i]);
    }
    assert input[..|input|] == input;
  }

  /** The control characters that have a two-character escape. */
  predicate HasShortEscape(c: char) {
    c == BACKSPACE || c == FORM_FEED || c == '\n' || c == '\r' || c == '\t'
  }

  /** The characters whose escape the dashboard's own reader undoes. */
  predicate Rereadable(c: char) { c >= ' ' || HasShortEscape(c) }

  ghost predicate AllRereadable(s: string) { forall i :: 0 <= i < |s| ==> Rereadable(s[i]) }

  // ---------- Reading ----------

  function Unescape(e: char): Option<char> {
    match e
    case '"' => Some('"')
    case '\\' => Some('\\')
    case '/' => Some('/')
    case 'b' => Some(BACKSPACE)
    case 'f' => Some(FORM_FEED)
    case 'n' => Some('\n')
    case 'r' => Some('\r')
    case 't' => Some('\t')
    case _ => None
  }

  /** The value of a string literal whose inside starts at s, `size` characters of it already read:
      only an escape checks the size. */
  function ReadLiteral(s: string, size: nat): Option<string>
    decreases |s|
  {
    if s == [] then None
    else if s[0] == '"' then Some([])
    else if s[0] != '\\' then Prefixed([s[0]], ReadLiteral(s[1..], size + 1))
    else if |s| == 1 then None
    else
      match Unescape(s[1])
      case None => None
      case Some(c) => if size + 1 > MAX_REQUEST_BODY then None else Prefixed([c], ReadLiteral(s[2..], size + 1))
  }

  predicate OccursAt(s: string, needle: string, i: nat) {
    i + |needle| <= |s| && s[i..i + |needle|] == needle
  }

  /** The least index from `from` on at which needle occurs in s, as std::string::find gives it. */
  function FindText(s: string, needle: string, from: nat): (r: Option<nat>)
    ensures r.Some? ==> from <= r.value && OccursAt(s, needle, r.value)
    ensures r.Some? ==> forall i :: from <= i < r.value ==> !OccursAt(s, needle, i)
    ensures r.None? ==> forall i :: from <= i ==> !OccursAt(s, needle, i)
    decreases |s| - from
  {
    if from > |s| then None
    else if OccursAt(s, needle, from) then Some(from)
    else FindText(s, needle, from + 1)
  }

  function SkipSpacesFrom(s: string, from: nat): (p: nat)
    requires from <= |s|
    ensures from <= p <= |s|
    decreases |s| - from
  {
    if from < |s| && IsSpace(s[from]) then SkipSpacesFrom(s, from + 1) else from
  }

  function Quoted(key: string): string { "\"" + key + "\"" }

  /** Where both readers look for a key's value: behind the first ':' behind the key's first quoted
      occurrence anywhere in the body, and behind the white space that follows it. */
  function ValuePosition(body: string, key: string): (r: Option<nat>)
    ensures r.Some? ==> r.value <= |body|
  {
    match FindText(body, Quoted(key), 0)
    case None => None
    case Some(k) =>
      match FindText(body, ":", k + |Quoted(key)|)
      case None => None
      case Some(colon) => Some(SkipSpacesFrom(body, colon + 1))
  }

  function StringValue(body: string, key: string): Option<string> {
    match ValuePosition(body, key)
    case None => None
    case Some(p) => if p == |body| || body[p] != '"' then None else ReadLiteral(body[p + 1..], 0)
  }

  /** The character loop of parse_json_string, from behind the opening quote. */
  method ReadLiteralAt(body: string, start: nat) returns (ok: bool, value: string)
    requires start <= |body|
    ensures ReadLiteral(body[start..], 0) == if ok then Some(value) else None
  {
    hide Unescape;
    ok, value := false, "";
    var p := start;
    ghost var literal := ReadLiteral(body[p..], 0);
    PrefixedMore([], [], literal);
    while p < |body|
      invariant p <= |body| && !ok
      invariant literal == Prefixed(value, ReadLiteral(body[p..], |value|))
    {
      ghost var rest := body[p..];
      assert rest[1..] == body[p + 1..];
      var c := body[p];
      p := p + 1;
      if c == '"' {
        assert value + [] == value;
        ok := true;
        return;
      }
      if c != '\\' {
        PrefixedMore(value, [c], ReadLiteral(body[p..], |value| + 1));
        value := value + [c];
        continue;
      }
      if p >= |body| {
        return;
      }
      assert rest[2..] == body[p + 1..] && rest[1] == body[p];
      var e := Unescape(body[p]);
      p := p + 1;
      if e.None? {
        return;
      }
      PrefixedMore(value, [e.value], ReadLiteral(body[p..], |value| + 1));
      value := value + [e.value];
      if |value| > MAX_REQUEST_BODY {
        return;
      }
    }
  }

  /** parse_json_string */
  method ParseJsonString(body: string, key: string) returns (ok: bool, value: string)
    ensures StringValue(body, key) == if ok then Some(value) else None
  {
    hide FindText, SkipSpacesFrom, ReadLiteral;
    ok, value := false, "";
    var needle := Quoted(key);
    var keyPos := FindText(body, needle, 0);
    if keyPos.None? {
      return;
    }
    var colon := FindText(body, ":", keyPos.value + |needle|);
    if colon.None? {
      return;
    }
    var p := SkipSpacesFrom(body, colon.value + 1);
    if p >= |body| || body[p] != '"' {
      return;
    }
    ok, value := ReadLiteralAt(body, p + 1);
  }

  /** The length of the run of digits s starts with. */
  function DigitRun(s: string): (n: nat)
    ensures n <= |s| && (forall i :: 0 <= i < n ==> IsDigit(s[i])) && (n < |s| ==> !IsDigit(s[n]))
  {
    if s == [] || !IsDigit(s[0]) then 0 else 1 + DigitRun(s[1..])
  }

  /** What strtoll reads from the start of s, whatever follows; None when it reads no digit or is out of range. */
  function LeadingI64(s: string): Option<int> {
    var t := SkipSpaces(s);
    var negative := t != "" && t[0] == '-';
    var digits := if t != "" && (t[0] == '-' || t[0] == '+') then t[1..] else t;
    match Digits(digits[..DigitRun(digits)])
    case None => None
    case Some(n) =>
      var m: int := n;
      var v := if negative then -m else m;
      if MIN_I64 <= v <= MAX_I64 then Some(v) else None
  }

  /** parse_json_int */
  function IntValue(body: string, key: string): (r: Option<nat>)
    ensures r.Some? ==> r.value <= MAX_I32
  {
    match ValuePosition(body, key)
    case None => None
    case Some(p) =>
      if p == |body| then None
      else match LeadingI64(body[p..])
           case None => None
           case Some(v) => if 0 <= v <= MAX_I32 then Some(v) else None
  }

  // ---------- The reader undoes the printer, where it can ----------

  lemma ReadEscape(c: char, rest: string, size: nat)
    requires size < MAX_REQUEST_BODY
    ensures ReadLiteral(EscapeOf(c) + rest, size)
         == if Rereadable(c) then Prefixed([c], ReadLiteral(rest, size + 1)) else None
  {
    var e := EscapeOf(c);
    if |e| == 1 {
      assert (e + rest)[1..] == rest;
    } else {
      assert (e + rest)[0] == e[0] && (e + rest)[1] == e[1];
      if |e| == 2 {
        assert (e + rest)[2..] == rest;
      }
    }
  }

  /** Reading an escaped string gives it back exactly when it holds no control character without a short escape. */
  lemma {:induction false} ReadEscaped(s: string, rest: string, size: nat)
    requires size + |s| <= MAX_REQUEST_BODY
    ensures ReadLiteral(Escaped(s) + "\"" + rest, size) == if AllRereadable(s) then Some(s) else None
  {
    hide EscapeOf, Rereadable;
    if s == [] {
      assert Escaped(s) + "\"" + rest == "\"" + rest;
    } else {
      var more := Escaped(s[1..]) + "\"" + rest;
      ReadEscaped(s[1..], rest, size + 1);
      ReadEscape(s[0], more, size);
      assert Escaped(s) + "\"" + rest == EscapeOf(s[0]) + more;
      assert s == [s[0]] + s[1..];
      assert AllRereadable(s) == (Rereadable(s[0]) && AllRereadable(s[1..])) by {
        if Rereadable(s[0]) && AllRereadable(s[1..]) {
          forall i | 0 <= i < |s| ensures Rereadable(s[i]) {
            if i > 0 { assert s[i] == s[1..][i - 1]; }
          }
        }
      }
    }
  }

  /** How many backslashes stand right before position i. */
  function BackslashRun(s: string, i: nat): (n: nat)
    requires i <= |s|
    ensures n <= i
  {
    if i > 0 && s[i - 1] == '\\' then 1 + BackslashRun(s, i - 1) else 0
  }

  lemma {:induction false} RunInPrefix(a: string, b: string, i: nat)
    requires i <= |a|
    ensures BackslashRun(a + b, i) == BackslashRun(a, i)
  {
    if i > 0 {
      RunInPrefix(a, b, i - 1);
    }
  }

  lemma {:induction false} RunInSuffix(a: string, b: string, k: nat)
    requires k <= |b|
    ensures BackslashRun(a + b, |a| + k)
         == BackslashRun(b, k) + if BackslashRun(b, k) == k then BackslashRun(a, |a|) else 0
  {
    if k == 0 {
      RunInPrefix(a, b, |a|);
    } else {
      RunInSuffix(a, b, k - 1);
      assert (a + b)[|a| + k - 1] == b[k - 1];
    }
  }

  lemma HexIsPlain(d: nat)
    requires d < 16
    ensures LOWER_HEX[d] >= ' ' && LOWER_HEX[d] != '"' && LOWER_HEX[d] != '\\'
  {
  }

  /** Text that can stand inside a JSON string: no control character, and every '"' escaped, that is, with an odd number
      of backslashes before it. */
  ghost predicate LegalInside(t: string) {
    forall i :: 0 <= i < |t| ==> t[i] >= ' ' && (t[i] == '"' ==> BackslashRun(t, i) % 2 == 1)
  }

  lemma EscapeOfShape(c: char)
    ensures var e := EscapeOf(c);
            |e| >= 1 && BackslashRun(e, |e|) % 2 == 0 && LegalInside(e)
  {
    if c < ' ' && !HasShortEscape(c) {
      HexIsPlain(c as int / 16);
      HexIsPlain(c as int % 16);
    } else if c == '"' {
      assert BackslashRun(EscapeOf(c), 0) == 0 && BackslashRun(EscapeOf(c), 1) == 1;
    } else if c == '\\' {
      assert BackslashRun(EscapeOf(c), 0) == 0 && BackslashRun(EscapeOf(c), 1) == 1;
    }
  }

  lemma LegalConcat(a: string, b: string)
    requires LegalInside(a) && LegalInside(b) && BackslashRun(a, |a|) % 2 == 0
    ensures LegalInside(a + b)
  {
    hide BackslashRun;
    forall i | 0 <= i < |a + b|
      ensures (a + b)[i] >= ' ' && ((a + b)[i] == '"' ==> BackslashRun(a + b, i) % 2 == 1)
    {
      if i < |a| {
        RunInPrefix(a, b, i);
        assert (a + b)[i] == a[i];
      } else {
        RunInSuffix(a, b, i - |a|);
        assert (a + b)[i] == b[i - |a|];
      }
    }
  }

  /** An escaped string is legal inside a JSON string, and at least as long as what it escapes. */
  lemma {:induction false} EscapedIsLegal(s: string)
    ensures LegalInside(Escaped(s)) && |Escaped(s)| >= |s|
  {
    if s != [] {
      EscapedIsLegal(s[1..]);
      EscapeOfShape(s[0]);
      hide EscapeOf, BackslashRun;
      LegalConcat(EscapeOf(s[0]), Escaped(s[1..]));
    }
  }

  /** In particular, a backslash stands before every '"'. */
  lemma QuotesFollowBackslashes(s: string)
    ensures forall i :: 0 <= i < |Escaped(s)| && Escaped(s)[i] == '"' ==> i > 0 && Escaped(s)[i - 1] == '\\'
  {
    EscapedIsLegal(s);
    hide Escaped;
  }

  // ---------- RFC 8259, section 7 ----------

  /** The characters the inside of a JSON string denotes, \u escapes limited to those below U+0100. */
  function Denoted(s: string): Option<string>
    decreases |s|
  {
    if s == [] then Some([])
    else if s[0] < ' ' || s[0] == '"' then None
    else if s[0] != '\\' then Prefixed([s[0]], Denoted(s[1..]))
    else if |s| == 1 then None
    else if s[1] == 'u' then
      if |s| < 6 || s[2] != '0' || s[3] != '0' then None
      else
        match (HexValue(s[4]), HexValue(s[5]))
        case (Some(hi), Some(lo)) => Prefixed([(16 * hi + lo) as char], Denoted(s[6..]))
        case _ => None
    else
      match Unescape(s[1])
      case None => None
      case Some(c) => Prefixed([c], Denoted(s[2..]))
  }

  lemma LowerHexValue(d: nat)
    requires d < 16
    ensures HexValue(LOWER_HEX[d]) == Some(d)
  {
  }

  lemma DenotedEscape(c: char, rest: string)
    ensures Denoted(EscapeOf(c) + rest) == Prefixed([c], Denoted(rest))
  {
    var e := EscapeOf(c);
    var s := e + rest;
    assert s[|e|..] == rest;
    assert s[0] == e[0] && (|e| > 1 ==> s[1] == e[1]);
    if c < ' ' && !HasShortEscape(c) {
      LowerHexValue(c as int / 16);
      LowerHexValue(c as int % 16);
      assert s[4] == e[4] && s[5] == e[5] && s[2] == '0' && s[3] == '0';
      assert 16 * (c as int / 16) + c as int % 16 == c as int;
    }
  }

  /** json_escape is right by the standard for every string, also where the dashboard's own reader is not. */
  lemma {:induction false} DenotedOfEscaped(s: string)
    ensures Denoted(Escaped(s)) == Some(s)
  {
    if s != [] {
      hide EscapeOf;
      DenotedOfEscaped(s[1..]);
      DenotedEscape(s[0], Escaped(s[1..]));
      assert [s[0]] + s[1..] == s;
    }
  }
}
