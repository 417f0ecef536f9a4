/** Text as the state files use it: lines, key=value pairs, decimal numbers and percent-encoding.
    A string holds the bytes of a std::string, one character a byte. */
module TextCodec {
  import opened Wrappers

  /** The position of the first c in s, or |s|. */
  function Find(s: string, c: char): (i: nat)
    ensures i <= |s| && c !in s[..i] && (i < |s| ==> s[i] == c)
  {
    if s == [] || s[0] == c then 0
    else
      var i := 1 + Find(s[1..], c);
      assert s[..i] == [s[0]] + s[1..][..i - 1];
      i
  }

  lemma FindAt(s: string, c: char, i: nat)
    requires i < |s| && s[i] == c && c !in s[..i]
    ensures Find(s, c) == i
  {
  }

  /** The lines successive getline calls return: a final newline does not open an empty last line. */
  function Lines(text: string): seq<string>
    decreases |text|
  {
    if text == [] then []
    else
      var i := Find(text, '\n');
      if i == |text| then [text] else [text[..i]] + Lines(text[i + 1..])
  }

  function Unlines(lines: seq<string>): string {
    if lines == [] then [] else lines[0] + "\n" + Unlines(lines[1..])
  }

  ghost predicate OneLine(s: string) { '\n' !in s }

  lemma FirstLine(line: string, rest: string)
    requires OneLine(line)
    ensures Lines(line + "\n" + rest) == [line] + Lines(rest)
  {
    var text := line + "\n" + rest;
    assert text[..|line|] == line && text[|line|] == '\n' && text[|line| + 1..] == rest;
    FindAt(text, '\n', |line|);
  }

  lemma LastLine(line: string)
    requires OneLine(line) && line != ""
    ensures Lines(line) == [line]
  {
  }

  lemma {:induction false} LinesOfUnlines(lines: seq<string>)
    requires forall i :: 0 <= i < |lines| ==> OneLine(lines[i])
    ensures Lines(Unlines(lines)) == lines
  {
    hide Find;
    if lines != [] {
      FirstLine(lines[0], Unlines(lines[1..]));
      LinesOfUnlines(lines[1..]);
    }
  }

  /** A last line without a newline is a line too. */
  lemma {:induction false} LinesOfUnterminated(lines: seq<string>, last: string)
    requires (forall i :: 0 <= i < |lines| ==> OneLine(lines[i])) && OneLine(last) && last != ""
    ensures Lines(Unlines(lines) + last) == lines + [last]
  {
    hide Lines, OneLine;
    if lines == [] {
      LastLine(last);
      assert Unlines(lines) + last == last;
    } else {
      var line, rest := lines[0], Unlines(lines[1..]);
      assert Unlines(lines) + last == line + "\n" + (rest + last);
      FirstLine(line, rest + last);
      LinesOfUnterminated(lines[1..], last);
    }
  }

  lemma {:induction false} UnlinesAppend(a: seq<string>, b: seq<string>)
    ensures Unlines(a + b) == Unlines(a) + Unlines(b)
  {
    if a == [] {
      assert a + b == b;
    } else {
      UnlinesAppend(a[1..], b);
      assert (a + b)[1..] == a[1..] + b;
    }
  }

  /** Splits a line at its first '='; None for a line without one or with an empty key. */
  function SplitField(line: string): Option<(string, string)> {
    var eq := Find(line, '=');
    if eq == |line| || eq == 0 then None else Some((line[..eq], line[eq + 1..]))
  }

  /** A key that can start a key=value line. */
  ghost predicate PlainKey(key: string) { key != "" && '=' !in key && '\n' !in key }

  lemma PlainByIndex(key: string)
    requires key != "" && forall i :: 0 <= i < |key| ==> key[i] != '=' && key[i] != '\n'
    ensures PlainKey(key) && OneLine(key)
  {
  }

  lemma SplitFieldOfJoin(key: string, value: string)
    requires key != "" && '=' !in key
    ensures SplitField(key + "=" + value) == Some((key, value))
  {
    var line := key + "=" + value;
    assert line[..|key|] == key && line[|key| + 1..] == value;
    FindAt(line, '=', |key|);
  }

  /** A line has no key when it has no equals sign or begins with one. */
  lemma NoFieldExactly(line: string)
    ensures SplitField(line) == None <==> '=' !in line || line[0] == '='
  {
  }

  // ---------- Decimal numbers ----------

  predicate IsDigit(c: char) { '0' <= c <= '9' }

  function Digit(d: nat): (c: char)
    requires d < 10
    ensures IsDigit(c) && c as int - '0' as int == d
  {
    '0' + d as char
  }

  function PrintNat(n: nat): (s: string)
    ensures s != "" && forall i :: 0 <= i < |s| ==> IsDigit(s[i])
  {
    if n < 10 then [Digit(n)] else PrintNat(n / 10) + [Digit(n % 10)]
  }

  function PrintInt(n: int): string {
    if n < 0 then "-" + PrintNat(-n) else PrintNat(n)
  }

  /** The value of a non-empty string of digits and nothing else. */
  function Digits(s: string): Option<nat> {
    if s == "" || !IsDigit(s[|s| - 1]) then None
    else
      var d := s[|s| - 1] as int - '0' as int;
      if |s| == 1 then Some(d)
      else match Digits(s[..|s| - 1])
           case None => None
           case Some(n) => Some(10 * n + d)
  }

  predicate IsSpace(c: char) { c == ' ' || '\t' <= c <= '\r' }

  function SkipSpaces(s: string): string {
    if s != "" && IsSpace(s[0]) then SkipSpaces(s[1..]) else s
  }

  /** What strtoll and strtoull read when they consume all of s: sign and magnitude. */
  function SignedDigits(s: string): Option<(bool, nat)> {
    var t := SkipSpaces(s);
    var negative := t != "" && t[0] == '-';
    var digits := if t != "" && (t[0] == '-' || t[0] == '+') then t[1..] else t;
    match Digits(digits)
    case None => None
    case Some(n) => Some((negative, n))
  }

  /** strict_parse_i64: out-of-range values are refused, not clamped. */
  function ParseI64(s: string): (r: Option<int>)
    ensures r.Some? ==> MIN_I64 <= r.value <= MAX_I64
  {
    match SignedDigits(s)
    case None => None
    case Some((negative, n)) =>
      var m: int := n;
      var v := if negative then -m else m;
      if MIN_I64 <= v <= MAX_I64 then Some(v) else None
  }

  /** The signed number a key of a file's key=value lines holds. */
  function IntField(fields: map<string, string>, key: string): Option<int> {
    if key in fields then ParseI64(fields[key]) else None
  }

  /** strict_parse_u64: strtoull negates a minus-signed value modulo 2^64. */
  function ParseU64(s: string): (r: Option<nat>)
    ensures r.Some? ==> r.value <= MAX_U64
  {
    match SignedDigits(s)
    case None => None
    case Some((negative, n)) =>
      if n > MAX_U64 then None
      else if negative && n > 0 then Some(MAX_U64 + 1 - n) else Some(n)
  }

  lemma {:induction false} DigitsOfPrintNat(n: nat)
    ensures Digits(PrintNat(n)) == Some(n)
  {
    var s := PrintNat(n);
    if n >= 10 {
      DigitsOfPrintNat(n / 10);
      assert s[..|s| - 1] == PrintNat(n / 10);
    }
  }

  lemma SignedDigitsOfPrint(n: nat)
    ensures SignedDigits(PrintNat(n)) == Some((false, n))
    ensures SignedDigits("-" + PrintNat(n)) == Some((true, n))
  {
    DigitsOfPrintNat(n);
    var s := PrintNat(n);
    assert SkipSpaces(s) == s;
    var m := "-" + s;
    assert SkipSpaces(m) == m && m[1..] == s;
  }

  /** Every printed number is read back if it fits, and refused, not clamped, if it does not; with a minus sign the
      unsigned reader gives its negation modulo 2^64. */
  lemma ParseOfPrintNat(n: nat)
    ensures ParseU64(PrintNat(n)) == if n <= 0xffff_ffff_ffff_ffff then Some(n) else None
    ensures ParseU64("-" + PrintNat(n)) == if n == 0 then Some(0)
                                           else if n <= 0xffff_ffff_ffff_ffff then Some(0x1_0000_0000_0000_0000 - n)
                                           else None
  {
    hide SignedDigits, PrintNat;
    SignedDigitsOfPrint(n);
  }

  lemma ParseOfPrintInt(n: int)
    ensures ParseI64(PrintInt(n)) ==
            if -0x8000_0000_0000_0000 <= n <= 0x7fff_ffff_ffff_ffff then Some(n) else None
  {
    hide SignedDigits, PrintNat;
    SignedDigitsOfPrint(if n < 0 then -n else n);
  }

  /** White space and a sign may stand before the digits, and nothing behind them. */
  lemma ParseAround(n: nat, before: string, behind: string)
    requires forall i :: 0 <= i < |before| ==> before[i] == ' ' || 9 <= before[i] as int <= 13
    requires behind != "" && !IsDigit(behind[|behind| - 1])
    ensures SignedDigits(before + PrintNat(n)) == SignedDigits(before + "+" + PrintNat(n)) == Some((false, n))
    ensures SignedDigits(before + "-" + PrintNat(n)) == Some((true, n))
    ensures SignedDigits(PrintNat(n) + behind) == None && SignedDigits("") == None
  {
    hide Digits, PrintNat;
    DigitsOfPrintNat(n);
    var s := PrintNat(n);
    SkipBefore(before, s);
    SkipBefore(before, "+" + s);
    SkipBefore(before, "-" + s);
    assert before + "+" + s == before + ("+" + s) && before + "-" + s == before + ("-" + s);
    assert ("+" + s)[1..] == s && ("-" + s)[1..] == s;
    NoDigitsBehind(s, behind);
  }

  lemma {:induction false} SkipBefore(before: string, s: string)
    requires forall i :: 0 <= i < |before| ==> IsSpace(before[i])
    requires s != "" && !IsSpace(s[0])
    ensures SkipSpaces(before + s) == s
  {
    if before == "" {
      assert before + s == s;
    } else {
      SkipBefore(before[1..], s);
      assert (before + s)[1..] == before[1..] + s;
    }
  }

  lemma NoDigitsBehind(s: string, behind: string)
    requires s != "" && IsDigit(s[0]) && behind != "" && !IsDigit(behind[|behind| - 1])
    ensures SkipSpaces(s + behind) == s + behind && Digits(s + behind) == None && Digits("") == None
  {
  }

  lemma PrintIntIsPlain(n: int)
    ensures '\n' !in PrintInt(n) && '=' !in PrintInt(n)
  {
  }

  /** Most significant digit first. */
  lemma PrintedExamples()
    ensures PrintNat(0) == "0" && PrintNat(1905) == "1905" && PrintInt(-27) == "-27"
  {
    assert PrintNat(1) == "1" && PrintNat(19) == PrintNat(1) + "9" && PrintNat(190) == PrintNat(19) + "0";
    assert PrintNat(27) == "2" + "7";
  }

  // ---------- Percent-encoding ----------

  predicate NeedsEscape(c: char) { c == '%' || c == '\n' || c == '\r' || c == '=' }

  const UPPER_HEX := "0123456789ABCDEF"

  function EscapeChar(c: char): (s: string)
    requires c as int < 256
  {
    ['%', UPPER_HEX[c as int / 16], UPPER_HEX[c as int % 16]]
  }

  function Encoded(s: string): (r: string)
  {
    if s == [] then [] else (if NeedsEscape(s[0]) then EscapeChar(s[0]) else [s[0]]) + Encoded(s[1..])
  }

  function HexValue(c: char): (v: Option<nat>)
    ensures v.Some? ==> v.value < 16
  {
    if '0' <= c <= '9' then Some(c as int - '0' as int)
    else if 'A' <= c <= 'F' then Some(10 + (c as int - 'A' as int))
    else if 'a' <= c <= 'f' then Some(10 + (c as int - 'a' as int))
    else None
  }

  function Decoded(s: string): Option<string>
  {
    if s == [] then Some([])
    else if s[0] != '%' then
      match Decoded(s[1..])
      case None => None
      case Some(rest) => Some([s[0]] + rest)
    else if |s| < 3 || HexValue(s[1]).None? || HexValue(s[2]).None? then None
    else
      match Decoded(s[3..])
      case None => None
      case Some(rest) => Some([(16 * HexValue(s[1]).value + HexValue(s[2]).value) as char] + rest)
  }

  lemma EscapeCharValue(c: char)
    requires NeedsEscape(c)
    ensures var e := EscapeChar(c);
            && |e| == 3 && e[0] == '%' && e[1] in UPPER_HEX && e[2] in UPPER_HEX
            && HexValue(e[1]) == Some(c as int / 16) && HexValue(e[2]) == Some(c as int % 16)
  {
    var e := EscapeChar(c);
    if c == '%' {
      assert e == "%25";
    } else if c == '=' {
      assert e == "%3D";
    } else if c == '\n' {
      assert e == "%0A";
    } else {
      assert e == "%0D";
    }
  }

  /** The escapes of the four special characters, and text without any of them as it is. */
  lemma EncodedExactly(s: string)
    ensures EscapeChar('%') == "%25" && EscapeChar('=') == "%3D"
    ensures EscapeChar('\n') == "%0A" && EscapeChar('\r') == "%0D"
    ensures (forall c :: c in s ==> c !in ['%', '=', '\n', '\r']) ==> Encoded(s) == s
  {
    if s != [] {
      EncodedExactly(s[1..]);
      assert [s[0]] + s[1..] == s && s[0] in s;
    }
  }

  /** Any byte may be escaped, with digits of either case. */
  lemma EscapeIsDecoded(hi: nat, lo: nat, d1: char, d2: char, rest: string)
    requires hi < 16 && d1 in ["0123456789ABCDEF"[hi], "0123456789abcdef"[hi]]
    requires lo < 16 && d2 in ["0123456789ABCDEF"[lo], "0123456789abcdef"[lo]]
    ensures Decoded(['%', d1, d2] + rest) == Prefixed([(16 * hi + lo) as char], Decoded(rest))
  {
    DigitIsRead(hi, d1);
    DigitIsRead(lo, d2);
    hide HexValue;
    var s := ['%', d1, d2] + rest;
    assert s[0] == '%' && s[1] == d1 && s[2] == d2 && s[3..] == rest;
  }

  lemma DigitIsRead(n: nat, d: char)
    requires n < 16 && d in ["0123456789ABCDEF"[n], "0123456789abcdef"[n]]
    ensures HexValue(d) == Some(n)
  {
  }

  lemma UpperHexIsPlain(c: char)
    requires c in UPPER_HEX
    ensures c != '=' && c != '\n' && c != '\r'
  {
  }

  lemma DecodeEscape(c: char, rest: string)
    requires NeedsEscape(c)
    ensures Decoded(EscapeChar(c) + rest) == match Decoded(rest) case None => None case Some(r) => Some([c] + r)
  {
    EscapeCharValue(c);
    hide EscapeChar, HexValue, UPPER_HEX, NeedsEscape;
    var e := EscapeChar(c);
    assert (e + rest)[3..] == rest && (e + rest)[0] == e[0] && (e + rest)[1] == e[1] && (e + rest)[2] == e[2];
    assert 16 * (c as int / 16) + c as int % 16 == c as int;
  }

  lemma {:induction false} DecodedOfEncoded(s: string)
    ensures Decoded(Encoded(s)) == Some(s)
  {
    if s != [] {
      var rest := Encoded(s[1..]);
      DecodedOfEncoded(s[1..]);
      assert [s[0]] + s[1..] == s;
      if NeedsEscape(s[0]) {
        hide EscapeChar, Decoded;
        DecodeEscape(s[0], rest);
      } else {
        assert ([s[0]] + rest)[1..] == rest;
      }
    }
  }

  lemma {:induction false} EncodedIsPlain(s: string)
    ensures '=' !in Encoded(s) && '\n' !in Encoded(s) && '\r' !in Encoded(s)
  {
    if s != [] {
      EncodedIsPlain(s[1..]);
      if NeedsEscape(s[0]) {
        EscapeCharValue(s[0]);
        var e := EscapeChar(s[0]);
        UpperHexIsPlain(e[1]);
        UpperHexIsPlain(e[2]);
        assert e == [e[0], e[1], e[2]];
      }
    }
  }

  lemma {:induction false} EncodedAppend(s: string, c: char)
    ensures Encoded(s + [c]) == Encoded(s) + (if NeedsEscape(c) then EscapeChar(c) else [c])
  {
    if s == [] {
      assert Encoded([]) == [];
      assert ([] + [c])[1..] == [];
    } else {
      EncodedAppend(s[1..], c);
      assert (s + [c])[1..] == s[1..] + [c];
    }
  }

  /** percent_encode: the output stream grows by one or three characters an input character. */
  method PercentEncode(s: string) returns (out: string)
    ensures out == Encoded(s)
  {
    out := "";
    for i := 0 to |s|
      invariant out == Encoded(s[..i])
    {
      EncodedAppend(s[..i], s[i]);
      assert s[..i + 1] == s[..i] + [s[i]];
      if NeedsEscape(s[i]) {
        out := out + EscapeChar(s[i]);
      } else {
        out := out + [s[i]];
      }
    }
    assert s[..|s|] == s;
  }

  /** percent_decode: fails on a '%' not followed by two hexadecimal digits of either case. */
  method PercentDecode(s: string) returns (ok: bool, out: string)
    ensures ok <==> Decoded(s).Some?
    ensures ok ==> Decoded(s) == Some(out)
  {
    out := "";
    var i := 0;
    PrefixedMore(out, [], Decoded(s));
    assert s[0..] == s;
    while i < |s|
      invariant 0 <= i <= |s| && Decoded(s) == Prefixed(out, Decoded(s[i..]))
    {
      ghost var rest := s[i..];
      if s[i] == '%' {
        if i + 2 >= |s| {
          return false, out;
        }
        assert rest[1] == s[i + 1] && rest[2] == s[i + 2] && rest[3..] == s[i + 3..];
        var hi, lo := HexValue(s[i + 1]), HexValue(s[i + 2]);
        if hi.None? || lo.None? {
          return false, out;
        }
        PrefixedMore(out, [(16 * hi.value + lo.value) as char], Decoded(s[i + 3..]));
        out := out + [(16 * hi.value + lo.value) as char];
        i := i + 3;
      } else {
        assert rest[1..] == s[i + 1..];
        PrefixedMore(out, [s[i]], Decoded(s[i + 1..]));
        out := out + [s[i]];
        i := i + 1;
      }
    }
    PrefixedMore(out, [], Some([]));
    ok := true;
  }
}
