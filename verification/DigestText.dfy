/** Reading a digest back: an independent positional reading of hexadecimal text, in either case. */
module DigestText {
  import opened Wrappers
  import opened Sha256Spec

  /** The value of a hexadecimal digit of either case. */
  function DigitValue(c: char): Option<word> {
    match c
    case '0' => Some(0)
    case '1' => Some(1)
    case '2' => Some(2)
    case '3' => Some(3)
    case '4' => Some(4)
    case '5' => Some(5)
    case '6' => Some(6)
    case '7' => Some(7)
    case '8' => Some(8)
    case '9' => Some(9)
    case 'a' => Some(10)
    case 'b' => Some(11)
    case 'c' => Some(12)
    case 'd' => Some(13)
    case 'e' => Some(14)
    case 'f' => Some(15)
    case 'A' => Some(10)
    case 'B' => Some(11)
    case 'C' => Some(12)
    case 'D' => Some(13)
    case 'E' => Some(14)
    case 'F' => Some(15)
    case _ => None
  }

  predicate LowerCaseDigit(c: char) { '0' <= c <= '9' || 'a' <= c <= 'f' }

  ghost predicate LowerCaseText(s: string) { forall c :: c in s ==> LowerCaseDigit(c) }

  /** A word with one more hexadecimal digit after it. */
  function Shifted(w: word, d: word): word { (w << 4) | d }

  /** The word a string of hexadecimal digits stands for, most significant digit first. */
  function ReadWord(s: string): Option<word> {
    if s == "" then Some(0)
    else
      match (ReadWord(s[..|s| - 1]), DigitValue(s[|s| - 1]))
      case (Some(w), Some(d)) => Some(Shifted(w, d))
      case _ => None
  }

  /** Digits 8 i to 8 i + 7 of a digest. */
  function Part(s: string, i: nat): (r: string)
    requires |s| == 64 && i < 8
    ensures |r| == 8
  {
    s[8 * i..8 * i + 8]
  }

  /** The hash value sixty-four hexadecimal digits stand for: eight words of eight digits. */
  function ReadDigest(s: string): Option<Hash> {
    if |s| != 64 then None
    else
      match (ReadWord(Part(s, 0)), ReadWord(Part(s, 1)), ReadWord(Part(s, 2)), ReadWord(Part(s, 3)),
             ReadWord(Part(s, 4)), ReadWord(Part(s, 5)), ReadWord(Part(s, 6)), ReadWord(Part(s, 7)))
      case (Some(a), Some(b), Some(c), Some(d), Some(e), Some(f), Some(g), Some(h)) =>
        Some(Hash(a, b, c, d, e, f, g, h))
      case _ => None
  }

  // ---------- What is printed is read back ----------

  lemma DigitRead(n: word)
    requires n <= 15
    ensures n as int < 16 && DigitValue(HEX[n as int]) == Some(n) && LowerCaseDigit(HEX[n as int])
  {
  }

  lemma ByteRead(b: word)
    requires b <= 0xFF
    ensures DigitValue(HighDigit(b)) == Some(b >> 4) && LowerCaseDigit(HighDigit(b))
    ensures DigitValue(LowDigit(b)) == Some(b & 0xF) && LowerCaseDigit(LowDigit(b))
  {
    hide DigitValue, LowerCaseDigit, HEX;
    assert b >> 4 <= 15 && b & 0xF <= 15;
    DigitRead(b >> 4);
    DigitRead(b & 0xF);
  }

  /** A word with one more byte after it. */
  function WithByte(w: word, b: word): word { (w << 8) | b }

  lemma ShiftedByte(w: word, b: word)
    requires b <= 0xFF
    ensures Shifted(Shifted(w, b >> 4), b & 0xF) == WithByte(w, b)
  {
  }

  lemma ReadTwo(s: string, w: word, d: word, e: word)
    requires |s| >= 2 && ReadWord(s[..|s| - 2]) == Some(w)
    requires DigitValue(s[|s| - 2]) == Some(d) && DigitValue(s[|s| - 1]) == Some(e)
    ensures ReadWord(s) == Some(Shifted(Shifted(w, d), e))
  {
    hide DigitValue, Shifted;
    var t := s[..|s| - 1];
    assert t[..|t| - 1] == s[..|s| - 2];
  }

  lemma BytesJoin(w: word)
    ensures WithByte(WithByte(WithByte(WithByte(0, ByteOf(w, 0)), ByteOf(w, 1)), ByteOf(w, 2)), ByteOf(w, 3)) == w
  {
  }

  /** The digits of byte j extend what has been read by that byte. */
  lemma ReadByte(w: word, j: nat, before: word)
    requires j < 4 && ReadWord(HexWord(w)[..2 * j]) == Some(before)
    ensures ReadWord(HexWord(w)[..2 * j + 2]) == Some(WithByte(before, ByteOf(w, j)))
  {
    hide DigitValue, Shifted, ByteOf, HighDigit, LowDigit, ReadWord, LowerCaseDigit, WithByte;
    var s := HexWord(w)[..2 * j + 2];
    assert s[2 * j] == HighDigit(ByteOf(w, j)) && s[2 * j + 1] == LowDigit(ByteOf(w, j));
    assert s[..|s| - 2] == HexWord(w)[..2 * j];
    ByteRead(ByteOf(w, j));
    ReadTwo(s, before, ByteOf(w, j) >> 4, ByteOf(w, j) & 0xF);
    ShiftedByte(before, ByteOf(w, j));
  }

  lemma WordRead(w: word)
    ensures ReadWord(HexWord(w)) == Some(w)
    ensures LowerCaseText(HexWord(w))
  {
    hide DigitValue, ByteOf, HighDigit, LowDigit, LowerCaseDigit;
    forall i | 0 <= i < 8 ensures LowerCaseDigit(HexWord(w)[i]) {
      ByteRead(ByteOf(w, i / 2));
    }
    hide HexWord;
    var s := HexWord(w);
    assert ReadWord(s[..0]) == Some(0);
    hide ReadWord;
    BytesJoin(w);
    hide WithByte;
    ReadByte(w, 0, 0);
    var one := WithByte(0, ByteOf(w, 0));
    ReadByte(w, 1, one);
    var two := WithByte(one, ByteOf(w, 1));
    ReadByte(w, 2, two);
    ReadByte(w, 3, WithByte(two, ByteOf(w, 2)));
    assert s[..8] == s;
  }

  lemma PartsOfDigest(v: Hash)
    ensures var s := HexDigest(v);
            && Part(s, 0) == HexWord(v.a) && Part(s, 1) == HexWord(v.b) && Part(s, 2) == HexWord(v.c)
            && Part(s, 3) == HexWord(v.d) && Part(s, 4) == HexWord(v.e) && Part(s, 5) == HexWord(v.f)
            && Part(s, 6) == HexWord(v.g) && Part(s, 7) == HexWord(v.h)
  {
    hide HexWord;
    SplitAtEights(HexWord(v.a), HexWord(v.b), HexWord(v.c), HexWord(v.d),
                  HexWord(v.e), HexWord(v.f), HexWord(v.g), HexWord(v.h));
  }

  lemma SplitAtEights(a: string, b: string, c: string, d: string, e: string, f: string, g: string, h: string)
    requires |a| == |b| == |c| == |d| == |e| == |f| == |g| == |h| == 8
    ensures var s := a + b + c + d + e + f + g + h;
            && a == Part(s, 0) && b == Part(s, 1) && c == Part(s, 2) && d == Part(s, 3)
            && e == Part(s, 4) && f == Part(s, 5) && g == Part(s, 6) && h == Part(s, 7)
  {
  }

  lemma PartsAreWhole(s: string)
    requires |s| == 64
    ensures s == Part(s, 0) + Part(s, 1) + Part(s, 2) + Part(s, 3) + Part(s, 4) + Part(s, 5) + Part(s, 6) + Part(s, 7)
  {
  }

  lemma LowerCaseParts(s: string)
    requires |s| == 64 && forall i: nat :: i < 8 ==> LowerCaseText(Part(s, i))
    ensures LowerCaseText(s)
  {
    hide LowerCaseDigit;
    forall k: nat | k < 64 ensures LowerCaseDigit(s[k]) {
      assert s[k] == Part(s, k / 8)[k % 8];
    }
  }

  /** The printed digest is sixty-four lower-case digits, and reads as the hash value. */
  lemma DigestRead(v: Hash)
    ensures ReadDigest(HexDigest(v)) == Some(v)
    ensures LowerCaseText(HexDigest(v))
  {
    PartsOfDigest(v);
    hide HexWord, HexDigest, ReadWord, LowerCaseText, Part;
    WordRead(v.a);
    WordRead(v.b);
    WordRead(v.c);
    WordRead(v.d);
    WordRead(v.e);
    WordRead(v.f);
    WordRead(v.g);
    WordRead(v.h);
    LowerCaseParts(HexDigest(v));
  }

  // ---------- A value has one text, up to case ----------

  lemma DigitsAreDistinct(c: char, d: char)
    requires LowerCaseDigit(c) && LowerCaseDigit(d) && DigitValue(c) == DigitValue(d)
    ensures c == d
  {
  }

  predicate OneDigit(d: word) { d <= 15 }

  lemma DigitsAreSmall(c: char)
    ensures DigitValue(c).Some? ==> OneDigit(DigitValue(c).value)
  {
  }

  /** The largest word of so many digits. */
  function Largest(digits: nat): word
    requires digits <= 8
  {
    match digits
    case 0 => 0
    case 1 => 0xF
    case 2 => 0xFF
    case 3 => 0xFFF
    case 4 => 0xFFFF
    case 5 => 0xF_FFFF
    case 6 => 0xFF_FFFF
    case 7 => 0xFFF_FFFF
    case 8 => 0xFFFF_FFFF
  }

  predicate Fits(w: word, digits: nat) { digits <= 8 && w <= Largest(digits) }

  lemma ShiftedBound(k: nat, w: word, d: word)
    requires k < 8 && Fits(w, k) && OneDigit(d)
    ensures Fits(Shifted(w, d), k + 1)
  {
  }

  lemma ShiftedSplits(k: nat, w: word, d: word, u: word, e: word)
    requires k < 8 && Fits(w, k) && Fits(u, k) && OneDigit(d) && OneDigit(e)
    requires Shifted(w, d) == Shifted(u, e)
    ensures w == u && d == e
  {
  }

  lemma {:induction false} ReadBound(s: string)
    requires |s| <= 8
    ensures ReadWord(s).Some? ==> Fits(ReadWord(s).value, |s|)
  {
    if s == "" {
      return;
    }
    hide DigitValue, Shifted, Fits, OneDigit;
    if ReadWord(s).Some? {
      var before := s[..|s| - 1];
      ReadBound(before);
      DigitsAreSmall(s[|s| - 1]);
      ShiftedBound(|before|, ReadWord(before).value, DigitValue(s[|s| - 1]).value);
    }
  }

  lemma SameLast(s: string, t: string)
    requires 0 < |s| == |t| <= 8 && ReadWord(s).Some? && ReadWord(s) == ReadWord(t)
    ensures ReadWord(s[..|s| - 1]).Some? && ReadWord(s[..|s| - 1]) == ReadWord(t[..|s| - 1])
    ensures DigitValue(s[|s| - 1]) == DigitValue(t[|s| - 1])
  {
    hide DigitValue, Shifted, Fits, OneDigit;
    var k := |s| - 1;
    ReadBound(s[..k]);
    ReadBound(t[..k]);
    DigitsAreSmall(s[k]);
    DigitsAreSmall(t[k]);
    ShiftedSplits(k, ReadWord(s[..k]).value, DigitValue(s[k]).value, ReadWord(t[..k]).value, DigitValue(t[k]).value);
  }

  lemma {:induction false} ReadingIsInjective(s: string, t: string)
    requires |s| == |t| <= 8 && ReadWord(s).Some? && ReadWord(s) == ReadWord(t)
    requires LowerCaseText(s) && LowerCaseText(t)
    ensures s == t
  {
    hide DigitValue, ReadWord, LowerCaseDigit;
    if s != "" {
      var k := |s| - 1;
      SameLast(s, t);
      ReadingIsInjective(s[..k], t[..k]);
      DigitsAreDistinct(s[k], t[k]);
      assert s == s[..k] + [s[k]] && t == t[..k] + [t[k]];
    }
  }

  function LowerChar(c: char): char { if 'A' <= c <= 'Z' then c - 'A' + 'a' else c }

  /** to_lower, in the default locale. */
  function Lower(s: string): (r: string)
    ensures |r| == |s|
  {
    seq(|s|, i requires 0 <= i < |s| => LowerChar(s[i]))
  }

  lemma CaseIsIgnored(c: char)
    ensures DigitValue(LowerChar(c)) == DigitValue(c)
    ensures DigitValue(c).Some? ==> LowerCaseDigit(LowerChar(c))
  {
  }

  lemma {:induction false} ReadLower(s: string)
    ensures ReadWord(Lower(s)) == ReadWord(s)
    ensures ReadWord(s).Some? ==> LowerCaseText(Lower(s))
  {
    hide DigitValue, Shifted, LowerChar, LowerCaseDigit;
    if s != "" {
      var k := |s| - 1;
      ReadLower(s[..k]);
      assert Lower(s)[..k] == Lower(s[..k]);
      CaseIsIgnored(s[k]);
    }
  }

  lemma PartReads(t: string, v: Hash, i: nat)
    requires |t| == 64 && i < 8
    ensures ReadWord(Part(Lower(t), i)) == ReadWord(Part(t, i))
    ensures ReadWord(Part(t, i)).Some? && ReadWord(Part(t, i)) == ReadWord(Part(HexDigest(v), i))
            ==> Part(Lower(t), i) == Part(HexDigest(v), i)
  {
    hide DigitValue, ReadWord, LowerCaseDigit, LowerChar, HexDigest;
    var part, printed := Part(t, i), Part(HexDigest(v), i);
    ReadLower(part);
    assert Part(Lower(t), i) == Lower(part);
    DigestRead(v);
    if ReadWord(part).Some? && ReadWord(part) == ReadWord(printed) {
      ReadingIsInjective(Lower(part), printed);
    }
  }

  /** A text reads as a hash value exactly when it is the printed digest up to case. */
  lemma ReadsAsExactly(t: string, v: Hash)
    ensures Lower(t) == HexDigest(v) <==> ReadDigest(t) == Some(v)
  {
    hide ReadWord, Part, HexDigest, Lower, LowerCaseText;
    DigestRead(v);
    if |t| == 64 {
      PartReads(t, v, 0);
      PartReads(t, v, 1);
      PartReads(t, v, 2);
      PartReads(t, v, 3);
      PartReads(t, v, 4);
      PartReads(t, v, 5);
      PartReads(t, v, 6);
      PartReads(t, v, 7);
      PartsAreWhole(Lower(t));
      PartsAreWhole(HexDigest(v));
    }
  }
}
