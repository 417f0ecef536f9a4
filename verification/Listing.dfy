/** The model listing: printed as text by the C API, read back line by line by the dashboard. */
module Listing {
  import opened Wrappers
  import opened TextCodec
  import opened FileSystem
  import opened Registry
  import RegistryStore
  import opened Json

  /** What a listing line says of one entry. */
  datatype Record = Record(id: string, name: string, architecture: string, quantization: string, verification: string)

  // ---------- Printing ----------

  /** The texts of the verification statuses, by number. */
  type Messages = nat -> string

  function OrElse(s: string, default: string): string { if s == "" then default else s }

  function Shown(e: Entry, message: Messages): Record {
    Record(e.modelId, OrElse(e.displayName, "(unnamed)"), OrElse(e.architecture, "unknown-architecture"),
           OrElse(e.quantization, "unknown-quantization"), message(e.status))
  }

  function ShownAll(entries: seq<Entry>, message: Messages): (r: seq<Record>)
    ensures |r| == |entries| && forall i :: 0 <= i < |r| ==> r[i] == Shown(entries[i], message)
  {
    seq(|entries|, i requires 0 <= i < |entries| => Shown(entries[i], message))
  }

  function Attributes(r: Record): string { r.architecture + "  " + r.quantization }

  function LineOf(r: Record): string {
    r.id + "  " + r.name + "  [" + Attributes(r) + "]  " + r.verification
  }

  lemma LineExample()
    ensures LineOf(Record("7f3a", "Tiny", "llama", "Q4_0", "Verified"))
         == "7f3a" + "  " + "Tiny" + "  [" + "llama" + "  " + "Q4_0" + "]  " + "Verified"
  {
    assert "  [" + ("llama" + "  " + "Q4_0") == "  [" + "llama" + "  " + "Q4_0";
  }

  function LinesFor(records: seq<Record>): (r: seq<string>)
    ensures |r| == |records| && forall i :: 0 <= i < |r| ==> r[i] == LineOf(records[i])
  {
    seq(|records|, i requires 0 <= i < |records| => LineOf(records[i]))
  }

  function ListingText(records: seq<Record>): string { Unlines(LinesFor(records)) }

  lemma OneMoreLine(records: seq<Record>, r: Record)
    ensures ListingText(records + [r]) == ListingText(records) + LineOf(r) + "\n"
  {
    hide LineOf;
    assert LinesFor(records + [r]) == LinesFor(records) + [LineOf(r)];
    UnlinesAppend(LinesFor(records), [LineOf(r)]);
    assert Unlines([LineOf(r)]) == LineOf(r) + "\n" + [] by {
      assert [LineOf(r)][1..] == [];
    }
    assert LineOf(r) + "\n" + [] == LineOf(r) + "\n";
    assert ListingText(records) + (LineOf(r) + "\n") == ListingText(records) + LineOf(r) + "\n";
  }

  /** syj_edgemind_list_models: empty unless the registry loads. */
  method ListModels(disk: Disk, path: string, message: Messages) returns (report: string)
    ensures var stored := LoadText(Get(disk.files, path));
            report == if stored.result == Ok then ListingText(ShownAll(stored.entries, message)) else ""
  {
    hide LoadText, LineOf, Shown;
    var stored := RegistryStore.Load(disk, path);
    report := "";
    if stored.result != Ok {
      return;
    }
    ghost var shown := ShownAll(stored.entries, message);
    for i := 0 to |stored.entries|
      invariant report == ListingText(shown[..i])
    {
      OneMoreLine(shown[..i], shown[i]);
      assert shown[..i + 1] == shown[..i] + [shown[i]];
      report := report + LineOf(Shown(stored.entries[i], message)) + "\n";
    }
    assert shown[..|stored.entries|] == shown;
  }

  // ---------- Reading ----------

  /** What survives the C string in between. */
  function Visible(text: string): string { text[..Find(text, '\0')] }

  function WordRun(s: string): (n: nat)
    ensures n <= |s| && (forall i :: 0 <= i < n ==> !IsSpace(s[i])) && (n < |s| ==> IsSpace(s[n]))
  {
    if s == [] || IsSpace(s[0]) then 0 else 1 + WordRun(s[1..])
  }

  /** The first word of a line; empty when the line is blank. */
  function FirstWord(line: string): string {
    var t := SkipSpaces(line);
    t[..WordRun(t)]
  }

  /** The greatest index at which needle occurs in s, `from` at most, as std::string::rfind gives it. */
  function FindLast(s: string, needle: string, from: nat): (r: Option<nat>)
    ensures r.Some? ==> r.value <= from && OccursAt(s, needle, r.value)
    ensures r.Some? ==> forall i :: r.value < i <= from ==> !OccursAt(s, needle, i)
    ensures r.None? ==> forall i :: 0 <= i <= from ==> !OccursAt(s, needle, i)
  {
    if OccursAt(s, needle, from) then Some(from)
    else if from == 0 then None
    else FindLast(s, needle, from - 1)
  }

  /** One line of the listing; None for a line that does not have the listing's shape. */
  function ReadRecord(line: string): Option<Record> {
    if FirstWord(line) == "" then None
    else match FindText(line, "  ", 0)
         case None => None
         case Some(sep) =>
           match FindText(line, "  [", sep + 2)
           case None => None
           case Some(bracket) =>
             match FindLast(line, "]  ", |line|)
             case None => None
             case Some(close) =>
               if close <= bracket + 3 then None
               else
                 var attrs := line[bracket + 3..close];
                 match FindText(attrs, "  ", 0)
                 case None => None
                 case Some(mid) =>
                   Some(Record(FirstWord(line), line[sep + 2..bracket], attrs[..mid], attrs[mid + 2..],
                               line[close + 3..]))
  }

  function RecordsOf(lines: seq<string>): seq<Record> {
    if lines == [] then []
    else
      var before, last := RecordsOf(lines[..|lines| - 1]), ReadRecord(lines[|lines| - 1]);
      if last.Some? then before + [last.value] else before
  }

  function JsonText(s: string): string { "\"" + Escaped(s) + "\"" }

  function JsonField(name: string, value: string): string { "\"" + name + "\":" + JsonText(value) }

  function JsonRecord(r: Record): string {
    "{" + JsonField("model_id", r.id) + "," + JsonField("name", r.name) + ","
    + JsonField("architecture", r.architecture) + "," + JsonField("quantization", r.quantization) + ","
    + JsonField("verification", r.verification) + "}"
  }

  /** The objects, separated by commas. */
  function JsonObjects(records: seq<Record>): string {
    if records == [] then ""
    else if |records| == 1 then JsonRecord(records[0])
    else JsonObjects(records[..|records| - 1]) + "," + JsonRecord(records[|records| - 1])
  }

  /** models_as_json */
  method ModelsAsJson(text: string) returns (out: string)
    ensures out == "[" + JsonObjects(RecordsOf(Lines(text))) + "]"
  {
    hide ReadRecord, JsonRecord, Lines;
    out := "";
    var first := true;
    var lines := Lines(text);
    for i := 0 to |lines|
      invariant out == JsonObjects(RecordsOf(lines[..i]))
      invariant first == (RecordsOf(lines[..i]) == [])
    {
      assert lines[..i + 1][..i] == lines[..i];
      var r := ReadRecord(lines[i]);
      if r.None? {
        continue;
      }
      ghost var before := RecordsOf(lines[..i]);
      assert (before + [r.value])[..|before|] == before;
      if !first {
        out := out + ",";
      }
      first := false;
      out := out + JsonRecord(r.value);
    }
    assert lines[..|lines|] == lines;
    out := "[" + out + "]";
  }

  // ---------- When the reader gives back what was printed ----------

  ghost predicate Occurs(s: string, needle: string) { exists i: nat :: OccursAt(s, needle, i) }

  ghost predicate Clean(s: string) { '\n' !in s && '\0' !in s }

  /** The records the line format can carry. */
  ghost predicate Listable(r: Record) {
    && r.id != "" && (forall i :: 0 <= i < |r.id| ==> !IsSpace(r.id[i]))
    && !Occurs(r.name, "  [") && !Occurs(r.architecture + " ", "  ") && !Occurs(r.verification, "]  ")
    && Clean(r.id) && Clean(r.name) && Clean(r.architecture) && Clean(r.quantization) && Clean(r.verification)
  }

  lemma SliceOfSlice(s: string, lo: nat, hi: nat, i: nat, j: nat)
    requires lo <= hi <= |s| && i <= j <= hi - lo
    ensures s[lo..hi][i..j] == s[lo + i..lo + j]
  {
    var a, b := s[lo..hi][i..j], s[lo + i..lo + j];
    forall k | 0 <= k < j - i ensures a[k] == b[k] {
      assert a[k] == s[lo..hi][i + k];
    }
  }

  /** The first occurrence of a separator is where it was put, if none reaches into it from the left. */
  lemma FirstSplit(before: string, a: string, needle: string, b: string)
    requires needle != "" && !Occurs(a + needle[..|needle| - 1], needle)
    ensures FindText(before + a + needle + b, needle, |before|) == Some(|before| + |a|)
  {
    hide FindText;
    var s, k, n := before + a + needle + b, |before| + |a|, |needle|;
    var head := a + needle[..n - 1];
    assert s[k..k + n] == needle;
    assert head == s[|before|..k + n - 1];
    forall i | |before| <= i < k ensures !OccursAt(s, needle, i) {
      SliceOfSlice(s, |before|, k + n - 1, i - |before|, i - |before| + n);
      assert !OccursAt(head, needle, i - |before|);
    }
    var r := FindText(s, needle, |before|);
    assert OccursAt(s, needle, k);
  }

  lemma OccursInSlice(s: string, needle: string, lo: nat, hi: nat)
    requires lo <= hi <= |s|
    requires forall i :: lo <= i && i + |needle| <= hi ==> !OccursAt(s, needle, i)
    ensures !Occurs(s[lo..hi], needle)
  {
    forall i: nat ensures !OccursAt(s[lo..hi], needle, i) {
      if i + |needle| <= hi - lo {
        SliceOfSlice(s, lo, hi, i, i + |needle|);
        assert !OccursAt(s, needle, lo + i);
      }
    }
  }

  /** And what a search splits off has no occurrence reaching into the separator. */
  lemma SplitIsFirst(s: string, needle: string, from: nat, k: nat)
    requires needle != "" && FindText(s, needle, from) == Some(k)
    ensures !Occurs(s[from..k] + needle[..|needle| - 1], needle)
  {
    var n := |needle|;
    assert s[k..k + n][..n - 1] == s[k..k + n - 1];
    hide FindText, Occurs;
    OccursInSlice(s, needle, from, k + n - 1);
    assert s[from..k] + needle[..n - 1] == s[from..k + n - 1];
  }

  /** The last occurrence of a separator is where it was put, if none reaches into it from the right. */
  lemma LastSplit(a: string, needle: string, b: string)
    requires needle != "" && !Occurs(needle[1..] + b, needle)
    ensures FindLast(a + needle + b, needle, |a + needle + b|) == Some(|a|)
  {
    hide FindLast;
    var s, k, n := a + needle + b, |a|, |needle|;
    var tail := needle[1..] + b;
    assert s[k..k + n] == needle;
    assert s[k + 1..|s|] == tail;
    forall i | k < i <= |s| ensures !OccursAt(s, needle, i) {
      assert !OccursAt(tail, needle, i - k - 1);
      if i + n <= |s| {
        SliceOfSlice(s, k + 1, |s|, i - k - 1, i - k - 1 + n);
      }
    }
    var r := FindLast(s, needle, |s|);
    assert OccursAt(s, needle, k);
  }

  lemma TailFromNeedle(s: string, needle: string, k: nat)
    requires needle != "" && OccursAt(s, needle, k)
    ensures needle[1..] + s[k + |needle|..] == s[k + 1..|s|]
  {
    var a, b, n := needle[1..] + s[k + |needle|..], s[k + 1..|s|], |needle|;
    forall i | 0 <= i < |a| ensures a[i] == b[i] {
      if i < n - 1 {
        assert s[k..k + n][i + 1] == needle[i + 1];
      }
    }
  }

  lemma SplitIsLast(s: string, needle: string, k: nat)
    requires needle != "" && FindLast(s, needle, |s|) == Some(k)
    ensures OccursAt(s, needle, k) && !Occurs(needle[1..] + s[k + |needle|..], needle)
  {
    hide FindLast, Occurs;
    TailFromNeedle(s, needle, k);
    OccursInSlice(s, needle, k + 1, |s|);
  }

  lemma NotNeedle(a: string, needle: string, pad: string)
    requires |needle| > 0 && !Occurs(a, needle)
    requires forall i :: 0 <= i < |pad| ==> pad[i] != needle[|needle| - 1]
    ensures !Occurs(a + pad, needle)
  {
    var n := |needle|;
    forall i: nat ensures !OccursAt(a + pad, needle, i) {
      if i + n <= |a| {
        assert (a + pad)[i..i + n] == a[i..i + n];
        assert !OccursAt(a, needle, i);
      } else if i + n <= |a + pad| {
        assert (a + pad)[i..i + n][n - 1] == pad[i + n - 1 - |a|];
      }
    }
  }

  lemma WordAtStart(id: string, rest: string)
    requires id != "" && (forall i :: 0 <= i < |id| ==> !IsSpace(id[i])) && rest != "" && IsSpace(rest[0])
    ensures FirstWord(id + rest) == id
  {
    hide WordRun;
    var line := id + rest;
    assert SkipSpaces(line) == line;
    var n := WordRun(line);
    assert forall i :: 0 <= i < |id| ==> line[i] == id[i];
    assert line[|id|] == rest[0];
  }

  lemma Regroup(x: string, a: string, b: string, c: string)
    ensures x + a + b + c == x + (a + b + c)
  {
  }

  /** The attributes between the brackets split at their first double space. */
  lemma ReadAttributes(r: Record)
    requires !Occurs(r.architecture + " ", "  ")
    ensures FindText(Attributes(r), "  ", 0) == Some(|r.architecture|)
    ensures Attributes(r)[..|r.architecture|] == r.architecture
    ensures Attributes(r)[|r.architecture| + 2..] == r.quantization
  {
    hide FindText;
    assert "  "[..1] == " ";
    FirstSplit([], r.architecture, "  ", r.quantization);
    assert [] + r.architecture == r.architecture;
  }

  function Behind(r: Record): string { Attributes(r) + "]  " + r.verification }

  lemma FindFirstSeparator(r: Record)
    requires Listable(r)
    ensures FindText(LineOf(r), "  ", 0) == Some(|r.id|) && FirstWord(LineOf(r)) == r.id
  {
    hide FindText, Occurs, FirstWord, Attributes;
    var rest := r.name + "  [" + Behind(r);
    assert "  "[..1] == " ";
    NoDoubleSpace(r.id);
    FirstSplit([], r.id, "  ", rest);
    assert [] + r.id == r.id;
    Regroup(r.id + "  ", r.name, "  [", Behind(r));
    Regroup(r.id + "  " + r.name + "  [", Attributes(r), "]  ", r.verification);
    WordAtStart(r.id, "  " + rest);
    assert r.id + ("  " + rest) == r.id + "  " + rest;
  }

  lemma FindBracket(r: Record)
    requires Listable(r)
    ensures FindText(LineOf(r), "  [", |r.id| + 2) == Some(|r.id| + 2 + |r.name|)
  {
    hide FindText, Occurs, Attributes;
    assert "  ["[..2] == "  ";
    NotNeedle(r.name, "  [", "  ");
    FirstSplit(r.id + "  ", r.name, "  [", Behind(r));
    Regroup(r.id + "  " + r.name + "  [", Attributes(r), "]  ", r.verification);
  }

  lemma FindClose(r: Record)
    requires Listable(r)
    ensures FindLast(LineOf(r), "]  ", |LineOf(r)|) == Some(|r.id| + 5 + |r.name| + |Attributes(r)|)
  {
    hide FindLast, Occurs, Attributes;
    assert "]  "[1..] == "  ";
    NotNeedleBefore("  ", r.verification, "]  ");
    LastSplit(r.id + "  " + r.name + "  [" + Attributes(r), "]  ", r.verification);
  }

  lemma LineSlices(r: Record)
    ensures var line, bracket := LineOf(r), |r.id| + 2 + |r.name|;
            var close := bracket + 3 + |Attributes(r)|;
            && line[|r.id| + 2..bracket] == r.name && line[bracket + 3..close] == Attributes(r)
            && line[close + 3..] == r.verification
  {
    hide Attributes;
  }

  lemma NoDoubleSpace(id: string)
    requires forall i :: 0 <= i < |id| ==> !IsSpace(id[i])
    ensures !Occurs(id + " ", "  ")
  {
    forall i: nat ensures !OccursAt(id + " ", "  ", i) {
      if i + 2 <= |id| + 1 {
        assert (id + " ")[i..i + 2][0] == id[i];
      }
    }
  }

  lemma NotNeedleBefore(pad: string, a: string, needle: string)
    requires |needle| > 0 && !Occurs(a, needle)
    requires forall i :: 0 <= i < |pad| ==> pad[i] != needle[0]
    ensures !Occurs(pad + a, needle)
  {
    var n := |needle|;
    forall i: nat ensures !OccursAt(pad + a, needle, i) {
      if i + n <= |pad + a| {
        if i < |pad| {
          assert (pad + a)[i..i + n][0] == pad[i];
        } else {
          assert (pad + a)[i..i + n] == a[i - |pad|..i - |pad| + n];
          assert !OccursAt(a, needle, i - |pad|);
        }
      }
    }
  }

  /** A listable record is read back from its line. */
  lemma ReadRecordOfLine(r: Record)
    requires Listable(r)
    ensures ReadRecord(LineOf(r)) == Some(r)
  {
    hide FindText, FindLast, Occurs, FirstWord, LineOf, Attributes;
    FindFirstSeparator(r);
    FindBracket(r);
    FindClose(r);
    LineSlices(r);
    ReadAttributes(r);
    assert |Attributes(r)| >= |r.architecture|;
  }

  lemma CleanSlice(s: string, lo: nat, hi: nat)
    requires Clean(s) && lo <= hi <= |s|
    ensures Clean(s[lo..hi])
  {
  }

  /** Whatever line a record is read from, the record is listable. */
  lemma ReadRecordsAreListable(line: string)
    requires Clean(line) && ReadRecord(line).Some?
    ensures Listable(ReadRecord(line).value)
  {
    hide FindText, FindLast, Occurs, Clean, SkipSpaces, WordRun;
    var sep := FindText(line, "  ", 0).value;
    var bracket := FindText(line, "  [", sep + 2).value;
    var close := FindLast(line, "]  ", |line|).value;
    var attrs := line[bracket + 3..close];
    var mid := FindText(attrs, "  ", 0).value;
    var r := ReadRecord(line).value;
    assert "  "[..1] == " " && "  ["[..2] == "  " && "]  "[1..] == "  ";
    SplitIsFirst(line, "  [", sep + 2, bracket);
    assert !Occurs(r.name, "  [") by { OccursInPrefix(r.name, "  ", "  ["); }
    SplitIsFirst(attrs, "  ", 0, mid);
    assert attrs[0..mid] == r.architecture;
    SplitIsLast(line, "]  ", close);
    assert !Occurs(r.verification, "]  ") by { OccursInSuffix("  ", r.verification, "]  "); }
    CleanSlice(line, sep + 2, bracket);
    CleanSlice(line, bracket + 3, close);
    CleanSlice(attrs, 0, mid);
    CleanSlice(attrs, mid + 2, |attrs|);
    CleanSlice(line, close + 3, |line|);
    assert attrs[mid + 2..|attrs|] == r.quantization && line[close + 3..|line|] == r.verification;
    CleanWord(line);
  }

  lemma OccursInPrefix(a: string, pad: string, needle: string)
    requires !Occurs(a + pad, needle)
    ensures !Occurs(a, needle)
  {
    forall i: nat ensures !OccursAt(a, needle, i) {
      if i + |needle| <= |a| {
        assert (a + pad)[i..i + |needle|] == a[i..i + |needle|];
        assert !OccursAt(a + pad, needle, i);
      }
    }
  }

  lemma OccursInSuffix(pad: string, a: string, needle: string)
    requires !Occurs(pad + a, needle)
    ensures !Occurs(a, needle)
  {
    forall i: nat ensures !OccursAt(a, needle, i) {
      if i + |needle| <= |a| {
        assert (pad + a)[|pad| + i..|pad| + i + |needle|] == a[i..i + |needle|];
        assert !OccursAt(pad + a, needle, |pad| + i);
      }
    }
  }

  lemma {:induction false} SkipSpacesIsSuffix(s: string)
    ensures |SkipSpaces(s)| <= |s| && SkipSpaces(s) == s[|s| - |SkipSpaces(s)|..]
  {
    if s != "" && IsSpace(s[0]) {
      SkipSpacesIsSuffix(s[1..]);
    }
  }

  lemma CleanWord(line: string)
    requires Clean(line)
    ensures Clean(FirstWord(line)) && forall i :: 0 <= i < |FirstWord(line)| ==> !IsSpace(FirstWord(line)[i])
  {
    hide SkipSpaces, WordRun;
    SkipSpacesIsSuffix(line);
    var t := SkipSpaces(line);
    CleanSlice(line, |line| - |t|, |line|);
    assert line[|line| - |t|..|line|] == t;
    CleanSlice(t, 0, WordRun(t));
    assert t[0..WordRun(t)] == t[..WordRun(t)];
  }

  // ---------- Whole listings ----------

  lemma {:induction false} RecordsOfLines(records: seq<Record>)
    requires forall i :: 0 <= i < |records| ==> Listable(records[i])
    ensures RecordsOf(LinesFor(records)) == records
  {
    hide ReadRecord, LineOf, Listable;
    if records != [] {
      var n := |records| - 1;
      RecordsOfLines(records[..n]);
      assert LinesFor(records)[..n] == LinesFor(records[..n]);
      ReadRecordOfLine(records[n]);
    }
  }

  lemma {:induction false} AllRecordsAreListable(lines: seq<string>)
    requires forall i :: 0 <= i < |lines| ==> Clean(lines[i])
    ensures forall i :: 0 <= i < |RecordsOf(lines)| ==> Listable(RecordsOf(lines)[i])
  {
    hide ReadRecord, Listable, Clean;
    if lines != [] {
      var n := |lines| - 1;
      AllRecordsAreListable(lines[..n]);
      if ReadRecord(lines[n]).Some? {
        ReadRecordsAreListable(lines[n]);
      }
    }
  }

  lemma {:induction false} LinesAreClean(text: string)
    requires '\0' !in text
    ensures forall i :: 0 <= i < |Lines(text)| ==> Clean(Lines(text)[i])
    decreases |text|
  {
    if text != [] {
      var i := Find(text, '\n');
      if i < |text| {
        LinesAreClean(text[i + 1..]);
      }
    }
  }

  lemma LineIsClean(r: Record)
    requires Listable(r)
    ensures Clean(LineOf(r))
  {
    hide Occurs;
  }

  lemma {:induction false} TextHasNoNul(lines: seq<string>)
    requires forall i :: 0 <= i < |lines| ==> Clean(lines[i])
    ensures '\0' !in Unlines(lines)
  {
    if lines != [] {
      TextHasNoNul(lines[1..]);
    }
  }

  /** The dashboard reads back exactly the records the C API printed, if and only if every one is listable. */
  lemma ListingIsReadBack(records: seq<Record>)
    ensures RecordsOf(Lines(Visible(ListingText(records)))) == records
        <==> forall i :: 0 <= i < |records| ==> Listable(records[i])
  {
    hide Listable, LineOf, ReadRecord, Lines, Unlines, RecordsOf, Clean;
    var text := ListingText(records);
    LinesAreClean(Visible(text));
    AllRecordsAreListable(Lines(Visible(text)));
    if forall i :: 0 <= i < |records| ==> Listable(records[i]) {
      forall i | 0 <= i < |records| ensures Clean(LinesFor(records)[i]) && OneLine(LinesFor(records)[i]) {
        LineIsClean(records[i]);
        CleanIsOneLine(LineOf(records[i]));
      }
      TextHasNoNul(LinesFor(records));
      assert Visible(text) == text;
      LinesOfUnlines(LinesFor(records));
      RecordsOfLines(records);
    }
  }

  lemma CleanIsOneLine(s: string)
    requires Clean(s)
    ensures OneLine(s)
  {
  }
}
