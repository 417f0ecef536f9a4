/** The listing's JSON, read back by an independent reader of arrays of objects with string members: section 2 to 5
    and 7 of RFC 8259, without white space. */
module ListingJson {
  import opened Wrappers
  import opened TextCodec
  import opened FileSystem
  import opened Registry
  import opened Json
  import opened Listing

  type Member = (string, string)

  /** The position of the first quote that no backslash escapes. */
  function Close(s: string): (i: Option<nat>)
    ensures i.Some? ==> i.value < |s| && s[i.value] == '"'
    decreases |s|
  {
    if s == "" then None
    else if s[0] == '"' then Some(0)
    else
      var step := if s[0] == '\\' then 2 else 1;
      if |s| < step then None
      else
        match Close(s[step..])
        case None => None
        case Some(i) => Some(step + i)
  }

  /** A string at the start of s, and what follows it. */
  function ReadText(s: string): (r: Option<(string, string)>)
    ensures r.Some? ==> |r.value.1| < |s|
  {
    if s == "" || s[0] != '"' then None
    else
      match Close(s[1..])
      case None => None
      case Some(i) =>
        match Denoted(s[1..][..i])
        case None => None
        case Some(text) => Some((text, s[i + 2..]))
  }

  /** A name, a colon and a string. */
  function ReadMember(s: string): (r: Option<(Member, string)>)
    ensures r.Some? ==> |r.value.1| < |s|
  {
    match ReadText(s)
    case None => None
    case Some((key, rest)) =>
      if rest == "" || rest[0] != ':' then None
      else
        match ReadText(rest[1..])
        case None => None
        case Some((value, after)) => Some(((key, value), after))
  }

  /** Members separated by commas, up to the closing brace. */
  function ReadMembers(s: string): (r: Option<(seq<Member>, string)>)
    ensures r.Some? ==> |r.value.1| < |s|
    decreases |s|
  {
    match ReadMember(s)
    case None => None
    case Some((member, rest)) =>
      if rest == "" then None
      else if rest[0] == '}' then Some(([member], rest[1..]))
      else if rest[0] != ',' then None
      else
        match ReadMembers(rest[1..])
        case None => None
        case Some((members, after)) => Some(([member] + members, after))
  }

  function ReadObject(s: string): (r: Option<(seq<Member>, string)>)
    ensures r.Some? ==> |r.value.1| < |s|
  {
    if s == "" || s[0] != '{' then None else ReadMembers(s[1..])
  }

  /** Objects separated by commas, up to the closing bracket, with nothing behind it. */
  function ReadObjects(s: string): Option<seq<seq<Member>>>
    decreases |s|
  {
    match ReadObject(s)
    case None => None
    case Some((members, rest)) =>
      if rest == "]" then Some([members])
      else if rest == "" || rest[0] != ',' then None
      else Prefixed([members], ReadObjects(rest[1..]))
  }

  function ReadArray(s: string): Option<seq<seq<Member>>> {
    if s == "[]" then Some([])
    else if s == "" || s[0] != '[' then None
    else ReadObjects(s[1..])
  }

  // ---------- Reading what is printed ----------

  lemma CloseOfEscape(c: char, rest: string)
    ensures Close(EscapeOf(c) + rest) ==
            match Close(rest) case None => None case Some(i) => Some(|EscapeOf(c)| + i)
  {
    var e := EscapeOf(c);
    var s := e + rest;
    assert s[|e|..] == rest;
    if |e| == 1 {
      assert s[0] == c;
    } else if |e| == 2 {
      assert s[0] == '\\';
    } else {
      LongEscape(c, rest);
    }
  }

  lemma LongEscape(c: char, rest: string)
    requires |EscapeOf(c)| == 6
    ensures Close(EscapeOf(c) + rest) == match Close(rest) case None => None case Some(i) => Some(6 + i)
  {
    var e := EscapeOf(c);
    HexIsPlain(c as int / 16);
    HexIsPlain(c as int % 16);
    CloseSkips(e[2..], rest);
    assert (e + rest)[0] == '\\' && (e + rest)[2..] == e[2..] + rest;
  }

  lemma {:induction false} CloseSkips(a: string, rest: string)
    requires forall i :: 0 <= i < |a| ==> a[i] != '"' && a[i] != '\\'
    ensures Close(a + rest) == match Close(rest) case None => None case Some(i) => Some(|a| + i)
  {
    if a == "" {
      assert a + rest == rest;
    } else {
      CloseSkips(a[1..], rest);
      assert (a + rest)[1..] == a[1..] + rest;
    }
  }

  lemma {:induction false} CloseOfEscaped(value: string, rest: string)
    ensures Close(Escaped(value) + "\"" + rest) == Some(|Escaped(value)|)
  {
    hide EscapeOf;
    if value == "" {
      assert Escaped(value) + "\"" + rest == "\"" + rest;
    } else {
      var more := Escaped(value[1..]) + "\"" + rest;
      CloseOfEscaped(value[1..], rest);
      CloseOfEscape(value[0], more);
      assert Escaped(value) + "\"" + rest == EscapeOf(value[0]) + more;
    }
  }

  lemma TextIsRead(value: string, rest: string)
    ensures ReadText(JsonText(value) + rest) == Some((value, rest))
  {
    hide Close, Denoted, Escaped;
    CloseOfEscaped(value, rest);
    DenotedOfEscaped(value);
    var s, inside := JsonText(value) + rest, Escaped(value);
    assert s[1..] == inside + "\"" + rest;
    assert s[1..][..|inside|] == inside;
    assert s[|inside| + 2..] == rest;
  }

  /** A name that needs no escape. */
  ghost predicate PlainName(name: string) {
    forall i :: 0 <= i < |name| ==> name[i] >= ' ' && name[i] != '"' && name[i] != '\\'
  }

  lemma FieldIsNameAndValue(name: string, value: string)
    requires PlainName(name)
    ensures JsonField(name, value) == JsonText(name) + (":" + JsonText(value))
  {
    PlainTextStays(name);
    hide Escaped;
    assert "\"" + name + "\":" == ("\"" + name + "\"") + ":";
  }

  lemma MemberIsRead(name: string, value: string, rest: string)
    requires PlainName(name)
    ensures ReadMember(JsonField(name, value) + rest) == Some(((name, value), rest))
  {
    FieldIsNameAndValue(name, value);
    hide ReadText, JsonText, JsonField;
    var behind := JsonText(value) + rest;
    assert JsonField(name, value) + rest == JsonText(name) + (":" + behind);
    TextIsRead(name, ":" + behind);
    assert (":" + behind)[1..] == behind;
    TextIsRead(value, rest);
  }

  lemma MembersGoOn(name: string, value: string, behind: string, members: seq<Member>, rest: string)
    requires PlainName(name) && ReadMembers(behind) == Some((members, rest))
    ensures ReadMembers(JsonField(name, value) + ("," + behind)) == Some(([(name, value)] + members, rest))
  {
    hide ReadMember, JsonField, PlainName;
    MemberIsRead(name, value, "," + behind);
    assert ("," + behind)[1..] == behind;
  }

  lemma MembersEnd(name: string, value: string, rest: string)
    requires PlainName(name)
    ensures ReadMembers(JsonField(name, value) + ("}" + rest)) == Some(([(name, value)], rest))
  {
    hide ReadMember, JsonField, PlainName;
    MemberIsRead(name, value, "}" + rest);
    assert ("}" + rest)[1..] == rest;
  }

  /** What an object says of a record. */
  function MembersOf(r: Record): seq<Member> {
    [("model_id", r.id), ("name", r.name), ("architecture", r.architecture), ("quantization", r.quantization),
     ("verification", r.verification)]
  }

  lemma NamesArePlain()
    ensures PlainName("model_id") && PlainName("name") && PlainName("architecture")
    ensures PlainName("quantization") && PlainName("verification")
  {
  }

  /** Five fields, grouped as printed and as read. */
  lemma Regrouped(f1: string, f2: string, f3: string, f4: string, f5: string, rest: string)
    ensures "{" + f1 + "," + f2 + "," + f3 + "," + f4 + "," + f5 + "}" + rest ==
            "{" + (f1 + ("," + (f2 + ("," + (f3 + ("," + (f4 + ("," + (f5 + ("}" + rest))))))))))
  {
    var x := "{" + f1 + "," + f2 + "," + f3 + "," + f4;
    assert x + "," + f5 + "}" + rest == x + ("," + (f5 + ("}" + rest)));
    var t5 := "," + (f5 + ("}" + rest));
    assert "{" + f1 + "," + f2 + "," + f3 + "," + f4 + t5 == "{" + f1 + "," + f2 + ("," + (f3 + ("," + (f4 + t5))));
    var t3 := "," + (f3 + ("," + (f4 + t5)));
    assert "{" + f1 + "," + f2 + t3 == "{" + (f1 + ("," + (f2 + t3)));
  }

  /** A record's object is read as its members, in order. */
  lemma RecordIsRead(r: Record, rest: string)
    ensures ReadObject(JsonRecord(r) + rest) == Some((MembersOf(r), rest))
  {
    NamesArePlain();
    hide JsonField, ReadMembers, PlainName;
    var f1, f2, f3 := JsonField("model_id", r.id), JsonField("name", r.name), JsonField("architecture", r.architecture);
    var f4, f5 := JsonField("quantization", r.quantization), JsonField("verification", r.verification);
    Regrouped(f1, f2, f3, f4, f5, rest);
    var t5 := f5 + ("}" + rest);
    var t4 := f4 + ("," + t5);
    var t3 := f3 + ("," + t4);
    var t2 := f2 + ("," + t3);
    var m := MembersOf(r);
    MembersEnd("verification", r.verification, rest);
    MembersGoOn("quantization", r.quantization, t5, [m[4]], rest);
    MembersGoOn("architecture", r.architecture, t4, [m[3]] + [m[4]], rest);
    MembersGoOn("name", r.name, t3, [m[2]] + ([m[3]] + [m[4]]), rest);
    MembersGoOn("model_id", r.id, t2, [m[1]] + ([m[2]] + ([m[3]] + [m[4]])), rest);
    assert [m[0]] + ([m[1]] + ([m[2]] + ([m[3]] + [m[4]]))) == m;
  }

  function AllMembers(records: seq<Record>): (r: seq<seq<Member>>)
    ensures |r| == |records| && forall i :: 0 <= i < |r| ==> r[i] == MembersOf(records[i])
  {
    seq(|records|, i requires 0 <= i < |records| => MembersOf(records[i]))
  }

  lemma {:induction false} ObjectsFromFirst(records: seq<Record>)
    requires |records| > 1
    ensures JsonObjects(records) == JsonRecord(records[0]) + ("," + JsonObjects(records[1..]))
  {
    hide JsonRecord;
    var n := |records| - 1;
    var first, last := JsonRecord(records[0]), JsonRecord(records[n]);
    if n > 1 {
      ObjectsFromFirst(records[..n]);
      assert records[..n][1..] == records[1..][..n - 1];
      var between := JsonObjects(records[..n][1..]);
      assert first + ("," + between) + "," + last == first + ("," + (between + "," + last));
    } else {
      assert records[1..] == [records[1]] && records[..1] == [records[0]];
      assert first + "," + last == first + ("," + last);
    }
  }

  lemma {:induction false} ObjectsAreRead(records: seq<Record>)
    requires records != []
    ensures ReadObjects(JsonObjects(records) + "]") == Some(AllMembers(records))
  {
    hide JsonRecord, ReadObject, JsonObjects, MembersOf;
    if |records| == 1 {
      OneObject(records);
      RecordIsRead(records[0], "]");
      assert AllMembers(records) == [MembersOf(records[0])];
    } else {
      ObjectsFromFirst(records);
      var rest := JsonObjects(records[1..]) + "]";
      assert JsonObjects(records) + "]" == JsonRecord(records[0]) + ("," + rest);
      RecordIsRead(records[0], "," + rest);
      assert ("," + rest)[1..] == rest;
      ObjectsAreRead(records[1..]);
      assert AllMembers(records) == [MembersOf(records[0])] + AllMembers(records[1..]);
      CommaIsNoEnd(rest);
    }
  }

  lemma OneObject(records: seq<Record>)
    requires |records| == 1
    ensures JsonObjects(records) == JsonRecord(records[0])
  {
  }

  lemma CommaIsNoEnd(rest: string)
    ensures "," + rest != "]" && "," + rest != "" && ("," + rest)[0] == ','
  {
    assert ("," + rest)[0] != "]"[0];
  }

  lemma ArrayIsRead(records: seq<Record>)
    ensures ReadArray("[" + JsonObjects(records) + "]") == Some(AllMembers(records))
  {
    hide ReadObjects, JsonRecord, MembersOf;
    var text := "[" + JsonObjects(records) + "]";
    if records == [] {
      assert JsonObjects(records) == "" && text == "[]";
    } else {
      ObjectsAreRead(records);
      BeginsWithBrace(records);
      assert text[1..] == JsonObjects(records) + "]" && text[1] == '{';
    }
  }

  lemma {:induction false} BeginsWithBrace(records: seq<Record>)
    requires records != []
    ensures JsonObjects(records) != "" && JsonObjects(records)[0] == '{'
  {
    if |records| > 1 {
      BeginsWithBrace(records[..|records| - 1]);
    }
  }

  /** What the models page says of an entry. */
  function EntryMembers(e: Entry, message: Messages): seq<Member> {
    [("model_id", e.modelId), ("name", if e.displayName == "" then "(unnamed)" else e.displayName),
     ("architecture", if e.architecture == "" then "unknown-architecture" else e.architecture),
     ("quantization", if e.quantization == "" then "unknown-quantization" else e.quantization),
     ("verification", message(e.status))]
  }

  function AllEntryMembers(entries: seq<Entry>, message: Messages): (r: seq<seq<Member>>)
    ensures |r| == |entries| && forall i :: 0 <= i < |r| ==> r[i] == EntryMembers(entries[i], message)
  {
    seq(|entries|, i requires 0 <= i < |entries| => EntryMembers(entries[i], message))
  }

  ghost predicate AllListable(entries: seq<Entry>, message: Messages) {
    forall i :: 0 <= i < |entries| ==> Listable(Shown(entries[i], message))
  }

  /** From the registry to the page: with only listable entries, the JSON the dashboard makes of the C API's listing is
      an array with one object for each entry, in order, with that entry's fields. */
  method ModelsPage(disk: Disk, path: string, message: Messages) returns (page: string)
    ensures var stored := LoadText(Get(disk.files, path));
            stored.result == Ok && AllListable(stored.entries, message) ==>
              ReadArray(page) == Some(AllEntryMembers(stored.entries, message))
    ensures LoadText(Get(disk.files, path)).result != Ok ==> page == "[]"
  {
    hide LoadText, Listable, Shown, LineOf, Lines, ReadArray, JsonObjects, RecordsOf;
    var report := ListModels(disk, path, message);
    page := ModelsAsJson(Visible(report));
    ghost var entries := LoadText(Get(disk.files, path)).entries;
    ghost var shown := ShownAll(entries, message);
    EmptyListing();
    ArrayIsRead(RecordsOf(Lines(Visible(report))));
    ListingIsReadBack(shown);
    ShownMembers(entries, message);
  }

  lemma ShownMembers(entries: seq<Entry>, message: Messages)
    ensures AllMembers(ShownAll(entries, message)) == AllEntryMembers(entries, message)
  {
  }

  lemma EmptyListing()
    ensures Visible("") == "" && "[" + JsonObjects(RecordsOf(Lines(""))) + "]" == "[]"
  {
  }
}
