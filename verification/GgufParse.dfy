/** A functional reading of the format, proved inverse to the encoder in both directions. */
module GgufParse {
  import opened Wrappers
  import opened GgufFormat

  /** s stands in the file at pos. */
  ghost predicate At(file: string, pos: nat, s: string) {
    pos + |s| <= |file| && file[pos..pos + |s|] == s
  }

  lemma AtConcat(file: string, pos: nat, a: string, b: string)
    ensures At(file, pos, a + b) <==> At(file, pos, a) && At(file, pos + |a|, b)
  {
    if At(file, pos, a + b) {
      var s := file[pos..pos + |a + b|];
      assert s[..|a|] == a && s[|a|..] == b;
      assert file[pos..pos + |a|] == s[..|a|];
      assert file[pos + |a|..pos + |a| + |b|] == s[|a|..];
    }
    if At(file, pos, a) && At(file, pos + |a|, b) {
      assert file[pos..pos + |a + b|] == file[pos..pos + |a|] + file[pos + |a|..pos + |a| + |b|];
    }
  }

  /** Reads a k-byte integer. */
  function Number(file: string, pos: nat, k: nat): (n: Option<nat>)
  {
    if pos + k <= |file| then Some(FromLE(file[pos..pos + k])) else None
  }

  /** Reads a length-prefixed string of at most max bytes. */
  function ParseText(file: string, pos: nat, max: nat): (r: Option<string>)
  {
    match Number(file, pos, 8)
    case None => None
    case Some(len) =>
      if len <= max && pos + 8 + len <= |file| then Some(file[pos + 8..pos + 8 + len]) else None
  }

  function ParseTexts(file: string, pos: nat, n: nat): (r: Option<seq<string>>)
    ensures r.Some? ==> |r.value| == n
    decreases n
  {
    if n == 0 then Some([])
    else match ParseText(file, pos, MAX_STRING_BYTES)
         case None => None
         case Some(s) =>
           match ParseTexts(file, pos + 8 + |s|, n - 1)
           case None => None
           case Some(rest) => Some([s] + rest)
  }

  function ParseArray(file: string, pos: nat): (r: Option<Value>)
    ensures r.Some? ==> (r.value.ScalarArray? || r.value.TextArray?)
  {
    match (Number(file, pos, 4), Number(file, pos + 4, 8))
    case (Some(elem), Some(count)) =>
      if elem > LAST_TYPE || elem == ARRAY_TYPE || count > MAX_ARRAY_COUNT then None
      else if elem == STRING_TYPE then
        match ParseTexts(file, pos + 12, count)
        case None => None
        case Some(items) => Some(TextArray(items))
      else if pos + 12 + count * Width(elem) <= |file| then
        Some(ScalarArray(elem, count, file[pos + 12..pos + 12 + count * Width(elem)]))
      else None
    case _ => None
  }

  /** Reads the payload of a value of type ty. */
  function ParseValue(file: string, pos: nat, ty: nat): (r: Option<Value>)
    ensures r.Some? ==> r.value.Type() == ty
  {
    if ty == ARRAY_TYPE then ParseArray(file, pos)
    else if ty == STRING_TYPE then
      match ParseText(file, pos, MAX_STRING_BYTES)
      case None => None
      case Some(s) => Some(Text(s))
    else if Width(ty) > 0 && pos + Width(ty) <= |file| then Some(Scalar(ty, file[pos..pos + Width(ty)]))
    else None
  }

  function ParseKV(file: string, pos: nat): (r: Option<KV>)
  {
    match ParseText(file, pos, MAX_KEY_BYTES)
    case None => None
    case Some(key) =>
      match Number(file, pos + 8 + |key|, 4)
      case None => None
      case Some(ty) =>
        match ParseValue(file, pos + 8 + |key| + 4, ty)
        case None => None
        case Some(v) => Some(KV(key, v))
  }

  /** The entries read up to the first malformed one, and whether all n were read. */
  datatype Scan = Scan(kvs: seq<KV>, complete: bool)

  function ScanKVs(file: string, pos: nat, n: nat): (r: Scan)
    ensures |r.kvs| <= n && (r.complete <==> |r.kvs| == n)
    decreases n
  {
    if n == 0 then Scan([], true)
    else match ParseKV(file, pos)
         case None => Scan([], false)
         case Some(kv) =>
           var rest := ScanKVs(file, pos + |EncodeKV(kv)|, n - 1);
           Scan([kv] + rest.kvs, rest.complete)
  }

  // ---------- What is read is what was written ----------

  lemma NumberSound(file: string, pos: nat, k: nat)
    requires Octets(file) && pos + k <= |file|
    ensures Number(file, pos, k).Some? && At(file, pos, LE(Number(file, pos, k).value, k))
    ensures Number(file, pos, k).value < Power256(k)
  {
    hide LE, FromLE, Power256;
    var s := file[pos..pos + k];
    LEOfFromLE(s);
    assert |s| == k;
  }

  lemma NumberComplete(file: string, pos: nat, n: nat, k: nat)
    requires n < Power256(k) && At(file, pos, LE(n, k))
    ensures Number(file, pos, k) == Some(n)
  {
    hide LE, FromLE, Power256;
    FromLEOfLE(n, k);
  }

  lemma Eight()
    ensures Power256(8) == 0x1_0000_0000_0000_0000 && Power256(4) == 0x1_0000_0000
  {
  }

  lemma TextSound(file: string, pos: nat, max: nat)
    requires Octets(file) && ParseText(file, pos, max).Some?
    ensures var s := ParseText(file, pos, max).value;
            At(file, pos, EncodeText(s)) && Octets(s) && |s| <= max
  {
    NumberSound(file, pos, 8);
    var s := ParseText(file, pos, max).value;
    AtConcat(file, pos, LE(|s|, 8), s);
  }

  lemma TextComplete(file: string, pos: nat, max: nat, s: string)
    requires |s| <= max < Power256(8) && At(file, pos, EncodeText(s))
    ensures ParseText(file, pos, max) == Some(s)
  {
    AtConcat(file, pos, LE(|s|, 8), s);
    NumberComplete(file, pos, |s|, 8);
  }

  lemma {:induction false} TextsSound(file: string, pos: nat, n: nat)
    requires Octets(file) && pos <= |file| && ParseTexts(file, pos, n).Some?
    ensures var items := ParseTexts(file, pos, n).value;
            && At(file, pos, EncodeTexts(items))
            && forall i :: 0 <= i < n ==> |items[i]| <= MAX_STRING_BYTES && Octets(items[i])
    decreases n
  {
    if n > 0 {
      hide At, EncodeText, ParseText, Octets;
      TextSound(file, pos, MAX_STRING_BYTES);
      var s := ParseText(file, pos, MAX_STRING_BYTES).value;
      TextsSound(file, pos + 8 + |s|, n - 1);
      var rest := ParseTexts(file, pos + 8 + |s|, n - 1).value;
      assert ([s] + rest)[1..] == rest;
      AtConcat(file, pos, EncodeText(s), EncodeTexts(rest));
    }
  }

  lemma {:induction false} TextsComplete(file: string, pos: nat, items: seq<string>)
    requires At(file, pos, EncodeTexts(items))
    requires forall i :: 0 <= i < |items| ==> |items[i]| <= MAX_STRING_BYTES
    ensures ParseTexts(file, pos, |items|) == Some(items)
    decreases |items|
  {
    if items != [] {
      hide At, EncodeText, ParseText, Power256, LE, FromLE;
      AtConcat(file, pos, EncodeText(items[0]), EncodeTexts(items[1..]));
      Eight();
      TextComplete(file, pos, MAX_STRING_BYTES, items[0]);
      var rest := items[1..];
      TextsComplete(file, pos + 8 + |items[0]|, rest);
      assert ParseTexts(file, pos + 8 + |items[0]|, |items| - 1) == Some(rest);
      assert [items[0]] + items[1..] == items;
    }
  }

  lemma AtSlice(file: string, pos: nat, n: nat)
    requires pos + n <= |file|
    ensures At(file, pos, file[pos..pos + n]) && (Octets(file) ==> Octets(file[pos..pos + n]))
  {
  }

  lemma AtMeans(file: string, pos: nat, s: string)
    requires At(file, pos, s)
    ensures pos + |s| <= |file| && file[pos..pos + |s|] == s
  {
  }

  lemma TypeIsKnown(v: Value)
    requires v.WellFormed()
    ensures v.Type() <= LAST_TYPE
  {
  }

  lemma ArraySound(file: string, pos: nat)
    requires Octets(file) && ParseArray(file, pos).Some?
    ensures var v := ParseArray(file, pos).value;
            At(file, pos, EncodePayload(v)) && v.WellFormed() && v.Type() == ARRAY_TYPE
  {
    hide At, LE, FromLE;
    NumberSound(file, pos, 4);
    NumberSound(file, pos + 4, 8);
    var elem, count := Number(file, pos, 4).value, Number(file, pos + 4, 8).value;
    if elem == STRING_TYPE {
      TextsSound(file, pos + 12, count);
      var items := ParseTexts(file, pos + 12, count).value;
      AtConcat(file, pos + 4, LE(count, 8), EncodeTexts(items));
      AtConcat(file, pos, LE(elem, 4), LE(count, 8) + EncodeTexts(items));
    } else {
      var raw := file[pos + 12..pos + 12 + count * Width(elem)];
      AtSlice(file, pos + 12, |raw|);
      AtConcat(file, pos + 4, LE(count, 8), raw);
      AtConcat(file, pos, LE(elem, 4), LE(count, 8) + raw);
    }
  }

  lemma ArrayComplete(file: string, pos: nat, v: Value)
    requires v.WellFormed() && v.Type() == ARRAY_TYPE && At(file, pos, EncodePayload(v))
    ensures ParseArray(file, pos) == Some(v)
  {
    hide At, LE, Octets, ParseTexts, EncodeTexts;
    Eight();
    hide Power256;
    match v {
      case ScalarArray(elem, count, raw) =>
        AtConcat(file, pos, LE(elem, 4), LE(count, 8) + raw);
        AtConcat(file, pos + 4, LE(count, 8), raw);
        NumberComplete(file, pos, elem, 4);
        NumberComplete(file, pos + 4, count, 8);
        AtMeans(file, pos + 12, raw);
      case TextArray(items) =>
        AtConcat(file, pos, LE(STRING_TYPE, 4), LE(|items|, 8) + EncodeTexts(items));
        AtConcat(file, pos + 4, LE(|items|, 8), EncodeTexts(items));
        NumberComplete(file, pos, STRING_TYPE, 4);
        NumberComplete(file, pos + 4, |items|, 8);
        TextsComplete(file, pos + 12, items);
      case Scalar(_, _) =>
      case Text(_) =>
    }
  }

  lemma ValueSound(file: string, pos: nat, ty: nat)
    requires Octets(file) && ParseValue(file, pos, ty).Some?
    ensures var v := ParseValue(file, pos, ty).value;
            At(file, pos, EncodePayload(v)) && v.WellFormed() && v.Type() == ty
  {
    if ty == ARRAY_TYPE {
      ArraySound(file, pos);
    } else if ty == STRING_TYPE {
      TextSound(file, pos, MAX_STRING_BYTES);
    }
  }

  lemma ValueComplete(file: string, pos: nat, v: Value)
    requires v.WellFormed() && At(file, pos, EncodePayload(v))
    ensures ParseValue(file, pos, v.Type()) == Some(v)
  {
    Eight();
    match v {
      case Scalar(_, _) =>
      case Text(text) => TextComplete(file, pos, MAX_STRING_BYTES, text);
      case ScalarArray(_, _, _) => ArrayComplete(file, pos, v);
      case TextArray(_) => ArrayComplete(file, pos, v);
    }
  }

  lemma KVSound(file: string, pos: nat)
    requires Octets(file) && ParseKV(file, pos).Some?
    ensures var kv := ParseKV(file, pos).value; At(file, pos, EncodeKV(kv)) && kv.WellFormed()
  {
    hide At, LE, Octets, FromLE, EncodePayload, ParseValue, ParseText, Value.WellFormed;
    TextSound(file, pos, MAX_KEY_BYTES);
    var key := ParseText(file, pos, MAX_KEY_BYTES).value;
    NumberSound(file, pos + 8 + |key|, 4);
    var ty := Number(file, pos + 8 + |key|, 4).value;
    ValueSound(file, pos + 12 + |key|, ty);
    var v := ParseValue(file, pos + 12 + |key|, ty).value;
    AtConcat(file, pos + 8 + |key|, LE(ty, 4), EncodePayload(v));
    AtConcat(file, pos, EncodeText(key), LE(ty, 4) + EncodePayload(v));
  }

  lemma KVComplete(file: string, pos: nat, kv: KV)
    requires kv.WellFormed() && At(file, pos, EncodeKV(kv))
    ensures ParseKV(file, pos) == Some(kv)
  {
    hide At, LE, Octets, FromLE, EncodePayload, ParseValue, ParseText, Value.WellFormed;
    Eight();
    var ty := kv.value.Type();
    TypeIsKnown(kv.value);
    AtConcat(file, pos, EncodeText(kv.key), LE(ty, 4) + EncodePayload(kv.value));
    AtConcat(file, pos + 8 + |kv.key|, LE(ty, 4), EncodePayload(kv.value));
    TextComplete(file, pos, MAX_KEY_BYTES, kv.key);
    NumberComplete(file, pos + 8 + |kv.key|, ty, 4);
    ValueComplete(file, pos + 12 + |kv.key|, kv.value);
  }

  lemma {:induction false} KVsSound(file: string, pos: nat, n: nat)
    requires Octets(file) && pos <= |file|
    ensures var r := ScanKVs(file, pos, n);
            && At(file, pos, EncodeKVs(r.kvs))
            && forall i :: 0 <= i < |r.kvs| ==> r.kvs[i].WellFormed()
    decreases n
  {
    hide ParseKV, EncodeKV, KV.WellFormed;
    if n > 0 && ParseKV(file, pos).Some? {
      KVSound(file, pos);
      var kv := ParseKV(file, pos).value;
      var next := pos + |EncodeKV(kv)|;
      KVsSound(file, next, n - 1);
      var rest := ScanKVs(file, next, n - 1).kvs;
      assert ([kv] + rest)[1..] == rest;
      AtConcat(file, pos, EncodeKV(kv), EncodeKVs(rest));
    }
  }

  lemma {:induction false} KVsComplete(file: string, pos: nat, kvs: seq<KV>)
    requires At(file, pos, EncodeKVs(kvs))
    requires forall i :: 0 <= i < |kvs| ==> kvs[i].WellFormed()
    ensures ScanKVs(file, pos, |kvs|) == Scan(kvs, true)
    decreases |kvs|
  {
    hide ParseKV, EncodeKV, KV.WellFormed, At;
    if kvs != [] {
      AtConcat(file, pos, EncodeKV(kvs[0]), EncodeKVs(kvs[1..]));
      KVComplete(file, pos, kvs[0]);
      KVsComplete(file, pos + |EncodeKV(kvs[0])|, kvs[1..]);
      assert [kvs[0]] + kvs[1..] == kvs;
    }
  }
}
