/**
 * Metadata blocks: the printer in packages/nice-grpc-web/src/client/transports/websocket.ts and the parser in
 * packages/nice-grpc-web/src/client/decodeMetadata.ts.
 */
module MetadataCodec {
  import opened Basics
  import opened MetadataStore

  /** Base64 (section 4 of RFC 4648) as the codec uses it. */
  datatype Base64 = Base64(encode: seq<byte> -> string, decode: string -> seq<byte>)

  predicate Base64Char(c: char) {
    'A' <= c <= 'Z' || 'a' <= c <= 'z' || '0' <= c <= '9' || c == '+' || c == '/' || c == '='
  }

  ghost predicate Lawful(b64: Base64) {
    forall x: seq<byte> :: b64.decode(b64.encode(x)) == x
      && forall i :: 0 <= i < |b64.encode(x)| ==> Base64Char(b64.encode(x)[i])
  }

  // ------------------------------------------------------------------------------------------
  // Printing

  predicate IsValidCharCode(c: char) {
    c == '\t' || c == '\n' || c == '\r' || ' ' <= c <= '~'
  }

  predicate ValidChars(s: string) {
    forall i :: 0 <= i < |s| ==> IsValidCharCode(s[i])
  }

  function ValueString(b64: Base64, value: Value): string {
    match value
    case Text(s) => s
    case Binary(x) => b64.encode(x)
  }

  type Pair = (string, Value)

  type Entry = (string, seq<Value>)

  function Line(b64: Base64, pair: Pair): string { pair.0 + ": " + ValueString(b64, pair.1) }

  function PairString(b64: Base64, pair: Pair): string { Line(b64, pair) + "\r\n" }

  /** One pair for each value of an entry. */
  function EntryPairs(entry: Entry): (ps: seq<Pair>)
    ensures |ps| == |entry.1| && forall i :: 0 <= i < |ps| ==> ps[i] == (entry.0, entry.1[i])
  {
    seq(|entry.1|, i requires 0 <= i < |entry.1| => (entry.0, entry.1[i]))
  }

  function Pairs(entries: seq<Entry>): seq<Pair> {
    if entries == [] then [] else EntryPairs(entries[0]) + Pairs(entries[1..])
  }

  /** The whole text. */
  function Printed(b64: Base64, pairs: seq<Pair>): string {
    if pairs == [] then "" else PairString(b64, pairs[0]) + Printed(b64, pairs[1..])
  }

  predicate AllPrint(b64: Base64, pairs: seq<Pair>) {
    forall i :: 0 <= i < |pairs| ==> ValidChars(PairString(b64, pairs[i]))
  }

  /** The text so far with all pairs added, or the first pair that does not consist of valid characters. */
  function PrintOnto(b64: Base64, text: string, pairs: seq<Pair>): Result<string, string>
    decreases |pairs|
  {
    if pairs == [] then Ok(text)
    else
      var pairString := PairString(b64, pairs[0]);
      if ValidChars(pairString) then PrintOnto(b64, text + pairString, pairs[1..]) else Err(pairString)
  }

  function Print(b64: Base64, pairs: seq<Pair>): Result<string, string> { PrintOnto(b64, "", pairs) }

  method EncodeMetadata(b64: Base64, entries: seq<Entry>) returns (r: Result<string, string>)
    ensures r == Print(b64, Pairs(entries))
  {
    var result := "";
    var e := 0;
    while e < |entries|
      invariant e <= |entries| && PrintOnto(b64, result, Pairs(entries[e..])) == Print(b64, Pairs(entries))
    {
      var (key, values) := entries[e];
      ghost var own, later := EntryPairs(entries[e]), Pairs(entries[e + 1..]);
      assert entries[e..][1..] == entries[e + 1..];
      assert own[0..] == own;
      var v := 0;
      while v < |values|
        invariant v <= |values| && PrintOnto(b64, result, own[v..] + later) == Print(b64, Pairs(entries))
      {
        var pairString := PairString(b64, (key, values[v]));
        PrintNext(b64, result, own[v..], later, own[v + 1..]);
        if !ValidChars(pairString) {
          return Err(pairString);
        }
        result := result + pairString;
        v := v + 1;
      }
      assert own[v..] + later == later;
      e := e + 1;
    }
    return Ok(result);
  }

  lemma PrintNext(b64: Base64, text: string, own: seq<Pair>, later: seq<Pair>, rest: seq<Pair>)
    requires own != [] && own[1..] == rest
    ensures var pairString := PairString(b64, own[0]);
            PrintOnto(b64, text, own + later)
            == if ValidChars(pairString) then PrintOnto(b64, text + pairString, rest + later) else Err(pairString)
  {
    assert (own + later)[1..] == rest + later;
  }

  /** Printing fails exactly on lists with an invalid pair. */
  lemma {:induction false} PrintOk(b64: Base64, text: string, pairs: seq<Pair>)
    ensures PrintOnto(b64, text, pairs).Ok? <==> AllPrint(b64, pairs)
    ensures AllPrint(b64, pairs) ==> PrintOnto(b64, text, pairs) == Ok(text + Printed(b64, pairs))
    decreases |pairs|
  {
    if pairs == [] {
      assert text + "" == text;
    } else {
      var pairString := PairString(b64, pairs[0]);
      PrintOk(b64, text + pairString, pairs[1..]);
      AppendAssoc(text, pairString, Printed(b64, pairs[1..]));
      assert AllPrint(b64, pairs) <==> ValidChars(pairString) && AllPrint(b64, pairs[1..]) by {
        assert pairs == [pairs[0]] + pairs[1..];
      }
    }
  }

  /** When printing fails, the error is the first pair with an invalid character. */
  lemma {:induction false} PrintFails(b64: Base64, text: string, pairs: seq<Pair>)
    ensures PrintOnto(b64, text, pairs).Err? ==>
      exists i :: 0 <= i < |pairs| && PrintOnto(b64, text, pairs) == Err(PairString(b64, pairs[i]))
                  && !ValidChars(PairString(b64, pairs[i])) && AllPrint(b64, pairs[..i])
    decreases |pairs|
  {
    if pairs != [] && PrintOnto(b64, text, pairs).Err? {
      if ValidChars(PairString(b64, pairs[0])) {
        var text1, rest := text + PairString(b64, pairs[0]), pairs[1..];
        PrintFails(b64, text1, rest);
        var i :| 0 <= i < |rest| && PrintOnto(b64, text1, rest) == Err(PairString(b64, rest[i]))
                 && !ValidChars(PairString(b64, rest[i])) && AllPrint(b64, rest[..i]);
        assert pairs[i + 1] == rest[i] && pairs[..i + 1] == [pairs[0]] + rest[..i];
      } else {
        assert pairs[..0] == [];
      }
    }
  }

  // ------------------------------------------------------------------------------------------
  // Parsing

  predicate IsSpace(c: char) { '\t' <= c <= '\r' || c == ' ' }

  function TrimStart(s: string): string {
    if s != "" && IsSpace(s[0]) then TrimStart(s[1..]) else s
  }

  function TrimEnd(s: string): string {
    if s != "" && IsSpace(s[|s| - 1]) then TrimEnd(s[..|s| - 1]) else s
  }

  function Trim(s: string): string { TrimEnd(TrimStart(s)) }

  /** `text.split('\r\n')`. */
  function SplitLines(text: string): (lines: seq<string>)
    ensures lines != []
  {
    if |text| < 2 then [text]
    else if text[0] == '\r' && text[1] == '\n' then [""] + SplitLines(text[2..])
    else
      var lines := SplitLines(text[1..]);
      [[text[0]] + lines[0]] + lines[1..]
  }

  /** `value.split(/,\s?/)`. */
  function SplitItems(text: string): (items: seq<string>)
    ensures items != []
  {
    if text == "" then [""]
    else if text[0] == ',' then
      [""] + SplitItems(if |text| > 1 && IsSpace(text[1]) then text[2..] else text[1..])
    else
      var items := SplitItems(text[1..]);
      [[text[0]] + items[0]] + items[1..]
  }

  function IndexOf(s: string, c: char): (i: int)
    ensures -1 <= i < |s|
    ensures i >= 0 ==> s[i] == c && c !in s[..i]
    ensures i == -1 ==> c !in s
  {
    if s == "" then -1
    else if s[0] == c then 0
    else
      var i := IndexOf(s[1..], c);
      assert i >= 0 ==> s[..i + 1] == [s[0]] + s[1..][..i];
      if i == -1 then -1 else i + 1
  }

  datatype DecodeError = InvalidLine(line: string) | InvalidPair(reason: Invalid)

  function AppendOne(m: Contents, key: string, value: Value): (r: Result<Contents, DecodeError>)
    requires WellFormed(m)
    ensures r.Ok? ==> WellFormed(r.value)
  {
    match WithAppended(m, key, value)
    case Err(e) => Err(InvalidPair(e))
    case Ok(m1) => Ok(m1)
  }

  function AppendPairs(m: Contents, pairs: seq<Pair>): (r: Result<Contents, DecodeError>)
    requires WellFormed(m)
    ensures r.Ok? ==> WellFormed(r.value)
    decreases |pairs|
  {
    if pairs == [] then Ok(m)
    else
      var r := AppendOne(m, pairs[0].0, pairs[0].1);
      if r.Ok? then AppendPairs(r.value, pairs[1..]) else r
  }

  function BinaryPairs(b64: Base64, key: string, items: seq<string>): (ps: seq<Pair>)
    ensures |ps| == |items| && forall i :: 0 <= i < |ps| ==> ps[i] == (key, Binary(b64.decode(items[i])))
  {
    seq(|items|, i requires 0 <= i < |items| => (key, Binary(b64.decode(items[i]))))
  }

  /** The pairs that one line adds. */
  function LinePairs(b64: Base64, line: string): Result<seq<Pair>, DecodeError> {
    if line == "" then Ok([])
    else
      var splitIndex := IndexOf(line, ':');
      if splitIndex == -1 then Err(InvalidLine(line))
      else
        var key := NormalizeKey(Trim(line[..splitIndex]));
        var value := Trim(line[splitIndex + 1..]);
        if IsBinKey(key) then Ok(BinaryPairs(b64, key, SplitItems(value)))
        else Ok([(key, Text(value))])
  }

  function LineDecoded(b64: Base64, m: Contents, line: string): (r: Result<Contents, DecodeError>)
    requires WellFormed(m)
    ensures r.Ok? ==> WellFormed(r.value)
  {
    match LinePairs(b64, line)
    case Err(e) => Err(e)
    case Ok(pairs) => AppendPairs(m, pairs)
  }

  /** The store so far with all lines added, or the first error. */
  function DecodedOnto(b64: Base64, m: Contents, lines: seq<string>): (r: Result<Contents, DecodeError>)
    requires WellFormed(m)
    ensures r.Ok? ==> WellFormed(r.value)
    decreases |lines|
  {
    if lines == [] then Ok(m)
    else
      var r := LineDecoded(b64, m, lines[0]);
      if r.Ok? then DecodedOnto(b64, r.value, lines[1..]) else r
  }

  function Decoded(b64: Base64, lines: seq<string>): (r: Result<Contents, DecodeError>)
    ensures r.Ok? ==> WellFormed(r.value)
  {
    DecodedOnto(b64, map[], lines)
  }

  /** The body of the line loop. */
  method DecodeLine(b64: Base64, m: Contents, line: string) returns (r: Result<Contents, DecodeError>)
    requires WellFormed(m)
    ensures r == LineDecoded(b64, m, line)
  {
    if line == "" {
      return Ok(m);
    }
    var splitIndex := IndexOf(line, ':');
    if splitIndex == -1 {
      return Err(InvalidLine(line));
    }
    var key := NormalizeKey(Trim(line[..splitIndex]));
    var value := Trim(line[splitIndex + 1..]);
    if !IsBinKey(key) {
      AppendPairsSingle(m, (key, Text(value)));
      return AppendOne(m, key, Text(value));
    }
    r := DecodeItems(b64, m, key, SplitItems(value));
  }

  lemma AppendPairsSingle(m: Contents, pair: Pair)
    requires WellFormed(m)
    ensures AppendPairs(m, [pair]) == AppendOne(m, pair.0, pair.1)
  {
    assert [pair][1..] == [];
  }

  /** The loop over the comma-separated items of a binary value. */
  method DecodeItems(b64: Base64, m: Contents, key: string, items: seq<string>)
    returns (r: Result<Contents, DecodeError>)
    requires WellFormed(m)
    ensures r == AppendPairs(m, BinaryPairs(b64, key, items))
  {
    ghost var pairs := BinaryPairs(b64, key, items);
    var metadata := m;
    var i := 0;
    while i < |items|
      invariant i <= |items| && WellFormed(metadata) && AppendPairs(metadata, pairs[i..]) == AppendPairs(m, pairs)
    {
      assert pairs[i..][0] == (key, Binary(b64.decode(items[i]))) && pairs[i..][1..] == pairs[i + 1..];
      var appended := AppendOne(metadata, key, Binary(b64.decode(items[i])));
      if appended.Err? {
        return appended;
      }
      metadata := appended.value;
      i := i + 1;
    }
    return Ok(metadata);
  }

  /** `decodeMetadata` on ASCII text: what it returns is always a well-formed store. */
  method DecodeMetadata(b64: Base64, text: string) returns (r: Result<Contents, DecodeError>)
    ensures r == Decoded(b64, SplitLines(text))
    ensures r.Ok? ==> WellFormed(r.value)
  {
    var metadata: Contents := map[];
    var lines := SplitLines(text);
    var l := 0;
    while l < |lines|
      invariant l <= |lines| && WellFormed(metadata) && DecodedOnto(b64, metadata, lines[l..]) == Decoded(b64, lines)
    {
      assert lines[l..][0] == lines[l] && lines[l..][1..] == lines[l + 1..];
      var decoded := DecodeLine(b64, metadata, lines[l]);
      if decoded.Err? {
        return decoded;
      }
      metadata := decoded.value;
      l := l + 1;
    }
    return Ok(metadata);
  }

  // ------------------------------------------------------------------------------------------
  // Round trip

  function TrimValue(v: Value): Value {
    match v
    case Text(s) => Text(Trim(s))
    case Binary(_) => v
  }

  function TrimValues(vs: seq<Value>): (r: seq<Value>)
    ensures |r| == |vs| && forall i :: 0 <= i < |vs| ==> r[i] == TrimValue(vs[i])
  {
    seq(|vs|, i requires 0 <= i < |vs| => TrimValue(vs[i]))
  }

  predicate ValidPair(pair: Pair) { Validate(pair.0, pair.1).None? }

  function Lines(b64: Base64, pairs: seq<Pair>): (ls: seq<string>)
    ensures |ls| == |pairs| && forall i :: 0 <= i < |pairs| ==> ls[i] == Line(b64, pairs[i])
  {
    seq(|pairs|, i requires 0 <= i < |pairs| => Line(b64, pairs[i]))
  }

  lemma {:induction false} SplitLinesFront(line: string, rest: string)
    requires '\r' !in line
    ensures SplitLines(line + "\r\n" + rest) == [line] + SplitLines(rest)
  {
    var text := line + "\r\n" + rest;
    if line == "" {
      assert text[2..] == rest;
    } else {
      assert text[1..] == line[1..] + "\r\n" + rest;
      SplitLinesFront(line[1..], rest);
      assert text[0] == line[0] && [line[0]] + line[1..] == line;
    }
  }

  lemma LinesFront(b64: Base64, pairs: seq<Pair>)
    requires pairs != []
    ensures Lines(b64, pairs) == [Line(b64, pairs[0])] + Lines(b64, pairs[1..])
  {
  }

  lemma {:induction false} SplitPrinted(b64: Base64, pairs: seq<Pair>)
    requires forall i :: 0 <= i < |pairs| ==> '\r' !in Line(b64, pairs[i])
    ensures SplitLines(Printed(b64, pairs)) == Lines(b64, pairs) + [""]
    decreases |pairs|
  {
    if pairs != [] {
      var line, rest := Line(b64, pairs[0]), Printed(b64, pairs[1..]);
      SplitPrinted(b64, pairs[1..]);
      SplitLinesFront(line, rest);
      LinesFront(b64, pairs);
      AppendAssoc([line], Lines(b64, pairs[1..]), [""]);
    }
  }

  lemma {:induction false} IndexAfter(head: string, c: char, tail: string)
    requires c !in head
    ensures IndexOf(head + [c] + tail, c) == |head|
  {
    if head != "" {
      assert (head + [c] + tail)[1..] == head[1..] + [c] + tail;
      IndexAfter(head[1..], c, tail);
    }
  }

  lemma TrimUntouched(s: string)
    requires s != "" ==> !IsSpace(s[0]) && !IsSpace(s[|s| - 1])
    ensures Trim(s) == s && Trim(" " + s) == s
  {
    assert (" " + s)[1..] == s;
  }

  lemma {:induction false} SplitItemsSingle(s: string)
    requires ',' !in s
    ensures SplitItems(s) == [s]
  {
    if s != "" {
      SplitItemsSingle(s[1..]);
      assert [s[0]] + s[1..] == s;
    }
  }

  /** What stands after the colon: printable text, or Base64 without spaces and commas. */
  lemma ValueStringShape(b64: Base64, pair: Pair)
    requires Lawful(b64) && ValidPair(pair)
    ensures Printable(ValueString(b64, pair.1))
    ensures pair.1.Binary? ==>
              forall i :: 0 <= i < |ValueString(b64, pair.1)| ==> Base64Char(ValueString(b64, pair.1)[i])
  {
    if pair.1.Binary? {
      assert forall i :: 0 <= i < |b64.encode(pair.1.bytes)| ==> Base64Char(b64.encode(pair.1.bytes)[i]);
    }
  }

  /** A line with a legal key is cut at the colon after the key. */
  lemma LineCut(key: string, text: string)
    requires LegalKey(key)
    ensures var line := key + ": " + text;
      && IndexOf(line, ':') == |key| && line[..|key|] == key && line[|key| + 1..] == " " + text
      && NormalizeKey(Trim(key)) == key
  {
    assert forall i :: 0 <= i < |key| ==> LegalKeyChar(key[i]);
    assert key + ": " + text == key + [':'] + (" " + text);
    IndexAfter(key, ':', " " + text);
    TrimUntouched(key);
    LegalKeyNormal(key);
  }

  /** A printed pair consists of valid characters and stays on one line. */
  lemma PairPrints(b64: Base64, pair: Pair)
    requires Lawful(b64) && ValidPair(pair)
    ensures ValidChars(PairString(b64, pair)) && '\r' !in Line(b64, pair)
  {
    ValueStringShape(b64, pair);
    assert forall i :: 0 <= i < |pair.0| ==> LegalKeyChar(pair.0[i]);
  }

  /** A printed pair reads back as itself, trimmed. */
  lemma LineRoundTrip(b64: Base64, pair: Pair)
    requires Lawful(b64) && ValidPair(pair)
    ensures LinePairs(b64, Line(b64, pair)) == Ok([(pair.0, TrimValue(pair.1))])
  {
    var (key, value) := pair;
    var text := ValueString(b64, value);
    ValueStringShape(b64, pair);
    LineCut(key, text);
    match value {
      case Binary(x) =>
        TrimUntouched(text);
        SplitItemsSingle(text);
        assert b64.decode(b64.encode(x)) == x;
        assert LinePairs(b64, Line(b64, pair)).value == [(key, value)];
      case Text(_) =>
        assert (" " + text)[1..] == text;
    }
  }

  function TrimPairs(pairs: seq<Pair>): (r: seq<Pair>)
    ensures |r| == |pairs| && forall i :: 0 <= i < |r| ==> r[i] == (pairs[i].0, TrimValue(pairs[i].1))
  {
    seq(|pairs|, i requires 0 <= i < |pairs| => (pairs[i].0, TrimValue(pairs[i].1)))
  }

  predicate AllValidPairs(pairs: seq<Pair>) {
    forall i :: 0 <= i < |pairs| ==> ValidPair(pairs[i])
  }

  lemma LineAppends(b64: Base64, m: Contents, pair: Pair)
    requires Lawful(b64) && ValidPair(pair) && WellFormed(m)
    ensures LineDecoded(b64, m, Line(b64, pair)) == AppendOne(m, pair.0, TrimValue(pair.1))
  {
    LineRoundTrip(b64, pair);
    AppendPairsSingle(m, (pair.0, TrimValue(pair.1)));
  }

  lemma {:induction false} LinesRoundTrip(b64: Base64, m: Contents, pairs: seq<Pair>)
    requires Lawful(b64) && AllValidPairs(pairs) && WellFormed(m)
    ensures DecodedOnto(b64, m, Lines(b64, pairs) + [""]) == AppendPairs(m, TrimPairs(pairs))
    decreases |pairs|
  {
    var lines := Lines(b64, pairs) + [""];
    if pairs == [] {
      assert lines == [""] && lines[1..] == [];
    } else {
      LineAppends(b64, m, pairs[0]);
      assert lines[0] == Line(b64, pairs[0]) && lines[1..] == Lines(b64, pairs[1..]) + [""];
      assert TrimPairs(pairs)[1..] == TrimPairs(pairs[1..]);
      var r := AppendOne(m, pairs[0].0, TrimValue(pairs[0].1));
      if r.Ok? {
        LinesRoundTrip(b64, r.value, pairs[1..]);
      }
    }
  }

  lemma {:induction false} AppendPairsConcat(m: Contents, a: seq<Pair>, b: seq<Pair>)
    requires WellFormed(m) && AppendPairs(m, a).Ok?
    ensures AppendPairs(m, a + b) == AppendPairs(AppendPairs(m, a).value, b)
    decreases |a|
  {
    if a == [] {
      assert a + b == b;
    } else {
      assert (a + b)[1..] == a[1..] + b;
      AppendPairsConcat(AppendOne(m, a[0].0, a[0].1).value, a[1..], b);
    }
  }

  function TrimEntry(entry: Entry): Entry { (entry.0, TrimValues(entry.1)) }

  /** Trimming keeps text printable. */
  lemma {:induction false} TrimStartPrintable(s: string)
    requires Printable(s)
    ensures Printable(TrimStart(s))
  {
    if s != "" && IsSpace(s[0]) { TrimStartPrintable(s[1..]); }
  }

  lemma {:induction false} TrimEndPrintable(s: string)
    requires Printable(s)
    ensures Printable(TrimEnd(s))
  {
    if s != "" && IsSpace(s[|s| - 1]) { TrimEndPrintable(s[..|s| - 1]); }
  }

  lemma TrimValid(key: string, value: Value)
    requires Validate(key, value).None?
    ensures Validate(key, TrimValue(value)).None?
  {
    if value.Text? {
      TrimStartPrintable(value.text);
      TrimEndPrintable(TrimStart(value.text));
    }
  }

  lemma EntryValid(entry: Entry)
    requires WellFormedEntry(entry.0, entry.1)
    ensures AllValidPairs(EntryPairs(entry))
    ensures NormalizeKey(entry.0) == entry.0 && WellFormedEntry(entry.0, TrimEntry(entry).1)
    ensures AllValid(entry.0, TrimEntry(entry).1)
  {
    LegalKeyNormal(entry.0);
    forall i | 0 <= i < |entry.1|
      ensures Validate(entry.0, entry.1[i]).None? && Validate(entry.0, TrimEntry(entry).1[i]).None?
    {
      TrimValid(entry.0, entry.1[i]);
    }
  }

  lemma {:induction false} AppendEachPairs(m: Contents, entry: Entry)
    requires WellFormed(m)
    ensures var r := AppendEach(m, entry.0, entry.1);
            AppendPairs(m, EntryPairs(entry)) == if r.Ok? then Ok(r.value) else Err(InvalidPair(r.error))
    decreases |entry.1|
  {
    var (key, values) := entry;
    if values != [] {
      var r := WithAppended(m, key, values[0]);
      assert EntryPairs(entry)[1..] == EntryPairs((key, values[1..]));
      if r.Ok? {
        AppendEachPairs(r.value, (key, values[1..]));
      }
    }
  }

  /** A store with the entries of an enumeration added. */
  ghost function WithEntries(m: Contents, entries: seq<Entry>): Contents
    decreases |entries|
  {
    if entries == [] then m else WithEntries(m[entries[0].0 := entries[0].1], entries[1..])
  }

  ghost predicate Distinct(entries: seq<Entry>) {
    forall i, j :: 0 <= i < j < |entries| ==> entries[i].0 != entries[j].0
  }

  ghost predicate Apart(m: Contents, entries: seq<Entry>) {
    forall i :: 0 <= i < |entries| ==> entries[i].0 !in m
  }

  function TrimEntries(entries: seq<Entry>): (r: seq<Entry>)
    ensures |r| == |entries| && forall i :: 0 <= i < |r| ==> r[i] == TrimEntry(entries[i])
  {
    seq(|entries|, i requires 0 <= i < |entries| => TrimEntry(entries[i]))
  }

  /** One entry, printed and read back into a store that lacks its key. */
  lemma EntryRoundTrip(m: Contents, entry: Entry)
    requires WellFormed(m) && WellFormedEntry(entry.0, entry.1) && entry.0 !in m
    ensures AppendPairs(m, TrimPairs(EntryPairs(entry))) == Ok(m[entry.0 := TrimEntry(entry).1])
  {
    var trimmed := TrimEntry(entry);
    EntryValid(entry);
    assert TrimPairs(EntryPairs(entry)) == EntryPairs(trimmed);
    AppendEachPairs(m, trimmed);
    assert [] + trimmed.1 == trimmed.1;
    AppendEachKept(m, entry.0, [], trimmed.1);
    StoredOwn(entry.0, trimmed.1);
  }

  lemma TrimPairsConcat(a: seq<Pair>, b: seq<Pair>)
    ensures TrimPairs(a + b) == TrimPairs(a) + TrimPairs(b)
    ensures AllValidPairs(a) && AllValidPairs(b) ==> AllValidPairs(a + b)
  {
  }

  lemma {:induction false} EntriesRoundTrip(m: Contents, entries: seq<Entry>)
    requires WellFormed(m) && Distinct(entries) && Apart(m, entries)
    requires forall i :: 0 <= i < |entries| ==> WellFormedEntry(entries[i].0, entries[i].1)
    ensures AllValidPairs(Pairs(entries))
    ensures AppendPairs(m, TrimPairs(Pairs(entries))) == Ok(WithEntries(m, TrimEntries(entries)))
    decreases |entries|
  {
    if entries != [] {
      var first, rest := entries[0], entries[1..];
      EntryValid(first);
      EntryRoundTrip(m, first);
      var m1 := m[first.0 := TrimEntry(first).1];
      EntriesRoundTrip(m1, rest);
      assert TrimEntries(entries)[1..] == TrimEntries(rest);
      TrimPairsConcat(EntryPairs(first), Pairs(rest));
      AppendPairsConcat(m, TrimPairs(EntryPairs(first)), TrimPairs(Pairs(rest)));
    }
  }

  ghost function TrimAll(m: Contents): Contents {
    map k | k in m :: TrimValues(m[k])
  }

  /** `entries` lists the store, in whatever order the iteration takes. */
  ghost predicate Enumerates(entries: seq<Entry>, m: Contents) {
    Distinct(entries) && WithEntries(map[], entries) == m
  }

  lemma {:induction false} WithEntriesHolds(m: Contents, entries: seq<Entry>)
    requires Distinct(entries) && Apart(m, entries)
    ensures var m' := WithEntries(m, entries);
      && (forall k :: k in m ==> k in m' && m'[k] == m[k])
      && (forall i :: 0 <= i < |entries| ==> entries[i].0 in m' && m'[entries[i].0] == entries[i].1)
      && TrimAll(m') == WithEntries(TrimAll(m), TrimEntries(entries))
    decreases |entries|
  {
    if entries != [] {
      var first, rest := entries[0], entries[1..];
      var m1 := m[first.0 := first.1];
      WithEntriesHolds(m1, rest);
      assert TrimAll(m1) == TrimAll(m)[first.0 := TrimEntry(first).1];
      assert TrimEntries(entries)[1..] == TrimEntries(rest);
      var m' := WithEntries(m, entries);
      forall i | 0 <= i < |entries|
        ensures entries[i].0 in m' && m'[entries[i].0] == entries[i].1
      {
        assert i > 0 ==> entries[i] == rest[i - 1];
      }
    }
  }

  /**
   * For every well-formed store and every order of its entries: printing never throws, and parsing what was
   * printed gives the same keys, the same binary values, and the same text values trimmed.
   */
  lemma RoundTrip(b64: Base64, m: Contents, entries: seq<Entry>)
    requires Lawful(b64) && WellFormed(m) && Enumerates(entries, m)
    ensures Print(b64, Pairs(entries)).Ok?
    ensures Decoded(b64, SplitLines(Print(b64, Pairs(entries)).value)) == Ok(TrimAll(m))
  {
    WithEntriesHolds(map[], entries);
    EntriesRoundTrip(map[], entries);
    assert TrimAll(map[]) == map[];
    var pairs := Pairs(entries);
    forall i | 0 <= i < |pairs|
      ensures ValidChars(PairString(b64, pairs[i])) && '\r' !in Line(b64, pairs[i])
    {
      PairPrints(b64, pairs[i]);
    }
    PrintOk(b64, "", pairs);
    assert "" + Printed(b64, pairs) == Printed(b64, pairs);
    SplitPrinted(b64, pairs);
    LinesRoundTrip(b64, map[], pairs);
  }
}
