/**
 * What the parser of packages/nice-grpc-web/src/client/decodeMetadata.ts makes of any text, not only of what the
 * printer writes: other spacing and case, several values in a line, and lines it refuses.
 */
module MetadataLines {
  import opened Basics
  import opened MetadataStore
  import opened MetadataCodec

  // ------------------------------------------------------------------------------------------
  // Trimming

  /** White space in ASCII: tab, line feed, vertical tab, form feed, carriage return, space. */
  predicate White(c: char) { c == '\t' || c == '\n' || c == '\U{0B}' || c == '\U{0C}' || c == '\r' || c == ' ' }

  predicate AllWhite(s: string) { forall i :: 0 <= i < |s| ==> White(s[i]) }

  predicate Trimmed(s: string) { s != "" ==> !White(s[0]) && !White(s[|s| - 1]) }

  lemma {:induction false} TrimStartPadded(front: string, s: string)
    requires AllWhite(front) && (s != "" ==> !White(s[0]))
    ensures TrimStart(front + s) == s
  {
    if front == "" {
      assert front + s == s;
    } else {
      assert (front + s)[1..] == front[1..] + s;
      TrimStartPadded(front[1..], s);
    }
  }

  lemma {:induction false} TrimEndPadded(s: string, back: string)
    requires AllWhite(back) && (s != "" ==> !White(s[|s| - 1]))
    ensures TrimEnd(s + back) == s
  {
    if back == "" {
      assert s + back == s;
    } else {
      var n := |back| - 1;
      assert (s + back)[..|s| + n] == s + back[..n];
      TrimEndPadded(s, back[..n]);
    }
  }

  /** Exactly the white space around the text goes. */
  lemma {:induction false} TrimPadded(front: string, s: string, back: string)
    requires AllWhite(front) && AllWhite(back) && Trimmed(s)
    ensures Trim(front + s + back) == s
  {
    if s == "" {
      assert front + s + back == (front + back) + "";
      TrimStartPadded(front + back, "");
    } else {
      assert front + s + back == front + (s + back);
      TrimStartPadded(front, s + back);
      TrimEndPadded(s, back);
    }
  }

  // ------------------------------------------------------------------------------------------
  // Items

  /** What may stand between two items: a comma, and after it at most one white space. */
  predicate Gap(s: string) { s == "," || (|s| == 2 && s[0] == ',' && White(s[1])) }

  function JoinItems(items: seq<string>, gaps: seq<string>): string
    requires |items| == |gaps| + 1
  {
    if gaps == [] then items[0] else items[0] + gaps[0] + JoinItems(items[1..], gaps[1..])
  }

  /** Items that can be told apart: no commas in them, and none that begins with white space. */
  predicate Separable(items: seq<string>, gaps: seq<string>) {
    && |items| == |gaps| + 1
    && (forall i :: 0 <= i < |items| ==> ',' !in items[i] && (items[i] != "" ==> !White(items[i][0])))
    && forall i :: 0 <= i < |gaps| ==> Gap(gaps[i])
  }

  lemma {:induction false} SplitFirst(item: string, gap: string, rest: string)
    requires ',' !in item && Gap(gap) && (rest != "" ==> !White(rest[0]))
    ensures SplitItems(item + gap + rest) == [item] + SplitItems(rest)
  {
    var text := item + gap + rest;
    if item == "" {
      assert text[1..] == gap[1..] + rest;
      if gap == "," {
        assert text[1..] == rest;
      } else {
        assert text[2..] == rest;
      }
    } else {
      assert text[1..] == item[1..] + gap + rest;
      SplitFirst(item[1..], gap, rest);
      assert [item[0]] + item[1..] == item;
    }
  }

  lemma {:induction false} JoinedFront(items: seq<string>, gaps: seq<string>)
    requires Separable(items, gaps)
    ensures JoinItems(items, gaps) != "" ==> !White(JoinItems(items, gaps)[0])
  {
    if gaps != [] && items[0] == "" {
      assert items[0] + gaps[0] + JoinItems(items[1..], gaps[1..]) == gaps[0] + JoinItems(items[1..], gaps[1..]);
    }
  }

  /** Splitting gives back what was joined, whichever gaps were used. */
  lemma {:induction false} SplitJoined(items: seq<string>, gaps: seq<string>)
    requires Separable(items, gaps)
    ensures SplitItems(JoinItems(items, gaps)) == items
    decreases |gaps|
  {
    if gaps == [] {
      SplitItemsSingle(items[0]);
    } else {
      SplitJoined(items[1..], gaps[1..]);
      JoinedFront(items[1..], gaps[1..]);
      SplitFirst(items[0], gaps[0], JoinItems(items[1..], gaps[1..]));
    }
  }

  // ------------------------------------------------------------------------------------------
  // Lines

  /** An empty line is skipped, and a line without a colon is refused. */
  lemma {:induction false} OddLines(b64: Base64, m: Contents, line: string)
    requires WellFormed(m)
    ensures line == "" ==> LineDecoded(b64, m, line) == Ok(m)
    ensures line != "" && ':' !in line ==> LineDecoded(b64, m, line) == Err(InvalidLine(line))
  {
  }

  /** Lines are decoded one after the other, and the first error ends it. */
  lemma {:induction false} DecodedInOrder(b64: Base64, m: Contents, a: seq<string>, b: seq<string>)
    requires WellFormed(m)
    ensures DecodedOnto(b64, m, a + b)
            == var r := DecodedOnto(b64, m, a); if r.Ok? then DecodedOnto(b64, r.value, b) else r
    ensures forall line :: DecodedOnto(b64, m, [line]) == LineDecoded(b64, m, line)
    decreases |a|
  {
    forall line
      ensures DecodedOnto(b64, m, [line]) == LineDecoded(b64, m, line)
    {
      assert [line][1..] == [];
    }
    if a == [] {
      assert a + b == b;
    } else {
      assert (a + b)[1..] == a[1..] + b;
      var r := LineDecoded(b64, m, a[0]);
      if r.Ok? {
        DecodedInOrder(b64, r.value, a[1..], b);
      }
    }
  }

  predicate HasBreak(s: string) { exists i :: 0 <= i < |s| - 1 && s[i] == '\r' && s[i + 1] == '\n' }

  function JoinLines(lines: seq<string>): string
    requires lines != []
  {
    if |lines| == 1 then lines[0] else lines[0] + "\r\n" + JoinLines(lines[1..])
  }

  /** The lines are what stands between the line breaks. */
  lemma {:induction false} SplitLinesExactly(text: string)
    ensures JoinLines(SplitLines(text)) == text
    ensures forall i :: 0 <= i < |SplitLines(text)| ==> !HasBreak(SplitLines(text)[i])
  {
    if |text| < 2 {
    } else if text[0] == '\r' && text[1] == '\n' {
      var rest := SplitLines(text[2..]);
      SplitLinesExactly(text[2..]);
      assert ([""] + rest)[1..] == rest;
      assert text == "" + "\r\n" + text[2..];
    } else {
      var rest := SplitLines(text[1..]);
      SplitLinesExactly(text[1..]);
      FrontChar(text[0], rest);
      FirstLine(text[1..]);
      assert ([[text[0]] + rest[0]] + rest[1..])[0] == [text[0]] + rest[0];
      LongerLine(text[0], text[1..], rest[0]);
      assert text == [text[0]] + text[1..];
    }
  }

  lemma {:induction false} FrontChar(c: char, lines: seq<string>)
    requires lines != []
    ensures JoinLines([[c] + lines[0]] + lines[1..]) == [c] + JoinLines(lines)
  {
    var longer := [[c] + lines[0]] + lines[1..];
    if |lines| > 1 {
      assert longer[1..] == lines[1..];
      assert ([c] + lines[0]) + "\r\n" + JoinLines(lines[1..]) == [c] + (lines[0] + "\r\n" + JoinLines(lines[1..]));
    }
  }

  lemma {:induction false} FirstLine(text: string)
    ensures SplitLines(text)[0] <= text
  {
    if |text| >= 2 && !(text[0] == '\r' && text[1] == '\n') {
      FirstLine(text[1..]);
      assert text == [text[0]] + text[1..];
    }
  }

  lemma {:induction false} LongerLine(c: char, text: string, line: string)
    requires line <= text && !HasBreak(line) && text != "" && !(c == '\r' && text[0] == '\n')
    ensures !HasBreak([c] + line)
  {
    var longer := [c] + line;
    assert forall i :: 0 < i < |longer| ==> longer[i] == line[i - 1];
    assert forall i :: 0 < i < |longer| - 1 && line[i - 1] == '\r' ==> line[i] != '\n';
  }

  /** The two sides of the first colon. */
  lemma {:induction false} LineParts(b64: Base64, left: string, right: string)
    requires ':' !in left
    ensures var line, key := left + ":" + right, NormalizeKey(Trim(left));
      LinePairs(b64, line) == Ok(if IsBinKey(key) then BinaryPairs(b64, key, SplitItems(Trim(right)))
                                 else [(key, Text(Trim(right)))])
  {
    var line := left + ":" + right;
    IndexAfter(left, ':', right);
    assert left + [':'] + right == line;
    assert line[..|left|] == left && line[|left| + 1..] == right;
  }

  /** A key in any case, as it stands for a key of the store. */
  predicate Spells(written: string, key: string) {
    |written| == |key| && forall i :: 0 <= i < |key| ==>
      || written[i] == key[i]
      || ('A' <= written[i] <= 'Z' && 'a' <= key[i] <= 'z' && written[i] - 'A' == key[i] - 'a')
  }

  lemma {:induction false} SpelledKey(written: string, key: string)
    requires Spells(written, key) && LegalKey(key)
    ensures NormalizeKey(written) == key && Trimmed(written) && ':' !in written
  {
    assert forall i :: 0 <= i < |key| ==> LegalKeyChar(key[i]);
    assert forall i :: 0 <= i < |key| ==> NormalizeKey(written)[i] == key[i];
  }

  /** A key with white space around it. */
  lemma {:induction false} PaddedKey(front: string, written: string, back: string, key: string)
    requires AllWhite(front) && AllWhite(back) && Spells(written, key) && LegalKey(key)
    ensures NormalizeKey(Trim(front + written + back)) == key && ':' !in front + written + back
  {
    SpelledKey(written, key);
    TrimPadded(front, written, back);
  }

  /** A text line, spaced and spelled in any way, appends its text. */
  lemma {:induction false} TextLine(b64: Base64, m: Contents, left: string, key: string, right: string, text: string)
    requires WellFormed(m) && ':' !in left && NormalizeKey(Trim(left)) == key && !IsBinKey(key) && Trim(right) == text
    ensures LineDecoded(b64, m, left + ":" + right) == AppendOne(m, key, Text(text))
  {
    LineParts(b64, left, right);
    AppendPairsSingle(m, (key, Text(text)));
  }

  function Encodings(b64: Base64, values: seq<seq<byte>>): (items: seq<string>)
    ensures |items| == |values| && forall i :: 0 <= i < |items| ==> items[i] == b64.encode(values[i])
  {
    seq(|values|, i requires 0 <= i < |values| => b64.encode(values[i]))
  }

  function Binaries(values: seq<seq<byte>>): (r: seq<Value>)
    ensures |r| == |values| && forall i :: 0 <= i < |r| ==> r[i] == Binary(values[i])
  {
    seq(|values|, i requires 0 <= i < |values| => Binary(values[i]))
  }

  lemma {:induction false} EncodingsSeparable(b64: Base64, values: seq<seq<byte>>, gaps: seq<string>)
    requires Lawful(b64) && |values| == |gaps| + 1 && forall i :: 0 <= i < |gaps| ==> Gap(gaps[i])
    ensures Separable(Encodings(b64, values), gaps)
  {
    var items := Encodings(b64, values);
    forall i | 0 <= i < |items|
      ensures ',' !in items[i] && (items[i] != "" ==> !White(items[i][0]))
    {
      assert forall j :: 0 <= j < |b64.encode(values[i])| ==> Base64Char(b64.encode(values[i])[j]);
    }
  }

  /** Appending binaries to a binary key puts them behind what is there. */
  lemma {:induction false} AppendBinaries(m: Contents, key: string, values: seq<seq<byte>>)
    requires WellFormed(m) && LegalKey(key) && IsBinKey(key) && values != []
    ensures var pairs := seq(|values|, i requires 0 <= i < |values| => (key, Binary(values[i])));
            AppendPairs(m, pairs) == Ok(m[key := MetadataStore.Values(m, key) + Binaries(values)])
    decreases |values|
  {
    LegalKeyNormal(key);
    var pairs: seq<Pair> := seq(|values|, i requires 0 <= i < |values| => (key, Binary(values[i])));
    var rest := values[1..];
    var m1 := m[key := MetadataStore.Values(m, key) + [Binary(values[0])]];
    assert AppendOne(m, key, Binary(values[0])) == Ok(m1);
    assert Binaries(values) == [Binary(values[0])] + Binaries(rest);
    AppendAssoc(MetadataStore.Values(m, key), [Binary(values[0])], Binaries(rest));
    if rest == [] {
      assert pairs[1..] == [];
      assert Binaries(rest) == [] && MetadataStore.Values(m, key) + [Binary(values[0])] + [] == m1[key];
    } else {
      AppendBinaries(m1, key, rest);
      assert pairs[1..] == seq(|rest|, i requires 0 <= i < |rest| => (key, Binary(rest[i])));
      assert m1[key := m1[key] + Binaries(rest)] == m[key := m1[key] + Binaries(rest)];
    }
  }

  /**
   * A line of a binary key, spaced and spelled in any way: the encodings of any non-empty list of byte strings, with
   * any gaps between them, append exactly those byte strings in order.
   */
  lemma {:induction false} BinaryLine(b64: Base64, m: Contents, left: string, key: string, right: string,
                                       values: seq<seq<byte>>, gaps: seq<string>)
    requires Lawful(b64) && WellFormed(m) && LegalKey(key) && IsBinKey(key)
    requires ':' !in left && NormalizeKey(Trim(left)) == key
    requires |values| == |gaps| + 1 && forall i :: 0 <= i < |gaps| ==> Gap(gaps[i])
    requires Trim(right) == JoinItems(Encodings(b64, values), gaps)
    ensures LineDecoded(b64, m, left + ":" + right)
            == Ok(m[key := MetadataStore.Values(m, key) + Binaries(values)])
  {
    var items := Encodings(b64, values);
    LineParts(b64, left, right);
    EncodingsSeparable(b64, values, gaps);
    SplitJoined(items, gaps);
    AppendBinaries(m, key, values);
    forall i | 0 <= i < |values|
      ensures b64.decode(items[i]) == values[i]
    {
      assert b64.decode(b64.encode(values[i])) == values[i];
    }
    assert BinaryPairs(b64, key, items) == seq(|values|, i requires 0 <= i < |values| => (key, Binary(values[i])));
  }

  /** The last gap is a comma and white space with nothing after it. */
  predicate OpenEnd(items: seq<string>, gaps: seq<string>)
    requires |items| == |gaps| + 1
  {
    gaps != [] && items[|gaps|] == "" && |gaps[|gaps| - 1]| == 2
  }

  /** Without that white space. */
  function Closed(gaps: seq<string>): seq<string>
    requires gaps != []
  {
    gaps[..|gaps| - 1] + [","]
  }

  /** What is joined ends with the last item or a comma, unless the last gap is open. */
  lemma {:induction false} JoinedEnd(items: seq<string>, gaps: seq<string>)
    requires Separable(items, gaps)
    requires forall i :: 0 <= i < |items| && items[i] != "" ==> !White(items[i][|items[i]| - 1])
    ensures var joined := JoinItems(items, gaps);
      if OpenEnd(items, gaps) then joined == JoinItems(items, Closed(gaps)) + [gaps[|gaps| - 1][1]]
      else joined != "" ==> !White(joined[|joined| - 1])
    decreases |gaps|
  {
    if gaps != [] {
      var rest := JoinItems(items[1..], gaps[1..]);
      JoinedEnd(items[1..], gaps[1..]);
      if |gaps| == 1 {
        assert gaps[0] + "" == gaps[0] && items[1] == rest;
        if OpenEnd(items, gaps) {
          assert gaps[0] == "," + [gaps[0][1]];
          assert JoinItems(items, [","]) == items[0] + "," + "";
        }
      } else {
        assert OpenEnd(items[1..], gaps[1..]) <==> OpenEnd(items, gaps);
        if OpenEnd(items, gaps) {
          assert Closed(gaps)[1..] == Closed(gaps[1..]) && Closed(gaps)[0] == gaps[0];
        }
      }
    }
  }

  /**
   * From the text alone: the key in any case, with white space around it and around the encodings, and any gaps between
   * the encodings.
   */
  lemma {:induction false} SpacedBinaryLine(b64: Base64, m: Contents, key: string, written: string, around: seq<string>,
                                             values: seq<seq<byte>>, gaps: seq<string>)
    requires Lawful(b64) && WellFormed(m) && LegalKey(key) && IsBinKey(key) && Spells(written, key)
    requires |around| == 4 && forall i :: 0 <= i < 4 ==> AllWhite(around[i])
    requires |values| == |gaps| + 1 && forall i :: 0 <= i < |gaps| ==> Gap(gaps[i])
    ensures LineDecoded(b64, m, (around[0] + written + around[1]) + ":"
                                + (around[2] + JoinItems(Encodings(b64, values), gaps) + around[3]))
            == Ok(m[key := MetadataStore.Values(m, key) + Binaries(values)])
  {
    var items := Encodings(b64, values);
    var left, right := around[0] + written + around[1], around[2] + JoinItems(items, gaps) + around[3];
    PaddedKey(around[0], written, around[1], key);
    EncodingsSeparable(b64, values, gaps);
    EncodingsEnd(b64, values);
    JoinedEnd(items, gaps);
    if OpenEnd(items, gaps) {
      var closed, c := Closed(gaps), gaps[|gaps| - 1][1];
      assert forall i :: 0 <= i < |closed| ==> Gap(closed[i]);
      EncodingsSeparable(b64, values, closed);
      JoinedEnd(items, closed);
      JoinedFront(items, closed);
      TrimPadded(around[2], JoinItems(items, closed), [c] + around[3]);
      assert right == around[2] + JoinItems(items, closed) + ([c] + around[3]);
      BinaryLine(b64, m, left, key, right, values, closed);
    } else {
      JoinedFront(items, gaps);
      TrimPadded(around[2], JoinItems(items, gaps), around[3]);
      BinaryLine(b64, m, left, key, right, values, gaps);
    }
  }

  lemma {:induction false} EncodingsEnd(b64: Base64, values: seq<seq<byte>>)
    requires Lawful(b64)
    ensures var items := Encodings(b64, values);
      forall i :: 0 <= i < |items| && items[i] != "" ==> !White(items[i][|items[i]| - 1])
  {
    var items := Encodings(b64, values);
    forall i | 0 <= i < |items| && items[i] != ""
      ensures !White(items[i][|items[i]| - 1])
    {
      assert forall j :: 0 <= j < |b64.encode(values[i])| ==> Base64Char(b64.encode(values[i])[j]);
    }
  }

  /** The same for a text key. */
  lemma {:induction false} SpacedTextLine(b64: Base64, m: Contents, key: string, written: string, around: seq<string>,
                                           text: string)
    requires WellFormed(m) && LegalKey(key) && !IsBinKey(key) && Spells(written, key) && Trimmed(text)
    requires |around| == 4 && forall i :: 0 <= i < 4 ==> AllWhite(around[i])
    ensures LineDecoded(b64, m, (around[0] + written + around[1]) + ":" + (around[2] + text + around[3]))
            == match WithAppended(m, key, Text(text)) case Ok(m1) => Ok(m1) case Err(e) => Err(InvalidPair(e))
  {
    PaddedKey(around[0], written, around[1], key);
    TrimPadded(around[2], text, around[3]);
    TextLine(b64, m, around[0] + written + around[1], key, around[2] + text + around[3], text);
  }
}
