/** The metadata store: packages/nice-grpc-common/src/Metadata.ts. */
module MetadataStore {
  import opened Basics

  datatype Value = Text(text: string) | Binary(bytes: seq<byte>)

  /** What a store holds: for each key, the list of its values. */
  type Contents = map<string, seq<Value>>

  // ------------------------------------------------------------------------------------------
  // Keys and values

  function LowerChar(c: char): char {
    if 'A' <= c <= 'Z' then c - 'A' + 'a' else c
  }

  /** `toLowerCase` on ASCII. */
  function NormalizeKey(key: string): string {
    seq(|key|, i requires 0 <= i < |key| => LowerChar(key[i]))
  }

  predicate LegalKeyChar(c: char) {
    '0' <= c <= '9' || 'a' <= c <= 'z' || c == '_' || c == '.' || c == '-'
  }

  predicate LegalKey(key: string) {
    key != "" && forall i :: 0 <= i < |key| ==> LegalKeyChar(key[i])
  }

  predicate IsBinKey(key: string) {
    |key| >= 4 && key[|key| - 4..] == "-bin"
  }

  predicate Printable(s: string) {
    forall i :: 0 <= i < |s| ==> ' ' <= s[i] <= '~'
  }

  datatype Invalid = IllegalKey | NotBinary | NotText | IllegalText

  function Validate(key: string, value: Value): Option<Invalid> {
    if !LegalKey(key) then Some(IllegalKey)
    else if IsBinKey(key) then
      if value.Binary? then None else Some(NotBinary)
    else
      match value
      case Binary(_) => Some(NotText)
      case Text(s) => if Printable(s) then None else Some(IllegalText)
  }

  predicate AllValid(key: string, values: seq<Value>) {
    forall i :: 0 <= i < |values| ==> Validate(key, values[i]).None?
  }

  lemma ValidAllText(key: string, values: seq<Value>)
    requires AllValid(key, values)
    ensures !IsBinKey(key) ==> AllText(values)
  {
    assert forall i :: 0 <= i < |values| ==> Validate(key, values[i]).None?;
  }

  function ValidateAll(key: string, values: seq<Value>): (r: Option<Invalid>)
    ensures r.None? <==> AllValid(key, values)
  {
    if values == [] then None
    else
      var first := Validate(key, values[0]);
      if first.Some? then first else ValidateAll(key, values[1..])
  }

  predicate AllText(values: seq<Value>) {
    forall i :: 0 <= i < |values| ==> values[i].Text?
  }

  /** `values.join(', ')`. */
  function Join(values: seq<Value>): string
    requires AllText(values)
  {
    JoinFirst(values, |values|)
  }

  /** The first `n` values, joined. */
  function JoinFirst(values: seq<Value>, n: nat): string
    requires AllText(values) && n <= |values|
  {
    if n == 0 then ""
    else if n == 1 then values[0].text
    else JoinFirst(values, n - 1) + ", " + values[n - 1].text
  }

  // ------------------------------------------------------------------------------------------
  // The operations on contents

  /** The list kept for a key, given the values the caller asked for. */
  function Stored(key: string, values: seq<Value>): seq<Value>
    requires !IsBinKey(key) ==> AllText(values)
  {
    if IsBinKey(key) then values else [Text(Join(values))]
  }

  function WithAll(m: Contents, key: string, values: seq<Value>): Result<Contents, Invalid>
    requires WellFormed(m)
  {
    var k := NormalizeKey(key);
    if values == [] then Ok(m - {k})
    else
      match ValidateAll(k, values)
      case Some(e) => Err(e)
      case None => Ok(Replaced(m, k, values))
  }

  /** The contents after an accepted list has been set under a normalized key. */
  function Replaced(m: Contents, k: string, values: seq<Value>): (r: Contents)
    requires WellFormed(m) && values != [] && AllValid(k, values)
    ensures WellFormed(r)
  {
    StoredWellFormed(k, values);
    m[k := Stored(k, values)]
  }

  function With(m: Contents, key: string, value: Value): Result<Contents, Invalid> {
    var k := NormalizeKey(key);
    match Validate(k, value)
    case Some(e) => Err(e)
    case None => Ok(m[k := [value]])
  }

  function Values(m: Contents, key: string): seq<Value> {
    if key in m then m[key] else []
  }

  function WithAppended(m: Contents, key: string, value: Value): (r: Result<Contents, Invalid>)
    requires WellFormed(m)
    ensures r.Ok? ==> WellFormed(r.value)
  {
    var k := NormalizeKey(key);
    match Validate(k, value)
    case Some(e) => Err(e)
    case None => Ok(Appended(m, k, value))
  }

  /** The contents after an accepted value has been appended under a normalized key. */
  function Appended(m: Contents, k: string, value: Value): (r: Contents)
    requires WellFormed(m) && Validate(k, value).None?
    ensures WellFormed(r)
  {
    StoredWellFormedAppend(k, Values(m, k), value);
    m[k := Stored(k, Values(m, k) + [value])]
  }

  /** The contents after a value has been pushed to the list that the given keys hold. */
  function Pushed(m: Contents, keys: set<string>, value: Value): (r: Contents)
    ensures r.Keys == m.Keys
  {
    map j | j in m :: if j in keys then m[j] + [value] else m[j]
  }

  /** The contents after an append to a key whose list is held by `sharers` as well. */
  function AppendedShared(m: Contents, k: string, sharers: set<string>, value: Value): Contents
    requires WellFormed(m) && Validate(k, value).None?
  {
    StoredWellFormedAppend(k, Values(m, k), value);
    Pushed(m, sharers, value)[k := Stored(k, Values(m, k) + [value])]
  }

  function Without(m: Contents, key: string): Contents { m - {NormalizeKey(key)} }

  /** `get`: the first of several values. */
  function First(m: Contents, key: string): Option<Value>
    requires WellFormed(m)
  {
    var k := NormalizeKey(key);
    if k in m then Some(m[k][0]) else None
  }

  /** Keys are lower case and legal; a text key has one printable string, a binary key only binaries. */
  predicate WellFormedEntry(key: string, values: seq<Value>) {
    && LegalKey(key)
    && values != []
    && (IsBinKey(key) ==> forall i :: 0 <= i < |values| ==> values[i].Binary?)
    && (!IsBinKey(key) ==> |values| == 1 && values[0].Text? && Printable(values[0].text))
  }

  ghost predicate WellFormed(m: Contents) {
    forall k :: k in m ==> WellFormedEntry(k, m[k])
  }

  // ------------------------------------------------------------------------------------------
  // Every sequence of operations

  datatype Op =
    | SetOp(key: string, value: Value)
    | SetAllOp(key: string, values: seq<Value>)
    | AppendOp(key: string, value: Value)
    | DeleteOp(key: string)

  /** A call that throws leaves the store as it was. */
  ghost function Apply(m: Contents, op: Op): Contents
    requires WellFormed(m)
  {
    match op
    case SetOp(k, v) => (match With(m, k, v) case Ok(m') => m' case Err(_) => m)
    case SetAllOp(k, vs) => (match WithAll(m, k, vs) case Ok(m') => m' case Err(_) => m)
    case AppendOp(k, v) => (match WithAppended(m, k, v) case Ok(m') => m' case Err(_) => m)
    case DeleteOp(k) => Without(m, k)
  }

  lemma PrintableAppend(a: string, b: string)
    requires Printable(a) && Printable(b)
    ensures Printable(a + b)
  {
  }

  lemma {:induction false} JoinPrintable(values: seq<Value>, n: nat)
    requires AllText(values) && n <= |values|
    requires forall i :: 0 <= i < |values| ==> Printable(values[i].text)
    ensures Printable(JoinFirst(values, n))
  {
    if n > 1 {
      JoinPrintable(values, n - 1);
      PrintableAppend(JoinFirst(values, n - 1), ", ");
    }
  }

  lemma StoredWellFormed(key: string, values: seq<Value>)
    requires values != [] && AllValid(key, values)
    ensures WellFormedEntry(key, Stored(key, values))
  {
    assert Validate(key, values[0]).None?;
    if !IsBinKey(key) {
      assert forall i :: 0 <= i < |values| ==> Validate(key, values[i]).None?;
      JoinPrintable(values, |values|);
    }
  }

  lemma StoredWellFormedAppend(key: string, values: seq<Value>, value: Value)
    requires values == [] || WellFormedEntry(key, values)
    requires Validate(key, value).None?
    ensures WellFormedEntry(key, Stored(key, values + [value]))
  {
    forall i | 0 <= i < |values + [value]|
      ensures Validate(key, (values + [value])[i]).None?
    {
      if i < |values| { assert (values + [value])[i] == values[i]; }
    }
    StoredWellFormed(key, values + [value]);
  }

  lemma ApplyKeepsWellFormed(m: Contents, op: Op)
    requires WellFormed(m)
    ensures WellFormed(Apply(m, op))
  {
    match op {
      case SetOp(k, v) =>
      case SetAllOp(k, vs) =>
      case AppendOp(k, v) =>
      case DeleteOp(k) =>
    }
  }

  /** Every sequence of calls on an empty store leaves it well formed, whatever is passed in. */
  ghost function ApplyAll(m: Contents, ops: seq<Op>): (r: Contents)
    requires WellFormed(m)
    ensures WellFormed(r)
    decreases |ops|
  {
    if ops == [] then m
    else
      ApplyKeepsWellFormed(m, ops[0]);
      ApplyAll(Apply(m, ops[0]), ops[1..])
  }

  /** Appends of all the values, one by one; fails as soon as one fails. */
  function AppendEach(m: Contents, key: string, values: seq<Value>): (r: Result<Contents, Invalid>)
    requires WellFormed(m)
    ensures r.Ok? ==> WellFormed(r.value)
    decreases |values|
  {
    if values == [] then Ok(m)
    else
      match WithAppended(m, key, values[0])
      case Err(e) => Err(e)
      case Ok(m1) => AppendEach(m1, key, values[1..])
  }

  /** What is kept for a list of valid values. */
  ghost function Kept(k: string, values: seq<Value>): seq<Value>
    requires AllValid(k, values)
  {
    ValidAllText(k, values);
    Stored(k, values)
  }

  /** The key holds what is kept for the list, or is absent if the list is empty. */
  ghost predicate Holds(m: Contents, k: string, values: seq<Value>)
    requires AllValid(k, values)
  {
    if values == [] then k !in m else k in m && m[k] == Kept(k, values)
  }

  /** Setting a list of valid values is deleting the key and appending the values one by one. */
  lemma SetAllIsDeleteThenAppend(m: Contents, key: string, values: seq<Value>)
    requires WellFormed(m) && AllValid(NormalizeKey(key), values)
    ensures WithAll(m, key, values) == AppendEach(Without(m, key), key, values)
  {
    var k := NormalizeKey(key);
    if values != [] {
      assert [] + values == values;
      AppendEachKept(m - {k}, key, [], values);
      var kept := Kept(k, values);
      assert (m - {k})[k := kept] == m[k := kept];
    }
  }

  /** Appending to what is kept for `init` gives what is kept for the whole list. */
  lemma {:induction false} AppendEachKept(m: Contents, key: string, init: seq<Value>, values: seq<Value>)
    requires WellFormed(m) && values != []
    requires AllValid(NormalizeKey(key), init) && AllValid(NormalizeKey(key), init + values)
    requires Holds(m, NormalizeKey(key), init)
    ensures AppendEach(m, key, values) == Ok(m[NormalizeKey(key) := Kept(NormalizeKey(key), init + values)])
    decreases |values|
  {
    var k := NormalizeKey(key);
    var first, rest := values[0], values[1..];
    assert (init + values)[|init|] == first;
    assert init + values == (init + [first]) + rest;
    AppendOneKept(m, key, init, first);
    if rest == [] {
      assert init + values == init + [first];
    } else {
      var m1 := m[k := Kept(k, init + [first])];
      AppendEachKept(m1, key, init + [first], rest);
      var kept := Kept(k, init + values);
      assert m1[k := kept] == m[k := kept];
    }
  }

  lemma AppendOneKept(m: Contents, key: string, init: seq<Value>, last: Value)
    requires WellFormed(m) && AllValid(NormalizeKey(key), init) && Validate(NormalizeKey(key), last).None?
    requires Holds(m, NormalizeKey(key), init)
    ensures AllValid(NormalizeKey(key), init + [last])
    ensures WithAppended(m, key, last) == Ok(m[NormalizeKey(key) := Kept(NormalizeKey(key), init + [last])])
  {
    var k := NormalizeKey(key);
    ValidAllText(k, init);
    assert AllValid(k, init + [last]);
    ValidAllText(k, init + [last]);
    StoredSnoc(k, init, last);
    if init == [] {
      assert init + [last] == [last];
      assert Values(m, k) + [last] == [last];
    }
  }

  /** Appending one value to what is kept for a list is what is kept for the longer list. */
  lemma StoredSnoc(key: string, init: seq<Value>, last: Value)
    requires !IsBinKey(key) ==> AllText(init) && last.Text?
    ensures init == [] ==> Stored(key, [last]) == [last]
    ensures init != [] ==> Stored(key, Stored(key, init) + [last]) == Stored(key, init + [last])
  {
    if init != [] && !IsBinKey(key) {
      JoinPair(Text(Join(init)), last);
      JoinPrefix(init, init + [last], |init|);
    }
  }

  /** A list with an invalid value is refused by both, so the two always agree on success. */
  lemma {:induction false} AppendEachValidates(m: Contents, key: string, values: seq<Value>)
    requires WellFormed(m)
    ensures AppendEach(m, key, values).Ok? <==> ValidateAll(NormalizeKey(key), values).None?
    decreases |values|
  {
    if values != [] && Validate(NormalizeKey(key), values[0]).None? {
      AppendEachValidates(WithAppended(m, key, values[0]).value, key, values[1..]);
    }
  }

  lemma JoinPair(a: Value, b: Value)
    requires a.Text? && b.Text?
    ensures AllText([a] + [b]) && Join([a] + [b]) == a.text + ", " + b.text
  {
    assert JoinFirst([a] + [b], 1) == a.text;
  }

  lemma {:induction false} JoinPrefix(values: seq<Value>, more: seq<Value>, n: nat)
    requires AllText(values) && AllText(more) && values <= more && n <= |values|
    ensures JoinFirst(more, n) == JoinFirst(values, n)
  {
    if n > 1 {
      JoinPrefix(values, more, n - 1);
    }
  }

  // ------------------------------------------------------------------------------------------
  // What the operations mean for a caller

  /** A letter, a digit, an underscore, a dot or a hyphen, in either case. */
  predicate CallerKeyChar(c: char) {
    'a' <= c <= 'z' || 'A' <= c <= 'Z' || '0' <= c <= '9' || c == '_' || c == '.' || c == '-'
  }

  /** The key ends with `-bin`, in either case. */
  predicate CallerBinKey(key: string) {
    var n := |key|;
    && n >= 4 && key[n - 4] == '-'
    && (key[n - 3] == 'b' || key[n - 3] == 'B') && (key[n - 2] == 'i' || key[n - 2] == 'I')
    && (key[n - 1] == 'n' || key[n - 1] == 'N')
  }

  lemma {:induction false} BinEnding(k: string)
    ensures IsBinKey(k) <==> var n := |k|;
      n >= 4 && k[n - 4] == '-' && k[n - 3] == 'b' && k[n - 2] == 'i' && k[n - 1] == 'n'
  {
    var n := |k|;
    if n >= 4 {
      assert k[n - 4..] == [k[n - 4], k[n - 3], k[n - 2], k[n - 1]];
    }
  }

  lemma {:induction false} LowerCases(c: char)
    ensures LowerChar(c) == '-' <==> c == '-'
    ensures LowerChar(c) == 'b' <==> c == 'b' || c == 'B'
    ensures LowerChar(c) == 'i' <==> c == 'i' || c == 'I'
    ensures LowerChar(c) == 'n' <==> c == 'n' || c == 'N'
    ensures LegalKeyChar(LowerChar(c)) <==> CallerKeyChar(c)
  {
  }

  /** A caller's key and its normal form. */
  lemma {:induction false} CallerKey(key: string)
    ensures IsBinKey(NormalizeKey(key)) <==> CallerBinKey(key)
    ensures LegalKey(NormalizeKey(key)) <==> key != "" && forall i :: 0 <= i < |key| ==> CallerKeyChar(key[i])
  {
    BinEnding(NormalizeKey(key));
    forall i | 0 <= i < |key|
      ensures LegalKeyChar(NormalizeKey(key)[i]) <==> CallerKeyChar(key[i])
    {
      LowerCases(key[i]);
    }
    if |key| >= 4 {
      var n := |key|;
      LowerCases(key[n - 4]);
      LowerCases(key[n - 3]);
      LowerCases(key[n - 2]);
      LowerCases(key[n - 1]);
    }
  }

  /** Which keys and values are accepted, and what is wrong with the others. */
  lemma {:induction false} ValidatedExactly(key: string, value: Value)
    ensures var error := Validate(NormalizeKey(key), value);
            var legal := key != "" && forall i :: 0 <= i < |key| ==> CallerKeyChar(key[i]);
      if !legal then error == Some(IllegalKey)
      else if CallerBinKey(key) then error == (if value.Binary? then None else Some(NotBinary))
      else if value.Binary? then error == Some(NotText)
      else
        error == if forall i :: 0 <= i < |value.text| ==> ' ' <= value.text[i] <= '~' then None
                 else Some(IllegalText)
  {
    CallerKey(key);
  }

  predicate SameButCase(a: char, b: char) {
    || a == b
    || ('A' <= a <= 'Z' && 'a' <= b <= 'z' && a - 'A' == b - 'a')
    || ('a' <= a <= 'z' && 'A' <= b <= 'Z' && a - 'a' == b - 'A')
  }

  /** Keys that differ in case only are the same key; and a key of a store is its own normal form. */
  lemma {:induction false} CaseIgnored(a: string, b: string)
    requires |a| == |b| && forall i :: 0 <= i < |a| ==> SameButCase(a[i], b[i])
    ensures NormalizeKey(a) == NormalizeKey(b)
    ensures LegalKey(a) ==> NormalizeKey(b) == a
  {
    assert forall i :: 0 <= i < |a| ==> NormalizeKey(a)[i] == NormalizeKey(b)[i];
    if LegalKey(a) {
      LegalKeyNormal(a);
    }
  }

  /** After `set` the key has the value, and nothing else has changed. */
  lemma {:induction false} SetThenGet(m: Contents, key: string, value: Value)
    requires WellFormed(m) && With(m, key, value).Ok?
    ensures var m' := With(m, key, value).value;
      && WellFormed(m') && First(m', key) == Some(value)
      && forall other :: NormalizeKey(other) != NormalizeKey(key) ==> First(m', other) == First(m, other)
  {
    ApplyKeepsWellFormed(m, SetOp(key, value));
  }

  /** Setting a list fails exactly when some value in it is invalid, with what is wrong with the first such value. */
  lemma {:induction false} SetAllRefused(m: Contents, key: string, values: seq<Value>)
    requires WellFormed(m)
    ensures WithAll(m, key, values).Ok? <==> AllValid(NormalizeKey(key), values)
    ensures WithAll(m, key, values).Err? ==>
      exists i :: 0 <= i < |values| && Validate(NormalizeKey(key), values[i]) == Some(WithAll(m, key, values).error)
                  && forall j :: 0 <= j < i ==> Validate(NormalizeKey(key), values[j]).None?
  {
    FirstInvalid(NormalizeKey(key), values);
  }

  lemma {:induction false} FirstInvalid(key: string, values: seq<Value>)
    ensures ValidateAll(key, values).Some? ==>
      exists i :: 0 <= i < |values| && Validate(key, values[i]) == ValidateAll(key, values)
                  && forall j :: 0 <= j < i ==> Validate(key, values[j]).None?
  {
    if values != [] && Validate(key, values[0]).None? && ValidateAll(key, values).Some? {
      FirstInvalid(key, values[1..]);
      var i :| 0 <= i < |values[1..]| && Validate(key, values[1..][i]) == ValidateAll(key, values[1..])
               && forall j :: 0 <= j < i ==> Validate(key, values[1..][j]).None?;
      assert values[i + 1] == values[1..][i];
      assert forall j :: 0 < j < i + 1 ==> values[j] == values[1..][j - 1];
    }
  }

  /** After `delete` the key is absent, and nothing else has changed. */
  lemma {:induction false} DeleteThenGet(m: Contents, key: string)
    requires WellFormed(m)
    ensures var m' := Without(m, key);
      && WellFormed(m') && First(m', key) == None
      && forall other :: NormalizeKey(other) != NormalizeKey(key) ==> First(m', other) == First(m, other)
  {
    ApplyKeepsWellFormed(m, DeleteOp(key));
  }

  /** After `append` a new key has the value; a text key has both texts, a binary key still its first value first. */
  lemma {:induction false} AppendThenGet(m: Contents, key: string, value: Value)
    requires WellFormed(m) && WithAppended(m, key, value).Ok?
    ensures var m', old' := WithAppended(m, key, value).value, First(m, key);
      && First(m', key) == (if old'.None? then Some(value)
                            else if value.Text? then Some(Text(old'.value.text + ", " + value.text))
                            else old')
      && (value.Binary? ==> Values(m', NormalizeKey(key)) == Values(m, NormalizeKey(key)) + [value])
      && forall other :: NormalizeKey(other) != NormalizeKey(key) ==> First(m', other) == First(m, other)
  {
    var k := NormalizeKey(key);
    if k in m {
      assert WellFormedEntry(k, m[k]);
      if value.Text? {
        assert m[k] == [m[k][0]];
        JoinPair(m[k][0], value);
      }
    } else {
      assert Values(m, k) + [value] == [value];
    }
  }

  // ------------------------------------------------------------------------------------------
  // Lists shared between keys

  /** A push to a list that only binary keys hold keeps the contents well formed, however many hold it. */
  lemma PushedWellFormed(m: Contents, keys: set<string>, value: Value)
    requires WellFormed(m) && value.Binary? && forall j :: j in keys ==> IsBinKey(j)
    ensures WellFormed(Pushed(m, keys, value))
  {
    forall j | j in m
      ensures WellFormedEntry(j, Pushed(m, keys, value)[j])
    {
      assert WellFormedEntry(j, m[j]);
    }
  }

  /** An append keeps the contents well formed under any sharing between binary keys. */
  lemma AppendedSharedWellFormed(m: Contents, k: string, sharers: set<string>, value: Value)
    requires WellFormed(m) && Validate(k, value).None?
    requires forall j :: j in sharers && j != k ==> IsBinKey(j) && IsBinKey(k)
    ensures WellFormed(AppendedShared(m, k, sharers, value))
  {
    var r := AppendedShared(m, k, sharers, value);
    StoredWellFormedAppend(k, Values(m, k), value);
    forall j | j in r
      ensures WellFormedEntry(j, r[j])
    {
      if j != k {
        assert WellFormedEntry(j, m[j]);
      }
    }
  }

  /** Contents of which every entry is as expected. */
  lemma AppendedSharedBy(m: Contents, m': Contents, k: string, sharers: set<string>, value: Value)
    requires WellFormed(m) && Validate(k, value).None?
    requires !IsBinKey(k) ==> AllText(Values(m, k) + [value])
    requires m'.Keys == m.Keys + {k} && m'[k] == Stored(k, Values(m, k) + [value])
    requires forall j :: j in m && j != k ==> m'[j] == if j in sharers then m[j] + [value] else m[j]
    ensures m' == AppendedShared(m, k, sharers, value)
  {
  }

  /** An append does to the contents just what it says exactly when no other key holds the same list. */
  lemma AppendedSharedExactly(m: Contents, k: string, sharers: set<string>, value: Value)
    requires WellFormed(m) && Validate(k, value).None? && sharers <= m.Keys
    ensures AppendedShared(m, k, sharers, value) == Appended(m, k, value) <==> sharers <= {k}
  {
    var r := AppendedShared(m, k, sharers, value);
    if j :| j in sharers && j != k {
      assert |r[j]| == |m[j]| + 1 && Appended(m, k, value)[j] == m[j];
    } else {
      assert r == Appended(m, k, value);
    }
  }

  // ------------------------------------------------------------------------------------------
  // The store as written: a map to value lists that are updated in place and may be shared

  class ValueList {
    var items: seq<Value>

    constructor (items: seq<Value>)
      ensures this.items == items
    {
      this.items := items;
    }
  }

  /** What a store keeps: for each key, which list. */
  type Bindings = map<string, ValueList>

  ghost function Bound(data: Bindings, k: string, list: ValueList): Bindings { data[k := list] }

  ghost predicate TextOwned(data: Bindings) {
    forall k, j :: k in data && j in data && data[k] == data[j] && k != j ==> IsBinKey(k)
  }

  ghost function HoldersIn(data: Bindings, lists: set<ValueList>): (keys: set<string>)
    ensures keys <= data.Keys
  {
    set j | j in data && data[j] in lists
  }

  lemma TextOwnedUpdate(data: Bindings, k: string, list: ValueList)
    requires TextOwned(data)
    requires list !in data.Values || (IsBinKey(k) && forall j :: j in data && data[j] == list ==> IsBinKey(j))
    ensures TextOwned(data[k := list])
  {
  }

  class Metadata {
    var data: Bindings

    ghost function Contents(): (m: Contents)
      reads this, data.Values
      ensures m.Keys == data.Keys
    {
      map k | k in data :: data[k].items
    }

    /** A list may be shared, by several keys and several stores, but never the list of a text key. */
    ghost predicate Valid()
      reads this, data.Values
    {
      WellFormed(Contents()) && TextOwned(data)
    }

    /** The list of a key, as a set of at most one object. */
    ghost function Cell(key: string): set<ValueList>
      reads this
    {
      if NormalizeKey(key) in data then {data[NormalizeKey(key)]} else {}
    }

    /** The keys that hold one of the lists. */
    ghost function Holders(lists: set<ValueList>): (keys: set<string>)
      reads this
      ensures keys <= data.Keys
    {
      HoldersIn(data, lists)
    }

    constructor ()
      ensures data == map[] && Valid()
    {
      data := map[];
    }

    method Set(key: string, value: Value) returns (error: Option<Invalid>)
      requires Valid()
      modifies this
      ensures Valid()
      ensures With(old(Contents()), key, value) == if error.Some? then Err(error.value) else Ok(Contents())
      ensures error.Some? ==> data == old(data)
      ensures error.None? ==> NormalizeKey(key) in data && fresh(data[NormalizeKey(key)])
                              && data == old(data)[NormalizeKey(key) := data[NormalizeKey(key)]]
    {
      var k := NormalizeKey(key);
      ApplyKeepsWellFormed(Contents(), SetOp(key, value));
      error := Validate(k, value);
      if error.None? {
        var list := new ValueList([value]);
        Store(k, list);
      }
    }

    method Get(key: string) returns (r: Option<Value>)
      requires Valid()
      ensures r == First(Contents(), key)
    {
      var k := NormalizeKey(key);
      if k in data {
        assert WellFormedEntry(k, Contents()[k]);
        return Some(data[k].items[0]);
      }
      return None;
    }

    method Store(k: string, list: ValueList)
      modifies this
      ensures data == old(data)[k := list]
      ensures Contents() == old(Contents())[k := list.items]
    {
      data := data[k := list];
    }

    /** A list given for a binary key becomes part of the store. */
    method SetAll(key: string, values: ValueList) returns (error: Option<Invalid>)
      requires Valid()
      modifies this
      ensures Valid()
      ensures WithAll(old(Contents()), key, values.items) == if error.Some? then Err(error.value) else Ok(Contents())
      ensures error.Some? ==> data == old(data)
      ensures values.items == [] ==> data == old(data) - {NormalizeKey(key)}
      ensures error.None? && values.items != [] ==>
                && NormalizeKey(key) in data && data == old(data)[NormalizeKey(key) := data[NormalizeKey(key)]]
                && if IsBinKey(NormalizeKey(key)) then data[NormalizeKey(key)] == values
                   else fresh(data[NormalizeKey(key)])
    {
      var k := NormalizeKey(key);
      ghost var m := Contents();
      error := None;
      if values.items == [] {
        data := data - {k};
        assert Contents() == old(Contents()) - {k};
        return;
      }
      error := ValidateAll(k, values.items);
      if error.None? {
        var list := values;
        if !IsBinKey(k) {
          ValidAllText(k, values.items);
          list := new ValueList([Text(Join(values.items))]);
        }
        ReplacedOwned(k, list, values.items);
        Store(k, list);
        assert Contents() == Replaced(m, k, values.items);
      }
    }

    /** A list of binaries is not one that a text key holds. */
    lemma ReplacedOwned(k: string, list: ValueList, values: seq<Value>)
      requires Valid() && values != [] && AllValid(k, values)
      requires if IsBinKey(k) then list.items == values else list !in data.Values
      ensures TextOwned(data[k := list])
    {
      if IsBinKey(k) {
        assert Validate(k, values[0]).None?;
        forall j | j in data && data[j] == list
          ensures IsBinKey(j)
        {
          assert WellFormedEntry(j, Contents()[j]);
        }
      }
      TextOwnedUpdate(data, k, list);
    }

    /** The values under a key. */
    ghost function Current(key: string): seq<Value>
      reads this, data.Values
    {
      if NormalizeKey(key) in data then data[NormalizeKey(key)].items else []
    }

    /** Finds the list of a normalized key, or puts an empty one there. */
    method ListOf(k: string) returns (list: ValueList)
      modifies this
      ensures data == old(data)[k := list]
      ensures if k in old(data) then list == old(data[k]) else fresh(list) && list.items == []
    {
      if k !in data {
        list := new ValueList([]);
        data := data[k := list];
      }
      list := data[k];
    }

    /**
     * Pushes in place. Under a binary key every holder of the list sees the new value; under a text key
     * the list is then replaced by a new one with the joined value.
     */
    method Push(key: string, value: Value)
      requires Valid() && Validate(NormalizeKey(key), value).None?
      modifies this, Cell(key)
      ensures
        var k := NormalizeKey(key);
        && k in data && data == old(data)[k := data[k]]
        && data[k].items == Stored(k, old(Current(key)) + [value])
        && (k in old(data) ==> old(data)[k].items == old(data[k].items) + [value])
        && (if IsBinKey(k) && k in old(data) then data[k] == old(data[k]) else fresh(data[k]))
    {
      var k := NormalizeKey(key);
      CurrentText(key);
      var list := ListOf(k);
      list.items := list.items + [value];
      if !IsBinKey(k) {
        var joined := new ValueList([Text(Join(list.items))]);
        data := data[k := joined];
      }
    }

    /** Whatever lists are shared, the store stays valid, and every key that holds the list sees the new value. */
    method Append(key: string, value: Value) returns (error: Option<Invalid>)
      requires Valid()
      modifies this, Cell(key)
      ensures Valid()
      ensures error == Validate(NormalizeKey(key), value)
      ensures error.Some? ==> unchanged(this) && unchanged(Cell(key))
      ensures error.None? ==>
        var k := NormalizeKey(key);
        && k in data && data == old(data)[k := data[k]]
        && Contents() == AppendedShared(old(Contents()), k, old(Holders(Cell(key))), value)
        && (forall list :: list in old(Cell(key)) ==> list.items == old(list.items) + [value])
        && (if IsBinKey(k) && k in old(data) then data[k] == old(data[k]) else fresh(data[k]))
    {
      error := Validate(NormalizeKey(key), value);
      if error.Some? {
        return;
      }
      ghost var before, m := data, Contents();
      CurrentText(key);
      Push(key, value);
      PushKeeps(before, m, NormalizeKey(key), value);
    }

    /** What a push leaves behind, given the lists and the contents before it. */
    lemma PushKeeps(before: Bindings, m: Contents, k: string, value: Value)
      requires TextOwned(before) && WellFormed(m) && m.Keys == before.Keys && Validate(k, value).None?
      requires !IsBinKey(k) ==> AllText(Values(m, k) + [value])
      requires k in data && data == before[k := data[k]] && data[k].items == Stored(k, Values(m, k) + [value])
      requires if IsBinKey(k) && k in before then data[k] == before[k] else data[k] !in before.Values
      requires forall j :: j in before && j != k ==>
                 before[j].items == if k in before && before[j] == before[k] then m[j] + [value] else m[j]
      ensures Contents() == AppendedShared(m, k, HoldersIn(before, if k in before then {before[k]} else {}), value)
      ensures Valid()
    {
      var sharers := HoldersIn(before, if k in before then {before[k]} else {});
      TextOwnedUpdate(before, k, data[k]);
      AppendedSharedBy(m, Contents(), k, sharers, value);
      AppendedSharedWellFormed(m, k, sharers, value);
    }

    /** What is under a text key can be joined. */
    lemma CurrentText(key: string)
      requires Valid()
      ensures !IsBinKey(NormalizeKey(key)) ==> AllText(Current(key))
      ensures Current(key) == Values(Contents(), NormalizeKey(key))
    {
      var k := NormalizeKey(key);
      if k in data {
        assert WellFormedEntry(k, Contents()[k]);
      }
    }

    method Delete(key: string)
      requires Valid()
      modifies this
      ensures Valid() && Contents() == Without(old(Contents()), key)
      ensures forall k :: k in data ==> k in old(data) && data[k] == old(data[k])
    {
      data := data - {NormalizeKey(key)};
    }
  }

  /** `Metadata(init)`: the copy has the same contents and shares exactly the lists of binary keys. */
  method Copy(init: Metadata) returns (copy: Metadata)
    requires init.Valid()
    ensures fresh(copy) && copy.Valid() && copy.Contents() == init.Contents()
    ensures forall k :: k in copy.data ==> if IsBinKey(k) then copy.data[k] == init.data[k] else fresh(copy.data[k])
  {
    copy := new Metadata();
    var keys := init.data.Keys;
    while keys != {}
      invariant fresh(copy) && copy.Valid() && CopiedWithout(copy, init, keys) && keys <= init.data.Keys
      invariant forall k :: k in copy.data && !IsBinKey(k) ==> fresh(copy.data[k])
      decreases keys
    {
      var k :| k in keys;
      CopyNext(copy, init, k, keys);
      keys := keys - {k};
    }
    CopiedAll(copy, init);
  }

  /** The entries of all keys but these have been copied. */
  ghost predicate CopiedWithout(copy: Metadata, init: Metadata, left: set<string>)
    reads copy, init, copy.data.Values, init.data.Values
  {
    && copy.data.Keys == init.data.Keys - left
    && forall k :: k in copy.data ==> CopiedList(k, copy.data[k], init.data[k])
  }

  lemma CopiedAll(copy: Metadata, init: Metadata)
    requires CopiedWithout(copy, init, {})
    ensures copy.data.Keys == init.data.Keys && copy.Contents() == init.Contents()
    ensures forall k :: k in copy.data && IsBinKey(k) ==> copy.data[k] == init.data[k]
  {
  }

  method CopyNext(copy: Metadata, init: Metadata, k: string, ghost left: set<string>)
    requires copy != init && init.Valid() && copy.Valid()
    requires CopiedWithout(copy, init, left) && k in left && left <= init.data.Keys
    modifies copy
    ensures copy.Valid() && CopiedWithout(copy, init, left - {k})
    ensures copy.data == old(copy.data)[k := copy.data[k]] && (!IsBinKey(k) ==> fresh(copy.data[k]))
  {
    EntryWellFormed(init, k);
    CopyEntry(copy, k, init.data[k]);
    assert copy.data.Keys == init.data.Keys - (left - {k});
  }

  /** The list a copy holds for a key, against the original's. */
  ghost predicate CopiedList(key: string, list: ValueList, original: ValueList)
    reads list, original
  {
    list.items == original.items && (IsBinKey(key) ==> list == original)
  }

  lemma EntryWellFormed(store: Metadata, k: string)
    requires store.Valid() && k in store.data
    ensures WellFormedEntry(k, store.data[k].items)
  {
    assert store.Contents()[k] == store.data[k].items;
  }

  /** `metadata.set(key, values)` for an entry of another store. */
  method CopyEntry(copy: Metadata, key: string, values: ValueList)
    requires copy.Valid() && WellFormedEntry(key, values.items)
    modifies copy
    ensures copy.Valid() && key in copy.data && copy.data == old(copy.data)[key := copy.data[key]]
    ensures CopiedList(key, copy.data[key], values)
    ensures !IsBinKey(key) ==> fresh(copy.data[key])
  {
    StoredOwn(key, values.items);
    var error := copy.SetAll(key, values);
    assert copy.Contents()[key] == values.items;
  }

  /** A well-formed entry is accepted as it is, and kept as it is. */
  lemma StoredOwn(key: string, values: seq<Value>)
    requires WellFormedEntry(key, values)
    ensures NormalizeKey(key) == key && ValidateAll(key, values).None?
    ensures Stored(key, values) == values
  {
    LegalKeyNormal(key);
  }

  lemma LegalKeyNormal(key: string)
    requires LegalKey(key)
    ensures NormalizeKey(key) == key
  {
    assert forall i :: 0 <= i < |key| ==> NormalizeKey(key)[i] == key[i];
  }

  /**
   * A copy is not independent under `append`: the original changes as well exactly when the appended value is
   * accepted for a binary key that the original already had, under every key that holds the list.
   */
  method AppendToCopy(init: Metadata, key: string, value: Value) returns (copy: Metadata)
    requires init.Valid()
    modifies init.Cell(key)
    ensures var k := NormalizeKey(key);
            init.Contents() == if k in init.data && IsBinKey(k) && Validate(k, value).None?
                               then Pushed(old(init.Contents()), old(init.Holders(init.Cell(key))), value)
                               else old(init.Contents())
  {
    copy := Copy(init);
    ghost var m, shared := init.Contents(), init.Holders(copy.Cell(key));
    NothingPushed(m, value);
    CopyCell(init, copy, key);
    var error := AppendSeen(init, copy, key, value);
    assert init.Contents() == if error.Some? then m else Pushed(m, shared, value);
  }

  /** The lists that an original shares with a copy. */
  lemma CopyCell(init: Metadata, copy: Metadata, key: string)
    requires copy.data.Keys == init.data.Keys
    requires forall k :: k in copy.data ==>
               if IsBinKey(k) then copy.data[k] == init.data[k] else copy.data[k] !in init.data.Values
    ensures var k := NormalizeKey(key);
      if k in init.data && IsBinKey(k) then copy.Cell(key) == init.Cell(key) else init.Holders(copy.Cell(key)) == {}
  {
  }

  /** An append, as seen through another store that may hold the same list under any of its binary keys. */
  method AppendSeen(other: Metadata, store: Metadata, key: string, value: Value) returns (error: Option<Invalid>)
    requires store != other && store.Valid()
    requires !IsBinKey(NormalizeKey(key)) ==> other.Holders(store.Cell(key)) == {}
    modifies store, store.Cell(key)
    ensures store.Valid() && error == Validate(NormalizeKey(key), value)
    ensures other.Contents() == if error.Some? then old(other.Contents())
                                else Pushed(old(other.Contents()), old(other.Holders(store.Cell(key))), value)
  {
    ghost var m, cell := other.Contents(), store.Cell(key);
    error := store.Append(key, value);
    if error.None? {
      HoldersSee(other, m, cell, value);
    }
  }

  /** The value has been pushed to some lists of a store. */
  ghost predicate Grown(t: Metadata, m: Contents, cell: set<ValueList>, value: Value)
    reads t, t.data.Values
  {
    && t.data.Keys == m.Keys
    && forall j :: j in t.data ==> t.data[j].items == if t.data[j] in cell then m[j] + [value] else m[j]
  }

  lemma HoldersSee(t: Metadata, m: Contents, cell: set<ValueList>, value: Value)
    requires Grown(t, m, cell, value)
    ensures t.Contents() == Pushed(m, t.Holders(cell), value)
  {
  }

  lemma NothingPushed(m: Contents, value: Value)
    ensures Pushed(m, {}, value) == m
  {
  }

  /** It does happen: the original has a value that was only appended to its copy. */
  method CopyAliases(value: Value) returns (init: Metadata, copy: Metadata)
    requires value.Binary?
    ensures init.Contents() == map["key-bin" := [value, value]]
  {
    init := new Metadata();
    LegalKeyNormal("key-bin");
    var error := init.Set("key-bin", value);
    assert init.Contents() == map["key-bin" := [value]];
    copy := AppendToCopy(init, "key-bin", value);
    assert [value] + [value] == [value, value];
  }

  /** A list under two binary keys: a value appended under one of them appears under both. */
  method KeysAlias(a: string, b: string, value: Value) returns (store: Metadata)
    requires LegalKey(a) && IsBinKey(a) && LegalKey(b) && IsBinKey(b) && value.Binary?
    ensures store.Contents() == map[a := [value, value], b := [value, value]]
  {
    LegalKeyNormal(a);
    var list := new ValueList([value]);
    store := HandTwice(list, a, b);
    AppendToShared(store, list, a, value);
    assert [value] + [value] == [value, value];
    TwoKeys(store, list, a, b);
  }

  lemma TwoKeys(store: Metadata, list: ValueList, a: string, b: string)
    requires store.data == map[a := list, b := list]
    ensures store.Contents() == map[a := list.items, b := list.items]
  {
  }

  method AppendToShared(store: Metadata, list: ValueList, key: string, value: Value)
    requires store.Valid() && LegalKey(key) && IsBinKey(key) && value.Binary?
    requires key in store.data && store.data[key] == list
    modifies store, list
    ensures store.data == old(store.data) && list.items == old(list.items) + [value]
  {
    LegalKeyNormal(key);
    assert list in store.Cell(key);
    var error := store.Append(key, value);
  }

  method HandTwice(list: ValueList, a: string, b: string) returns (store: Metadata)
    requires LegalKey(a) && IsBinKey(a) && LegalKey(b) && IsBinKey(b)
    requires list.items != [] && AllValid(a, list.items) && AllValid(b, list.items)
    ensures fresh(store) && store.Valid() && store.data == map[a := list, b := list]
  {
    LegalKeyNormal(a);
    LegalKeyNormal(b);
    store := new Metadata();
    var error := store.SetAll(a, list);
    error := store.SetAll(b, list);
  }
}
