/**
 * Any number of metadata stores that share value lists: every sequence of calls and copies on the stores of
 * packages/nice-grpc-common/src/Metadata.ts, with lists handed to any keys of any stores.
 */
module SharedStores {
  import opened MetadataStore

  /** A call on a store, with the caller's own list where the source takes an array. */
  datatype Call =
    | SetCall(key: string, value: Value)
    | SetAllCall(key: string, list: ValueList)
    | AppendCall(key: string, value: Value)
    | DeleteCall(key: string)

  datatype Command =
    | NewStore
    | CopyStore(from: nat)
    | CallOn(store: nat, call: Call)

  // ------------------------------------------------------------------------------------------
  // Stores and lists as values

  /** All stores, and the values in all lists that they or the caller hold. */
  datatype World = World(stores: seq<Bindings>, items: map<ValueList, seq<Value>>)

  /** The store sees the values through the lists. */
  ghost function ContentsOf(w: World, b: Bindings): (m: Contents)
    requires b.Values <= w.items.Keys
    ensures m.Keys == b.Keys && forall k :: k in b ==> m[k] == w.items[b[k]]
  {
    map k | k in b :: w.items[b[k]]
  }

  ghost function ItemsOf(w: World, list: ValueList): seq<Value> { if list in w.items then w.items[list] else [] }

  /** The list kept for a text key holds the joined text; a valid store has only texts to join. */
  ghost function ListFor(k: string, values: seq<Value>): seq<Value> {
    if !IsBinKey(k) && AllText(values) then Stored(k, values) else values
  }

  /** A new list with these values is put under a key of a store. */
  ghost predicate Rebinds(a: World, i: nat, k: string, values: seq<Value>, b: World)
    requires i < |a.stores|
  {
    && |b.stores| == |a.stores| && k in b.stores[i]
    && (var list := b.stores[i][k];
        list !in a.items && b == World(a.stores[i := a.stores[i][k := list]], a.items[list := values]))
  }

  /** The values of a list that `push` has been called on. */
  ghost function Push(w: World, list: ValueList, value: Value): World {
    w.(items := w.items[list := ItemsOf(w, list) + [value]])
  }

  /** A call on store `i` leads from one world to the next. */
  ghost predicate CallFollows(a: World, i: nat, call: Call, b: World)
    requires i < |a.stores|
  {
    var before, k := a.stores[i], NormalizeKey(call.key);
    match call
    case SetCall(_, value) => if Validate(k, value).None? then Rebinds(a, i, k, [value], b) else b == a
    case SetAllCall(_, _) =>
      var values := ItemsOf(a, call.list);
      if values == [] then b == a.(stores := a.stores[i := before - {k}])
      else if !AllValid(k, values) then b == a
      else if IsBinKey(k) then b == a.(stores := a.stores[i := Bound(before, k, call.list)])
      else Rebinds(a, i, k, ListFor(k, values), b)
    case DeleteCall(_) => b == a.(stores := a.stores[i := before - {k}])
    case AppendCall(_, value) =>
      if Validate(k, value).Some? then b == a
      else if k !in before then Rebinds(a, i, k, [value], b)
      else if IsBinKey(k) then b == Push(a, before[k], value)
      else Rebinds(Push(a, before[k], value), i, k, ListFor(k, ItemsOf(a, before[k]) + [value]), b)
  }

  /** The copy keeps the lists of binary keys and has its own for text keys. */
  ghost predicate CopyFollows(a: World, from: nat, b: World)
    requires from < |a.stores|
  {
    && |b.stores| == |a.stores| + 1 && b.stores[..|a.stores|] == a.stores
    && (var init, copy := a.stores[from], b.stores[|a.stores|];
        && copy.Keys == init.Keys && TextOwned(copy)
        && (forall k :: k in copy ==> if IsBinKey(k) then copy[k] == init[k] else copy[k] !in a.items)
        && b.items.Keys == a.items.Keys + copy.Values
        && (forall list :: list in a.items ==> b.items[list] == a.items[list])
        && forall k :: k in copy ==> b.items[copy[k]] == ItemsOf(a, init[k]))
  }

  /** A command for a store that does not exist is skipped. */
  ghost predicate Follows(a: World, command: Command, b: World) {
    match command
    case NewStore => b == a.(stores := a.stores + [map[]])
    case CopyStore(from) => if from < |a.stores| then CopyFollows(a, from, b) else b == a
    case CallOn(i, call) => if i < |a.stores| then CallFollows(a, i, call, b) else b == a
  }

  // ------------------------------------------------------------------------------------------
  // Validity

  /** No key of any store but this one holds its list. */
  ghost predicate HeldOnce(stores: seq<Bindings>, i: nat, k: string)
    requires i < |stores| && k in stores[i]
  {
    forall j, l :: 0 <= j < |stores| && l in stores[j] && stores[j][l] == stores[i][k] ==> j == i && l == k
  }

  ghost predicate TextUnshared(stores: seq<Bindings>) {
    forall i, k :: 0 <= i < |stores| && k in stores[i] && !IsBinKey(k) ==> HeldOnce(stores, i, k)
  }

  ghost predicate Known(w: World) {
    forall i :: 0 <= i < |w.stores| ==> w.stores[i].Values <= w.items.Keys
  }

  /** All contents are well formed, and the list of a text key is held only there. */
  ghost predicate Valid(w: World) {
    && Known(w)
    && (forall i :: 0 <= i < |w.stores| ==> WellFormed(ContentsOf(w, w.stores[i])))
    && TextUnshared(w.stores)
  }

  lemma {:induction false} EntryOf(w: World, i: nat, k: string)
    requires Valid(w) && i < |w.stores| && k in w.stores[i]
    ensures w.stores[i][k] in w.items && WellFormedEntry(k, w.items[w.stores[i][k]])
  {
    assert w.stores[i][k] in w.stores[i].Values;
    assert WellFormedEntry(k, ContentsOf(w, w.stores[i])[k]);
  }

  /** A list is never held by a binary key and by a text key, because its values are of one kind. */
  lemma {:induction false} OneKind(w: World, i: nat, k: string, j: nat, l: string)
    requires Valid(w) && i < |w.stores| && k in w.stores[i] && j < |w.stores| && l in w.stores[j]
    requires w.stores[i][k] == w.stores[j][l]
    ensures IsBinKey(k) == IsBinKey(l)
  {
    EntryOf(w, i, k);
    EntryOf(w, j, l);
  }

  // ------------------------------------------------------------------------------------------
  // What a call does, as seen through every store

  /** The keys of a store that hold the list which the call's key has in store `i`. */
  ghost function Sharers(w: World, i: nat, call: Call, j: nat): (keys: set<string>)
    requires i < |w.stores| && j < |w.stores|
    ensures keys <= w.stores[j].Keys
  {
    var b, k := w.stores[i], NormalizeKey(call.key);
    HoldersIn(w.stores[j], if k in b then {b[k]} else {})
  }

  /** What a call does to the store it is made on. */
  ghost function AfterCall(m: Contents, sharers: set<string>, call: Call, given: seq<Value>): Contents
    requires WellFormed(m)
  {
    match call
    case SetCall(key, value) => Apply(m, SetOp(key, value))
    case SetAllCall(key, _) => Apply(m, SetAllOp(key, given))
    case DeleteCall(key) => Apply(m, DeleteOp(key))
    case AppendCall(key, value) =>
      if Accepted(call) then AppendedShared(m, NormalizeKey(key), sharers, value) else m
  }

  predicate Accepted(call: Call) {
    call.AppendCall? && Validate(NormalizeKey(call.key), call.value).None?
  }

  /** What a call does to another store, some of whose keys hold the list of the call's key. */
  ghost function AfterCallElsewhere(m: Contents, sharers: set<string>, call: Call): Contents {
    if Accepted(call) then Pushed(m, sharers, call.value) else m
  }

  ghost function ItemsGiven(w: World, call: Call): seq<Value> { if call.SetAllCall? then ItemsOf(w, call.list) else [] }

  lemma {:induction false} RebindContents(a: World, i: nat, k: string, values: seq<Value>, b: World, j: nat)
    requires Known(a) && i < |a.stores| && j < |a.stores| && Rebinds(a, i, k, values, b)
    ensures b.stores[j].Values <= b.items.Keys
    ensures ContentsOf(b, b.stores[j])
            == if j == i then ContentsOf(a, a.stores[i])[k := values] else ContentsOf(a, a.stores[j])
  {
    assert a.stores[i].Values <= a.items.Keys && a.stores[j].Values <= a.items.Keys;
    assert forall l :: l in a.stores[j] ==> a.stores[j][l] in a.stores[j].Values;
  }

  lemma {:induction false} PushContents(a: World, list: ValueList, value: Value, j: nat)
    requires Known(a) && j < |a.stores| && list in a.items
    ensures Known(Push(a, list, value))
    ensures ContentsOf(Push(a, list, value), a.stores[j])
            == Pushed(ContentsOf(a, a.stores[j]), HoldersIn(a.stores[j], {list}), value)
  {
  }

  lemma {:induction false} BindContents(a: World, i: nat, bindings: Bindings, j: nat)
    requires Known(a) && i < |a.stores| && j < |a.stores| && bindings.Values <= a.items.Keys
    ensures var b := a.(stores := a.stores[i := bindings]);
      && Known(b) && ContentsOf(b, b.stores[j]) == ContentsOf(a, if j == i then bindings else a.stores[j])
  {
  }

  lemma {:induction false} RemoveContents(a: World, i: nat, k: string, j: nat)
    requires Known(a) && i < |a.stores| && j < |a.stores|
    ensures var b := a.(stores := a.stores[i := a.stores[i] - {k}]);
      && Known(b) && ContentsOf(b, b.stores[j])
                     == if j == i then ContentsOf(a, a.stores[i]) - {k} else ContentsOf(a, a.stores[j])
  {
    BindContents(a, i, a.stores[i] - {k}, j);
  }

  /** What store `j` contains after a call on store `i`. */
  ghost function Expected(a: World, i: nat, call: Call, j: nat): Contents
    requires Valid(a) && i < |a.stores| && j < |a.stores|
  {
    var m := ContentsOf(a, a.stores[j]);
    if j == i then AfterCall(m, Sharers(a, i, call, i), call, ItemsGiven(a, call))
    else AfterCallElsewhere(m, Sharers(a, i, call, j), call)
  }

  lemma {:induction false} SetAllContents(a: World, i: nat, call: Call, b: World, j: nat)
    requires Valid(a) && i < |a.stores| && j < |a.stores| && CallFollows(a, i, call, b)
    requires call.SetAllCall? && call.list in a.items
    ensures |b.stores| == |a.stores| && b.stores[j].Values <= b.items.Keys
    ensures ContentsOf(b, b.stores[j]) == Expected(a, i, call, j)
  {
    var k, values := NormalizeKey(call.key), ItemsGiven(a, call);
    if values == [] {
      RemoveContents(a, i, k, j);
    } else if AllValid(k, values) {
      ValidAllText(k, values);
      if IsBinKey(k) {
        BindContents(a, i, Bound(a.stores[i], k, call.list), j);
      } else {
        RebindContents(a, i, k, ListFor(k, values), b, j);
      }
    }
  }

  lemma {:induction false} AppendContents(a: World, i: nat, call: Call, b: World, j: nat)
    requires Valid(a) && i < |a.stores| && j < |a.stores| && CallFollows(a, i, call, b) && Accepted(call)
    ensures |b.stores| == |a.stores| && b.stores[j].Values <= b.items.Keys
    ensures ContentsOf(b, b.stores[j]) == Expected(a, i, call, j)
  {
    var k, value := NormalizeKey(call.key), call.value;
    var m := ContentsOf(a, a.stores[j]);
    if k !in a.stores[i] {
      RebindContents(a, i, k, [value], b, j);
      NothingPushed(m, value);
      assert Sharers(a, i, call, j) == {};
      assert j == i ==> Values(m, k) + [value] == [value];
    } else {
      EntryOf(a, i, k);
      var list := a.stores[i][k];
      PushContents(a, list, value, j);
      PushedKept(a, i, k, value);
      if !IsBinKey(k) {
        assert HeldOnce(a.stores, i, k);
        RebindContents(Push(a, list, value), i, k, ListFor(k, ItemsOf(a, list) + [value]), b, j);
        if j != i {
          assert Sharers(a, i, call, j) == {};
        }
      }
    }
  }

  /** What is kept for a key after an append. */
  lemma {:induction false} PushedKept(a: World, i: nat, k: string, value: Value)
    requires Valid(a) && i < |a.stores| && k in a.stores[i] && Validate(k, value).None?
    ensures var values := ItemsOf(a, a.stores[i][k]) + [value];
      (!IsBinKey(k) ==> AllText(values)) && ListFor(k, values) == Stored(k, values)
  {
    EntryOf(a, i, k);
  }

  /** The contents of every store after a call, on whichever store it was made and whatever lists are shared. */
  lemma {:induction false} CallContents(a: World, i: nat, call: Call, b: World, j: nat)
    requires Valid(a) && i < |a.stores| && j < |a.stores| && CallFollows(a, i, call, b)
    requires call.SetAllCall? ==> call.list in a.items
    ensures |b.stores| == |a.stores| && b.stores[j].Values <= b.items.Keys
    ensures ContentsOf(b, b.stores[j]) == Expected(a, i, call, j)
  {
    var k := NormalizeKey(call.key);
    assert a.stores[j].Values <= a.items.Keys;
    match call {
      case SetCall(_, value) =>
        if Validate(k, value).None? {
          RebindContents(a, i, k, [value], b, j);
        }
      case SetAllCall(_, _) => SetAllContents(a, i, call, b, j);
      case DeleteCall(_) => RemoveContents(a, i, k, j);
      case AppendCall(_, _) =>
        if Accepted(call) {
          AppendContents(a, i, call, b, j);
        }
    }
  }

  // ------------------------------------------------------------------------------------------
  // Every command keeps all stores valid

  lemma {:induction false} RebindUnshared(stores: seq<Bindings>, i: nat, k: string, list: ValueList)
    requires TextUnshared(stores) && i < |stores|
    requires forall j :: 0 <= j < |stores| ==> list !in stores[j].Values
    ensures TextUnshared(stores[i := stores[i][k := list]])
  {
    var after := stores[i := stores[i][k := list]];
    forall j, l | 0 <= j < |after| && l in after[j] && !IsBinKey(l)
      ensures HeldOnce(after, j, l)
    {
      if !(j == i && l == k) {
        assert HeldOnce(stores, j, l);
        assert stores[j][l] in stores[j].Values;
      }
    }
  }

  lemma {:induction false} RemoveUnshared(stores: seq<Bindings>, i: nat, k: string)
    requires TextUnshared(stores) && i < |stores|
    ensures TextUnshared(stores[i := stores[i] - {k}])
  {
    var after := stores[i := stores[i] - {k}];
    forall j, l | 0 <= j < |after| && l in after[j] && !IsBinKey(l)
      ensures HeldOnce(after, j, l)
    {
      assert HeldOnce(stores, j, l);
    }
  }

  /** A list that no text key holds can be put under a binary key. */
  lemma {:induction false} BindUnshared(stores: seq<Bindings>, i: nat, k: string, list: ValueList)
    requires TextUnshared(stores) && i < |stores| && IsBinKey(k)
    requires forall j, l :: 0 <= j < |stores| && l in stores[j] && stores[j][l] == list ==> IsBinKey(l)
    ensures TextUnshared(stores[i := Bound(stores[i], k, list)])
  {
    var after := stores[i := Bound(stores[i], k, list)];
    forall j, l | 0 <= j < |after| && l in after[j] && !IsBinKey(l)
      ensures HeldOnce(after, j, l)
    {
      assert HeldOnce(stores, j, l);
    }
  }

  lemma {:induction false} CallUnshared(a: World, i: nat, call: Call, b: World)
    requires Valid(a) && i < |a.stores| && CallFollows(a, i, call, b)
    requires call.SetAllCall? ==> call.list in a.items
    ensures TextUnshared(b.stores)
  {
    var k := NormalizeKey(call.key);
    RemoveUnshared(a.stores, i, k);
    if b.stores != a.stores && b.stores != a.stores[i := a.stores[i] - {k}] {
      var list := b.stores[i][k];
      if list in a.items {
        forall j, l | 0 <= j < |a.stores| && l in a.stores[j] && a.stores[j][l] == list
          ensures IsBinKey(l)
        {
          EntryOf(a, j, l);
          assert Validate(k, a.items[list][0]).None?;
        }
        BindUnshared(a.stores, i, k, list);
      } else {
        RebindUnshared(a.stores, i, k, list);
      }
    }
  }

  /** Apart from the call's own key only binary keys hold the list, and then the call's key is a binary one. */
  lemma {:induction false} SharersBinary(a: World, i: nat, call: Call, j: nat)
    requires Valid(a) && i < |a.stores| && j < |a.stores|
    ensures var k := NormalizeKey(call.key);
      forall l :: l in Sharers(a, i, call, j) && !(j == i && l == k) ==> IsBinKey(l) && IsBinKey(k)
  {
    var k := NormalizeKey(call.key);
    forall l | l in Sharers(a, i, call, j) && !(j == i && l == k)
      ensures IsBinKey(l) && IsBinKey(k)
    {
      OneKind(a, i, k, j, l);
      assert !IsBinKey(k) ==> HeldOnce(a.stores, i, k);
    }
  }

  lemma {:induction false} ExpectedWellFormed(a: World, i: nat, call: Call, j: nat)
    requires Valid(a) && i < |a.stores| && j < |a.stores|
    ensures WellFormed(Expected(a, i, call, j))
  {
    var m, k, sharers := ContentsOf(a, a.stores[j]), NormalizeKey(call.key), Sharers(a, i, call, j);
    SharersBinary(a, i, call, j);
    if Accepted(call) {
      if j == i {
        AppendedSharedWellFormed(m, k, sharers, call.value);
      } else if sharers == {} {
        NothingPushed(m, call.value);
      } else {
        var l :| l in sharers;
        PushedWellFormed(m, sharers, call.value);
      }
    } else if j == i {
      match call {
        case SetCall(key, value) => ApplyKeepsWellFormed(m, SetOp(key, value));
        case SetAllCall(key, _) => ApplyKeepsWellFormed(m, SetAllOp(key, ItemsGiven(a, call)));
        case DeleteCall(key) => ApplyKeepsWellFormed(m, DeleteOp(key));
        case AppendCall(_, _) =>
      }
    }
  }

  lemma {:induction false} CallValid(a: World, i: nat, call: Call, b: World)
    requires Valid(a) && i < |a.stores| && CallFollows(a, i, call, b)
    requires call.SetAllCall? ==> call.list in a.items
    ensures Valid(b)
  {
    CallUnshared(a, i, call, b);
    CallContents(a, i, call, b, i);
    forall j | 0 <= j < |b.stores|
      ensures b.stores[j].Values <= b.items.Keys && WellFormed(ContentsOf(b, b.stores[j]))
    {
      CallContents(a, i, call, b, j);
      ExpectedWellFormed(a, i, call, j);
    }
  }

  /** A copy contains what the original does, and every other store what it did. */
  lemma {:induction false} CopyContents(a: World, from: nat, b: World, j: nat)
    requires Known(a) && from < |a.stores| && CopyFollows(a, from, b) && j < |b.stores|
    ensures b.stores[j].Values <= b.items.Keys
    ensures ContentsOf(b, b.stores[j]) == ContentsOf(a, a.stores[if j < |a.stores| then j else from])
  {
    var init := a.stores[from];
    assert forall l :: l in init ==> init[l] in init.Values;
    if j < |a.stores| {
      assert b.stores[j] == b.stores[..|a.stores|][j] == a.stores[j];
    }
  }

  lemma {:induction false} CopyUnshared(a: World, from: nat, b: World)
    requires Valid(a) && from < |a.stores| && CopyFollows(a, from, b)
    ensures TextUnshared(b.stores)
  {
    var n := |a.stores|;
    assert forall j :: 0 <= j < n ==> b.stores[j] == b.stores[..n][j] == a.stores[j];
    forall j, l | 0 <= j < |b.stores| && l in b.stores[j] && !IsBinKey(l)
      ensures HeldOnce(b.stores, j, l)
    {
      forall o, p | 0 <= o < |b.stores| && p in b.stores[o] && b.stores[o][p] == b.stores[j][l]
        ensures o == j && p == l
      {
        var oldO, oldJ := if o < n then o else from, if j < n then j else from;
        EntryOf(a, oldO, p);
        EntryOf(a, oldJ, l);
        if j < n {
          assert HeldOnce(a.stores, j, l);
        }
      }
    }
  }

  lemma {:induction false} FollowsValid(a: World, command: Command, b: World)
    requires Valid(a) && Follows(a, command, b) && HandedBy(command) <= a.items.Keys
    ensures Valid(b) && a.items.Keys <= b.items.Keys
  {
    match command {
      case NewStore => NewValid(a);
      case CopyStore(from) =>
        if from < |a.stores| {
          CopyUnshared(a, from, b);
          forall j | 0 <= j < |b.stores|
            ensures b.stores[j].Values <= b.items.Keys && WellFormed(ContentsOf(b, b.stores[j]))
          {
            CopyContents(a, from, b, j);
          }
        }
      case CallOn(i, call) =>
        if i < |a.stores| {
          CallValid(a, i, call, b);
        }
    }
  }

  lemma {:induction false} NewValid(a: World)
    requires Valid(a)
    ensures Valid(a.(stores := a.stores + [map[]]))
  {
    var b := a.(stores := a.stores + [map[]]);
    forall j, l | 0 <= j < |b.stores| && l in b.stores[j] && !IsBinKey(l)
      ensures HeldOnce(b.stores, j, l)
    {
      assert HeldOnce(a.stores, j, l);
    }
    forall j | 0 <= j < |b.stores|
      ensures b.stores[j].Values <= b.items.Keys && WellFormed(ContentsOf(b, b.stores[j]))
    {
      if j < |a.stores| {
        assert ContentsOf(b, b.stores[j]) == ContentsOf(a, a.stores[j]);
      }
    }
  }

  // ------------------------------------------------------------------------------------------
  // Runs

  /** The caller's own list that a command hands over, if it does. */
  ghost function HandedBy(command: Command): set<ValueList> {
    if command.CallOn? && command.call.SetAllCall? then {command.call.list} else {}
  }

  ghost function Handed(commands: seq<Command>): set<ValueList> {
    set c, list | 0 <= c < |commands| && list in HandedBy(commands[c]) :: list
  }

  /** The worlds that a sequence of commands leads through, starting with no store and the caller's lists. */
  ghost predicate IsRun(worlds: seq<World>, commands: seq<Command>) { IsRunTo(worlds, commands, |commands|) }

  /** The same for the first `n` commands. */
  ghost predicate IsRunTo(worlds: seq<World>, commands: seq<Command>, n: nat)
    requires n <= |commands|
  {
    && |worlds| == n + 1
    && worlds[0].stores == [] && worlds[0].items.Keys == Handed(commands)
    && forall c :: 0 <= c < n ==> Follows(worlds[c], commands[c], worlds[c + 1])
  }

  lemma {:induction false} RunOn(worlds: seq<World>, commands: seq<Command>, n: nat, w: World)
    requires n < |commands| && IsRunTo(worlds, commands, n) && Follows(worlds[n], commands[n], w)
    ensures IsRunTo(worlds + [w], commands, n + 1)
  {
  }

  /**
   * Every sequence of calls and copies keeps all stores valid and the lists of text keys unshared, although the same
   * list may be handed to any number of keys and stores.
   */
  lemma {:induction false} RunValid(worlds: seq<World>, commands: seq<Command>, n: nat)
    requires IsRun(worlds, commands) && n < |worlds|
    ensures Valid(worlds[n]) && Handed(commands) <= worlds[n].items.Keys
  {
    if n > 0 {
      RunValid(worlds, commands, n - 1);
      assert HandedBy(commands[n - 1]) <= Handed(commands);
      FollowsValid(worlds[n - 1], commands[n - 1], worlds[n]);
    }
  }

  /** A store's list is never emptied or cut short; whoever holds it only ever sees values added at its end. */
  lemma {:induction false} ListsOnlyGrow(worlds: seq<World>, commands: seq<Command>, m: nat, n: nat, list: ValueList)
    requires IsRun(worlds, commands) && m <= n < |worlds| && list in worlds[m].items
    ensures list in worlds[n].items && worlds[m].items[list] <= worlds[n].items[list]
    decreases n
  {
    if m < n {
      ListsOnlyGrow(worlds, commands, m, n - 1, list);
      assert Follows(worlds[n - 1], commands[n - 1], worlds[n]);
    }
  }

  /** The list of the call's key is held by another key or another store. */
  ghost predicate HeldElsewhere(w: World, i: nat, call: Call)
    requires i < |w.stores|
  {
    exists j, l :: 0 <= j < |w.stores| && l in Sharers(w, i, call, j) && !(j == i && l == NormalizeKey(call.key))
  }

  /** The call as an operation on contents. */
  ghost function OpOf(w: World, call: Call): Op {
    match call
    case SetCall(key, value) => SetOp(key, value)
    case SetAllCall(key, _) => SetAllOp(key, ItemsGiven(w, call))
    case AppendCall(key, value) => AppendOp(key, value)
    case DeleteCall(key) => DeleteOp(key)
  }

  /**
   * A call does to its store just what it says, and nothing to any other store, exactly when it is not an accepted
   * append to a list that is held elsewhere.
   */
  lemma {:induction false} CallAloneExactly(a: World, i: nat, call: Call, b: World)
    requires Valid(a) && i < |a.stores| && CallFollows(a, i, call, b)
    requires call.SetAllCall? ==> call.list in a.items
    ensures Valid(b) && |b.stores| == |a.stores|
    ensures (forall j :: 0 <= j < |a.stores| ==>
              ContentsOf(b, b.stores[j])
              == if j == i then Apply(ContentsOf(a, a.stores[j]), OpOf(a, call)) else ContentsOf(a, a.stores[j]))
            <==> !(Accepted(call) && HeldElsewhere(a, i, call))
  {
    CallValid(a, i, call, b);
    forall j | 0 <= j < |a.stores|
      ensures |b.stores| == |a.stores|
      ensures ContentsOf(b, b.stores[j])
              == (if j == i then Apply(ContentsOf(a, a.stores[j]), OpOf(a, call)) else ContentsOf(a, a.stores[j]))
              <==> !(Accepted(call) &&
                      exists l :: l in Sharers(a, i, call, j) && !(j == i && l == NormalizeKey(call.key)))
    {
      CallContents(a, i, call, b, j);
      AloneExactly(a, i, call, j);
    }
  }

  lemma {:induction false} AloneExactly(a: World, i: nat, call: Call, j: nat)
    requires Valid(a) && i < |a.stores| && j < |a.stores|
    ensures Expected(a, i, call, j)
            == (if j == i then Apply(ContentsOf(a, a.stores[j]), OpOf(a, call)) else ContentsOf(a, a.stores[j]))
            <==> !(Accepted(call) &&
                    exists l :: l in Sharers(a, i, call, j) && !(j == i && l == NormalizeKey(call.key)))
  {
    var m, sharers := ContentsOf(a, a.stores[j]), Sharers(a, i, call, j);
    AfterUnshared(a, m, sharers, call);
    if Accepted(call) {
      if j == i {
        SharedExactly(m, NormalizeKey(call.key), sharers, call.value);
      } else {
        PushedExactly(m, sharers, call.value);
      }
    }
  }

  lemma {:induction false} AfterUnshared(a: World, m: Contents, sharers: set<string>, call: Call)
    requires WellFormed(m)
    ensures Apply(m, OpOf(a, call))
            == if Accepted(call) then Appended(m, NormalizeKey(call.key), call.value)
               else AfterCall(m, sharers, call, ItemsGiven(a, call))
  {
  }

  lemma {:induction false} SharedExactly(m: Contents, k: string, keys: set<string>, value: Value)
    requires WellFormed(m) && Validate(k, value).None? && keys <= m.Keys
    ensures AppendedShared(m, k, keys, value) == Appended(m, k, value) <==> !exists l :: l in keys && l != k
  {
    AppendedSharedExactly(m, k, keys, value);
  }

  lemma {:induction false} PushedExactly(m: Contents, keys: set<string>, value: Value)
    requires keys <= m.Keys
    ensures Pushed(m, keys, value) == m <==> !exists l :: l in keys
  {
    if l :| l in keys {
      assert |Pushed(m, keys, value)[l]| == |m[l]| + 1;
    } else {
      assert keys == {};
      NothingPushed(m, value);
    }
  }

  // ------------------------------------------------------------------------------------------
  // The same on store objects

  ghost predicate Distinct(stores: seq<Metadata>) {
    forall i, j :: 0 <= i < j < |stores| ==> stores[i] != stores[j]
  }

  /** The world is what the store objects and the lists are now. */
  ghost predicate Shows(w: World, stores: seq<Metadata>)
    reads stores, w.items.Keys
  {
    && |w.stores| == |stores|
    && (forall i :: 0 <= i < |stores| ==> w.stores[i] == stores[i].data)
    && forall list :: list in w.items ==> w.items[list] == list.items
  }

  lemma {:induction false} ShownValid(w: World, stores: seq<Metadata>, i: nat)
    requires Shows(w, stores) && Valid(w) && i < |stores|
    ensures stores[i].Valid() && stores[i].data.Values <= w.items.Keys
    ensures stores[i].Contents() == ContentsOf(w, w.stores[i])
  {
    var data := stores[i].data;
    assert forall k :: k in data ==> data[k] in data.Values;
    assert stores[i].Contents() == ContentsOf(w, w.stores[i]);
    assert forall k :: k in data && !IsBinKey(k) ==> HeldOnce(w.stores, i, k);
  }

  method PerformSet(stores: seq<Metadata>, i: nat, key: string, value: Value, ghost w: World) returns (ghost w': World)
    requires Distinct(stores) && Shows(w, stores) && Valid(w) && i < |stores|
    modifies stores[i]
    ensures Shows(w', stores) && CallFollows(w, i, SetCall(key, value), w')
    ensures forall list :: list in w'.items ==> list in w.items || fresh(list)
  {
    ShownValid(w, stores, i);
    var s, k := stores[i], NormalizeKey(key);
    var error := s.Set(key, value);
    w' := w;
    if error.None? {
      assert s.Contents()[k] == [value];
      w' := World(w.stores[i := s.data], w.items[s.data[k] := [value]]);
    }
  }

  method PerformDelete(stores: seq<Metadata>, i: nat, key: string, ghost w: World) returns (ghost w': World)
    requires Distinct(stores) && Shows(w, stores) && Valid(w) && i < |stores|
    modifies stores[i]
    ensures Shows(w', stores) && CallFollows(w, i, DeleteCall(key), w') && w'.items == w.items
  {
    ShownValid(w, stores, i);
    stores[i].Delete(key);
    w' := w.(stores := w.stores[i := w.stores[i] - {NormalizeKey(key)}]);
  }

  method PerformSetAll(stores: seq<Metadata>, i: nat, key: string, list: ValueList, ghost w: World)
    returns (ghost w': World)
    requires Distinct(stores) && Shows(w, stores) && Valid(w) && i < |stores| && list in w.items
    modifies stores[i]
    ensures Shows(w', stores) && CallFollows(w, i, SetAllCall(key, list), w')
    ensures forall l :: l in w'.items ==> l in w.items || fresh(l)
  {
    ShownValid(w, stores, i);
    var s, k := stores[i], NormalizeKey(key);
    ValidateAllExactly(k, list.items);
    var error := s.SetAll(key, list);
    w' := w;
    if error.None? {
      w' := w.(stores := w.stores[i := s.data]);
      if list.items != [] && !IsBinKey(k) {
        assert s.Contents()[k] == Stored(k, list.items);
        w' := World(w.stores[i := s.data], w.items[s.data[k] := s.data[k].items]);
      }
    }
  }

  lemma {:induction false} ValidateAllExactly(k: string, values: seq<Value>)
    ensures ValidateAll(k, values).None? <==> AllValid(k, values)
    ensures AllValid(k, values) && !IsBinKey(k) ==> ListFor(k, values) == Stored(k, values)
  {
    if AllValid(k, values) {
      ValidAllText(k, values);
    }
  }

  /** An accepted append, list by list. */
  method AppendLists(s: Metadata, key: string, value: Value)
    requires s.Valid() && Validate(NormalizeKey(key), value).None?
    modifies s, s.Cell(key)
    ensures var k := NormalizeKey(key);
      && k in s.data && s.data == old(s.data)[k := s.data[k]]
      && (if k in old(s.data) && IsBinKey(k) then s.data[k] == old(s.data)[k] else fresh(s.data[k]))
      && s.data[k].items == (if k in old(s.data) then ListFor(k, old(s.data[k].items) + [value]) else [value])
      && (k in old(s.data) ==> old(s.data)[k].items == old(s.data[k].items) + [value])
  {
    var k := NormalizeKey(key);
    ghost var values := s.Current(key);
    s.CurrentText(key);
    AppendedListFor(k, values, value);
    var error := s.Append(key, value);
    assert s.Contents()[k] == s.data[k].items;
  }

  lemma {:induction false} AppendedListFor(k: string, values: seq<Value>, value: Value)
    requires Validate(k, value).None? && (!IsBinKey(k) ==> AllText(values))
    ensures !IsBinKey(k) ==> AllText(values + [value])
    ensures ListFor(k, values + [value]) == Stored(k, values + [value])
    ensures values == [] ==> Stored(k, values + [value]) == [value]
  {
    assert values == [] ==> values + [value] == [value];
  }

  method PerformAppend(stores: seq<Metadata>, i: nat, key: string, value: Value, ghost w: World)
    returns (ghost w': World)
    requires Distinct(stores) && Shows(w, stores) && Valid(w) && i < |stores|
    modifies stores[i], stores[i].Cell(key)
    ensures Shows(w', stores) && CallFollows(w, i, AppendCall(key, value), w')
    ensures forall list :: list in w'.items ==> list in w.items || fresh(list)
  {
    ShownValid(w, stores, i);
    var s, k := stores[i], NormalizeKey(key);
    w' := w;
    if Validate(k, value).Some? {
      return;
    }
    ghost var before := s.data;
    AppendLists(s, key, value);
    if k in before {
      w' := Push(w, before[k], value);
      assert w.stores[i] == before == before[k := before[k]];
    }
    if !(k in before && IsBinKey(k)) {
      w' := World(w.stores[i := s.data], w'.items[s.data[k] := s.data[k].items]);
    }
  }

  /** One call on one of the stores. */
  method Perform(stores: seq<Metadata>, i: nat, call: Call, ghost w: World) returns (ghost w': World)
    requires Distinct(stores) && Shows(w, stores) && Valid(w) && i < |stores|
    requires call.SetAllCall? ==> call.list in w.items
    modifies stores[i], stores[i].Cell(call.key)
    ensures Shows(w', stores) && CallFollows(w, i, call, w')
    ensures forall list :: list in w'.items ==> list in w.items || fresh(list)
  {
    match call {
      case SetCall(key, value) => w' := PerformSet(stores, i, key, value, w);
      case SetAllCall(key, list) => w' := PerformSetAll(stores, i, key, list, w);
      case AppendCall(key, value) => w' := PerformAppend(stores, i, key, value, w);
      case DeleteCall(key) => w' := PerformDelete(stores, i, key, w);
    }
  }

  method PerformCopy(stores: seq<Metadata>, from: nat, ghost w: World) returns (copy: Metadata, ghost w': World)
    requires Distinct(stores) && Shows(w, stores) && Valid(w) && from < |stores|
    ensures fresh(copy) && Shows(w', stores + [copy]) && CopyFollows(w, from, w')
    ensures forall list :: list in w'.items ==> list in w.items || fresh(list)
  {
    ShownValid(w, stores, from);
    copy := Copy(stores[from]);
    w' := Joined(w, copy);
    JoinedShows(w, stores, copy);
    CopyEntries(copy, stores[from]);
    JoinedItems(w, stores, from, copy);
    JoinedFollows(w, from, copy);
  }

  /** A new store and its lists. */
  ghost function Joined(w: World, s: Metadata): World
    reads s, w.items.Keys, s.data.Values
  {
    World(w.stores + [s.data], map list | list in w.items.Keys + s.data.Values :: list.items)
  }

  lemma {:induction false} JoinedShows(w: World, stores: seq<Metadata>, s: Metadata)
    requires Shows(w, stores)
    ensures Shows(Joined(w, s), stores + [s])
  {
  }

  lemma {:induction false} JoinedFollows(w: World, from: nat, copy: Metadata)
    requires from < |w.stores| && copy.data.Keys == w.stores[from].Keys && TextOwned(copy.data)
    requires forall k :: k in copy.data ==>
               if IsBinKey(k) then copy.data[k] == w.stores[from][k] else copy.data[k] !in w.items
    requires var items := Joined(w, copy).items;
      && (forall list :: list in w.items ==> items[list] == w.items[list])
      && (forall k :: k in copy.data ==> copy.data[k] in items && items[copy.data[k]] == ItemsOf(w, w.stores[from][k]))
    ensures CopyFollows(w, from, Joined(w, copy))
  {
    var b := Joined(w, copy);
    assert b.stores[..|w.stores|] == w.stores && b.stores[|w.stores|] == copy.data;
  }

  lemma {:induction false} JoinedItems(w: World, stores: seq<Metadata>, from: nat, copy: Metadata)
    requires Shows(w, stores) && from < |stores| && copy.data.Keys == stores[from].data.Keys
    requires stores[from].data.Values <= w.items.Keys
    requires forall k :: k in copy.data ==> copy.data[k] in copy.data.Values
                                             && stores[from].data[k] in stores[from].data.Values
    requires forall k :: k in copy.data ==> copy.data[k].items == stores[from].data[k].items
    ensures var items := Joined(w, copy).items;
      && (forall list :: list in w.items ==> items[list] == w.items[list])
      && forall k :: k in copy.data ==> items[copy.data[k]] == ItemsOf(w, w.stores[from][k])
  {
  }

  lemma {:induction false} CopyEntries(copy: Metadata, init: Metadata)
    requires copy.Contents() == init.Contents()
    ensures copy.data.Keys == init.data.Keys
    ensures forall k :: k in copy.data ==> copy.data[k] in copy.data.Values && init.data[k] in init.data.Values
    ensures forall k :: k in copy.data ==> copy.data[k].items == init.data[k].items
  {
    assert forall k :: k in copy.data ==> copy.Contents()[k] == init.Contents()[k];
  }

  /** One command; one for a store that does not exist is skipped. */
  method RunCommand(stores: seq<Metadata>, command: Command, ghost w: World) returns (r: seq<Metadata>, ghost w': World)
    requires Distinct(stores) && Shows(w, stores) && Valid(w) && HandedBy(command) <= w.items.Keys
    modifies stores, w.items.Keys
    ensures Distinct(r) && Shows(w', r) && Follows(w, command, w')
    ensures stores <= r && forall i :: |stores| <= i < |r| ==> fresh(r[i])
    ensures forall list :: list in w'.items ==> list in w.items || fresh(list)
  {
    r, w' := stores, w;
    match command {
      case NewStore =>
        var s := new Metadata();
        r := stores + [s];
        w' := w.(stores := w.stores + [map[]]);
      case CopyStore(from) =>
        if from < |stores| {
          var copy;
          copy, w' := PerformCopy(stores, from, w);
          r := stores + [copy];
        }
      case CallOn(i, call) =>
        if i < |stores| {
          ShownValid(w, stores, i);
          assert stores[i].Cell(call.key) <= stores[i].data.Values;
          w' := Perform(stores, i, call, w);
        }
    }
  }

  /**
   * Every sequence of commands leads the store objects through a run of worlds, so all that holds of runs holds of
   * them: in the end the stores and lists are what the last world says.
   */
  method RunProgram(commands: seq<Command>) returns (stores: seq<Metadata>, ghost worlds: seq<World>)
    modifies Handed(commands)
    ensures IsRun(worlds, commands) && Shows(worlds[|commands|], stores)
    ensures forall list :: list in Handed(commands) ==> worlds[0].items[list] == old(list.items)
    ensures forall c :: 0 <= c <= |commands| ==> Valid(worlds[c])
    ensures forall i :: 0 <= i < |stores| ==> fresh(stores[i]) && stores[i].Valid()
  {
    stores := [];
    ghost var given := map list | list in Handed(commands) :: list.items;
    ghost var w := World([], given);
    worlds := [w];
    for c := 0 to |commands|
      invariant IsRunTo(worlds, commands, c) && worlds[0].items == given
      invariant w == worlds[c] && Valid(w) && Handed(commands) <= w.items.Keys
      invariant Distinct(stores) && Shows(w, stores) && forall i :: 0 <= i < |stores| ==> fresh(stores[i])
      invariant forall list :: list in w.items ==> fresh(list) || list in Handed(commands)
    {
      assert HandedBy(commands[c]) <= Handed(commands);
      ghost var before := w;
      var next;
      next, w := RunCommand(stores, commands[c], w);
      FollowsValid(before, commands[c], w);
      RunOn(worlds, commands, c, w);
      assert forall i :: 0 <= i < |stores| ==> next[i] == stores[i];
      stores, worlds := next, worlds + [w];
    }
    EndsValid(worlds, commands, stores);
  }

  lemma {:induction false} EndsValid(worlds: seq<World>, commands: seq<Command>, stores: seq<Metadata>)
    requires IsRun(worlds, commands) && Shows(worlds[|commands|], stores)
    ensures forall c :: 0 <= c <= |commands| ==> Valid(worlds[c])
    ensures forall i :: 0 <= i < |stores| ==> stores[i].Valid()
  {
    forall c | 0 <= c <= |commands|
      ensures Valid(worlds[c])
    {
      RunValid(worlds, commands, c);
    }
    forall i | 0 <= i < |stores|
      ensures stores[i].Valid()
    {
      ShownValid(worlds[|commands|], stores, i);
    }
  }
}
