/** Symbol lookup for server reflection: packages/nice-grpc-server-reflection/src/index.ts. */
module Reflection {
  import opened Basics

  datatype Message = Message(name: string, nested: seq<Message>, enums: seq<string>)

  datatype Service = Service(name: string, methods: seq<string>)

  datatype File = File(
    package: Option<string>,
    messages: seq<Message>,
    enums: seq<string>,
    services: seq<Service>,
    bytes: seq<byte>)

  // ------------------------------------------------------------------------------------------
  // The search

  /** `findSymbol` on a message finds something. */
  predicate MatchesMessage(symbol: string, m: Message, prefix: string)
    decreases m
  {
    var fullName := prefix + m.name;
    || symbol == fullName
    || (exists i :: 0 <= i < |m.nested| && MatchesMessage(symbol, m.nested[i], fullName + "."))
    || (exists i :: 0 <= i < |m.enums| && MatchesName(symbol, m.enums[i], fullName + "."))
  }

  /** `findSymbol` on an enum or a method, which have nothing inside to search. */
  predicate MatchesName(symbol: string, name: string, prefix: string) { symbol == prefix + name }

  predicate MatchesService(symbol: string, s: Service, prefix: string) {
    var fullName := prefix + s.name;
    symbol == fullName || exists i :: 0 <= i < |s.methods| && MatchesName(symbol, s.methods[i], fullName + ".")
  }

  /** `Array.find`. */
  function First(flags: seq<bool>): (r: Option<nat>)
    ensures r.Some? ==> r.value < |flags| && flags[r.value] && forall i :: 0 <= i < r.value ==> !flags[i]
    ensures r.None? ==> forall i :: 0 <= i < |flags| ==> !flags[i]
  {
    if flags == [] then None
    else if flags[0] then Some(0)
    else
      match First(flags[1..])
      case None => None
      case Some(i) => Some(i + 1)
  }

  /** What the search returns: a direct child of the file. */
  datatype Child = MessageChild(index: nat) | EnumChild(index: nat) | ServiceChild(index: nat)

  function PackagePrefix(f: File): string {
    if f.package.None? then "" else f.package.value + "."
  }

  function FindSymbol(symbol: string, f: File): Option<Child> {
    var prefix := PackagePrefix(f);
    var m := First(seq(|f.messages|,
                       i requires 0 <= i < |f.messages| => MatchesMessage(symbol, f.messages[i], prefix)));
    if m.Some? then Some(MessageChild(m.value))
    else
      var e := First(seq(|f.enums|, i requires 0 <= i < |f.enums| => MatchesName(symbol, f.enums[i], prefix)));
      if e.Some? then Some(EnumChild(e.value))
      else
        var s := First(seq(|f.services|,
                           i requires 0 <= i < |f.services| => MatchesService(symbol, f.services[i], prefix)));
        if s.Some? then Some(ServiceChild(s.value)) else None
  }

  /** The answer to FILE_CONTAINING_SYMBOL: the bytes of a file, or NOT_FOUND. */
  datatype Response = FileBytes(bytes: seq<byte>) | NotFound(symbol: string)

  function FileContainingSymbol(files: seq<File>, symbol: string): Response {
    match FirstFile(files, symbol)
    case Some(i) => FileBytes(files[i].bytes)
    case None => NotFound(symbol)
  }

  function FirstFile(files: seq<File>, symbol: string): (r: Option<nat>)
    ensures r.Some? ==> r.value < |files| && FindSymbol(symbol, files[r.value]).Some?
    ensures r.Some? ==> forall i :: 0 <= i < r.value ==> FindSymbol(symbol, files[i]).None?
    ensures r.None? ==> forall i :: 0 <= i < |files| ==> FindSymbol(symbol, files[i]).None?
  {
    var found := seq(|files|, i requires 0 <= i < |files| => FindSymbol(symbol, files[i]).Some?);
    assert forall i :: 0 <= i < |files| ==> found[i] == FindSymbol(symbol, files[i]).Some?;
    First(found)
  }

  // ------------------------------------------------------------------------------------------
  // What is declared: chains of names from the outside in, at any depth

  /** A chain that starts at message `m` and ends at it, at something nested in it, or at one of its enums. */
  ghost predicate InMessage(m: Message, chain: seq<string>)
    decreases m
  {
    && chain != [] && chain[0] == m.name
    && (|chain| > 1 ==>
          || (exists i :: 0 <= i < |m.nested| && InMessage(m.nested[i], chain[1..]))
          || (|chain| == 2 && chain[1] in m.enums))
  }

  ghost predicate InService(s: Service, chain: seq<string>) {
    || chain == [s.name]
    || (|chain| == 2 && chain[0] == s.name && chain[1] in s.methods)
  }

  /** The chain begins in this child of the file. */
  ghost predicate InChild(f: File, child: Child, chain: seq<string>) {
    match child
    case MessageChild(i) => i < |f.messages| && InMessage(f.messages[i], chain)
    case EnumChild(i) => i < |f.enums| && chain == [f.enums[i]]
    case ServiceChild(i) => i < |f.services| && InService(f.services[i], chain)
  }

  function Dotted(chain: seq<string>): string {
    if chain == [] then ""
    else if |chain| == 1 then chain[0]
    else chain[0] + "." + Dotted(chain[1..])
  }

  /** The file has a package name and it is empty, which Protocol Buffers takes for no package at all. */
  predicate EmptyPackage(f: File) { f.package == Some("") }

  /** The full name, as Protocol Buffers defines it. */
  function FullName(f: File, chain: seq<string>): string {
    if f.package.None? || EmptyPackage(f) then Dotted(chain) else f.package.value + "." + Dotted(chain)
  }

  /** `name` is the full name of something in this child of the file. */
  ghost predicate Names(f: File, child: Child, name: string) {
    exists chain :: InChild(f, child, chain) && name == FullName(f, chain)
  }

  /** `name` is the full name of something declared in the file. */
  ghost predicate Declares(f: File, name: string) {
    exists child :: Names(f, child, name)
  }

  /** The full name that a symbol stands for: with an empty package the symbol has to begin with a dot. */
  function Asked(f: File, symbol: string): Option<string> {
    if !EmptyPackage(f) then Some(symbol)
    else if symbol != "" && symbol[0] == '.' then Some(symbol[1..])
    else None
  }

  ghost predicate Finds(f: File, symbol: string) {
    Asked(f, symbol).Some? && Declares(f, Asked(f, symbol).value)
  }

  ghost predicate FindsIn(f: File, child: Child, symbol: string) {
    Asked(f, symbol).Some? && Names(f, child, Asked(f, symbol).value)
  }

  // ------------------------------------------------------------------------------------------
  // The search finds exactly what is declared

  lemma DottedCons(prefix: string, name: string, chain: seq<string>)
    requires chain != []
    ensures prefix + Dotted([name] + chain) == (prefix + name + ".") + Dotted(chain)
  {
    assert ([name] + chain)[1..] == chain;
  }

  lemma {:induction false} MessageSound(symbol: string, m: Message, prefix: string) returns (chain: seq<string>)
    requires MatchesMessage(symbol, m, prefix)
    ensures InMessage(m, chain) && symbol == prefix + Dotted(chain)
    decreases m
  {
    var inner := prefix + m.name + ".";
    if symbol == prefix + m.name {
      chain := [m.name];
    } else if i :| 0 <= i < |m.nested| && MatchesMessage(symbol, m.nested[i], inner) {
      var tail := MessageSound(symbol, m.nested[i], inner);
      chain := [m.name] + tail;
      DottedCons(prefix, m.name, tail);
      assert chain[1..] == tail;
    } else {
      var i :| 0 <= i < |m.enums| && MatchesName(symbol, m.enums[i], inner);
      chain := [m.name] + [m.enums[i]];
      DottedCons(prefix, m.name, [m.enums[i]]);
    }
  }

  lemma {:induction false} MessageComplete(symbol: string, m: Message, prefix: string, chain: seq<string>)
    requires InMessage(m, chain) && symbol == prefix + Dotted(chain)
    ensures MatchesMessage(symbol, m, prefix)
    decreases m
  {
    if |chain| > 1 {
      var tail, inner := chain[1..], prefix + m.name + ".";
      assert chain == [m.name] + tail;
      DottedCons(prefix, m.name, tail);
      if i :| 0 <= i < |m.nested| && InMessage(m.nested[i], tail) {
        MessageComplete(symbol, m.nested[i], inner, tail);
      } else {
        var i :| 0 <= i < |m.enums| && m.enums[i] == chain[1];
        assert tail == [m.enums[i]];
        assert MatchesName(symbol, m.enums[i], inner);
      }
    }
  }

  lemma ServiceExact(symbol: string, s: Service, prefix: string)
    ensures MatchesService(symbol, s, prefix)
            <==> exists chain :: InService(s, chain) && symbol == prefix + Dotted(chain)
  {
    forall i | 0 <= i < |s.methods|
      ensures prefix + Dotted([s.name] + [s.methods[i]]) == prefix + s.name + "." + s.methods[i]
    {
      DottedCons(prefix, s.name, [s.methods[i]]);
    }
    if symbol == prefix + s.name {
      assert InService(s, [s.name]) && symbol == prefix + Dotted([s.name]);
    } else if i :| 0 <= i < |s.methods| && MatchesName(symbol, s.methods[i], prefix + s.name + ".") {
      assert InService(s, [s.name] + [s.methods[i]]);
    }
    if chain :| InService(s, chain) && symbol == prefix + Dotted(chain) && |chain| == 2 {
      var i :| 0 <= i < |s.methods| && s.methods[i] == chain[1];
      assert chain == [s.name] + [s.methods[i]];
      assert MatchesName(symbol, s.methods[i], prefix + s.name + ".");
    }
  }

  /** A name in this child of the file, written as the search compares it. */
  ghost predicate Prefixed(f: File, child: Child, symbol: string) {
    exists chain :: InChild(f, child, chain) && symbol == PackagePrefix(f) + Dotted(chain)
  }

  lemma PrefixedFullName(f: File, chain: seq<string>, symbol: string)
    ensures symbol == PackagePrefix(f) + Dotted(chain)
            <==> Asked(f, symbol).Some? && Asked(f, symbol).value == FullName(f, chain)
  {
    if EmptyPackage(f) {
      assert PackagePrefix(f) == ".";
      assert ("." + Dotted(chain))[1..] == Dotted(chain);
      assert symbol != "" ==> symbol == [symbol[0]] + symbol[1..];
    } else if f.package.None? {
      assert "" + Dotted(chain) == Dotted(chain);
    }
  }

  lemma PrefixedExact(f: File, child: Child, symbol: string)
    ensures Prefixed(f, child, symbol) <==> FindsIn(f, child, symbol)
  {
    forall chain
      ensures symbol == PackagePrefix(f) + Dotted(chain)
              <==> Asked(f, symbol).Some? && Asked(f, symbol).value == FullName(f, chain)
    {
      PrefixedFullName(f, chain, symbol);
    }
  }

  predicate Matches(f: File, child: Child, symbol: string) {
    match child
    case MessageChild(i) => i < |f.messages| && MatchesMessage(symbol, f.messages[i], PackagePrefix(f))
    case EnumChild(i) => i < |f.enums| && MatchesName(symbol, f.enums[i], PackagePrefix(f))
    case ServiceChild(i) => i < |f.services| && MatchesService(symbol, f.services[i], PackagePrefix(f))
  }

  lemma ChildExact(f: File, child: Child, symbol: string)
    ensures Matches(f, child, symbol) <==> Prefixed(f, child, symbol)
  {
    var prefix := PackagePrefix(f);
    match child {
      case MessageChild(i) =>
        if Matches(f, child, symbol) {
          var chain := MessageSound(symbol, f.messages[i], prefix);
          assert InChild(f, child, chain);
        }
        if chain :| InChild(f, child, chain) && symbol == prefix + Dotted(chain) {
          MessageComplete(symbol, f.messages[i], prefix, chain);
        }
      case EnumChild(i) =>
        if Matches(f, child, symbol) {
          assert InChild(f, child, [f.enums[i]]) && Dotted([f.enums[i]]) == f.enums[i];
        }
      case ServiceChild(i) =>
        if i < |f.services| {
          ServiceExact(symbol, f.services[i], prefix);
          if chain :| InService(f.services[i], chain) && symbol == prefix + Dotted(chain) {
            assert InChild(f, child, chain);
          }
        }
    }
  }

  /**
   * The search succeeds exactly when the symbol stands for the full name of something declared in the file, at any
   * depth; and it returns the first child, messages before enums before services, that declares it.
   */
  lemma FindSymbolExact(symbol: string, f: File)
    ensures FindSymbol(symbol, f).Some? <==> Finds(f, symbol)
    ensures match FindSymbol(symbol, f)
            case Some(found) => FindsIn(f, found, symbol)
                                && forall child :: Before(child, found) ==> !FindsIn(f, child, symbol)
            case None => forall child :: !FindsIn(f, child, symbol)
  {
    forall child
      ensures Matches(f, child, symbol) <==> FindsIn(f, child, symbol)
    {
      ChildExact(f, child, symbol);
      PrefixedExact(f, child, symbol);
    }
    FirstMatch(symbol, f);
    if Finds(f, symbol) {
      var child :| Names(f, child, Asked(f, symbol).value);
      assert FindsIn(f, child, symbol);
    }
  }

  /** Symbols are found by exactly their full names, unless the package is empty and the file declares anything. */
  lemma FullNamesExactly(f: File)
    ensures (forall symbol :: FindSymbol(symbol, f).Some? <==> Declares(f, symbol))
            <==> !EmptyPackage(f) || forall symbol :: !Declares(f, symbol)
  {
    forall symbol
      ensures FindSymbol(symbol, f).Some? <==> Finds(f, symbol)
    {
      FindSymbolExact(symbol, f);
    }
    if EmptyPackage(f) && (forall symbol :: FindSymbol(symbol, f).Some? <==> Declares(f, symbol)) {
      forall symbol
        ensures !Declares(f, symbol)
      {
        NothingDeclared(f, symbol);
      }
    }
  }

  /** If every declared name is a dot and another declared name, there is no shortest one. */
  lemma {:induction false} NothingDeclared(f: File, symbol: string)
    requires EmptyPackage(f) && forall s :: Declares(f, s) ==> Finds(f, s)
    ensures !Declares(f, symbol)
    decreases |symbol|
  {
    if Declares(f, symbol) {
      assert Finds(f, symbol);
      NothingDeclared(f, symbol[1..]);
    }
  }

  /** It does happen: with an empty package a message is not found by its name, but by its name after a dot. */
  lemma EmptyPackageNeedsDot(name: string)
    ensures var f := File(Some(""), [Message(name, [], [])], [], [], []);
            Declares(f, name) && FindSymbol(name, f).None? && FindSymbol("." + name, f).Some?
  {
    var f := File(Some(""), [Message(name, [], [])], [], [], []);
    assert InChild(f, MessageChild(0), [name]) && FullName(f, [name]) == name;
    assert Names(f, MessageChild(0), name);
    assert MatchesMessage("." + name, f.messages[0], ".");
    FirstMatch("." + name, f);
    assert Matches(f, MessageChild(0), "." + name);
    FirstMatch(name, f);
    assert |"." + name| == |name| + 1;
  }

  /** The order of the search. */
  predicate Before(a: Child, b: Child) {
    match (a, b)
    case (MessageChild(i), MessageChild(j)) => i < j
    case (EnumChild(i), EnumChild(j)) => i < j
    case (ServiceChild(i), ServiceChild(j)) => i < j
    case (MessageChild(_), _) => true
    case (EnumChild(_), ServiceChild(_)) => true
    case _ => false
  }

  lemma FirstMatch(symbol: string, f: File)
    ensures match FindSymbol(symbol, f)
            case Some(found) => Matches(f, found, symbol)
                                && forall child :: Before(child, found) ==> !Matches(f, child, symbol)
            case None => forall child :: !Matches(f, child, symbol)
  {
    var prefix := PackagePrefix(f);
    var ms := seq(|f.messages|, i requires 0 <= i < |f.messages| => MatchesMessage(symbol, f.messages[i], prefix));
    var es := seq(|f.enums|, i requires 0 <= i < |f.enums| => MatchesName(symbol, f.enums[i], prefix));
    var ss := seq(|f.services|, i requires 0 <= i < |f.services| => MatchesService(symbol, f.services[i], prefix));
    assert forall i :: 0 <= i < |f.messages| ==> ms[i] == Matches(f, MessageChild(i), symbol);
    assert forall i :: 0 <= i < |f.enums| ==> es[i] == Matches(f, EnumChild(i), symbol);
    assert forall i :: 0 <= i < |f.services| ==> ss[i] == Matches(f, ServiceChild(i), symbol);
  }

  /** The answer is the first file that declares what the symbol stands for, and NOT_FOUND exactly when none does. */
  lemma AnswersFirstDeclaringFile(files: seq<File>, symbol: string)
    ensures match FileContainingSymbol(files, symbol)
            case FileBytes(b) => exists i :: 0 <= i < |files| && b == files[i].bytes && Finds(files[i], symbol)
                                             && forall j :: 0 <= j < i ==> !Finds(files[j], symbol)
            case NotFound(s) => s == symbol && forall i :: 0 <= i < |files| ==> !Finds(files[i], symbol)
  {
    forall i | 0 <= i < |files|
      ensures FindSymbol(symbol, files[i]).Some? <==> Finds(files[i], symbol)
    {
      FindSymbolExact(symbol, files[i]);
    }
    var first := FirstFile(files, symbol);
    if first.Some? {
      assert Finds(files[first.value], symbol);
    }
  }
}
