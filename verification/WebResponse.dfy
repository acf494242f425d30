/** The pieces put together: a response whose trailer was printed from a metadata store, received by a client. */
module WebResponse {
  import opened Basics
  import opened Framing
  import opened DecodeTheorems
  import opened MetadataStore
  import Codec = MetadataCodec
  import opened Call
  import opened CallTheorems
  import opened WholeCalls
  import opened DecodeOutcomes
  import Rfc4648

  /** `TextDecoder` and `TextEncoder` on ASCII. */
  function AsciiText(bytes: seq<byte>): (s: string)
    ensures |s| == |bytes| && forall i :: 0 <= i < |s| ==> s[i] == bytes[i] as char
  {
    seq(|bytes|, i requires 0 <= i < |bytes| => bytes[i] as char)
  }

  function AsciiBytes(s: string): (bytes: seq<byte>)
    requires Codec.ValidChars(s)
    ensures |bytes| == |s| && forall i :: 0 <= i < |s| ==> bytes[i] == s[i] as int
  {
    seq(|s|, i requires 0 <= i < |s| => s[i] as int)
  }

  /** `decodeMetadata` as the decoder calls it. */
  function DecodeMetadataBlock(b64: Codec.Base64, bytes: seq<byte>): Result<Md, Error> {
    match Codec.Decoded(b64, Codec.SplitLines(AsciiText(bytes)))
    case Ok(m) => Ok(m)
    case Err(_) => Err(Other("Invalid metadata"))
  }

  /** A metadata block: the flag byte has bit 7 set. */
  function PrintedBlock(text: string): seq<byte>
    requires Codec.ValidChars(text)
  {
    [0x80] + Uint32Bytes(|text|) + AsciiBytes(text)
  }

  lemma PrintedBlockShape(text: string)
    requires Codec.ValidChars(text) && |text| < UINT32_LIMIT
    ensures var raw := PrintedBlock(text);
      && IsBlock(raw) && Prefix(raw).isMetadata && !Prefix(raw).compressed && AsciiText(Payload(raw)) == text
  {
    var raw := PrintedBlock(text);
    assert raw[..LPM_HEADER_LENGTH][1..] == Uint32Bytes(|text|);
    assert raw[LPM_HEADER_LENGTH..] == AsciiBytes(text);
    assert (0x80 as bv8) & 1 == 0 && (0x80 as bv8) & 0x80 != 0;
  }

  lemma {:induction false} PrintedValid(b64: Codec.Base64, text: string, pairs: seq<Codec.Pair>)
    requires Codec.ValidChars(text) && Codec.PrintOnto(b64, text, pairs).Ok?
    ensures Codec.ValidChars(Codec.PrintOnto(b64, text, pairs).value)
    decreases |pairs|
  {
    if pairs != [] {
      PrintedValid(b64, text + Codec.PairString(b64, pairs[0]), pairs[1..]);
    }
  }

  /** The store that parsing gives back. */
  ghost function Seen(m: Md): (r: Md) {
    TrimAllWellFormed(m);
    Codec.TrimAll(m)
  }

  lemma TrimAllWellFormed(m: Contents)
    requires WellFormed(m)
    ensures WellFormed(Codec.TrimAll(m))
  {
    forall k | k in m
      ensures WellFormedEntry(k, Codec.TrimAll(m)[k])
    {
      Codec.EntryValid((k, m[k]));
    }
  }

  /** A trailer store, printed. */
  ghost function TrailerText(b64: Codec.Base64, trailer: Md, entries: seq<Codec.Entry>): (text: string)
    requires Codec.Lawful(b64) && Codec.Enumerates(entries, trailer)
    ensures Codec.ValidChars(text)
    ensures Codec.Print(b64, Codec.Pairs(entries)) == Ok(text)
    ensures Codec.Decoded(b64, Codec.SplitLines(text)) == Ok(Seen(trailer))
  {
    Codec.RoundTrip(b64, trailer, entries);
    PrintedValid(b64, "", Codec.Pairs(entries));
    Codec.Print(b64, Codec.Pairs(entries)).value
  }

  /** A store in the data is printed; one that has a frame of its own is received as it is. */
  datatype Sending = Sending(store: Md, inData: bool, entries: seq<Codec.Entry>)

  ghost predicate CanPrint(b64: Codec.Base64, sending: Sending) {
    sending.inData ==>
      && Codec.Lawful(b64) && Codec.Enumerates(sending.entries, sending.store)
      && |TrailerText(b64, sending.store, sending.entries)| < UINT32_LIMIT
  }

  ghost function Received(sending: Sending): Md { if sending.inData then Seen(sending.store) else sending.store }

  ghost function BlockFor(b64: Codec.Base64, sending: Sending): Option<seq<byte>>
    requires CanPrint(b64, sending)
  {
    if sending.inData then Some(PrintedBlock(TrailerText(b64, sending.store, sending.entries))) else None
  }

  ghost function ShapeOf(b64: Codec.Base64, header: Sending, trailer: Sending): Shape
    requires CanPrint(b64, header) && CanPrint(b64, trailer)
  {
    Shape(BlockFor(b64, header), BlockFor(b64, trailer))
  }

  /** The server's answer: header and trailer printed where they travel in the data, and the data cut anywhere. */
  ghost predicate PrintedAnswer<T>(env: CallEnv, script: Script<T>, b64: Codec.Base64, header: Sending,
                                   payloads: seq<seq<byte>>, trailer: Sending, chunks: seq<seq<byte>>) {
    && CanPrint(b64, header) && CanPrint(b64, trailer)
    && (forall bytes :: script.decodeMetadata(bytes) == DecodeMetadataBlock(b64, bytes))
    && script.transportFailure.None?
    && "grpc-status" !in Received(header) && env.onHeader(Received(header)).None?
    && Encodable(payloads) && Decodable(script.decode, payloads)
    && ParseTrailer(env, Received(trailer)).Ok?
    && env.onTrailer(ParseTrailer(env, Received(trailer)).value.trailer).None?
    && (trailer.inData ==> chunks != [] && chunks[|chunks| - 1] != [])
    && var shape := ShapeOf(b64, header, trailer);
       && script.frames == FramesOf(shape, Received(header), Received(trailer), chunks)
       && Flatten(chunks) == Flatten(BlocksOf(shape, payloads))
  }

  /** A printed store is carried by its block. */
  lemma {:induction false} PrintedCarries<T>(script: Script<T>, b64: Codec.Base64, sending: Sending)
    requires CanPrint(b64, sending) && sending.inData
    requires forall bytes :: script.decodeMetadata(bytes) == DecodeMetadataBlock(b64, bytes)
    ensures CarriesMetadata(script, BlockFor(b64, sending).value, Seen(sending.store))
  {
    var text := TrailerText(b64, sending.store, sending.entries);
    PrintedBlockShape(text);
    FlagBits(PrintedBlock(text));
  }

  /**
   * For every well-formed header and trailer store, every order of their entries, every list of messages, whichever of
   * the two travel in the data, and every way to cut the bytes: the client yields the messages in order and ends as the
   * trailer says. What it sees of printed stores are the stores with their text values trimmed.
   */
  lemma {:induction false} PrintedTrailerDecides<T>(env: CallEnv, script: Script<T>, b64: Codec.Base64, header: Sending,
                                                     payloads: seq<seq<byte>>, trailer: Sending, chunks: seq<seq<byte>>)
    requires PrintedAnswer(env, script, b64, header, payloads, trailer, chunks)
    ensures var p := ParseTrailer(env, Received(trailer)).value;
      && Completed(env, script) == CallResult(
           DecodeAll(script.decode, payloads),
           if p.status == OK then None else Some(ClientError(p.status, StatusText(p))))
      && After(env, Decoded(env, script).events).userCalls == [OnHeader(Received(header)), OnTrailer(p.trailer)]
  {
    if header.inData {
      PrintedCarries(script, b64, header);
    }
    if trailer.inData {
      PrintedCarries(script, b64, trailer);
    }
    WholeCall(env, script, ShapeOf(b64, header, trailer), Received(header), payloads, Received(trailer), chunks);
  }

  /** The store of an ordinary successful trailer. */
  ghost function OkTrailer(): (m: Md)
    ensures Codec.Enumerates([("grpc-status", [Text("0")])], m)
    ensures Seen(m) == m && StripStatus(m) == map[] && GetText(m, "grpc-status") == Some("0")
  {
    var entry := ("grpc-status", [Text("0")]);
    var m: Contents := map["grpc-status" := [Text("0")]];
    assert WellFormedEntry("grpc-status", m["grpc-status"]);
    assert [entry][1..] == [];
    assert Codec.WithEntries(map[], [entry]) == m;
    Codec.TrimUntouched("0");
    assert Codec.TrimAll(m)["grpc-status"] == [Text("0")];
    assert Codec.TrimAll(m) == m;
    LegalKeyNormal("grpc-status");
    m
  }

  /** Such answers exist for every list of messages: one data frame for each block, and an ordinary OK trailer. */
  lemma {:induction false} OkTrailerSucceeds<T>(env: CallEnv, decode: seq<byte> -> Result<T, Error>, header: Md,
                                                 payloads: seq<seq<byte>>)
    returns (script: Script<T>, chunks: seq<seq<byte>>)
    requires env.parseStatus("0") == Some(OK) && env.onTrailer(map[]).None?
    requires "grpc-status" !in header && env.onHeader(header).None?
    requires Encodable(payloads) && Decodable(decode, payloads)
    ensures PrintedAnswer(env, script, Rfc4648.CODEC, Sending(header, false, []), payloads,
                          Sending(OkTrailer(), true, [("grpc-status", [Text("0")])]), chunks)
    ensures script.decode == decode && Completed(env, script) == CallResult(DecodeAll(decode, payloads), None)
  {
    Rfc4648.CodecLawful();
    var b64, entries := Rfc4648.CODEC, [("grpc-status", [Text("0")])];
    var text := TrailerText(b64, OkTrailer(), entries);
    OneLine(b64, "grpc-status", Text("0"), text);
    var sent, trailer := Sending(header, false, []), Sending(OkTrailer(), true, entries);
    var shape := ShapeOf(b64, sent, trailer);
    chunks := BlocksOf(shape, payloads);
    assert chunks[|chunks| - 1] == PrintedBlock(text);
    script := Script(bytes => DecodeMetadataBlock(b64, bytes), decode, FramesOf(shape, header, OkTrailer(), chunks),
                     None, None);
    PrintedTrailerDecides(env, script, b64, sent, payloads, trailer, chunks);
  }

  lemma OneLine(b64: Codec.Base64, key: string, value: Value, text: string)
    requires Codec.Print(b64, Codec.Pairs([(key, [value])])) == Ok(text)
    ensures |text| == |key| + |Codec.ValueString(b64, value)| + 4
  {
    var entry: Codec.Entry := (key, [value]);
    assert [entry][1..] == [] && Codec.EntryPairs(entry) == [(key, value)];
    assert Codec.Pairs([entry]) == [(key, value)];
    var pair: Codec.Pair := (key, value);
    assert [pair][1..] == [];
    assert Codec.PrintOnto(b64, "" + Codec.PairString(b64, pair), []) == Ok(text);
  }
}
