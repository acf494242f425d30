/** Rich error details and their `Any` form: packages/nice-grpc-error-details/src/ErrorDetails.ts. */
module ErrorDetails {
  import opened Basics

  datatype Any = Any(typeUrl: string, value: seq<byte>)

  /** A detail message, tagged with the full name of its type, or a raw `Any`. */
  datatype Detail<T> = Typed(typeName: string, content: T) | Raw(any: Any)

  /** The message codecs, by type name. */
  datatype Codec<!T> = Codec(encode: (string, T) -> seq<byte>, decode: (string, seq<byte>) -> T)

  ghost predicate Lawful<T(!new)>(codec: Codec<T>) {
    forall name: string, x: T :: codec.decode(name, codec.encode(name, x)) == x
  }

  /** The table of known types, in order; names as declared in proto/google/rpc/error_details.proto. */
  const KNOWN_MESSAGES: seq<string> := [
    "google.rpc.RetryInfo",
    "google.rpc.DebugInfo",
    "google.rpc.QuotaFailure",
    "google.rpc.QuotaFailure.Violation",
    "google.rpc.ErrorInfo",
    "google.rpc.PreconditionFailure",
    "google.rpc.PreconditionFailure.Violation",
    "google.rpc.BadRequest",
    "google.rpc.BadRequest.FieldViolation",
    "google.rpc.RequestInfo",
    "google.rpc.ResourceInfo",
    "google.rpc.Help",
    "google.rpc.LocalizedMessage"
  ]

  const URL_PREFIX := "type.googleapis.com/"

  predicate EndsWith(s: string, suffix: string) {
    |suffix| <= |s| && s[|s| - |suffix|..] == suffix
  }

  /** `find`: the first known name the URL ends with, after a slash. */
  function FindByUrl(typeUrl: string, known: seq<string>): (r: Option<string>)
    ensures r.Some? ==> r.value in known && EndsWith(typeUrl, "/" + r.value)
    ensures r.None? ==> forall i :: 0 <= i < |known| ==> !EndsWith(typeUrl, "/" + known[i])
  {
    if known == [] then None
    else if EndsWith(typeUrl, "/" + known[0]) then Some(known[0])
    else FindByUrl(typeUrl, known[1..])
  }

  function DecodeDetail<T>(codec: Codec<T>, any: Any): Detail<T> {
    match FindByUrl(any.typeUrl, KNOWN_MESSAGES)
    case None => Raw(any)
    case Some(name) => Typed(name, codec.decode(name, any.value))
  }

  function DecodeErrorDetails<T>(codec: Codec<T>, anys: seq<Any>): (r: seq<Detail<T>>)
    ensures |r| == |anys| && forall i :: 0 <= i < |r| ==> r[i] == DecodeDetail(codec, anys[i])
  {
    seq(|anys|, i requires 0 <= i < |anys| => DecodeDetail(codec, anys[i]))
  }

  /** Fails with the name of an unknown type. */
  function EncodeDetail<T>(codec: Codec<T>, d: Detail<T>): Result<Any, string> {
    match d
    case Raw(any) => Ok(any)
    case Typed(name, content) =>
      if name in KNOWN_MESSAGES then Ok(Any(URL_PREFIX + name, codec.encode(name, content))) else Err(name)
  }

  function EncodeErrorDetails<T>(codec: Codec<T>, ds: seq<Detail<T>>): (r: Result<seq<Any>, string>)
    ensures r.Ok? <==> forall i :: 0 <= i < |ds| ==> EncodeDetail(codec, ds[i]).Ok?
    ensures r.Ok? ==> |r.value| == |ds| && forall i :: 0 <= i < |ds| ==> EncodeDetail(codec, ds[i]) == Ok(r.value[i])
  {
    if ds == [] then Ok([])
    else
      match EncodeDetail(codec, ds[0])
      case Err(e) => Err(e)
      case Ok(any) =>
        match EncodeErrorDetails(codec, ds[1..])
        case Err(e) => Err(e)
        case Ok(rest) => Ok([any] + rest)
  }

  /** What a detail is encoded as, and when that fails. */
  lemma {:induction false} EncodedExactly<T>(codec: Codec<T>, d: Detail<T>)
    ensures d.Raw? ==> EncodeDetail(codec, d) == Ok(d.any)
    ensures d.Typed? && d.typeName in KNOWN_MESSAGES ==>
      EncodeDetail(codec, d) == Ok(Any("type.googleapis.com/" + d.typeName, codec.encode(d.typeName, d.content)))
    ensures d.Typed? && d.typeName !in KNOWN_MESSAGES ==> EncodeDetail(codec, d) == Err(d.typeName)
  {
  }

  /** The error names the first detail of an unknown type. */
  lemma {:induction false} FirstUnknown<T>(codec: Codec<T>, ds: seq<Detail<T>>)
    ensures EncodeErrorDetails(codec, ds).Err? ==>
      exists i :: 0 <= i < |ds| && ds[i].Typed? && ds[i].typeName !in KNOWN_MESSAGES
                  && EncodeErrorDetails(codec, ds) == Err(ds[i].typeName)
                  && forall j :: 0 <= j < i ==> ds[j].Raw? || ds[j].typeName in KNOWN_MESSAGES
  {
    if ds != [] && EncodeErrorDetails(codec, ds).Err? {
      if EncodeDetail(codec, ds[0]).Err? {
        assert ds[0].typeName !in KNOWN_MESSAGES;
      } else {
        FirstUnknown(codec, ds[1..]);
        var i :| 0 <= i < |ds[1..]| && ds[1..][i].Typed? && ds[1..][i].typeName !in KNOWN_MESSAGES
                 && EncodeErrorDetails(codec, ds[1..]) == Err(ds[1..][i].typeName)
                 && forall j :: 0 <= j < i ==> ds[1..][j].Raw? || ds[1..][j].typeName in KNOWN_MESSAGES;
        assert ds[i + 1] == ds[1..][i];
        assert forall j :: 0 < j < i + 1 ==> ds[j] == ds[1..][j - 1];
      }
    }
  }

  /** What an `Any` is decoded as: by a known type its URL ends with, or left as it is if there is none. */
  lemma {:induction false} DecodedExactly<T>(codec: Codec<T>, any: Any)
    ensures match DecodeDetail(codec, any)
            case Typed(name, content) =>
              name in KNOWN_MESSAGES && EndsWith(any.typeUrl, "/" + name) && content == codec.decode(name, any.value)
            case Raw(a) =>
              a == any && forall i :: 0 <= i < |KNOWN_MESSAGES| ==> !EndsWith(any.typeUrl, "/" + KNOWN_MESSAGES[i])
  {
  }

  // ------------------------------------------------------------------------------------------
  // Dispatch

  predicate SlashFree(s: string) { '/' !in s }

  lemma KnownSlashFree()
    ensures forall i :: 0 <= i < |KNOWN_MESSAGES| ==> SlashFree(KNOWN_MESSAGES[i])
  {
  }

  /** A URL ends with a slash and a slash-free name only if that name is everything after its last slash. */
  lemma LastSegment(head: string, name: string, other: string)
    requires SlashFree(name) && SlashFree(other)
    ensures EndsWith(head + "/" + name, "/" + other) <==> name == other
  {
    var url := head + "/" + name;
    assert url[|head|] == '/' && url[|head| + 1..] == name;
    assert forall i :: |head| < i < |url| ==> url[i] == name[i - |head| - 1];
    if EndsWith(url, "/" + other) {
      var p := |url| - |other| - 1;
      assert url[p..] == "/" + other;
      assert url[p] == url[p..][0] == '/';
      assert forall i :: p < i < |url| ==> url[i] == url[p..][i - p] == other[i - p - 1];
      assert p == |head|;
      assert url[p..][1..] == other;
    }
  }

  /** The search on an encoded type URL selects exactly the encoded type. */
  lemma DispatchExact(name: string)
    requires name in KNOWN_MESSAGES
    ensures FindByUrl(URL_PREFIX + name, KNOWN_MESSAGES) == Some(name)
  {
    KnownSlashFree();
    var head := URL_PREFIX[..|URL_PREFIX| - 1];
    assert URL_PREFIX == head + "/";
    assert URL_PREFIX + name == head + "/" + name;
    var i :| 0 <= i < |KNOWN_MESSAGES| && KNOWN_MESSAGES[i] == name;
    LastSegment(head, name, name);
    var found := FindByUrl(URL_PREFIX + name, KNOWN_MESSAGES);
    if found.Some? {
      var j :| 0 <= j < |KNOWN_MESSAGES| && KNOWN_MESSAGES[j] == found.value;
      LastSegment(head, name, found.value);
    }
  }

  /** A raw `Any` that claims to be of a known type. */
  ghost predicate Masquerades<T>(d: Detail<T>) {
    d.Raw? && exists i :: 0 <= i < |KNOWN_MESSAGES| && EndsWith(d.any.typeUrl, "/" + KNOWN_MESSAGES[i])
  }

  lemma DetailRoundTrip<T(!new)>(codec: Codec<T>, d: Detail<T>)
    requires Lawful(codec) && EncodeDetail(codec, d).Ok?
    ensures DecodeDetail(codec, EncodeDetail(codec, d).value) == d <==> !Masquerades(d)
  {
    match d {
      case Typed(name, content) => DispatchExact(name);
      case Raw(any) =>
        var found := FindByUrl(any.typeUrl, KNOWN_MESSAGES);
        if found.Some? {
          var i :| 0 <= i < |KNOWN_MESSAGES| && KNOWN_MESSAGES[i] == found.value;
        }
    }
  }

  /** Decoding what was encoded gives the same details exactly when none is a raw `Any` of a known type. */
  lemma RoundTrip<T(!new)>(codec: Codec<T>, ds: seq<Detail<T>>)
    requires Lawful(codec) && EncodeErrorDetails(codec, ds).Ok?
    ensures DecodeErrorDetails(codec, EncodeErrorDetails(codec, ds).value) == ds
            <==> forall i :: 0 <= i < |ds| ==> !Masquerades(ds[i])
  {
    var anys := EncodeErrorDetails(codec, ds).value;
    forall i | 0 <= i < |ds|
      ensures DecodeDetail(codec, anys[i]) == ds[i] <==> !Masquerades(ds[i])
    {
      assert EncodeDetail(codec, ds[i]) == Ok(anys[i]);
      DetailRoundTrip(codec, ds[i]);
    }
  }

  /** It does happen: a raw `Any` of a known type comes back decoded. */
  lemma RawComesBackTyped<T(!new)>(codec: Codec<T>, value: seq<byte>)
    ensures var raw: Detail<T> := Raw(Any(URL_PREFIX + "google.rpc.Help", value));
      && EncodeErrorDetails(codec, [raw]).Ok?
      && DecodeErrorDetails(codec, EncodeErrorDetails(codec, [raw]).value)
         == [Typed("google.rpc.Help", codec.decode("google.rpc.Help", value))]
  {
    var raw: Detail<T> := Raw(Any(URL_PREFIX + "google.rpc.Help", value));
    assert KNOWN_MESSAGES[11] == "google.rpc.Help";
    DispatchExact("google.rpc.Help");
    assert EncodeDetail(codec, [raw][0]) == Ok(raw.any);
  }
}
