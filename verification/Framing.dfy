/** Length-prefixed messages: packages/nice-grpc-web/src/client/framing.ts and utils/concatBuffers.ts. */
module Framing {
  import opened Basics

  const LPM_HEADER_LENGTH := 5
  const UINT32_LIMIT := 0x1_0000_0000

  datatype LpmHeader = LpmHeader(compressed: bool, isMetadata: bool, length: nat)

  /** `DataView.getUint32`, big endian. */
  function GetUint32(b: seq<byte>): (n: nat)
    requires |b| == 4
    ensures n < UINT32_LIMIT
  {
    ((b[0] as int * 0x100 + b[1]) * 0x100 + b[2]) * 0x100 + b[3]
  }

  /** The four bytes `DataView.setUint32` stores: the value is reduced modulo 2^32. */
  function Uint32Bytes(n: nat): (b: seq<byte>)
    ensures |b| == 4
    ensures GetUint32(b) == n % UINT32_LIMIT
  {
    var m0 := n % UINT32_LIMIT;
    var m1 := m0 / 0x100;
    var m2 := m1 / 0x100;
    [m2 / 0x100, m2 % 0x100, m1 % 0x100, m0 % 0x100]
  }

  /** Bit 0 of the first byte is the compression flag, bit 7 marks metadata. */
  function ParseLpmHeader(data: seq<byte>): (r: Result<LpmHeader, nat>)
    ensures r.Ok? <==> |data| == LPM_HEADER_LENGTH
    ensures r.Ok? ==> r.value.length < UINT32_LIMIT && r.value.length == GetUint32(data[1..])
    ensures r.Ok? ==> (r.value.compressed <==> data[0] % 2 == 1) && (r.value.isMetadata <==> data[0] >= 0x80)
  {
    if |data| != LPM_HEADER_LENGTH then Err(|data|)
    else Ok(LpmHeader((data[0] as bv8) & 1 != 0, (data[0] as bv8) & 0x80 != 0, GetUint32(data[1..])))
  }

  /** The bytes of an encoded frame: a zero flag byte, the length, the payload. */
  function Frame(data: seq<byte>): (f: seq<byte>)
    ensures |f| == LPM_HEADER_LENGTH + |data|
  {
    [0] + Uint32Bytes(|data|) + data
  }

  method EncodeFrame(data: seq<byte>) returns (messageBytes: array<byte>)
    ensures fresh(messageBytes)
    ensures messageBytes[..] == Frame(data)
  {
    messageBytes := new byte[LPM_HEADER_LENGTH + |data|](_ => 0);
    var length := Uint32Bytes(|data|);
    for i := 0 to 4
      invariant messageBytes[0] == 0
      invariant forall j :: 0 <= j < i ==> messageBytes[1 + j] == length[j]
    {
      messageBytes[1 + i] := length[i];
    }
    for i := 0 to |data|
      invariant messageBytes[0] == 0
      invariant forall j :: 0 <= j < 4 ==> messageBytes[1 + j] == length[j]
      invariant forall j :: 0 <= j < i ==> messageBytes[LPM_HEADER_LENGTH + j] == data[j]
    {
      messageBytes[LPM_HEADER_LENGTH + i] := data[i];
    }
  }

  /** `Uint8Array.set`. */
  method SetBytes(target: array<byte>, offset: nat, source: seq<byte>)
    requires offset + |source| <= target.Length
    modifies target
    ensures target[..offset + |source|] == old(target[..offset]) + source
  {
    for i := 0 to |source|
      invariant target[..offset + i] == old(target[..offset]) + source[..i]
    {
      target[offset + i] := source[i];
    }
  }

  lemma FlattenStep<T>(parts: seq<seq<T>>, k: nat)
    requires k < |parts|
    ensures Flatten(parts[..k + 1]) == Flatten(parts[..k]) + parts[k]
    ensures |Flatten(parts[..k + 1])| <= |Flatten(parts)|
  {
    assert parts[..k + 1] == parts[..k] + [parts[k]];
    FlattenSnoc(parts[..k], parts[k]);
    assert parts == parts[..k + 1] + parts[k + 1..];
    FlattenAppend(parts[..k + 1], parts[k + 1..]);
  }

  /** Flattens the buffers into one; a single buffer is handed back as it is. */
  method ConcatBuffers(buffers: seq<seq<byte>>, totalLength: nat) returns (r: seq<byte>)
    requires totalLength == |Flatten(buffers)|
    ensures r == Flatten(buffers)
  {
    if |buffers| == 1 {
      assert buffers == [] + [buffers[0]];
      FlattenSnoc([], buffers[0]);
      return buffers[0];
    }
    var result := new byte[totalLength](_ => 0);
    var offset := 0;
    for k := 0 to |buffers|
      invariant offset == |Flatten(buffers[..k])| <= totalLength
      invariant result[..offset] == Flatten(buffers[..k])
    {
      FlattenStep(buffers, k);
      SetBytes(result, offset, buffers[k]);
      offset := offset + |buffers[k]|;
    }
    assert buffers[..|buffers|] == buffers;
    r := result[..];
  }

  // ------------------------------------------------------------------------------------------
  // The grammar: a byte string is a list of blocks followed by an incomplete tail.

  /** The prefix of a byte string that is long enough to hold one. */
  function Prefix(bytes: seq<byte>): (h: LpmHeader)
    requires |bytes| >= LPM_HEADER_LENGTH
  {
    ParseLpmHeader(bytes[..LPM_HEADER_LENGTH]).value
  }

  /** Some block can be read off the front of `bytes`. */
  predicate HasBlock(bytes: seq<byte>) {
    |bytes| >= LPM_HEADER_LENGTH && |bytes| >= LPM_HEADER_LENGTH + Prefix(bytes).length
  }

  /** `raw` is exactly one block: a prefix and as many bytes as it announces. */
  predicate IsBlock(raw: seq<byte>) {
    |raw| >= LPM_HEADER_LENGTH && |raw| == LPM_HEADER_LENGTH + Prefix(raw).length
  }

  function Payload(raw: seq<byte>): seq<byte>
    requires IsBlock(raw)
  {
    raw[LPM_HEADER_LENGTH..]
  }

  datatype Parsed = Parsed(blocks: seq<seq<byte>>, rest: seq<byte>)

  /** `p` is a decomposition of `bytes` into blocks and an incomplete tail. */
  predicate Decomposes(p: Parsed, bytes: seq<byte>) {
    && (forall i :: 0 <= i < |p.blocks| ==> IsBlock(p.blocks[i]))
    && !HasBlock(p.rest)
    && bytes == Flatten(p.blocks) + p.rest
  }

  /** The one-shot parser: reads blocks off the whole byte string. */
  function Split(bytes: seq<byte>): (p: Parsed)
    ensures Decomposes(p, bytes)
    decreases |bytes|
  {
    if !HasBlock(bytes) then
      Parsed([], bytes)
    else
      var n := LPM_HEADER_LENGTH + Prefix(bytes).length;
      var tail := Split(bytes[n..]);
      DecomposesFront(bytes, n, tail);
      Parsed([bytes[..n]] + tail.blocks, tail.rest)
  }

  lemma DecomposesFront(bytes: seq<byte>, n: nat, tail: Parsed)
    requires HasBlock(bytes) && n == LPM_HEADER_LENGTH + Prefix(bytes).length
    requires Decomposes(tail, bytes[n..])
    ensures Decomposes(Parsed([bytes[..n]] + tail.blocks, tail.rest), bytes)
  {
    PrefixOfFront(bytes, n);
    DecomposesCons(bytes[..n], tail, bytes[n..]);
    assert bytes == bytes[..n] + bytes[n..];
  }

  lemma DecomposesCons(raw: seq<byte>, tail: Parsed, bytes: seq<byte>)
    requires IsBlock(raw) && Decomposes(tail, bytes)
    ensures Decomposes(Parsed([raw] + tail.blocks, tail.rest), raw + bytes)
  {
    var blocks := [raw] + tail.blocks;
    assert blocks[1..] == tail.blocks;
    assert raw + bytes == (raw + Flatten(tail.blocks)) + tail.rest;
  }

  lemma PrefixOfFront(bytes: seq<byte>, n: nat)
    requires LPM_HEADER_LENGTH <= n <= |bytes|
    ensures Prefix(bytes[..n]) == Prefix(bytes)
  {
    assert bytes[..n][..LPM_HEADER_LENGTH] == bytes[..LPM_HEADER_LENGTH];
  }

  /** Reading one block off the front. */
  lemma SplitFront(raw: seq<byte>, tail: seq<byte>)
    requires IsBlock(raw)
    ensures Split(raw + tail) == Parsed([raw] + Split(tail).blocks, Split(tail).rest)
  {
    PrefixOfFront(raw + tail, |raw|);
    assert (raw + tail)[..|raw|] == raw;
    assert (raw + tail)[|raw|..] == tail;
  }

  /** Framing is unambiguous: no byte string has two decompositions. */
  lemma {:induction false} SplitUnique(p: Parsed, bytes: seq<byte>)
    requires Decomposes(p, bytes)
    ensures p == Split(bytes)
    decreases |p.blocks|
  {
    if p.blocks != [] {
      var tail := Parsed(p.blocks[1..], p.rest);
      assert bytes == p.blocks[0] + (Flatten(tail.blocks) + tail.rest);
      SplitUnique(tail, Flatten(tail.blocks) + tail.rest);
      SplitFront(p.blocks[0], Flatten(tail.blocks) + tail.rest);
    }
  }

  /** The tail left by one piece is all the parser needs to continue with the next. */
  lemma SplitAppend(a: seq<byte>, b: seq<byte>)
    ensures var pa := Split(a); var pb := Split(pa.rest + b);
            Split(a + b) == Parsed(pa.blocks + pb.blocks, pb.rest)
  {
    var pa := Split(a);
    var pb := Split(pa.rest + b);
    var p := Parsed(pa.blocks + pb.blocks, pb.rest);
    assert Decomposes(p, a + b) by {
      FlattenAppend(pa.blocks, pb.blocks);
      AppendAssoc(Flatten(pa.blocks), pa.rest, b);
      AppendAssoc(Flatten(pa.blocks), Flatten(pb.blocks), pb.rest);
    }
    SplitUnique(p, a + b);
  }

  /** What an encoded frame announces: its flags are clear and its length is taken modulo 2^32. */
  lemma FramePrefix(data: seq<byte>)
    ensures Prefix(Frame(data)) == LpmHeader(false, false, |data| % UINT32_LIMIT)
    ensures IsBlock(Frame(data)) <==> |data| < UINT32_LIMIT
    ensures IsBlock(Frame(data)) ==> Payload(Frame(data)) == data
  {
    assert Frame(data)[..LPM_HEADER_LENGTH][1..] == Uint32Bytes(|data|);
    assert Frame(data)[LPM_HEADER_LENGTH..] == data;
    assert (0 as bv8) & 1 == 0 && (0 as bv8) & 0x80 == 0;
  }

  /** It does happen: a payload of exactly 2^32 bytes is announced as empty. */
  lemma HugePayloadLost()
    ensures var payload := seq(UINT32_LIMIT, _ => 0 as byte);
            !IsBlock(Frame(payload)) && Prefix(Frame(payload)) == LpmHeader(false, false, 0)
  {
    FramePrefix(seq(UINT32_LIMIT, _ => 0 as byte));
  }

  /** `encodeRequest`: every message becomes one frame. */
  function Frames(payloads: seq<seq<byte>>): (fs: seq<seq<byte>>)
    ensures |fs| == |payloads|
    ensures forall i :: 0 <= i < |fs| ==> fs[i] == Frame(payloads[i])
  {
    seq(|payloads|, i requires 0 <= i < |payloads| => Frame(payloads[i]))
  }

  /** Framing a list of payloads and parsing it back is the identity exactly below the 32-bit limit. */
  lemma RoundTrip(payloads: seq<seq<byte>>)
    ensures Split(Flatten(Frames(payloads))) == Parsed(Frames(payloads), [])
            <==> forall i :: 0 <= i < |payloads| ==> |payloads[i]| < UINT32_LIMIT
  {
    var fs := Frames(payloads);
    forall i | 0 <= i < |payloads|
      ensures IsBlock(fs[i]) <==> |payloads[i]| < UINT32_LIMIT
    {
      FramePrefix(payloads[i]);
    }
    if forall i :: 0 <= i < |payloads| ==> |payloads[i]| < UINT32_LIMIT {
      assert Flatten(fs) == Flatten(fs) + [];
      SplitUnique(Parsed(fs, []), Flatten(fs));
    } else {
      var i :| 0 <= i < |payloads| && |payloads[i]| >= UINT32_LIMIT;
      assert !IsBlock(fs[i]);
    }
  }
}
