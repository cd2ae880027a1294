/** The OnlineRequest and OnlineResponse exchanged with hbbs: fields, frames and the presence bitmap. */
module PresenceWire {
  import opened Common
  import opened Varint

  type PeerId = seq<byte>

  datatype WireError = BadVarint(error: VarintError) | UnexpectedField | ShortField | TrailingData | BadBitmap |
                       RequestTooLarge | ShortStream | ResponseTooLarge

  datatype Field = Field(value: seq<byte>, rest: seq<byte>)

  const PEERS_TAG: nat := 18               // field 2 of OnlineRequest, length-delimited
  const REQUEST_TAG: nat := 23 * 8 + 2     // field 23 of RendezvousMessage; its varint is 0xba 0x01
  const RESPONSE_TAG: nat := 24 * 8 + 2    // field 24 of RendezvousMessage
  const STATES_TAG: nat := 10              // field 1 of OnlineResponse
  const MAX_REQUEST: nat := 0x3fff
  const MAX_RESPONSE: nat := 4096

  /** The lengths that Rust's buffers can have. */
  predicate Addressable(n: nat) {
    n < 0x8000_0000_0000_0000
  }

  // ---------------------------------------------------------------------------------------------
  // Length-delimited fields

  function ParseField(data: seq<byte>, tag: nat): Result<Field, WireError> {
    match Parse(data)
    case Err(e) => Err(BadVarint(e))
    case Ok(t) =>
      if t.value != tag then Err(UnexpectedField)
      else
        match Parse(t.rest)
        case Err(e) => Err(BadVarint(e))
        case Ok(n) =>
          if n.value > |n.rest| then Err(ShortField)
          else Ok(Field(n.rest[..n.value], n.rest[n.value..]))
  }

  method ReadField(data: seq<byte>, tag: nat) returns (r: Result<Field, WireError>)
    ensures r == ParseField(data, tag)
  {
    var t := ReadVarint(data);
    if t.Err? {
      return Err(BadVarint(t.error));
    }
    if t.value.value != tag {
      return Err(UnexpectedField);
    }
    var n := ReadVarint(t.value.rest);
    if n.Err? {
      return Err(BadVarint(n.error));
    }
    var size, rest := n.value.value, n.value.rest;
    if size > |rest| {
      return Err(ShortField);
    }
    return Ok(Field(rest[..size], rest[size..]));
  }

  function EncodeField(tag: nat, value: seq<byte>): seq<byte> {
    Encode(tag) + Encode(|value|) + value
  }

  /** data starts with some encoding of the field, shortest or not. */
  ghost predicate IsField(data: seq<byte>, tag: nat, value: seq<byte>, rest: seq<byte>) {
    exists p, q ::
      IsVarint(p) && Value(p) == tag && IsVarint(q) && Value(q) == |value| && data == p + (q + (value + rest))
  }

  /** The field reader succeeds exactly on the encodings of a field with that tag, and takes exactly the field. */
  lemma FieldExactly(data: seq<byte>, tag: nat, value: seq<byte>, rest: seq<byte>)
    ensures ParseField(data, tag) == Ok(Field(value, rest)) <==> IsField(data, tag, value, rest)
  {
    if ParseField(data, tag) == Ok(Field(value, rest)) {
      ReadIsField(data, tag, value, rest);
    }
    if IsField(data, tag, value, rest) {
      FieldIsRead(data, tag, value, rest);
    }
  }

  /** A field has the wrong tag exactly if a varint of another value comes first. */
  lemma UnexpectedExactly(data: seq<byte>, tag: nat)
    ensures ParseField(data, tag) == Err(UnexpectedField) <==>
            exists p, rest :: IsVarint(p) && Value(p) != tag && data == p + rest
  {
    hide ParseFrom, IsVarint, Value;
    if Parse(data).Ok? {
      AcceptsExactly(data, Parse(data).value.value, Parse(data).value.rest);
    }
    if p, rest :| IsVarint(p) && Value(p) != tag && data == p + rest {
      AcceptsExactly(data, Value(p), rest);
    }
  }

  /** data announces more bytes than it has. */
  ghost predicate IsCutField(data: seq<byte>, tag: nat, p: seq<byte>, q: seq<byte>, rest: seq<byte>) {
    IsVarint(p) && Value(p) == tag && IsVarint(q) && Value(q) > |rest| && data == p + (q + rest)
  }

  /** A field is cut short exactly if it has its tag and its length, but not as many bytes. */
  lemma ShortExactly(data: seq<byte>, tag: nat)
    ensures ParseField(data, tag) == Err(ShortField) <==> exists p, q, rest :: IsCutField(data, tag, p, q, rest)
  {
    hide ParseFrom, IsVarint, Value;
    if ParseField(data, tag) == Err(ShortField) {
      var t := Parse(data).value;
      var n := Parse(t.rest).value;
      AcceptsExactly(data, t.value, t.rest);
      AcceptsExactly(t.rest, n.value, n.rest);
      var p :| IsVarint(p) && data == p + t.rest && Value(p) == tag;
      var q :| IsVarint(q) && t.rest == q + n.rest && Value(q) == n.value;
      assert IsCutField(data, tag, p, q, n.rest);
    }
    if p, q, rest :| IsCutField(data, tag, p, q, rest) {
      AcceptsExactly(data, tag, q + rest);
      AcceptsExactly(q + rest, Value(q), rest);
    }
  }

  lemma ReadIsField(data: seq<byte>, tag: nat, value: seq<byte>, rest: seq<byte>)
    requires ParseField(data, tag) == Ok(Field(value, rest))
    ensures IsField(data, tag, value, rest)
  {
    hide ParseFrom, IsVarint, Value;
    var t := Parse(data).value;
    AcceptsExactly(data, t.value, t.rest);
    var p :| IsVarint(p) && data == p + t.rest && Value(p) == tag;
    var n := Parse(t.rest).value;
    AcceptsExactly(t.rest, n.value, n.rest);
    var q :| IsVarint(q) && t.rest == q + n.rest && Value(q) == n.value;
    assert n.rest == value + rest;
  }

  lemma FieldIsRead(data: seq<byte>, tag: nat, value: seq<byte>, rest: seq<byte>)
    requires IsField(data, tag, value, rest)
    ensures ParseField(data, tag) == Ok(Field(value, rest))
  {
    hide ParseFrom, IsVarint, Value;
    var p, q :|
      IsVarint(p) && Value(p) == tag && IsVarint(q) && Value(q) == |value| && data == p + (q + (value + rest));
    AcceptsExactly(data, tag, q + (value + rest));
    AcceptsExactly(q + (value + rest), |value|, value + rest);
    assert (value + rest)[..|value|] == value && (value + rest)[|value|..] == rest;
  }

  lemma FieldRoundTrip(tag: nat, value: seq<byte>, rest: seq<byte>)
    requires tag < TWO_64 && |value| < TWO_64
    ensures ParseField(EncodeField(tag, value) + rest, tag) == Ok(Field(value, rest))
  {
    var inner := Encode(|value|) + (value + rest);
    assert EncodeField(tag, value) + rest == Encode(tag) + inner;
    RoundTrip(tag, inner);
    RoundTrip(|value|, value + rest);
    assert (value + rest)[..|value|] == value && (value + rest)[|value|..] == rest;
  }

  /** Bytes after a field do not change it. */
  lemma FieldExtends(data: seq<byte>, tag: nat, more: seq<byte>)
    requires ParseField(data, tag).Ok?
    ensures var f := ParseField(data, tag).value;
      ParseField(data + more, tag) == Ok(Field(f.value, f.rest + more))
  {
    hide ParseFrom;
    var t := Parse(data).value;
    ParseExtends(data, 0, more);
    ParseExtends(t.rest, 0, more);
    var n := Parse(t.rest).value;
    SplitExtends(n.rest, n.value, more);
  }

  lemma SplitExtends(s: seq<byte>, n: nat, more: seq<byte>)
    requires n <= |s|
    ensures (s + more)[..n] == s[..n] && (s + more)[n..] == s[n..] + more
  {
  }

  // ---------------------------------------------------------------------------------------------
  // The presence bitmap

  /** 128 >> j. */
  function Mask(j: nat): (mask: nat)
    requires j < 8
    ensures mask > 0
  {
    [128, 64, 32, 16, 8, 4, 2, 1][j]
  }

  /** Whether bit j of b, counted from the most significant, is set. */
  predicate BitSet(b: byte, j: nat)
    requires j < 8
  {
    b / Mask(j) % 2 == 1
  }

  function Bits(states: seq<byte>, count: nat): seq<bool>
    requires |states| == (count + 7) / 8
  {
    seq(count, i requires 0 <= i < count => BitSet(states[i / 8], i % 8))
  }

  function ParseResponse(data: seq<byte>, count: nat): Result<seq<bool>, WireError> {
    match ParseField(data, RESPONSE_TAG)
    case Err(e) => Err(e)
    case Ok(outer) =>
      if outer.rest != [] then Err(TrailingData)
      else
        match ParseField(outer.value, STATES_TAG)
        case Err(e) => Err(e)
        case Ok(inner) =>
          if inner.rest != [] || |inner.value| != (count + 7) / 8 then Err(BadBitmap)
          else Ok(Bits(inner.value, count))
  }

  method Decode(data: seq<byte>, count: nat) returns (r: Result<seq<bool>, WireError>)
    ensures r == ParseResponse(data, count)
  {
    var outer := ReadField(data, RESPONSE_TAG);
    if outer.Err? {
      return Err(outer.error);
    }
    if outer.value.rest != [] {
      return Err(TrailingData);
    }
    var inner := ReadField(outer.value.value, STATES_TAG);
    if inner.Err? {
      return Err(inner.error);
    }
    if inner.value.rest != [] || |inner.value.value| != (count + 7) / 8 {
      return Err(BadBitmap);
    }
    return Ok(Bits(inner.value.value, count));
  }

  /** data is one OnlineResponse field whose body is one bitmap field for count peers. */
  ghost predicate IsBitmap(data: seq<byte>, body: seq<byte>, states: seq<byte>, count: nat) {
    && IsField(data, RESPONSE_TAG, body, [])
    && IsField(body, STATES_TAG, states, [])
    && |states| == (count + 7) / 8
  }

  /** A response is accepted exactly when it is one OnlineResponse field holding exactly one bitmap of the right
      length, and then it answers with its bits in order. */
  lemma ResponseExactly(data: seq<byte>, count: nat, result: seq<bool>)
    ensures ParseResponse(data, count) == Ok(result) <==>
      exists body, states :: IsBitmap(data, body, states, count) && result == Bits(states, count)
  {
    if ParseResponse(data, count) == Ok(result) {
      var body := ParseField(data, RESPONSE_TAG).value.value;
      var states := ParseField(body, STATES_TAG).value.value;
      FieldExactly(data, RESPONSE_TAG, body, []);
      FieldExactly(body, STATES_TAG, states, []);
      assert IsBitmap(data, body, states, count);
    }
    if body, states :| IsBitmap(data, body, states, count) && result == Bits(states, count) {
      FieldExactly(data, RESPONSE_TAG, body, []);
      FieldExactly(body, STATES_TAG, states, []);
    }
  }

  /** Accepted responses for one count are prefix-free. */
  lemma ResponsesPrefixFree(data: seq<byte>, more: seq<byte>, count: nat)
    requires ParseResponse(data, count).Ok? && ParseResponse(data + more, count).Ok?
    ensures more == []
  {
    FieldExtends(data, RESPONSE_TAG, more);
    assert [] + more == more;
  }

  // The encoder of the protocol, to state what decoding inverts.

  function Bit(bits: seq<bool>, i: nat): nat {
    if i < |bits| && bits[i] then 1 else 0
  }

  /** Eight presence bits from position i, most significant first, padded with zeros. */
  function PackByte(bits: seq<bool>, i: nat): byte {
    128 * Bit(bits, i) + 64 * Bit(bits, i + 1) + 32 * Bit(bits, i + 2) + 16 * Bit(bits, i + 3) +
    8 * Bit(bits, i + 4) + 4 * Bit(bits, i + 5) + 2 * Bit(bits, i + 6) + Bit(bits, i + 7)
  }

  function Pack(bits: seq<bool>): seq<byte> {
    seq((|bits| + 7) / 8, k requires 0 <= k < (|bits| + 7) / 8 => PackByte(bits, 8 * k))
  }

  function EncodeResponse(bits: seq<bool>): seq<byte> {
    EncodeField(RESPONSE_TAG, EncodeField(STATES_TAG, Pack(bits)))
  }

  /** The bytes of the protocol's response: field 24 of the message, tag 0xc2 0x01, holds field 1, tag 0x0a, with the
      bitmap. */
  lemma ResponseBytes(bits: seq<bool>)
    ensures var body: seq<byte> := [0x0a] + Encode(|Pack(bits)|) + Pack(bits);
      EncodeResponse(bits) == [0xc2, 0x01] + Encode(|body|) + body
    ensures |Pack(bits)| == (|bits| + 7) / 8
  {
    assert Encode(STATES_TAG) == [0x0a];
    assert Encode(1) == [1] && Encode(RESPONSE_TAG) == [0xc2] + Encode(1);
  }

  function Weighed(bit: bool, weight: nat): nat {
    if bit then weight else 0
  }

  /** Bit 0 is the most significant: the eight bits, weighed from 128 down to 1, make up the byte. */
  lemma BitsMakeByte(b: byte)
    ensures b == Weighed(BitSet(b, 0), 128) + Weighed(BitSet(b, 1), 64) + Weighed(BitSet(b, 2), 32) +
                 Weighed(BitSet(b, 3), 16) + Weighed(BitSet(b, 4), 8) + Weighed(BitSet(b, 5), 4) +
                 Weighed(BitSet(b, 6), 2) + Weighed(BitSet(b, 7), 1)
  {
    NumberBits(b);
    BitWeight(b, 0, 128);
    BitWeight(b, 1, 64);
    BitWeight(b, 2, 32);
    BitWeight(b, 3, 16);
    BitWeight(b, 4, 8);
    BitWeight(b, 5, 4);
    BitWeight(b, 6, 2);
    BitWeight(b, 7, 1);
    hide BitSet, Mask, Weighed;
  }

  lemma BitWeight(b: byte, j: nat, weight: nat)
    requires j < 8 && weight == [128, 64, 32, 16, 8, 4, 2, 1][j]
    ensures Weighed(BitSet(b, j), weight) == weight * (b / weight % 2)
  {
  }

  lemma NumberBits(b: nat)
    requires b < 256
    ensures b == 128 * (b / 128 % 2) + 64 * (b / 64 % 2) + 32 * (b / 32 % 2) + 16 * (b / 16 % 2) + 8 * (b / 8 % 2) +
                 4 * (b / 4 % 2) + 2 * (b / 2 % 2) + b / 1 % 2
  {
    Halving(b, b / 2);
    Halving(b / 2, b / 4);
    Halving(b / 4, b / 8);
    Halving(b / 8, b / 16);
    Halving(b / 16, b / 32);
    Halving(b / 32, b / 64);
    Halving(b / 64, b / 128);
    Halving(b / 128, 0);
  }

  lemma Halving(n: nat, half: nat)
    requires half == n / 2
    ensures n == 2 * half + n % 2
  {
  }

  lemma PackedBit(bits: seq<bool>, i: nat, j: nat)
    requires j < 8
    ensures BitSet(PackByte(bits, i), j) <==> Bit(bits, i + j) == 1
  {
    var b0, b1, b2, b3 := Bit(bits, i), Bit(bits, i + 1), Bit(bits, i + 2), Bit(bits, i + 3);
    var b4, b5, b6, b7 := Bit(bits, i + 4), Bit(bits, i + 5), Bit(bits, i + 6), Bit(bits, i + 7);
    ByteBits(b0, b1, b2, b3, b4, b5, b6, b7);
  }

  lemma ByteBits(b0: nat, b1: nat, b2: nat, b3: nat, b4: nat, b5: nat, b6: nat, b7: nat)
    requires b0 <= 1 && b1 <= 1 && b2 <= 1 && b3 <= 1 && b4 <= 1 && b5 <= 1 && b6 <= 1 && b7 <= 1
    ensures var b := 128 * b0 + 64 * b1 + 32 * b2 + 16 * b3 + 8 * b4 + 4 * b5 + 2 * b6 + b7;
      && b / 128 % 2 == b0 && b / 64 % 2 == b1 && b / 32 % 2 == b2 && b / 16 % 2 == b3
      && b / 8 % 2 == b4 && b / 4 % 2 == b5 && b / 2 % 2 == b6 && b / 1 % 2 == b7
  {
    var b := 128 * b0 + 64 * b1 + 32 * b2 + 16 * b3 + 8 * b4 + 4 * b5 + 2 * b6 + b7;
    assert b / 2 == 64 * b0 + 32 * b1 + 16 * b2 + 8 * b3 + 4 * b4 + 2 * b5 + b6;
    assert b / 4 == 32 * b0 + 16 * b1 + 8 * b2 + 4 * b3 + 2 * b4 + b5;
    assert b / 8 == 16 * b0 + 8 * b1 + 4 * b2 + 2 * b3 + b4;
    assert b / 16 == 8 * b0 + 4 * b1 + 2 * b2 + b3;
    assert b / 32 == 4 * b0 + 2 * b1 + b2;
    assert b / 64 == 2 * b0 + b1;
  }

  lemma BitsOfPack(bits: seq<bool>)
    ensures Bits(Pack(bits), |bits|) == bits
  {
    hide PackByte, BitSet;
    var states := Pack(bits);
    forall i | 0 <= i < |bits| ensures Bits(states, |bits|)[i] == bits[i] {
      PackedBit(bits, 8 * (i / 8), i % 8);
      assert states[i / 8] == PackByte(bits, 8 * (i / 8));
    }
  }

  /** Decoding the encoding of any presence vector gives the vector. */
  lemma DecodeInvertsEncode(bits: seq<bool>)
    requires Addressable(|bits|)
    ensures ParseResponse(EncodeResponse(bits), |bits|) == Ok(bits)
  {
    var states := Pack(bits);
    var body := EncodeField(STATES_TAG, states);
    RoundTrip(STATES_TAG, []);
    RoundTrip(|states|, []);
    assert |body| < TWO_64;
    hide EncodeField, ParseField, Pack;
    FieldRoundTrip(RESPONSE_TAG, body, []);
    FieldRoundTrip(STATES_TAG, states, []);
    assert EncodeResponse(bits) + [] == EncodeResponse(bits) && body + [] == body;
    BitsOfPack(bits);
  }

  // ---------------------------------------------------------------------------------------------
  // Frames

  /** Little-endian bytes of n. */
  function LittleEndian(n: nat, width: nat): seq<byte> {
    if width == 0 then [] else [n % 256] + LittleEndian(n / 256, width - 1)
  }

  function FromLittleEndian(bytes: seq<byte>): nat {
    if bytes == [] then 0 else bytes[0] + 256 * FromLittleEndian(bytes[1..])
  }

  function Pow256(k: nat): (p: nat)
    ensures p > 0
  {
    if k == 0 then 1 else 256 * Pow256(k - 1)
  }

  lemma {:induction false} LittleEndianRoundTrip(n: nat, width: nat)
    requires n < Pow256(width)
    ensures |LittleEndian(n, width)| == width && FromLittleEndian(LittleEndian(n, width)) == n
    ensures width > 0 ==> LittleEndian(n, width)[0] == n % 256
  {
    if width > 0 {
      LittleEndianRoundTrip(n / 256, width - 1);
      assert LittleEndian(n, width)[1..] == LittleEndian(n / 256, width - 1);
    }
  }

  /** The frame header of a payload of length n: the length above two bits that hold the header's width less one. */
  function Header(n: nat, width: nat): seq<byte>
    requires 1 <= width <= 4
  {
    LittleEndian(4 * n + width - 1, width)
  }

  datatype Frame = Frame(payload: seq<byte>, rest: seq<byte>)

  function ParseFrame(stream: seq<byte>, limit: nat): Result<Frame, WireError> {
    if stream == [] then Err(ShortStream)
    else
      var width := stream[0] % 4 + 1;
      if |stream| < width then Err(ShortStream)
      else
        var size := FromLittleEndian(stream[..width]) / 4;
        if size > limit then Err(ResponseTooLarge)
        else if |stream| - width < size then Err(ShortStream)
        else Ok(Frame(stream[width..width + size], stream[width + size..]))
  }

  /** The header reader recovers the payload for every header width that can hold its length. */
  lemma FrameRoundTrip(payload: seq<byte>, width: nat, rest: seq<byte>, limit: nat)
    requires 1 <= width <= 4 && 4 * |payload| + width - 1 < Pow256(width) && |payload| <= limit
    ensures ParseFrame(Header(|payload|, width) + payload + rest, limit) == Ok(Frame(payload, rest))
  {
    hide Header, FromLittleEndian, Pow256;
    HeaderRoundTrip(|payload|, width);
    var header := Header(|payload|, width);
    SplitThree(header, payload, rest);
    assert (header + payload + rest)[0] == header[0];
  }

  /** Header width and length are read back from the header for all four widths. */
  lemma HeaderRoundTrip(n: nat, width: nat)
    requires 1 <= width <= 4 && 4 * n + width - 1 < Pow256(width)
    ensures var header := Header(n, width);
      |header| == width && header[0] % 4 + 1 == width && FromLittleEndian(header) / 4 == n
  {
    hide LittleEndian, FromLittleEndian, Pow256;
    LittleEndianRoundTrip(4 * n + width - 1, width);
  }

  lemma SplitThree(a: seq<byte>, b: seq<byte>, c: seq<byte>)
    ensures (a + b + c)[..|a|] == a
    ensures (a + b + c)[|a|..|a| + |b|] == b
    ensures (a + b + c)[|a| + |b|..] == c
  {
  }

  lemma LowByte(low: byte, high: nat)
    ensures (low + 256 * high) % 256 == low && (low + 256 * high) / 256 == high
  {
  }

  /** The bytes are the little-endian form of the number they stand for, which fits in their width. */
  lemma {:induction false} FromLittleEndianInverse(bytes: seq<byte>)
    ensures FromLittleEndian(bytes) < Pow256(|bytes|)
    ensures LittleEndian(FromLittleEndian(bytes), |bytes|) == bytes
  {
    if bytes != [] {
      var n, more := bytes[0], FromLittleEndian(bytes[1..]);
      FromLittleEndianInverse(bytes[1..]);
      LowByte(n, more);
      assert FromLittleEndian(bytes) == n + 256 * more;
      assert LittleEndian(n + 256 * more, |bytes|) == [n] + LittleEndian(more, |bytes| - 1);
      assert bytes == [n] + bytes[1..];
    }
  }

  /** The stream is a header for the payload, the payload, and more. */
  ghost predicate IsFrame(stream: seq<byte>, f: Frame, width: nat) {
    && 1 <= width <= 4 && 4 * |f.payload| + width - 1 < Pow256(width)
    && stream == Header(|f.payload|, width) + f.payload + f.rest
  }

  /** A frame is accepted exactly if it is a header of some width, then as many bytes as it says, within the limit. */
  lemma FrameExactly(stream: seq<byte>, limit: nat, f: Frame)
    ensures ParseFrame(stream, limit) == Ok(f) <==> |f.payload| <= limit && exists width :: IsFrame(stream, f, width)
  {
    if ParseFrame(stream, limit) == Ok(f) {
      var width := stream[0] % 4 + 1;
      var header := stream[..width];
      FromLittleEndianInverse(header);
      FirstByteLow(header);
      assert header[0] == stream[0];
      var n := FromLittleEndian(header);
      assert n == 4 * (n / 4) + width - 1;
      assert stream == header + f.payload + f.rest;
      assert IsFrame(stream, f, width);
    }
    if width: nat :| |f.payload| <= limit && IsFrame(stream, f, width) {
      FrameRoundTrip(f.payload, width, f.rest, limit);
    }
  }

  lemma FirstByteLow(bytes: seq<byte>)
    requires bytes != []
    ensures FromLittleEndian(bytes) % 4 == bytes[0] % 4
  {
    var more := FromLittleEndian(bytes[1..]);
    assert FromLittleEndian(bytes) == bytes[0] + 4 * (64 * more);
  }

  /** query's reading of a frame: one byte, the rest of the header, then as many bytes as it says. */
  method ReadFrame(stream: seq<byte>, limit: nat) returns (r: Result<Frame, WireError>)
    ensures r == ParseFrame(stream, limit)
  {
    if |stream| < 1 {
      return Err(ShortStream);
    }
    var width := stream[0] % 4 + 1;
    if |stream| < width {
      return Err(ShortStream);
    }
    var size := FromLittleEndian(stream[..width]) / 4;
    if size > limit {
      return Err(ResponseTooLarge);
    }
    if |stream| - width < size {
      return Err(ShortStream);
    }
    return Ok(Frame(stream[width..width + size], stream[width + size..]));
  }

  // ---------------------------------------------------------------------------------------------
  // The request

  function Peers(ids: seq<PeerId>): seq<byte> {
    if ids == [] then [] else Peers(ids[..|ids| - 1]) + EncodeField(PEERS_TAG, ids[|ids| - 1])
  }

  function Payload(ids: seq<PeerId>): seq<byte> {
    EncodeField(REQUEST_TAG, Peers(ids))
  }

  method AppendPeer(id: PeerId, peers: seq<byte>) returns (peers': seq<byte>)
    ensures peers' == peers + EncodeField(PEERS_TAG, id)
  {
    PeersTag();
    peers' := peers + [18];
    peers' := WriteVarint(|id|, peers');
    peers' := peers' + id;
  }

  /** The bytes query sends: a two-byte header and the payload, unless the payload is too large. */
  method BuildRequest(ids: seq<PeerId>) returns (r: Result<seq<byte>, WireError>)
    ensures r == if |Payload(ids)| <= MAX_REQUEST then Ok(Header(|Payload(ids)|, 2) + Payload(ids))
                 else Err(RequestTooLarge)
  {
    hide Encode, Header;
    var peers: seq<byte> := [];
    for i := 0 to |ids|
      invariant peers == Peers(ids[..i])
    {
      hide EncodeField;
      assert ids[..i + 1][..i] == ids[..i];
      peers := AppendPeer(ids[i], peers);
    }
    assert ids[..|ids|] == ids;
    var payload: seq<byte> := [0xba, 1];
    RequestTag();
    payload := WriteVarint(|peers|, payload);
    payload := payload + peers;
    if |payload| > MAX_REQUEST {
      return Err(RequestTooLarge);
    }
    var header := (|payload| * 4 + 1) % 0x1_0000;
    HeaderBytes(|payload|);
    return Ok([header % 256, header / 256] + payload);
  }

  lemma PeersTag()
    ensures Encode(PEERS_TAG) == [18]
  {
  }

  lemma RequestTag()
    ensures Encode(REQUEST_TAG) == [0xba, 1]
  {
    assert Encode(1) == [1];
  }

  /** Under the size check the u16 header neither overflows nor loses bits. */
  lemma HeaderBytes(n: nat)
    requires n <= MAX_REQUEST
    ensures n * 4 + 1 < 0x1_0000
    ensures Header(n, 2) == [(n * 4 + 1) % 256, (n * 4 + 1) / 256]
  {
    var h := 4 * n + 1;
    assert LittleEndian(h / 256, 1) == [h / 256 % 256] + LittleEndian(h / 256 / 256, 0);
  }

  /** The id list as hbbs reads it: field 2, again and again. */
  function ParsePeers(data: seq<byte>): Result<seq<PeerId>, WireError>
    decreases |data|
  {
    if data == [] then Ok([])
    else
      match ParseField(data, PEERS_TAG)
      case Err(e) => Err(e)
      case Ok(f) =>
        if |f.rest| >= |data| then Err(UnexpectedField)
        else
          match ParsePeers(f.rest)
          case Err(e) => Err(e)
          case Ok(ids) => Ok([f.value] + ids)
  }

  function ParseRequest(stream: seq<byte>): Result<seq<PeerId>, WireError> {
    match ParseFrame(stream, MAX_REQUEST)
    case Err(e) => Err(e)
    case Ok(frame) =>
      match ParseField(frame.payload, REQUEST_TAG)
      case Err(e) => Err(e)
      case Ok(f) => if frame.rest != [] || f.rest != [] then Err(TrailingData) else ParsePeers(f.value)
  }

  lemma Associate(a: seq<byte>, b: seq<byte>, c: seq<byte>)
    ensures (a + b) + c == a + (b + c)
  {
  }

  lemma {:induction false} PeersCons(id: PeerId, ids: seq<PeerId>)
    ensures Peers([id] + ids) == EncodeField(PEERS_TAG, id) + Peers(ids)
  {
    hide EncodeField;
    if ids == [] {
      assert [id] + ids == [id] && [id][..0] == [];
      assert [] + EncodeField(PEERS_TAG, id) == EncodeField(PEERS_TAG, id) + [];
    } else {
      var n := |ids| - 1;
      assert ([id] + ids)[..|ids|] == [id] + ids[..n];
      PeersCons(id, ids[..n]);
      Associate(EncodeField(PEERS_TAG, id), Peers(ids[..n]), EncodeField(PEERS_TAG, ids[n]));
    }
  }

  lemma {:induction false} PeersRoundTrip(ids: seq<PeerId>)
    requires forall i :: 0 <= i < |ids| ==> Addressable(|ids[i]|)
    ensures ParsePeers(Peers(ids)) == Ok(ids)
  {
    if ids != [] {
      var id, rest := ids[0], ids[1..];
      assert ids == [id] + rest;
      PeersCons(id, rest);
      FieldRoundTrip(PEERS_TAG, id, Peers(rest));
      PeersRoundTrip(rest);
    }
  }

  /** The framed request parses back to exactly the ids it was built from. */
  lemma RequestRoundTrip(ids: seq<PeerId>)
    requires forall i :: 0 <= i < |ids| ==> Addressable(|ids[i]|)
    requires |Payload(ids)| <= MAX_REQUEST
    ensures ParseRequest(Header(|Payload(ids)|, 2) + Payload(ids)) == Ok(ids)
  {
    var payload, peers := Payload(ids), Peers(ids);
    assert Pow256(2) == 0x1_0000 by {
      assert Pow256(1) == 256;
    }
    FrameRoundTrip(payload, 2, [], MAX_REQUEST);
    assert Header(|payload|, 2) + payload + [] == Header(|payload|, 2) + payload;
    FieldRoundTrip(REQUEST_TAG, peers, []);
    assert payload + [] == payload;
    PeersRoundTrip(ids);
  }

  // ---------------------------------------------------------------------------------------------
  // Which batches fit

  lemma PayloadLength(ids: seq<PeerId>)
    ensures |Payload(ids)| == 2 + |Encode(|Peers(ids)|)| + |Peers(ids)|
  {
    RequestTag();
  }

  /** A request fits exactly when its id fields take at most 16379 bytes. */
  lemma FitsExactly(ids: seq<PeerId>)
    ensures |Payload(ids)| <= MAX_REQUEST <==> |Peers(ids)| <= 16379
  {
    var n := |Peers(ids)|;
    PayloadLength(ids);
    if 128 <= n < 16384 {
      assert Encode(n) == [n % 128 + 128, n / 128];
    }
  }

  lemma {:induction false} PeersLength(ids: seq<PeerId>, most: nat)
    requires most < 128
    ensures (forall i :: 0 <= i < |ids| ==> |ids[i]| <= most) ==> |Peers(ids)| <= |ids| * (most + 2)
    ensures (forall i :: 0 <= i < |ids| ==> |ids[i]| == most) ==> |Peers(ids)| == |ids| * (most + 2)
  {
    if ids != [] {
      PeersLength(ids[..|ids| - 1], most);
      PeersTag();
      assert |ids| * (most + 2) == (|ids| - 1) * (most + 2) + (most + 2);
    }
  }

  /** A batch of ids of at most 125 bytes always fits; a full batch of 126-byte ids never does. */
  lemma BatchFits(ids: seq<PeerId>)
    requires |ids| <= 128
    ensures (forall i :: 0 <= i < |ids| ==> |ids[i]| <= 125) ==> |Payload(ids)| <= MAX_REQUEST
    ensures |ids| == 128 && (forall i :: 0 <= i < 128 ==> |ids[i]| == 126) ==> |Payload(ids)| > MAX_REQUEST
  {
    FitsExactly(ids);
    PeersLength(ids, 125);
    PeersLength(ids, 126);
  }

  // ---------------------------------------------------------------------------------------------
  // The answer

  /** What query makes of the bytes that hbbs sends back for count ids. */
  function ParseAnswer(stream: seq<byte>, count: nat): Result<seq<bool>, WireError> {
    match ParseFrame(stream, MAX_RESPONSE)
    case Err(e) => Err(e)
    case Ok(frame) => ParseResponse(frame.payload, count)
  }

  method ReadAnswer(stream: seq<byte>, count: nat) returns (r: Result<seq<bool>, WireError>)
    ensures r == ParseAnswer(stream, count)
  {
    var frame := ReadFrame(stream, MAX_RESPONSE);
    if frame.Err? {
      return Err(frame.error);
    }
    r := Decode(frame.value.payload, count);
  }

  /** An answer is too large exactly when its header is complete and announces more than 4096 bytes. */
  lemma TooLargeExactly(stream: seq<byte>, count: nat)
    ensures ParseAnswer(stream, count) == Err(ResponseTooLarge) <==>
            stream != [] && |stream| >= stream[0] % 4 + 1 &&
            FromLittleEndian(stream[..stream[0] % 4 + 1]) / 4 > 4096
  {
    if stream != [] && ParseFrame(stream, MAX_RESPONSE).Ok? {
      NeverTooLarge(ParseFrame(stream, MAX_RESPONSE).value.payload, count);
    }
  }

  lemma NeverTooLarge(data: seq<byte>, count: nat)
    ensures ParseResponse(data, count) != Err(ResponseTooLarge)
  {
    hide Parse;
  }

  /** hbbs's framed answer is understood for every count whose response is within the limit and the header. */
  lemma AnswerRoundTrip(bits: seq<bool>, width: nat, rest: seq<byte>)
    requires |EncodeResponse(bits)| <= MAX_RESPONSE && Addressable(|bits|)
    requires 1 <= width <= 4 && 4 * |EncodeResponse(bits)| + width - 1 < Pow256(width)
    ensures ParseAnswer(Header(|EncodeResponse(bits)|, width) + EncodeResponse(bits) + rest, |bits|) == Ok(bits)
  {
    FrameRoundTrip(EncodeResponse(bits), width, rest, MAX_RESPONSE);
    DecodeInvertsEncode(bits);
  }
}
