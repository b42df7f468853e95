/** The check of a model file: a header, then a walk over its metadata records. */
module Gguf {
  import opened Bytes
  import opened Wrappers

  const U64: nat := 0x1_0000_0000_0000_0000
  const MAGIC: seq<byte> := [0x47, 0x47, 0x55, 0x46]

  datatype Error =
    | FileTooSmall | BadMagic | BadVersion(version: nat) | UnexpectedEnd
    | PairBeyondFile | TypeOutOfBounds | StringOutOfBounds | ArrayOutOfBounds
    | UnknownType(tag: nat) | PairExceedsFile | Overflow

  datatype Result<+T> = Ok(value: T) | Err(error: Error)

  datatype Header = Header(version: nat, tensorCount: nat, pairCount: nat, totalSize: nat)

  // ---- The format: what a writer puts into the file

  /** An array's elements are taken to be four bytes each, whatever their type. */
  datatype Value =
    | Fixed(tag: nat, payload: seq<byte>)
    | Text(payload: seq<byte>)
    | Words(elementTag: nat, count: nat, payload: seq<byte>)

  datatype Pair = Pair(key: seq<byte>, value: Value)

  /** The width of a scalar type; zero for a string, an array or an unknown type. */
  function FixedWidth(tag: nat): nat {
    match tag
    case 0 => 1 case 1 => 1 case 7 => 1
    case 2 => 2 case 3 => 2 case 13 => 2 case 14 => 2
    case 4 => 4 case 5 => 4 case 6 => 4
    case 10 => 8 case 11 => 8 case 12 => 8
    case _ => 0
  }

  predicate ValidValue(v: Value) {
    match v
    case Fixed(tag, payload) => FixedWidth(tag) > 0 && |payload| == FixedWidth(tag)
    case Text(payload) => |payload| < U64
    case Words(elementTag, count, payload) =>
      elementTag < 0x1_0000_0000 && count < U64 && |payload| == 4 * count
  }

  predicate ValidPair(p: Pair) {
    |p.key| < U64 && ValidValue(p.value)
  }

  function Tag(v: Value): nat {
    match v
    case Fixed(tag, _) => tag
    case Text(_) => 8
    case Words(_, _, _) => 9
  }

  function EncodeValue(v: Value): seq<byte> {
    match v
    case Fixed(_, payload) => payload
    case Text(payload) => ToLE(|payload|, 8) + payload
    case Words(elementTag, count, payload) => ToLE(elementTag, 4) + (ToLE(count, 8) + payload)
  }

  function EncodePair(p: Pair): seq<byte> {
    ToLE(|p.key|, 8) + (p.key + (ToLE(Tag(p.value), 4) + EncodeValue(p.value)))
  }

  function EncodeAll(pairs: seq<Pair>): seq<byte> {
    if pairs == [] then [] else EncodePair(pairs[0]) + EncodeAll(pairs[1..])
  }

  function EncodeHeader(version: nat, tensors: nat, pairCount: nat): (b: seq<byte>)
    ensures |b| == 24
  {
    MAGIC + (ToLE(version, 4) + (ToLE(tensors, 8) + ToLE(pairCount, 8)))
  }

  /** The file starts with such a header and exactly these metadata pairs; anything may follow. */
  ghost predicate Represents(data: seq<byte>, version: nat, tensors: nat, pairs: seq<Pair>) {
    && 1 <= version <= 3 && tensors < U64 && |pairs| < U64
    && (forall p | p in pairs :: ValidPair(p))
    && EncodeHeader(version, tensors, |pairs|) + EncodeAll(pairs) <= data
  }

  /** The scalar types by name. */
  datatype ScalarType =
    | Uint8 | Int8 | Uint16 | Int16 | Uint32 | Int32 | Float32 | Bool
    | Uint64 | Int64 | Float64 | Float16 | BrainFloat16

  /** A scalar as a writer lays it out: the tag of its type, and its bits in little-endian order. */
  function Written(t: ScalarType, bits: nat): Value {
    match t
    case Uint8 => Fixed(0, ToLE(bits, 1))
    case Int8 => Fixed(1, ToLE(bits, 1))
    case Uint16 => Fixed(2, ToLE(bits, 2))
    case Int16 => Fixed(3, ToLE(bits, 2))
    case Uint32 => Fixed(4, ToLE(bits, 4))
    case Int32 => Fixed(5, ToLE(bits, 4))
    case Float32 => Fixed(6, ToLE(bits, 4))
    case Bool => Fixed(7, ToLE(bits, 1))
    case Uint64 => Fixed(10, ToLE(bits, 8))
    case Int64 => Fixed(11, ToLE(bits, 8))
    case Float64 => Fixed(12, ToLE(bits, 8))
    case Float16 => Fixed(13, ToLE(bits, 2))
    case BrainFloat16 => Fixed(14, ToLE(bits, 2))
  }

  ghost predicate IsScalar(v: Value) {
    exists t, bits :: v == Written(t, bits)
  }

  function TypeOf(tag: nat): ScalarType {
    match tag
    case 0 => Uint8 case 1 => Int8 case 2 => Uint16 case 3 => Int16 case 4 => Uint32 case 5 => Int32
    case 6 => Float32 case 7 => Bool case 10 => Uint64 case 11 => Int64 case 12 => Float64 case 13 => Float16
    case _ => BrainFloat16
  }

  /** The values of fixed width are the scalars, no more and no less. */
  lemma FixedAreScalars(tag: nat, payload: seq<byte>)
    ensures ValidValue(Fixed(tag, payload)) <==> IsScalar(Fixed(tag, payload))
  {
    hide ToLE, FromLE;
    RoundTripBytes(payload);
    if ValidValue(Fixed(tag, payload)) {
      assert Fixed(tag, payload) == Written(TypeOf(tag), FromLE(payload));
    }
  }

  // ---- Reading at an offset

  /** The bytes `b` stand at `pos`. */
  ghost predicate At(data: seq<byte>, pos: nat, b: seq<byte>) {
    pos + |b| <= |data| && data[pos..pos + |b|] == b
  }

  function Number(data: seq<byte>, pos: nat, k: nat): nat
    requires pos + k <= |data|
  {
    FromLE(data[pos..pos + k])
  }

  lemma AtSplits(data: seq<byte>, pos: nat, a: seq<byte>, b: seq<byte>)
    ensures At(data, pos, a + b) <==> At(data, pos, a) && At(data, pos + |a|, b)
  {
    if pos + |a| + |b| <= |data| {
      var whole := data[pos..pos + |a| + |b|];
      assert whole == data[pos..pos + |a|] + data[pos + |a|..pos + |a| + |b|];
      assert (a + b)[..|a|] == a && (a + b)[|a|..] == b;
      assert whole[..|a|] == data[pos..pos + |a|] && whole[|a|..] == data[pos + |a|..pos + |a| + |b|];
    }
  }

  lemma Widths()
    ensures Pow256(4) == 0x1_0000_0000 && Pow256(8) == U64
  {
    assert Pow256(2) == 0x1_0000;
    assert Pow256(4) == 0x1_0000_0000;
    assert Pow256(6) == 0x1_0000_0000_0000;
  }

  lemma NumberWritten(data: seq<byte>, pos: nat, n: nat, k: nat)
    requires At(data, pos, ToLE(n, k)) && n < Pow256(k)
    ensures Number(data, pos, k) == n
  {
    RoundTripLE(n, k);
  }

  lemma NumberRead(data: seq<byte>, pos: nat, k: nat)
    requires pos + k <= |data|
    ensures Number(data, pos, k) < Pow256(k) && At(data, pos, ToLE(Number(data, pos, k), k))
  {
    FromLEBound(data[pos..pos + k]);
    RoundTripBytes(data[pos..pos + k]);
  }

  // ---- Where a record ends, as the walk computes it

  function ValueSize(data: seq<byte>, pos: nat, tag: nat): Option<nat> {
    if FixedWidth(tag) > 0 then Some(FixedWidth(tag))
    else if tag == 8 then
      if pos + 8 > |data| then None else Some(8 + Number(data, pos, 8))
    else if tag == 9 then
      if pos + 12 > |data| then None else Some(12 + 4 * Number(data, pos + 4, 8))
    else None
  }

  function RecordEnd(data: seq<byte>, pos: nat): (end: Option<nat>)
    ensures end.Some? ==> pos < end.value <= |data|
  {
    if pos + 8 > |data| then None
    else
      var keyEnd := pos + 8 + Number(data, pos, 8);
      if keyEnd + 4 > |data| then None
      else
        var size := ValueSize(data, keyEnd + 4, Number(data, keyEnd, 4));
        if size.None? || keyEnd + 4 + size.value > |data| then None else Some(keyEnd + 4 + size.value)
  }

  function Walk(data: seq<byte>, count: nat, pos: nat): Option<nat> {
    if count == 0 then Some(pos)
    else
      var end := RecordEnd(data, pos);
      if end.None? then None else Walk(data, count - 1, end.value)
  }

  // ---- The walk recognises exactly the encodings

  lemma ValueSizeOfEncoding(data: seq<byte>, pos: nat, v: Value)
    requires ValidValue(v) && At(data, pos, EncodeValue(v))
    ensures ValueSize(data, pos, Tag(v)) == Some(|EncodeValue(v)|)
  {
    Widths();
    match v
    case Fixed(tag, payload) =>
    case Text(payload) =>
      AtSplits(data, pos, ToLE(|payload|, 8), payload);
      NumberWritten(data, pos, |payload|, 8);
    case Words(elementTag, count, payload) =>
      AtSplits(data, pos, ToLE(elementTag, 4), ToLE(count, 8) + payload);
      AtSplits(data, pos + 4, ToLE(count, 8), payload);
      NumberWritten(data, pos + 4, count, 8);
  }

  lemma RecordEndOfEncoding(data: seq<byte>, pos: nat, p: Pair)
    requires ValidPair(p) && At(data, pos, EncodePair(p))
    ensures RecordEnd(data, pos) == Some(pos + |EncodePair(p)|)
  {
    hide ToLE, FromLE, Number, Pow256, ValueSize, EncodeValue;
    Widths();
    var v := EncodeValue(p.value);
    var keyEnd := pos + 8 + |p.key|;
    AtSplits(data, pos, ToLE(|p.key|, 8), p.key + (ToLE(Tag(p.value), 4) + v));
    AtSplits(data, pos + 8, p.key, ToLE(Tag(p.value), 4) + v);
    AtSplits(data, keyEnd, ToLE(Tag(p.value), 4), v);
    NumberWritten(data, pos, |p.key|, 8);
    NumberWritten(data, keyEnd, Tag(p.value), 4);
    ValueSizeOfEncoding(data, keyEnd + 4, p.value);
  }

  function ValueAt(data: seq<byte>, pos: nat, tag: nat): Value
    requires ValueSize(data, pos, tag).Some? && pos + ValueSize(data, pos, tag).value <= |data|
  {
    var end := pos + ValueSize(data, pos, tag).value;
    if FixedWidth(tag) > 0 then Fixed(tag, data[pos..end])
    else if tag == 8 then Text(data[pos + 8..end])
    else Words(Number(data, pos, 4), Number(data, pos + 4, 8), data[pos + 12..end])
  }

  lemma StringIsEncoded(data: seq<byte>, pos: nat, end: nat)
    requires pos + 8 <= |data| && end == pos + 8 + Number(data, pos, 8) <= |data|
    ensures var v := Text(data[pos + 8..end]);
      ValidValue(v) && At(data, pos, EncodeValue(v)) && |EncodeValue(v)| == end - pos
  {
    hide ToLE, FromLE, Number, Pow256;
    Widths();
    NumberRead(data, pos, 8);
    AtSplits(data, pos, ToLE(Number(data, pos, 8), 8), data[pos + 8..end]);
  }

  lemma ArrayIsEncoded(data: seq<byte>, pos: nat, end: nat)
    requires pos + 12 <= |data| && end == pos + 12 + 4 * Number(data, pos + 4, 8) <= |data|
    ensures var v := Words(Number(data, pos, 4), Number(data, pos + 4, 8), data[pos + 12..end]);
      ValidValue(v) && At(data, pos, EncodeValue(v)) && |EncodeValue(v)| == end - pos
  {
    hide ToLE, FromLE, Number, Pow256;
    Widths();
    var (elementTag, count) := (Number(data, pos, 4), Number(data, pos + 4, 8));
    NumberRead(data, pos, 4);
    NumberRead(data, pos + 4, 8);
    AtSplits(data, pos, ToLE(elementTag, 4), ToLE(count, 8) + data[pos + 12..end]);
    AtSplits(data, pos + 4, ToLE(count, 8), data[pos + 12..end]);
  }

  lemma ValueIsEncoded(data: seq<byte>, pos: nat, tag: nat)
    requires ValueSize(data, pos, tag).Some? && pos + ValueSize(data, pos, tag).value <= |data|
    ensures var v := ValueAt(data, pos, tag);
      && ValidValue(v) && Tag(v) == tag
      && At(data, pos, EncodeValue(v)) && |EncodeValue(v)| == ValueSize(data, pos, tag).value
  {
    hide EncodeValue, Number, ValidValue;
    var end := pos + ValueSize(data, pos, tag).value;
    if FixedWidth(tag) > 0 {
      ScalarIsEncoded(data, pos, tag);
    } else if tag == 8 {
      StringIsEncoded(data, pos, end);
    } else {
      ArrayIsEncoded(data, pos, end);
    }
  }

  lemma ScalarIsEncoded(data: seq<byte>, pos: nat, tag: nat)
    requires FixedWidth(tag) > 0 && pos + FixedWidth(tag) <= |data|
    ensures var v := Fixed(tag, data[pos..pos + FixedWidth(tag)]);
      ValidValue(v) && At(data, pos, EncodeValue(v)) && |EncodeValue(v)| == FixedWidth(tag)
  {}

  lemma RecordIsEncoded(data: seq<byte>, pos: nat) returns (p: Pair)
    requires RecordEnd(data, pos).Some?
    ensures ValidPair(p) && At(data, pos, EncodePair(p)) && RecordEnd(data, pos).value == pos + |EncodePair(p)|
  {
    hide ToLE, FromLE, Number, Pow256, ValueSize, ValidValue, EncodeValue, ValueAt;
    Widths();
    var keyLength := Number(data, pos, 8);
    var keyEnd := pos + 8 + keyLength;
    var tag := Number(data, keyEnd, 4);
    p := Pair(data[pos + 8..keyEnd], ValueAt(data, keyEnd + 4, tag));
    NumberRead(data, pos, 8);
    NumberRead(data, keyEnd, 4);
    ValueIsEncoded(data, keyEnd + 4, tag);
    var v := EncodeValue(p.value);
    AtSplits(data, pos, ToLE(|p.key|, 8), p.key + (ToLE(tag, 4) + v));
    AtSplits(data, pos + 8, p.key, ToLE(tag, 4) + v);
    AtSplits(data, keyEnd, ToLE(tag, 4), v);
  }

  lemma {:induction false} WalkAcceptsEncodings(data: seq<byte>, pos: nat, pairs: seq<Pair>)
    requires (forall p | p in pairs :: ValidPair(p)) && At(data, pos, EncodeAll(pairs))
    ensures Walk(data, |pairs|, pos) == Some(pos + |EncodeAll(pairs)|)
    decreases |pairs|
  {
    hide RecordEnd, EncodePair, ValidPair;
    if pairs != [] {
      AtSplits(data, pos, EncodePair(pairs[0]), EncodeAll(pairs[1..]));
      RecordEndOfEncoding(data, pos, pairs[0]);
      WalkAcceptsEncodings(data, pos + |EncodePair(pairs[0])|, pairs[1..]);
    }
  }

  lemma {:induction false} WalkReadsEncodings(data: seq<byte>, count: nat, pos: nat) returns (pairs: seq<Pair>)
    requires Walk(data, count, pos).Some? && pos <= |data|
    ensures |pairs| == count && (forall p | p in pairs :: ValidPair(p))
    ensures At(data, pos, EncodeAll(pairs)) && Walk(data, count, pos).value == pos + |EncodeAll(pairs)|
  {
    hide EncodePair, ValidPair;
    if count == 0 {
      pairs := [];
    } else {
      var first := RecordIsEncoded(data, pos);
      var rest := WalkReadsEncodings(data, count - 1, RecordEnd(data, pos).value);
      pairs := [first] + rest;
      assert pairs[1..] == rest;
      AtSplits(data, pos, EncodePair(first), EncodeAll(rest));
    }
  }

  /** The header fields read back from a file that starts with a written header. */
  lemma HeaderWritten(data: seq<byte>, version: nat, tensors: nat, pairCount: nat)
    requires version < 0x1_0000_0000 && tensors < U64 && pairCount < U64
    ensures At(data, 0, EncodeHeader(version, tensors, pairCount)) <==>
      && |data| >= 24 && data[0..4] == MAGIC
      && Number(data, 4, 4) == version && Number(data, 8, 8) == tensors && Number(data, 16, 8) == pairCount
  {
    Widths();
    var rest := ToLE(tensors, 8) + ToLE(pairCount, 8);
    AtSplits(data, 0, MAGIC, ToLE(version, 4) + rest);
    AtSplits(data, 4, ToLE(version, 4), rest);
    AtSplits(data, 8, ToLE(tensors, 8), ToLE(pairCount, 8));
    if At(data, 0, EncodeHeader(version, tensors, pairCount)) {
      NumberWritten(data, 4, version, 4);
      NumberWritten(data, 8, tensors, 8);
      NumberWritten(data, 16, pairCount, 8);
    } else if |data| >= 24 {
      NumberRead(data, 4, 4);
      NumberRead(data, 8, 8);
      NumberRead(data, 16, 8);
    }
  }

  /** The header and walk succeed on a file exactly when it represents some list of pairs. */
  ghost predicate Accepted(data: seq<byte>) {
    && |data| >= 24 && data[0..4] == MAGIC && 1 <= Number(data, 4, 4) <= 3
    && Walk(data, Number(data, 16, 8), 24).Some?
  }

  lemma RepresentedIsAccepted(data: seq<byte>, version: nat, tensors: nat, pairs: seq<Pair>)
    requires Represents(data, version, tensors, pairs)
    ensures Accepted(data)
    ensures Number(data, 4, 4) == version && Number(data, 8, 8) == tensors && Number(data, 16, 8) == |pairs|
    ensures Walk(data, |pairs|, 24) == Some(24 + |EncodeAll(pairs)|)
  {
    hide EncodeHeader, EncodeAll, Number, Walk, ValidPair;
    var header := EncodeHeader(version, tensors, |pairs|);
    assert At(data, 0, header + EncodeAll(pairs));
    AtSplits(data, 0, header, EncodeAll(pairs));
    HeaderWritten(data, version, tensors, |pairs|);
    WalkAcceptsEncodings(data, 24, pairs);
  }

  lemma AcceptedIsRepresented(data: seq<byte>) returns (pairs: seq<Pair>)
    requires Accepted(data)
    ensures Represents(data, Number(data, 4, 4), Number(data, 8, 8), pairs)
  {
    hide EncodeHeader, EncodeAll, Number, Walk, ValidPair, ToLE, Pow256;
    Widths();
    NumberRead(data, 8, 8);
    NumberRead(data, 16, 8);
    var (version, tensors, count) := (Number(data, 4, 4), Number(data, 8, 8), Number(data, 16, 8));
    pairs := WalkReadsEncodings(data, count, 24);
    HeaderWritten(data, version, tensors, count);
    AtSplits(data, 0, EncodeHeader(version, tensors, count), EncodeAll(pairs));
  }

  /** Bytes after the metadata never turn an accepted file into a rejected one. */
  lemma AppendingKeepsAccepted(data: seq<byte>, more: seq<byte>)
    requires Accepted(data)
    ensures Accepted(data + more)
  {
    var pairs := AcceptedIsRepresented(data);
    var (version, tensors) := (Number(data, 4, 4), Number(data, 8, 8));
    assert Represents(data + more, version, tensors, pairs) by {
      var whole := EncodeHeader(version, tensors, |pairs|) + EncodeAll(pairs);
      assert whole <= data && data <= data + more;
    }
    RepresentedIsAccepted(data + more, version, tensors, pairs);
  }

  // ---- The validator

  /** One round of the walk. A sum or product that does not fit 64 bits is an error. */
  method SkipPair(data: seq<byte>, pos: nat) returns (r: Result<nat>)
    requires |data| < U64 && pos <= |data|
    ensures r.Ok? <==> RecordEnd(data, pos).Some?
    ensures r.Ok? ==> r.value == RecordEnd(data, pos).value
    ensures r.Err? ==> !r.error.FileTooSmall? && !r.error.BadMagic? && !r.error.BadVersion?
    ensures r == Err(PairBeyondFile) <==> pos == |data|
    ensures r == Err(UnexpectedEnd) <==> pos < |data| < pos + 8
    ensures pos + 8 <= |data| ==>
      var at := pos + 8 + Number(data, pos, 8);
      && (r == Err(TypeOutOfBounds) <==> |data| < at + 4 < U64)
      && (at + 4 >= U64 ==> r == Err(Overflow))
      && (at + 4 <= |data| ==>
            var (tag, size) := (Number(data, at, 4), ValueSize(data, at + 4, Number(data, at, 4)));
            && (r == Err(StringOutOfBounds) <==> tag == 8 && |data| < at + 12 < U64)
            && (r == Err(ArrayOutOfBounds) <==> tag == 9 && |data| < at + 16 < U64)
            && (r == Err(PairExceedsFile) <==> size.Some? && |data| < at + 4 + size.value < U64)
            && (size.Some? && at + 4 + size.value >= U64 ==> r == Err(Overflow)))
    ensures forall tag :: r == Err(UnknownType(tag)) <==>
      && pos + 8 <= |data| && pos + 12 + Number(data, pos, 8) <= |data|
      && tag == Number(data, pos + 8 + Number(data, pos, 8), 4) && tag > 14
  {
    hide Number, FromLE;
    if pos >= |data| { return Err(PairBeyondFile); }
    if pos + 8 > |data| { return Err(UnexpectedEnd); }
    var at := pos + 8 + Number(data, pos, 8);
    if at + 4 >= U64 { return Err(Overflow); }
    if at + 4 > |data| { return Err(TypeOutOfBounds); }
    var tag := Number(data, at, 4);
    at := at + 4;
    var size: nat;
    match tag {
      case 0 | 1 => size := 1;
      case 2 | 3 => size := 2;
      case 4 | 5 | 6 => size := 4;
      case 7 => size := 1;
      case 8 =>
        if at + 8 >= U64 { return Err(Overflow); }
        if at + 8 > |data| { return Err(StringOutOfBounds); }
        size := 8 + Number(data, at, 8);
      case 9 =>
        if at + 12 >= U64 { return Err(Overflow); }
        if at + 12 > |data| { return Err(ArrayOutOfBounds); }
        size := 12 + 4 * Number(data, at + 4, 8);
      case 10 | 11 | 12 => size := 8;
      case 13 | 14 => size := 2;
      case _ => return Err(UnknownType(tag));
    }
    if size >= U64 || at + size >= U64 { return Err(Overflow); }
    if at + size > |data| { return Err(PairExceedsFile); }
    return Ok(at + size);
  }

  /** A file is accepted exactly when it represents some pairs, and then the header tells which numbers. */
  method Validate(data: seq<byte>) returns (r: Result<Header>)
    requires |data| < U64
    ensures r.Ok? <==> exists version, tensors, pairs :: Represents(data, version, tensors, pairs)
    ensures r.Ok? ==>
      forall version, tensors, pairs | Represents(data, version, tensors, pairs) ::
        r.value == Header(version, tensors, |pairs|, |data|)
    ensures r.Ok? <==> Accepted(data)
    ensures r == Err(FileTooSmall) <==> |data| < 16
    ensures |data| >= 16 ==> (r == Err(BadMagic) <==> data[0..4] != MAGIC)
    ensures forall v :: r == Err(BadVersion(v)) <==>
      |data| >= 16 && data[0..4] == MAGIC && v == Number(data, 4, 4) && !(1 <= v <= 3)
    ensures 16 <= |data| < 24 && data[0..4] == MAGIC && 1 <= Number(data, 4, 4) <= 3 ==> r == Err(UnexpectedEnd)
    ensures r.Ok? ==> |data| >= 24 && forall i | 0 <= i < 4 :: data[i] as int == "GGUF"[i] as int
  {
    hide Represents, RecordEnd;
    forall version, tensors, pairs | Represents(data, version, tensors, pairs)
      ensures Accepted(data)
      ensures Number(data, 4, 4) == version && Number(data, 8, 8) == tensors && Number(data, 16, 8) == |pairs|
    {
      RepresentedIsAccepted(data, version, tensors, pairs);
    }
    if |data| < 16 { return Err(FileTooSmall); }
    if data[0..4] != MAGIC { return Err(BadMagic); }
    var version := Number(data, 4, 4);
    if version < 1 || version > 3 { return Err(BadVersion(version)); }
    if |data| < 24 { return Err(UnexpectedEnd); }
    var header := Header(version, Number(data, 8, 8), Number(data, 16, 8), |data|);
    var pos: nat, i: nat := 24, 0;
    while i < header.pairCount
      invariant i <= header.pairCount && pos <= |data|
      invariant Walk(data, header.pairCount, 24) == Walk(data, header.pairCount - i, pos)
    {
      var next := SkipPair(data, pos);
      if next.Err? { return Err(next.error); }
      pos, i := next.value, i + 1;
    }
    var pairs := AcceptedIsRepresented(data);
    return Ok(header);
  }
}
