/** The greeter's wire format: every payload follows its length as a 32-bit little-endian number. */
module GreeterFrames {
  import opened Bytes

  const MAX_PAYLOAD: nat := 1024 * 1024

  /** What a buffer contains: whole payloads, then either an unfinished frame or a length that ends the stream. */
  datatype Decoded = Decoded(payloads: seq<seq<byte>>, rest: seq<byte>, aborted: bool)

  function Length(buffer: seq<byte>): nat
    requires |buffer| >= 4
  {
    FromLE(buffer[..4])
  }

  predicate BadLength(n: nat) {
    n == 0 || n > MAX_PAYLOAD
  }

  function Decode(buffer: seq<byte>): (d: Decoded)
    ensures |d.rest| < 4 + MAX_PAYLOAD
    decreases |buffer|
  {
    if |buffer| < 4 then Decoded([], buffer, false)
    else
      var n := Length(buffer);
      if BadLength(n) then Decoded([], [], true)
      else if |buffer| < 4 + n then Decoded([], buffer, false)
      else
        var d := Decode(buffer[4 + n..]);
        d.(payloads := [buffer[4..4 + n]] + d.payloads)
  }

  function Frame(payload: seq<byte>): seq<byte> {
    ToLE(|payload|, 4) + payload
  }

  function Stream(payloads: seq<seq<byte>>): seq<byte> {
    if payloads == [] then [] else Frame(payloads[0]) + Stream(payloads[1..])
  }

  predicate Fits(payload: seq<byte>) {
    1 <= |payload| <= 0x10_0000
  }

  lemma FrameLength(payload: seq<byte>, more: seq<byte>)
    ensures var b := Frame(payload) + more;
            |b| >= 4 && Length(b) == |payload| % 0x1_0000_0000 && b[4..] == payload + more
  {
    var b := Frame(payload) + more;
    assert b[..4] == ToLE(|payload|, 4);
    ToLETruncates(|payload|, 4);
    assert Pow256(4) == 0x1_0000_0000 by { assert Pow256(2) == 0x1_0000 && Pow256(3) == 0x100_0000; }
  }

  lemma {:induction false} FittingPayloadsComeBack(payloads: seq<seq<byte>>)
    requires forall p :: p in payloads ==> Fits(p)
    ensures Decode(Stream(payloads)) == Decoded(payloads, [], false)
  {
    if payloads != [] {
      var p, more := payloads[0], Stream(payloads[1..]);
      FrameLength(p, more);
      var b := Frame(p) + more;
      assert b[4..4 + |p|] == (p + more)[..|p|] == p;
      assert b[4 + |p|..] == (p + more)[|p|..] == more;
      FittingPayloadsComeBack(payloads[1..]);
      assert Fits(p) && Length(b) == |p| && Stream(payloads) == b;
      assert [p] + payloads[1..] == payloads;
    }
  }

  lemma {:induction false} ComingBackMeansFitting(payloads: seq<seq<byte>>)
    requires Decode(Stream(payloads)) == Decoded(payloads, [], false)
    ensures forall p :: p in payloads ==> Fits(p)
  {
    if payloads != [] {
      var p, more := payloads[0], Stream(payloads[1..]);
      FrameLength(p, more);
      var b := Frame(p) + more;
      var n := Length(b);
      assert b[4..4 + n] == p;
      assert b[4 + |p|..] == (p + more)[|p|..] == more;
      ComingBackMeansFitting(payloads[1..]);
    }
  }

  /** Decoding what was framed gives the payloads back, completely, exactly when each is 1 byte to 1 MiB long. */
  lemma FramingRoundTrip(payloads: seq<seq<byte>>)
    ensures Decode(Stream(payloads)) == Decoded(payloads, [], false) <==> forall p :: p in payloads ==> Fits(p)
  {
    if Decode(Stream(payloads)) == Decoded(payloads, [], false) { ComingBackMeansFitting(payloads); }
    if forall p :: p in payloads ==> Fits(p) { FittingPayloadsComeBack(payloads); }
  }

  /** The first frame's length is there, and so is its payload. */
  predicate StartsWithFrame(b: seq<byte>) {
    |b| >= 4 && !BadLength(Length(b)) && |b| >= 4 + Length(b)
  }

  predicate StartsBadly(b: seq<byte>) {
    |b| >= 4 && BadLength(Length(b))
  }

  lemma DecodeUnfolds(b: seq<byte>)
    ensures StartsBadly(b) ==> Decode(b) == Decoded([], [], true)
    ensures StartsWithFrame(b) ==>
              var n := Length(b); var d := Decode(b[4 + n..]);
              Decode(b) == Decoded([b[4..4 + n]] + d.payloads, d.rest, d.aborted)
    ensures !StartsBadly(b) && !StartsWithFrame(b) ==> Decode(b) == Decoded([], b, false)
  {}

  lemma LengthContinues(a: seq<byte>, b: seq<byte>)
    requires |a| >= 4
    ensures Length(a + b) == Length(a)
  {
    assert (a + b)[..4] == a[..4];
  }

  /** Bytes that follow continue where the decoding of the first part stopped. */
  lemma {:induction false} DecodeContinues(a: seq<byte>, b: seq<byte>)
    ensures var d := Decode(a);
            Decode(a + b) == if d.aborted then d
                             else var e := Decode(d.rest + b); e.(payloads := d.payloads + e.payloads)
    decreases |a|
  {
    hide Decode, Length, BadLength;
    DecodeUnfolds(a);
    DecodeUnfolds(a + b);
    if |a| >= 4 { LengthContinues(a, b); }
    if StartsWithFrame(a) {
      var n := Length(a);
      assert (a + b)[4..4 + n] == a[4..4 + n];
      assert (a + b)[4 + n..] == a[4 + n..] + b;
      DecodeContinues(a[4 + n..], b);
      FirstPayloadStays(a[4..4 + n], Decode(a[4 + n..]), Decode(Decode(a[4 + n..]).rest + b));
    }
  }

  lemma FirstPayloadStays(p: seq<byte>, d: Decoded, e: Decoded)
    ensures [p] + (d.payloads + e.payloads) == ([p] + d.payloads) + e.payloads
  {}
}
