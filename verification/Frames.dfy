/** The message frame: one type byte, a 32-bit big-endian length, the payload. */
module Frames {
  import opened Bytes
  import opened JsNumbers
  import opened Buffers

  datatype Frame = Frame(kind: Byte, payload: seq<Byte>)

  /** DecodeMessage either returns a frame or an error, or its slice expression is out of range. */
  datatype GoDecoded = Decoded(frame: Frame) | TooShort | Incomplete | SlicePanic

  function Wire(m: Frame): seq<Byte> {
    [m.kind] + ToBE(|m.payload| % TWO32, 4) + m.payload
  }

  /** EncodeMessage fills a fresh buffer: the type, the truncated length, the payload. */
  method EncodeMessage(m: Frame) returns (result: array<Byte>)
    ensures fresh(result) && result[..] == Wire(m)
  {
    var n := |m.payload|;
    result := new Byte[5 + n](_ => 0);
    result[0] := m.kind;
    assert result[..1] == [m.kind];
    Set(result, ToBE(n % TWO32, 4), 1);
    Set(result, m.payload, 5);
    assert result[..] == result[..5 + n];
  }

  /** The length field of a frame. */
  function Declared(data: seq<Byte>): (n: nat)
    requires |data| >= 5
    ensures n < TWO32
  {
    Pow256Values();
    FromBE(data[1..5])
  }

  /** DecodeMessage; `5 + payloadLen` is a uint32 sum. */
  function DecodeMessage(data: seq<Byte>): GoDecoded {
    if |data| < 5 then TooShort
    else
      var end := (5 + Declared(data)) % TWO32;
      if |data| < end then Incomplete
      else if end < 5 then SlicePanic
      else Decoded(Frame(data[0], data[5..end]))
  }

  /** The browser's `encode`: shifts and masks into a typed array. Its bytes are those of EncodeMessage. */
  method JsEncode(m: Frame) returns (r: array<Byte>)
    ensures fresh(r) && r[..] == Wire(m)
  {
    var n := |m.payload|;
    ShiftMaskIsBigEndian(n);
    var length: seq<Byte> := ShiftMask(n);
    r := new Byte[5 + n](_ => 0);
    r[0], r[1], r[2], r[3], r[4] := m.kind, length[0], length[1], length[2], length[3];
    assert r[..5] == [m.kind] + length;
    Set(r, m.payload, 5);
    assert r[..] == r[..5 + n];
  }

  /** `data.slice(start, end)` of a typed array. */
  function JsSlice(data: seq<Byte>, start: nat, end: int): seq<Byte> {
    var final := if end < 0 then (if |data| + end < 0 then 0 else |data| + end)
                 else if end > |data| then |data| else end;
    if start >= final then [] else data[start..final]
  }

  /** What the browser's `decode` returns; the length it computes is a signed word. */
  function JsDecode(data: seq<Byte>): Option<Frame> {
    if |data| < 5 then None
    else
      var len := ToInt32(Declared(data));
      if |data| < 5 + len then None else Some(Frame(data[0], JsSlice(data, 5, 5 + len)))
  }

  /** The length really is shifted and or-ed together; it comes out as the declared length taken as a signed word. */
  method JsDecodeFrame(data: seq<Byte>) returns (r: Option<Frame>)
    ensures r == JsDecode(data)
  {
    if |data| < 5 {
      return None;
    }
    var len := ReadInt32(data, 1);
    if |data| < 5 + len {
      return None;
    }
    r := Some(Frame(data[0], JsSlice(data, 5, 5 + len)));
  }

  lemma DeclaredOfWire(m: Frame, trailing: seq<Byte>)
    requires |m.payload| < TWO32
    ensures Declared(Wire(m) + trailing) == |m.payload|
  {
    var length := ToBE(|m.payload|, 4);
    SliceMiddle([m.kind], length, m.payload + trailing);
    assert Wire(m) + trailing == [m.kind] + length + (m.payload + trailing);
    Pow256Values();
    FromToBE(|m.payload|, 4);
  }

  /**
   * Decoding an encoded message, whatever follows it, returns the message, for every length DecodeMessage can add 5 to.
   */
  lemma DecodeInvertsEncode(m: Frame, trailing: seq<Byte>)
    requires |m.payload| <= TWO32 - 6
    ensures DecodeMessage(Wire(m) + trailing) == Decoded(m)
  {
    DeclaredOfWire(m, trailing);
    SliceMiddle([m.kind] + ToBE(|m.payload|, 4), m.payload, trailing);
  }

  /** The slice is out of range exactly for the last five length values. */
  lemma PanicsExactlyOnWrap(data: seq<Byte>)
    ensures DecodeMessage(data).SlicePanic? <==> |data| >= 5 && Declared(data) >= TWO32 - 5
  {
    if |data| >= 5 && Declared(data) >= TWO32 - 5 {
      assert (5 + Declared(data)) % TWO32 == 5 + Declared(data) - TWO32;
    }
  }

  ghost predicate SameVerdict(go: GoDecoded, js: Option<Frame>) {
    match js
    case Some(m) => go == Decoded(m)
    case None => go.TooShort? || go.Incomplete?
  }

  /**
   * Where the declared length is below 2^31, the browser's decoder and DecodeMessage give the same verdict and frame.
   */
  lemma DecodersAgree(data: seq<Byte>)
    requires |data| >= 5 ==> Declared(data) < TWO31
    ensures SameVerdict(DecodeMessage(data), JsDecode(data))
  {
  }

  /**
   * And only there, as long as the data is too short for a payload of 2^31 bytes: above, the browser's length is
   * negative, and it accepts what Go refuses or fails on.
   */
  lemma DecodersAgreeExactlyBelow31Bits(data: seq<Byte>)
    requires 5 <= |data| < TWO31 + 5
    ensures SameVerdict(DecodeMessage(data), JsDecode(data)) <==> Declared(data) < TWO31
  {
    if Declared(data) < TWO31 {
      DecodersAgree(data);
    } else {
      if Declared(data) >= TWO32 - 5 {
        PanicsExactlyOnWrap(data);
      }
    }
  }

  /**
   * Both happen: a header alone, with one of the five largest lengths, and one with its top bit set. A length just
   * below those five counts as negative in the browser, and its slice counts from the end.
   */
  lemma DecoderExamples()
    ensures DecodeMessage([0, 255, 255, 255, 251]) == SlicePanic
    ensures JsDecode([0, 255, 255, 255, 250, 1, 2]) == Some(Frame(0, [1]))
    ensures DecodeMessage([0, 255, 255, 255, 250, 1, 2]) == Incomplete
    ensures DecodeMessage([0, 128, 0, 0, 0]) == Incomplete && JsDecode([0, 128, 0, 0, 0]) == Some(Frame(0, []))
  {
    DeclaredExample(0, 255, 255, 255, 251);
    DeclaredExample(0, 128, 0, 0, 0);
    NegativeExample([0, 255, 255, 255, 250, 1, 2]);
  }

  lemma NegativeExample(data: seq<Byte>)
    requires data == [0, 255, 255, 255, 250, 1, 2]
    ensures JsDecode(data) == Some(Frame(0, [1])) && DecodeMessage(data) == Incomplete
  {
    assert data[1..5] == [255, 255, 255, 250];
    WordValueOf(255, 255, 255, 250);
    assert ToInt32(Declared(data)) == -6;
    assert JsSlice(data, 5, -1) == data[5..6] == [1];
  }

  lemma DeclaredExample(kind: Byte, a: Byte, b: Byte, c: Byte, d: Byte)
    ensures Declared([kind, a, b, c, d]) == 0x100_0000 * a + 0x1_0000 * b + 0x100 * c + d
  {
    assert [kind, a, b, c, d][1..5] == [a, b, c, d];
    WordValueOf(a, b, c, d);
  }

  lemma WordValueOf(a: Byte, b: Byte, c: Byte, d: Byte)
    ensures FromBE([a, b, c, d]) == 0x100_0000 * a + 0x1_0000 * b + 0x100 * c + d
  {
    assert [a, b, c, d][..3] == [a, b, c] && [a, b, c][..2] == [a, b] && [a, b][..1] == [a] && [a][..0] == [];
    assert FromBE([a]) == a && FromBE([a, b]) == 0x100 * a + b;
  }
}
