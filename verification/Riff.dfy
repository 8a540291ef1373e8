/** Telling raw from encoded audio by the header of a RIFF file. */
module Riff {
  import opened Common
  import opened LittleEndian

  datatype Format = Malformed | RawMedia | EncodedMedia | MixedContainer

  datatype Family = RiffFamily | Wav | Avi | Webp

  datatype Inspection = Inspection(format: Format, family: Family)

  const FMT: Bytes := [0x66, 0x6D, 0x74, 0x20]

  const WAVE: Bytes := [0x57, 0x41, 0x56, 0x45]

  const AVI: Bytes := [0x41, 0x56, 0x49, 0x20]

  const WEBP: Bytes := [0x57, 0x45, 0x42, 0x50]

  /** `bytes.get(from..to)`. */
  function Slice(bytes: Bytes, from: nat, to: nat): Option<Bytes> {
    if from <= to <= |bytes| then Some(bytes[from..to]) else None
  }

  /** `u16_at` and `u32_at`: no read beyond the slice, and no wrapped offset. */
  function NumberAt(bytes: Bytes, offset: nat, width: nat, usizeMax: nat): Option<nat> {
    if offset + width > usizeMax then None
    else match Slice(bytes, offset, offset + width) case Some(s) => Some(Decode(s)) case None => None
  }

  /** A `usize` has at least 32 bits, and no slice is longer than half its range. */
  predicate Addressable(bytes: Bytes, usizeMax: nat) {
    0xFFFF_FFFF <= usizeMax && |bytes| <= usizeMax / 2
  }

  /** `riff`. */
  method Inspect(bytes: Bytes, usizeMax: nat) returns (r: Inspection)
    requires Addressable(bytes, usizeMax)
    ensures r == Inspected(bytes)
  {
    if |bytes| < 12 {
      return Inspection(Malformed, RiffFamily);
    }
    var form := Slice(bytes, 8, 12);
    if form == Some(WAVE) {
      var offset := 12;
      while offset + 8 <= usizeMax && offset + 8 <= |bytes|
        invariant 12 <= offset <= |bytes|
        invariant WaveVerdict(bytes[12..]) == WaveVerdict(bytes[offset..])
      {
        StepAt(bytes, offset, usizeMax);
        var name := Slice(bytes, offset, offset + 4);
        var length := NumberAt(bytes, offset + 4, 4, usizeMax);
        if name.None? || length.None? || length.value > usizeMax {
          break;
        }
        var payload := offset + 8;
        if name.value == FMT {
          var codec := NumberAt(bytes, payload, 2, usizeMax);
          if codec.None? {
            return Inspection(Malformed, Wav);
          }
          return Inspection(if codec.value == 1 || codec.value == 3 then RawMedia else EncodedMedia, Wav);
        }
        var next := payload + length.value + length.value % 2;
        if payload + length.value > usizeMax || next > usizeMax {
          break;
        }
        if next <= offset || next > |bytes| {
          break;
        }
        offset := next;
      }
      return Inspection(MixedContainer, Wav);
    }
    if form == Some(AVI) {
      return Inspection(EncodedMedia, Avi);
    }
    if form == Some(WEBP) {
      return Inspection(EncodedMedia, Webp);
    }
    return Inspection(MixedContainer, RiffFamily);
  }

  // ---------------------------------------------------------------- the file as a list of chunks

  /** The declared length of the chunk `body` starts with. */
  function Declared(body: Bytes): nat
    requires |body| >= 8
  {
    Decode(body[4..8])
  }

  /** The size of that chunk on disk: header, payload, and the byte that evens the payload. */
  function Span(body: Bytes): nat
    requires |body| >= 8
  {
    8 + Declared(body) + Declared(body) % 2
  }

  predicate StartsFormat(body: Bytes) {
    |body| >= 8 && body[..4] == FMT
  }

  /** Where the walk ends: at the format, or where no whole chunk is left. */
  predicate Stops(body: Bytes) {
    |body| < 8 || StartsFormat(body) || Span(body) > |body|
  }

  /** The verdict at that point. The declared length of the format chunk plays no part. */
  function Ending(body: Bytes): Format {
    if !StartsFormat(body) then MixedContainer
    else if |body| < 10 then Malformed
    else if Decode(body[8..10]) in {1, 3} then RawMedia
    else EncodedMedia
  }

  function WaveVerdict(body: Bytes): Format
    decreases |body|
  {
    if Stops(body) then Ending(body) else WaveVerdict(body[Span(body)..])
  }

  function Inspected(bytes: Bytes): Inspection {
    if |bytes| < 12 then Inspection(Malformed, RiffFamily)
    else if bytes[8..12] == WAVE then Inspection(WaveVerdict(bytes[12..]), Wav)
    else if bytes[8..12] == AVI then Inspection(EncodedMedia, Avi)
    else if bytes[8..12] == WEBP then Inspection(EncodedMedia, Webp)
    else Inspection(MixedContainer, RiffFamily)
  }

  /** The reads of one turn of the walk are in bounds and see the chunk at `offset`. */
  lemma StepAt(bytes: Bytes, offset: nat, usizeMax: nat)
    requires Addressable(bytes, usizeMax) && offset + 8 <= |bytes|
    ensures var body := bytes[offset..];
            && Slice(bytes, offset, offset + 4) == Some(body[..4])
            && NumberAt(bytes, offset + 4, 4, usizeMax) == Some(Declared(body))
            && Declared(body) <= 0xFFFF_FFFF
            && (|body| >= 10 ==> NumberAt(bytes, offset + 8, 2, usizeMax) == Some(Decode(body[8..10])))
            && (|body| < 10 ==> NumberAt(bytes, offset + 8, 2, usizeMax) == None)
            && (Span(body) <= |body| ==> bytes[offset + Span(body)..] == body[Span(body)..])
  {
    var body := bytes[offset..];
    assert bytes[offset..offset + 4] == body[..4];
    assert bytes[offset + 4..offset + 8] == body[4..8];
    assert Span(body) <= |body| ==> bytes[offset + Span(body)..] == body[Span(body)..];
    assert |body| >= 10 ==> bytes[offset + 8..offset + 10] == body[8..10];
    DecodeBound(body[4..8]);
    Widths();
  }

  lemma {:induction false} DecodeBound(bytes: Bytes)
    ensures Decode(bytes) < Pow256(|bytes|)
  {
    if bytes != [] {
      DecodeBound(bytes[1..]);
    }
  }

  // ---- chunks as they are written

  datatype Chunk = Chunk(name: Bytes, payload: Bytes, pad: Bytes)

  /** A chunk other than the format. */
  predicate Plain(c: Chunk) {
    |c.name| == 4 && c.name != FMT && |c.payload| <= 0xFFFF_FFFF && |c.pad| == |c.payload| % 2
  }

  function Written(c: Chunk): Bytes {
    c.name + Encode(|c.payload|, 4) + c.payload + c.pad
  }

  function AllWritten(chunks: seq<Chunk>): Bytes {
    if chunks == [] then [] else Written(chunks[0]) + AllWritten(chunks[1..])
  }

  predicate Layout(body: Bytes, chunks: seq<Chunk>, tail: Bytes) {
    body == AllWritten(chunks) + tail && (forall c | c in chunks :: Plain(c))
  }

  function FirstChunk(body: Bytes): Chunk
    requires !Stops(body)
  {
    var n := 8 + Declared(body);
    Chunk(body[..4], body[8..n], body[n..Span(body)])
  }

  lemma StepOver(c: Chunk, rest: Bytes)
    requires Plain(c)
    ensures var body := Written(c) + rest;
            !Stops(body) && Span(body) == |Written(c)| && body[Span(body)..] == rest && FirstChunk(body) == c
  {
    var body, n := Written(c) + rest, 8 + |c.payload|;
    assert body[..4] == c.name;
    assert body[4..8] == Encode(|c.payload|, 4);
    Widths();
    RoundTrip(|c.payload|, 4);
    assert |Written(c)| == Span(body);
    assert body[8..n] == c.payload && body[n..Span(body)] == c.pad;
  }

  lemma FirstStep(body: Bytes, chunks: seq<Chunk>, tail: Bytes)
    requires Layout(body, chunks, tail)
    ensures if chunks == [] then body == tail
            else !Stops(body) && FirstChunk(body) == chunks[0] && Layout(body[Span(body)..], chunks[1..], tail)
  {
    if chunks != [] {
      var rest := AllWritten(chunks[1..]) + tail;
      assert chunks[0] in chunks;
      StepOver(chunks[0], rest);
      assert body == Written(chunks[0]) + rest;
      assert forall c | c in chunks[1..] :: c in chunks;
    }
  }

  /** Whole chunks before the format, whatever they hold, do not change the verdict. */
  lemma {:induction false} ChunksAreSkipped(body: Bytes, chunks: seq<Chunk>, tail: Bytes)
    requires Layout(body, chunks, tail)
    ensures WaveVerdict(body) == WaveVerdict(tail)
    decreases |chunks|
  {
    FirstStep(body, chunks, tail);
    if chunks != [] {
      ChunksAreSkipped(body[Span(body)..], chunks[1..], tail);
    }
  }

  /** The chunk `body` starts with, written again, is the bytes it was read from. */
  lemma ReadBack(body: Bytes)
    requires !Stops(body)
    ensures Plain(FirstChunk(body)) && Written(FirstChunk(body)) == body[..Span(body)]
  {
    DecodeBound(body[4..8]);
    Widths();
    EncodeDecode(body[4..8]);
  }

  lemma LowByte(low: nat, rest: nat)
    requires low < 256
    ensures (low + 256 * rest) % 256 == low && (low + 256 * rest) / 256 == rest
  {
  }

  lemma {:induction false} EncodeDecode(bytes: Bytes)
    ensures Encode(Decode(bytes), |bytes|) == bytes
  {
    if bytes != [] {
      EncodeDecode(bytes[1..]);
      LowByte(bytes[0] as nat, Decode(bytes[1..]));
    }
  }

  /** Every body is whole chunks and then the place where the walk stops, in exactly one way. */
  lemma {:induction false} LayoutExists(body: Bytes) returns (chunks: seq<Chunk>, tail: Bytes)
    ensures Layout(body, chunks, tail) && Stops(tail) && WaveVerdict(body) == Ending(tail)
    decreases |body|
  {
    if Stops(body) {
      chunks, tail := [], body;
      assert body == AllWritten([]) + body;
    } else {
      var c, rest := FirstChunk(body), [];
      ReadBack(body);
      rest, tail := LayoutExists(body[Span(body)..]);
      chunks := [c] + rest;
      OneMoreChunk(body, c, rest, tail);
    }
  }

  lemma OneMoreChunk(body: Bytes, c: Chunk, rest: seq<Chunk>, tail: Bytes)
    requires !Stops(body) && Plain(c) && Written(c) == body[..Span(body)] && Layout(body[Span(body)..], rest, tail)
    ensures Layout(body, [c] + rest, tail)
  {
    assert body == body[..Span(body)] + body[Span(body)..];
    assert ([c] + rest)[1..] == rest;
    assert AllWritten([c] + rest) + tail == Written(c) + (AllWritten(rest) + tail);
  }

  lemma {:induction false} LayoutIsUnique(body: Bytes, a: seq<Chunk>, b: seq<Chunk>, s: Bytes, t: Bytes)
    requires Layout(body, a, s) && Layout(body, b, t) && Stops(s) && Stops(t)
    ensures a == b && s == t
    decreases |a|
  {
    FirstStep(body, a, s);
    FirstStep(body, b, t);
    if a != [] && b != [] {
      LayoutIsUnique(body[Span(body)..], a[1..], b[1..], s, t);
      assert a == [a[0]] + a[1..] && b == [b[0]] + b[1..];
    }
  }

  // ---- what each verdict means

  /** A WAVE file whose first format chunk, after whole chunks, starts with `codec`. */
  predicate WaveWithCodec(bytes: Bytes, chunks: seq<Chunk>, codec: nat) {
    && |bytes| >= 12 && bytes[8..12] == WAVE
    && (forall c | c in chunks :: Plain(c))
    && codec < 0x1_0000
    && var before := AllWritten(chunks);
       && |bytes| >= 12 + |before| + 10
       && bytes[12..12 + |before|] == before
       && bytes[12 + |before|..12 + |before| + 4] == FMT
       && bytes[12 + |before| + 8..12 + |before| + 10] == Encode(codec, 2)
  }

  /** Whatever else the file holds, the codec decides. */
  lemma CodecDecides(bytes: Bytes, chunks: seq<Chunk>, codec: nat)
    requires WaveWithCodec(bytes, chunks, codec)
    ensures Inspected(bytes) == Inspection(if codec == 1 || codec == 3 then RawMedia else EncodedMedia, Wav)
  {
    var n := |AllWritten(chunks)|;
    var body, tail := bytes[12..], bytes[12 + n..];
    assert body == bytes[12..12 + n] + tail;
    ChunksAreSkipped(body, chunks, tail);
    assert tail[..4] == bytes[12 + n..12 + n + 4];
    assert tail[8..10] == bytes[12 + n + 8..12 + n + 10];
    assert Pow256(2) == 256 * Pow256(1);
    RoundTrip(codec, 2);
  }

  /** A WAVE file is called raw, or encoded, exactly if its first format chunk can be reached and says so. */
  lemma VerdictIsExact(bytes: Bytes)
    ensures Inspected(bytes) == Inspection(RawMedia, Wav) <==>
              exists chunks, codec :: WaveWithCodec(bytes, chunks, codec) && codec in {1, 3}
    ensures Inspected(bytes) == Inspection(EncodedMedia, Wav) <==>
              exists chunks, codec :: WaveWithCodec(bytes, chunks, codec) && codec !in {1, 3}
  {
    forall chunks, codec | WaveWithCodec(bytes, chunks, codec)
      ensures Inspected(bytes) == Inspection(if codec == 1 || codec == 3 then RawMedia else EncodedMedia, Wav)
    {
      CodecDecides(bytes, chunks, codec);
    }
    if |bytes| >= 12 && bytes[8..12] == WAVE {
      var chunks, tail := LayoutExists(bytes[12..]);
      if StartsFormat(tail) && |tail| >= 10 {
        CodecIsThere(bytes, chunks, tail);
      }
    }
  }

  lemma CodecIsThere(bytes: Bytes, chunks: seq<Chunk>, tail: Bytes)
    requires |bytes| >= 12 && bytes[8..12] == WAVE
    requires Layout(bytes[12..], chunks, tail) && StartsFormat(tail) && |tail| >= 10
    ensures WaveWithCodec(bytes, chunks, Decode(tail[8..10]))
  {
    var n := |AllWritten(chunks)|;
    var body := bytes[12..];
    assert body[..n] == AllWritten(chunks) && body[n..] == tail;
    assert bytes[12..12 + n] == body[..n];
    assert bytes[12 + n..12 + n + 4] == tail[..4];
    assert bytes[12 + n + 8..12 + n + 10] == tail[8..10];
    EncodeDecode(tail[8..10]);
    DecodeBound(tail[8..10]);
    assert Pow256(2) == 256 * Pow256(1);
  }

  /** Files of the other forms, and those too short to name one. */
  lemma OtherForms(bytes: Bytes)
    ensures |bytes| < 12 ==> Inspected(bytes) == Inspection(Malformed, RiffFamily)
    ensures |bytes| >= 12 && bytes[8..12] == [0x41, 0x56, 0x49, 0x20] ==>
              Inspected(bytes) == Inspection(EncodedMedia, Avi)
    ensures |bytes| >= 12 && bytes[8..12] == [0x57, 0x45, 0x42, 0x50] ==>
              Inspected(bytes) == Inspection(EncodedMedia, Webp)
    ensures |bytes| >= 12 && bytes[8..12] == [0x57, 0x41, 0x56, 0x45] <==> Inspected(bytes).family == Wav
    ensures Inspected(bytes).family == RiffFamily && |bytes| >= 12 ==> Inspected(bytes).format == MixedContainer
  {
  }

  /** A WAVE file is malformed exactly if it ends before the codec of a format chunk it can reach. */
  lemma CutShort(bytes: Bytes)
    requires |bytes| >= 12 && bytes[8..12] == WAVE
    ensures Inspected(bytes).format == Malformed <==>
              exists chunks, tail :: Layout(bytes[12..], chunks, tail) && StartsFormat(tail) && |tail| < 10
  {
    forall chunks, tail | Layout(bytes[12..], chunks, tail) && StartsFormat(tail) && |tail| < 10
      ensures WaveVerdict(bytes[12..]) == Malformed
    {
      ChunksAreSkipped(bytes[12..], chunks, tail);
    }
    var chunks, tail := LayoutExists(bytes[12..]);
  }
}
