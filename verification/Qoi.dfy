/** The QOI image encoder that embeds the kernel's panic artwork, and a decoder written from
    the chunk definitions of the QOI File Format Specification, version 1.0.
 */
module Qoi {
  import opened Basics

  datatype Pixel = Pixel(r: Byte, g: Byte, b: Byte, a: Byte)

  type Table = t: seq<Pixel> | |t| == 64 witness seq(64, _ => Pixel(0, 0, 0, 0))

  const START := Pixel(0, 0, 0, 255)
  const EMPTY := Pixel(0, 0, 0, 0)

  // Chunk tags.
  const OP_INDEX := 0x00
  const OP_DIFF := 0x40
  const OP_LUMA := 0x80
  const OP_RUN := 0xc0
  const OP_RGB := 0xfe
  const OP_RGBA := 0xff

  function Hash(p: Pixel): (h: nat)
    ensures h < 64
  {
    (p.r * 3 + p.g * 5 + p.b * 7 + p.a * 11) % 64
  }

  /** The slots of the running array: the empty pixel has slot 0, and one more in a channel
      moves the slot by 3, 5, 7 or 11, modulo 64. */
  lemma SlotSteps(p: Pixel)
    ensures Hash(EMPTY) == 0
    ensures p.r < 255 ==> Hash(p.(r := p.r + 1)) == (Hash(p) + 3) % 64
    ensures p.g < 255 ==> Hash(p.(g := p.g + 1)) == (Hash(p) + 5) % 64
    ensures p.b < 255 ==> Hash(p.(b := p.b + 1)) == (Hash(p) + 7) % 64
    ensures p.a < 255 ==> Hash(p.(a := p.a + 1)) == (Hash(p) + 11) % 64
  {
    var sum := p.r * 3 + p.g * 5 + p.b * 7 + p.a * 11;
    SlotMoves(sum, 3);
    SlotMoves(sum, 5);
    SlotMoves(sum, 7);
    SlotMoves(sum, 11);
  }

  lemma SlotMoves(sum: nat, k: nat)
    ensures (sum + k) % 64 == (sum % 64 + k) % 64
  {
    var q := sum / 64;
    assert sum + k == sum % 64 + k + q * 64;
  }

  function EmptyTable(): Table {
    seq(64, _ => EMPTY)
  }

  // ---------------------------------------------------------------------------
  // The decoder of the specification.

  /** The decoder between chunks: its running array, the previous pixel, and what it has
      written so far. */
  datatype Decoder = Decoder(index: Table, prev: Pixel, out: seq<Pixel>)

  const FRESH := Decoder(EmptyTable(), START, [])

  function Repeat(p: Pixel, n: nat): seq<Pixel> {
    seq(n, _ => p)
  }

  /** Write `n` copies of `p`; every pixel written is also put in the running array. */
  function Write(d: Decoder, p: Pixel, n: nat): Decoder {
    Decoder(d.index[Hash(p) := p], p, d.out + Repeat(p, n))
  }

  function Shift(b: Byte, k: int): Byte {
    (b + k) % 256
  }

  datatype Step = Stuck | Step(d: Decoder, size: nat)

  /** Decode the chunk at the front of `bytes`. */
  function Chunk(d: Decoder, bytes: seq<Byte>): (s: Step)
    ensures s.Step? ==> 1 <= s.size <= |bytes|
    ensures s.Step? ==> |d.out| < |s.d.out|
  {
    if bytes == [] then Stuck else
    var b := bytes[0];
    var p := d.prev;
    if b == OP_RGB then
      if |bytes| < 4 then Stuck else Step(Write(d, Pixel(bytes[1], bytes[2], bytes[3], p.a), 1), 4)
    else if b == OP_RGBA then
      if |bytes| < 5 then Stuck else Step(Write(d, Pixel(bytes[1], bytes[2], bytes[3], bytes[4]), 1), 5)
    else if b < OP_DIFF then
      Step(Write(d, d.index[b], 1), 1)
    else if b < OP_LUMA then
      var q := Pixel(Shift(p.r, b / 16 % 4 - 2), Shift(p.g, b / 4 % 4 - 2), Shift(p.b, b % 4 - 2), p.a);
      Step(Write(d, q, 1), 1)
    else if b < OP_RUN then
      if |bytes| < 2 then Stuck else
      var dg := b % 64 - 32;
      var q := Pixel(Shift(p.r, dg + bytes[1] / 16 - 8), Shift(p.g, dg), Shift(p.b, dg + bytes[1] % 16 - 8), p.a);
      Step(Write(d, q, 1), 2)
    else
      Step(Write(d, p, b % 64 + 1), 1)
  }

  /** Decode chunks until exactly `n` pixels are written; the bytes left over. */
  function DecodeChunks(d: Decoder, bytes: seq<Byte>, n: nat): (Decoder, seq<Byte>, bool)
    decreases |bytes|
  {
    if |d.out| >= n then (d, bytes, |d.out| == n)
    else
      var s := Chunk(d, bytes);
      if s.Stuck? then (d, bytes, false) else DecodeChunks(s.d, bytes[s.size..], n)
  }

  function BigEndian(n: nat): seq<Byte> {
    [n / 0x100_0000 % 256, n / 0x1_0000 % 256, n / 0x100 % 256, n % 256]
  }

  function ReadBigEndian(s: seq<Byte>): nat
    requires |s| == 4
  {
    var a: int, b: int, c: int, d: int := s[0], s[1], s[2], s[3];
    ((a * 256 + b) * 256 + c) * 256 + d
  }

  const MAGIC: seq<Byte> := [0x71, 0x6f, 0x69, 0x66]
  const END_MARKER: seq<Byte> := [0, 0, 0, 0, 0, 0, 0, 1]

  datatype Image = Image(width: nat, height: nat, pixels: seq<Pixel>)

  function Area(width: nat, height: nat): nat {
    width * height
  }

  /** A whole file: header, chunks for width * height pixels, end marker. */
  function Decode(file: seq<Byte>): Option<Image> {
    if |file| < 14 || file[..4] != MAGIC then None else
    var w, h := ReadBigEndian(file[4..8]), ReadBigEndian(file[8..12]);
    var (d, rest, complete) := DecodeChunks(FRESH, file[14..], Area(w, h));
    if complete && rest == END_MARKER then Some(Image(w, h, d.out)) else None
  }

  // ---------------------------------------------------------------------------
  // Decoding what is appended.

  /** `bytes` is a whole number of chunks that takes `d` to `d'`. */
  ghost predicate Takes(d: Decoder, bytes: seq<Byte>, d': Decoder)
    decreases |bytes|
  {
    if bytes == [] then d == d'
    else
      var s := Chunk(d, bytes);
      s.Step? && Takes(s.d, bytes[s.size..], d')
  }

  /** A chunk decodes the same whatever follows it. */
  lemma ChunkLocal(d: Decoder, bytes: seq<Byte>, more: seq<Byte>)
    requires Chunk(d, bytes).Step?
    ensures Chunk(d, bytes + more) == Chunk(d, bytes)
  {
    hide Hash, Shift, Write;
    assert (bytes + more)[0] == bytes[0];
  }

  lemma {:induction false} TakesAppend(d: Decoder, bytes: seq<Byte>, d': Decoder, more: seq<Byte>, d'': Decoder)
    requires Takes(d, bytes, d') && Takes(d', more, d'')
    ensures Takes(d, bytes + more, d'')
    decreases |bytes|
  {
    hide Chunk;
    if bytes == [] {
      assert bytes + more == more;
    } else {
      var s := Chunk(d, bytes);
      ChunkLocal(d, bytes, more);
      TakesAppend(s.d, bytes[s.size..], d', more, d'');
      assert (bytes + more)[s.size..] == bytes[s.size..] + more;
    }
  }

  lemma {:induction false} TakesGrows(d: Decoder, bytes: seq<Byte>, d': Decoder)
    requires Takes(d, bytes, d')
    ensures |d.out| <= |d'.out|
    ensures bytes != [] ==> |d.out| < |d'.out|
    decreases |bytes|
  {
    hide Chunk;
    if bytes != [] {
      var s := Chunk(d, bytes);
      TakesGrows(s.d, bytes[s.size..], d');
    }
  }

  /** Chunks that end at exactly `n` pixels are all decoded, and what follows is left. */
  lemma {:induction false} TakesDecodes(d: Decoder, bytes: seq<Byte>, d': Decoder, rest: seq<Byte>)
    requires Takes(d, bytes, d')
    ensures DecodeChunks(d, bytes + rest, |d'.out|) == (d', rest, true)
    decreases |bytes|
  {
    hide Chunk;
    if bytes == [] {
      assert bytes + rest == rest;
    } else {
      TakesGrows(d, bytes, d');
      var s := Chunk(d, bytes);
      ChunkLocal(d, bytes, rest);
      TakesDecodes(s.d, bytes[s.size..], d', rest);
      assert (bytes + rest)[s.size..] == bytes[s.size..] + rest;
    }
  }

  lemma TakesOne(d: Decoder, chunk: seq<Byte>, d': Decoder)
    requires Chunk(d, chunk) == Step(d', |chunk|)
    ensures Takes(d, chunk, d')
  {
    hide Chunk;
    assert chunk[|chunk|..] == [];
  }

  // ---------------------------------------------------------------------------
  // The encoder.

  /** The encoder's table and the decoder's.  The encoder does not store the pixels of a run,
      the decoder does, and the first pixel may be a run of the start pixel: so slot 53, the
      start pixel's, can still be empty in the encoder only. */
  ghost predicate TablesAgree(enc: Table, dec: Table) {
    forall k :: 0 <= k < 64 ==> enc[k] == dec[k] || (k == Hash(START) && enc[k] == EMPTY && dec[k] == START)
  }

  /** The previous pixel is in the encoder's table, unless nothing but a run of the start
      pixel was seen. */
  ghost predicate PrevStored(enc: Table, prev: Pixel) {
    enc[Hash(prev)] == prev || (prev == START && enc[Hash(prev)] == EMPTY)
  }

  ghost predicate Opaque(pixels: seq<Pixel>) {
    forall i :: 0 <= i < |pixels| ==> pixels[i].a == 255
  }

  /** The decoder `d` after the bytes written is one pending run behind the encoder. */
  ghost predicate InStep(index: Table, prev: Pixel, d: Decoder) {
    prev.a == 255 && d.prev == prev && TablesAgree(index, d.index) && PrevStored(index, prev)
  }

  lemma RunChunk(index: Table, prev: Pixel, d: Decoder, run: nat) returns (d': Decoder)
    requires InStep(index, prev, d) && 1 <= run <= 62
    ensures Takes(d, [OP_RUN + run - 1], d')
    ensures InStep(index, prev, d') && d'.out == d.out + Repeat(prev, run)
  {
    d' := Write(d, prev, run);
    TakesOne(d, [OP_RUN + run - 1], d');
  }

  lemma IndexChunk(index: Table, prev: Pixel, d: Decoder, px: Pixel) returns (d': Decoder)
    requires InStep(index, prev, d) && px.a == 255 && index[Hash(px)] == px
    ensures Takes(d, [OP_INDEX + Hash(px)], d')
    ensures InStep(index, px, d') && d'.out == d.out + [px]
  {
    d' := Write(d, px, 1);
    TakesOne(d, [OP_INDEX + Hash(px)], d');
  }

  /** The chunk the encoder writes for a pixel that is neither a repeat nor in the table. */
  function ColourChunk(prev: Pixel, px: Pixel): seq<Byte> {
    var vr, vg, vb := px.r - prev.r, px.g - prev.g, px.b - prev.b;
    if -2 <= vr <= 1 && -2 <= vg <= 1 && -2 <= vb <= 1 then
      [OP_DIFF + (vr + 2) * 16 + (vg + 2) * 4 + (vb + 2)]
    else if -32 <= vg <= 31 && -8 <= vr - vg <= 7 && -8 <= vb - vg <= 7 then
      [OP_LUMA + (vg + 32), (vr - vg + 8) * 16 + (vb - vg + 8)]
    else
      [OP_RGB, px.r, px.g, px.b]
  }

  /** Adding a difference back modulo 256 restores the component. */
  lemma ShiftBack(x: Byte, y: Byte)
    ensures Shift(x, y - x) == y
  {
    assert x + (y - x) == y;
  }

  lemma DiffFields(x: nat, y: nat, z: nat)
    requires x < 4 && y < 4 && z < 4
    ensures var b := OP_DIFF + x * 16 + y * 4 + z;
            b < OP_LUMA && b / 16 % 4 == x && b / 4 % 4 == y && b % 4 == z
  {
  }

  lemma LumaFields(x: nat, y: nat, z: nat)
    requires x < 64 && y < 16 && z < 16
    ensures OP_LUMA + x < OP_RUN && (OP_LUMA + x) % 64 == x
    ensures (y * 16 + z) / 16 == y && (y * 16 + z) % 16 == z
  {
  }

  lemma ColourChunkDecodes(d: Decoder, px: Pixel)
    requires px.a == 255 == d.prev.a
    ensures Chunk(d, ColourChunk(d.prev, px)) == Step(Write(d, px, 1), |ColourChunk(d.prev, px)|)
  {
    hide Hash, Write, Shift;
    var p := d.prev;
    var vr, vg, vb := px.r - p.r, px.g - p.g, px.b - p.b;
    ShiftBack(p.r, px.r);
    ShiftBack(p.g, px.g);
    ShiftBack(p.b, px.b);
    if -2 <= vr <= 1 && -2 <= vg <= 1 && -2 <= vb <= 1 {
      DiffFields(vr + 2, vg + 2, vb + 2);
    } else if -32 <= vg <= 31 && -8 <= vr - vg <= 7 && -8 <= vb - vg <= 7 {
      LumaFields(vg + 32, vr - vg + 8, vb - vg + 8);
    }
  }

  lemma ColourStep(index: Table, prev: Pixel, d: Decoder, px: Pixel) returns (d': Decoder)
    requires InStep(index, prev, d) && px.a == 255
    ensures Takes(d, ColourChunk(prev, px), d')
    ensures InStep(index[Hash(px) := px], px, d') && d'.out == d.out + [px]
  {
    ColourChunkDecodes(d, px);
    d' := Write(d, px, 1);
    TakesOne(d, ColourChunk(prev, px), d');
  }

  lemma StartInStep()
    ensures InStep(EmptyTable(), START, FRESH) && Takes(FRESH, [], FRESH) && FRESH.out == []
  {
  }

  lemma RepeatMore(p: Pixel, n: nat)
    ensures Repeat(p, 0) == [] && Repeat(p, n + 1) == Repeat(p, n) + [p]
  {
  }

  /** A fresh decoder reads `bytes` to the end and has then written `pixels`. */
  ghost predicate Spells(bytes: seq<Byte>, pixels: seq<Pixel>) {
    exists d :: Takes(FRESH, bytes, d) && d.out == pixels
  }

  /** The encoder between pixels: its table, the previous pixel, how often it has been repeated
      since the last chunk, and the chunks written. */
  datatype Encoder = Encoder(index: Table, prev: Pixel, run: nat, bytes: seq<Byte>)

  const BEGIN := Encoder(EmptyTable(), START, 0, [])

  function RunBytes(run: nat): seq<Byte>
    requires run <= 62
  {
    if run == 0 then [] else [OP_RUN + run - 1]
  }

  /** One more pixel. */
  function Feed(e: Encoder, px: Pixel): (f: Encoder)
    requires e.run < 62
    ensures f.run < 62
  {
    if px == e.prev then
      if e.run == 61 then e.(run := 0, bytes := e.bytes + RunBytes(62)) else e.(run := e.run + 1)
    else
      var bytes := e.bytes + RunBytes(e.run);
      if e.index[Hash(px)] == px then Encoder(e.index, px, 0, bytes + [OP_INDEX + Hash(px)])
      else Encoder(e.index[Hash(px) := px], px, 0, bytes + ColourChunk(e.prev, px))
  }

  function Fed(pixels: seq<Pixel>): (e: Encoder)
    ensures e.run < 62
  {
    if pixels == [] then BEGIN else Feed(Fed(pixels[..|pixels| - 1]), pixels[|pixels| - 1])
  }

  /** All chunks of a list of pixels. */
  function Coded(pixels: seq<Pixel>): seq<Byte> {
    Fed(pixels).bytes + RunBytes(Fed(pixels).run)
  }

  lemma FlushTakes(e: Encoder, d: Decoder, run: nat) returns (d': Decoder)
    requires InStep(e.index, e.prev, d) && Takes(FRESH, e.bytes, d) && run <= 62
    ensures InStep(e.index, e.prev, d') && Takes(FRESH, e.bytes + RunBytes(run), d')
    ensures d'.out == d.out + Repeat(e.prev, run)
  {
    if run == 0 {
      RepeatMore(e.prev, 0);
      assert e.bytes + [] == e.bytes;
      d' := d;
    } else {
      d' := RunChunk(e.index, e.prev, d, run);
      TakesAppend(FRESH, e.bytes, d, [OP_RUN + run - 1], d');
    }
  }

  lemma FeedTakes(e: Encoder, d: Decoder, px: Pixel) returns (d': Decoder)
    requires InStep(e.index, e.prev, d) && Takes(FRESH, e.bytes, d) && e.run < 62 && px.a == 255
    ensures var f := Feed(e, px);
            && InStep(f.index, f.prev, d') && Takes(FRESH, f.bytes, d')
            && d'.out + Repeat(f.prev, f.run) == d.out + Repeat(e.prev, e.run) + [px]
  {
    hide Takes, InStep, Hash, ColourChunk, Repeat;
    RepeatMore(e.prev, e.run);
    RepeatMore(px, 0);
    if px == e.prev {
      if e.run == 61 {
        d' := FlushTakes(e, d, 62);
      } else {
        d' := d;
      }
    } else {
      var m := FlushTakes(e, d, e.run);
      var bytes := e.bytes + RunBytes(e.run);
      if e.index[Hash(px)] == px {
        d' := IndexChunk(e.index, e.prev, m, px);
        TakesAppend(FRESH, bytes, m, [OP_INDEX + Hash(px)], d');
      } else {
        d' := ColourStep(e.index, e.prev, m, px);
        TakesAppend(FRESH, bytes, m, ColourChunk(e.prev, px), d');
      }
    }
  }

  /** A decoder that reads the chunks written so far is exactly one pending run behind. */
  lemma {:induction false} FedTakes(pixels: seq<Pixel>) returns (d: Decoder)
    requires Opaque(pixels)
    ensures var e := Fed(pixels);
            InStep(e.index, e.prev, d) && Takes(FRESH, e.bytes, d) && d.out + Repeat(e.prev, e.run) == pixels
  {
    hide Takes, InStep, Feed, Repeat;
    if pixels == [] {
      StartInStep();
      RepeatMore(START, 0);
      d := FRESH;
    } else {
      var n := |pixels| - 1;
      var before := FedTakes(pixels[..n]);
      d := FeedTakes(Fed(pixels[..n]), before, pixels[n]);
      assert pixels[..n] + [pixels[n]] == pixels;
    }
  }

  lemma CodedSpells(pixels: seq<Pixel>)
    requires Opaque(pixels)
    ensures Spells(Coded(pixels), pixels)
  {
    hide Takes, InStep, Fed, Repeat;
    var d := FedTakes(pixels);
    var d' := FlushTakes(Fed(pixels), d, Fed(pixels).run);
  }

  /** The exact bytes of one more pixel that is not a repeat: its slot alone if the table has
      it there, else its colour chunk, and then the table has it. */
  lemma OneMorePixel(pixels: seq<Pixel>, px: Pixel)
    requires px != Fed(pixels).prev
    ensures var table := Fed(pixels).index;
            var slot := (px.r * 3 + px.g * 5 + px.b * 7 + px.a * 11) % 64;
            && Fed(pixels + [px]).index[slot] == px
            && Coded(pixels + [px]) == Coded(pixels) +
                 (if table[slot] == px then [slot] else ColourChunk(Fed(pixels).prev, px))
  {
    assert (pixels + [px])[..|pixels|] == pixels;
  }

  /** The encoding loop. */
  method EncodePixels(pixels: seq<Pixel>) returns (bytes: seq<Byte>)
    requires Opaque(pixels)
    ensures bytes == Coded(pixels) && Spells(bytes, pixels)
  {
    hide Hash, ColourChunk, Spells;
    var index := EmptyTable();
    bytes := [];
    var prev := START;
    var run := 0;
    for i := 0 to |pixels|
      invariant 0 <= run < 62
      invariant Encoder(index, prev, run, bytes) == Fed(pixels[..i])
    {
      var px := pixels[i];
      assert pixels[..i + 1][..i] == pixels[..i];
      if px == prev {
        run := run + 1;
        if run == 62 {
          bytes := bytes + [OP_RUN + run - 1];
          run := 0;
        }
      } else {
        if run > 0 {
          bytes := bytes + [OP_RUN + run - 1];
          run := 0;
        }
        var pos := Hash(px);
        if index[pos] == px {
          bytes := bytes + [OP_INDEX + pos];
        } else {
          bytes := bytes + ColourChunk(prev, px);
          index := index[pos := px];
        }
        prev := px;
      }
    }
    assert pixels[..|pixels|] == pixels;
    if run > 0 {
      bytes := bytes + [OP_RUN + run - 1];
    }
    CodedSpells(pixels);
  }

  /** The whole file round-trips: every opaque image is decoded back exactly. */
  method Encode(width: nat, height: nat, pixels: seq<Pixel>) returns (file: seq<Byte>)
    requires width < 0x1_0000_0000 && height < 0x1_0000_0000
    requires |pixels| == Area(width, height) && Opaque(pixels)
    ensures file == ['q' as int, 'o' as int, 'i' as int, 'f' as int] + BigEndian(width) + BigEndian(height) + [3, 0] +
                    Coded(pixels) + [0, 0, 0, 0, 0, 0, 0, 1]
    ensures Decode(file) == Some(Image(width, height, pixels))
  {
    hide Takes, DecodeChunks, Area;
    var header := MAGIC + BigEndian(width) + BigEndian(height) + [3, 0];
    var body := EncodePixels(pixels);
    ghost var d :| Takes(FRESH, body, d) && d.out == pixels;
    file := header + body + END_MARKER;
    TakesDecodes(FRESH, body, d, END_MARKER);
    FileParts(width, height, body, file);
  }

  /** Header fields and body are where the decoders look for them. */
  lemma FileParts(width: nat, height: nat, body: seq<Byte>, file: seq<Byte>)
    requires width < 0x1_0000_0000 && height < 0x1_0000_0000
    requires file == MAGIC + BigEndian(width) + BigEndian(height) + [3, 0] + body + END_MARKER
    ensures |file| >= 14 && file[..4] == MAGIC && file[14..] == body + END_MARKER
    ensures ReadBigEndian(file[4..8]) == width && ReadBigEndian(file[8..12]) == height
  {
    hide ReadBigEndian;
    BigEndianReadsBack(width);
    BigEndianReadsBack(height);
    Slices(MAGIC, BigEndian(width), BigEndian(height), [3, 0], body + END_MARKER);
    assert file == MAGIC + BigEndian(width) + BigEndian(height) + [3, 0] + (body + END_MARKER);
  }

  lemma Slices(a: seq<Byte>, b: seq<Byte>, c: seq<Byte>, d: seq<Byte>, e: seq<Byte>)
    requires |a| == |b| == |c| == 4 && |d| == 2
    ensures var s := a + b + c + d + e;
            |s| >= 14 && s[..4] == a && s[4..8] == b && s[8..12] == c && s[14..] == e
  {
  }

  lemma BigEndianReadsBack(n: nat)
    requires n < 0x1_0000_0000
    ensures ReadBigEndian(BigEndian(n)) == n
  {
    assert n == n / 0x100 * 256 + n % 256;
    assert n / 0x100 == n / 0x1_0000 * 256 + n / 0x100 % 256;
    assert n / 0x1_0000 == n / 0x100_0000 * 256 + n / 0x1_0000 % 256;
  }

  /** The tables really do part: after a first pixel equal to the start pixel the decoder has
      stored it and the encoder has not. */
  lemma TablesDiffer()
    ensures Takes(FRESH, [OP_RUN], Write(FRESH, START, 1))
    ensures Write(FRESH, START, 1).index[53] == START && EmptyTable()[53] == EMPTY
    ensures Hash(START) == 53
  {
    TakesOne(FRESH, [OP_RUN], Write(FRESH, START, 1));
  }
}
