/** The kernel's own QOI reader, which draws the embedded artwork into the framebuffer when the
    kernel panics.  Unlike the decoder of the specification it does not store the pixels of a
    run, and so keeps exactly the encoder's table.
 */
module QoiKernel {
  import opened Basics
  import opened Qoi

  /** The reader between chunks: its table, the current pixel, and the pixels drawn so far. */
  datatype Reader = Reader(index: Table, px: Pixel, out: seq<Pixel>)

  const NEW := Reader(EmptyTable(), START, [])

  datatype Turn = Overrun | Turn(r: Reader, size: nat)

  /** A chunk that gives one pixel, which goes into the table. */
  function Single(r: Reader, px: Pixel): Reader {
    Reader(r.index[Hash(px) := px], px, r.out + [px])
  }

  /** One turn of the drawing loop; a chunk whose bytes run past the end of the data is an
      overrun. */
  function Read(r: Reader, data: seq<Byte>): (t: Turn)
    requires data != []
    ensures t.Turn? ==> 1 <= t.size <= |data| && |r.out| < |t.r.out|
  {
    var b: int, px := data[0], r.px;
    if b == 0xFE then
      if |data| < 4 then Overrun else Turn(Single(r, px.(r := data[1], g := data[2], b := data[3])), 4)
    else if b == 0xFF then
      if |data| < 5 then Overrun else Turn(Single(r, Pixel(data[1], data[2], data[3], data[4])), 5)
    else if b / 64 == 0 then
      Turn(Single(r, r.index[b % 64]), 1)
    else if b / 64 == 1 then
      Turn(Single(r, px.(r := Shift(px.r, b / 16 % 4 - 2), g := Shift(px.g, b / 4 % 4 - 2), b := Shift(px.b, b % 4 - 2))), 1)
    else if b / 64 == 2 then
      if |data| < 2 then Overrun else
      var vg := b % 64 - 32;
      Turn(Single(r, px.(r := Shift(px.r, vg - 8 + data[1] / 16), g := Shift(px.g, vg), b := Shift(px.b, vg - 8 + data[1] % 16))), 2)
    else
      Turn(r.(out := r.out + Repeat(px, b % 64 + 1)), 1)
  }

  /** The pixels drawn from the data: no more than `n`, the last run cut; none if a chunk
      overruns the data first. */
  function Pixels(r: Reader, data: seq<Byte>, n: nat): Option<seq<Pixel>>
    decreases |data|
  {
    if |r.out| >= n then Some(r.out[..n])
    else if data == [] then Some(r.out)
    else
      var t := Read(r, data);
      if t.Overrun? then None else Pixels(t.r, data[t.size..], n)
  }

  // ---------------------------------------------------------------------------
  // Reading what the encoder wrote.

  /** `data` is a whole number of chunks that takes `r` to `r'`. */
  ghost predicate Reads(r: Reader, data: seq<Byte>, r': Reader)
    decreases |data|
  {
    if data == [] then r == r'
    else
      var t := Read(r, data);
      t.Turn? && Reads(t.r, data[t.size..], r')
  }

  lemma ReadLocal(r: Reader, data: seq<Byte>, more: seq<Byte>)
    requires data != [] && Read(r, data).Turn?
    ensures Read(r, data + more) == Read(r, data)
  {
    hide Hash, Shift;
    assert (data + more)[0] == data[0];
  }

  lemma {:induction false} ReadsAppend(r: Reader, data: seq<Byte>, r': Reader, more: seq<Byte>, r'': Reader)
    requires Reads(r, data, r') && Reads(r', more, r'')
    ensures Reads(r, data + more, r'')
    decreases |data|
  {
    hide Read;
    if data == [] {
      assert data + more == more;
    } else {
      var t := Read(r, data);
      ReadLocal(r, data, more);
      ReadsAppend(t.r, data[t.size..], r', more, r'');
      assert (data + more)[t.size..] == data[t.size..] + more;
    }
  }

  lemma ReadsOne(r: Reader, chunk: seq<Byte>, r': Reader)
    requires chunk != [] && Read(r, chunk) == Turn(r', |chunk|)
    ensures Reads(r, chunk, r')
  {
    hide Read;
    assert chunk[|chunk|..] == [];
  }

  lemma ColourRead(r: Reader, px: Pixel)
    requires px.a == 255 == r.px.a
    ensures var chunk := ColourChunk(r.px, px);
            Read(r, chunk) == Turn(Single(r, px), |chunk|)
  {
    hide Hash, Shift, Single;
    var p := r.px;
    var vr, vg, vb := px.r - p.r, px.g - p.g, px.b - p.b;
    ShiftBack(p.r, px.r);
    ShiftBack(p.g, px.g);
    ShiftBack(p.b, px.b);
    if -2 <= vr <= 1 && -2 <= vg <= 1 && -2 <= vb <= 1 {
      DiffFields(vr + 2, vg + 2, vb + 2);
    } else if -32 <= vg <= 31 && -8 <= vr - vg <= 7 && -8 <= vb - vg <= 7 {
      LumaFields(vg + 32, vr - vg + 8, vb - vg + 8);
    }
  }

  predicate IsRun(b: Byte) {
    b / 64 == 3 && b < 0xFE
  }

  lemma RunStep(r: Reader, data: seq<Byte>)
    requires data != [] && IsRun(data[0])
    ensures Read(r, data) == Turn(r.(out := r.out + Repeat(r.px, data[0] % 64 + 1)), 1)
  {
    hide Shift, Hash;
  }

  lemma RunRead(r: Reader, run: nat)
    requires 1 <= run <= 62
    ensures Reads(r, RunBytes(run), r.(out := r.out + Repeat(r.px, run)))
  {
    hide Read, Reads, Repeat;
    RunStep(r, RunBytes(run));
    ReadsOne(r, RunBytes(run), r.(out := r.out + Repeat(r.px, run)));
  }

  lemma SlotRead(r: Reader, px: Pixel)
    requires r.index[Hash(px)] == px
    ensures Reads(r, [OP_INDEX + Hash(px)], Reader(r.index, px, r.out + [px]))
  {
    hide Hash;
    assert r.index[Hash(px) := px] == r.index;
    ReadsOne(r, [OP_INDEX + Hash(px)], Reader(r.index, px, r.out + [px]));
  }

  /** The reader of the chunks an encoder has written has the encoder's table and previous
      pixel, and lacks only its pending run. */
  ghost predicate Follows(e: Encoder, r: Reader, pixels: seq<Pixel>) {
    && Reads(NEW, e.bytes, r) && r.index == e.index && r.px == e.prev && r.px.a == 255
    && e.run < 62 && r.out + Repeat(e.prev, e.run) == pixels
  }

  lemma FlushRead(e: Encoder, r: Reader, run: nat) returns (r': Reader)
    requires Reads(NEW, e.bytes, r) && r.px == e.prev && run <= 62
    ensures Reads(NEW, e.bytes + RunBytes(run), r') && r' == r.(out := r.out + Repeat(e.prev, run))
  {
    hide Reads;
    r' := r.(out := r.out + Repeat(e.prev, run));
    if run == 0 {
      assert r.out + Repeat(e.prev, 0) == r.out && e.bytes + RunBytes(0) == e.bytes;
    } else {
      RunRead(r, run);
      ReadsAppend(NEW, e.bytes, r, RunBytes(run), r');
    }
  }

  lemma FeedRead(e: Encoder, r: Reader, pixels: seq<Pixel>, px: Pixel) returns (r': Reader)
    requires Follows(e, r, pixels) && px.a == 255
    ensures Follows(Feed(e, px), r', pixels + [px])
  {
    hide Reads, Hash, ColourChunk, Repeat;
    RepeatMore(e.prev, e.run);
    RepeatMore(px, 0);
    if px == e.prev {
      if e.run == 61 {
        r' := FlushRead(e, r, 62);
      } else {
        r' := r;
      }
    } else {
      var m := FlushRead(e, r, e.run);
      var bytes := e.bytes + RunBytes(e.run);
      if e.index[Hash(px)] == px {
        r' := Reader(m.index, px, m.out + [px]);
        SlotRead(m, px);
        ReadsAppend(NEW, bytes, m, [OP_INDEX + Hash(px)], r');
      } else {
        r' := Single(m, px);
        ColourRead(m, px);
        ReadsOne(m, ColourChunk(e.prev, px), r');
        ReadsAppend(NEW, bytes, m, ColourChunk(e.prev, px), r');
      }
    }
  }

  lemma {:induction false} FedRead(pixels: seq<Pixel>) returns (r: Reader)
    requires Opaque(pixels)
    ensures Follows(Fed(pixels), r, pixels)
  {
    hide Feed, Reads;
    if pixels == [] {
      RepeatMore(START, 0);
      r := NEW;
      NothingRead(NEW);
    } else {
      var n := |pixels| - 1;
      var before := FedRead(pixels[..n]);
      r := FeedRead(Fed(pixels[..n]), before, pixels[..n], pixels[n]);
      assert pixels[..n] + [pixels[n]] == pixels;
    }
  }

  lemma NothingRead(r: Reader)
    ensures Reads(r, [], r)
  {
  }

  /** Data that the reader takes to `r'` gives its pixels, cut at `n`, whatever follows. */
  lemma {:induction false} ReadsGive(r: Reader, data: seq<Byte>, r': Reader, rest: seq<Byte>, n: nat)
    requires Reads(r, data, r') && n <= |r'.out|
    ensures Pixels(r, data + rest, n) == Some(r'.out[..n])
    decreases |data|
  {
    hide Read;
    if data == [] {
      assert data + rest == rest;
    } else {
      var t := Read(r, data);
      ReadsExtend(r, data, r');
      if |r.out| >= n {
        assert r.out == r'.out[..|r.out|] && r.out[..n] == r'.out[..n];
      } else {
        ReadLocal(r, data, rest);
        ReadsGive(t.r, data[t.size..], r', rest, n);
        assert (data + rest)[t.size..] == data[t.size..] + rest;
      }
    }
  }

  lemma ReadExtends(r: Reader, data: seq<Byte>)
    requires data != [] && Read(r, data).Turn?
    ensures r.out <= Read(r, data).r.out
  {
    hide Hash, Shift;
  }

  /** Pixels drawn are never taken back. */
  lemma {:induction false} ReadsExtend(r: Reader, data: seq<Byte>, r': Reader)
    requires Reads(r, data, r')
    ensures r.out <= r'.out
    decreases |data|
  {
    hide Read;
    if data != [] {
      ReadExtends(r, data);
      var t := Read(r, data);
      ReadsExtend(t.r, data[t.size..], r');
    }
  }

  /** The kernel reads back every opaque image: the first `n` pixels for any count it asks for,
      and the bytes after the chunks do not matter. */
  lemma KernelReadsBack(pixels: seq<Pixel>, rest: seq<Byte>, n: nat)
    requires Opaque(pixels) && n <= |pixels|
    ensures Pixels(NEW, Coded(pixels) + rest, n) == Some(pixels[..n])
  {
    hide Reads, Fed, Repeat, Pixels;
    var e := Fed(pixels);
    var r := FedRead(pixels);
    var r' := FlushRead(e, r, e.run);
    ReadsGive(NEW, Coded(pixels), r', rest, n);
  }
}
