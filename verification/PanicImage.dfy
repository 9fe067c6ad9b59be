/** Drawing the embedded artwork into the kernel's framebuffer, in place, and where every one of
    its pixels ends up on the screen.
 */
module PanicImage {
  import opened Basics
  import opened Qoi
  import opened QoiKernel

  /** The geometry of the framebuffer: `pitch` is the length of a row in memory. */
  datatype Frame = Frame(width: nat, height: nat, pitch: nat)

  /** The first screen row of the artwork. */
  const TOP: nat := 12

  function Cells(f: Frame): nat {
    f.height * f.pitch
  }

  /** Centred, or at the left edge if it does not fit. */
  function Left(f: Frame, width: nat): nat {
    if f.width > width then (f.width - width) / 2 else 0
  }

  /** The columns free on both sides of a narrower image differ by one at most. */
  lemma Centred(f: Frame, width: nat)
    requires width <= f.width
    ensures var right := f.width - width - Left(f, width);
            Left(f, width) <= right <= Left(f, width) + 1
  {
  }

  function Colour(p: Pixel): int {
    (p.r * 256 + p.g) * 256 + p.b
  }

  /** The position of column `x` of row `y` in the framebuffer. */
  function Place(f: Frame, x: nat, y: nat): (i: nat)
    ensures x < f.pitch && y < f.height ==> i < Cells(f)
  {
    if y < f.height then
      RowsBefore(y, f.height, f.pitch);
      y * f.pitch + x
    else y * f.pitch + x
  }

  lemma RowsBefore(y: nat, height: nat, pitch: nat)
    requires y < height
    ensures y * pitch + pitch <= height * pitch
  {
    var d: nat := height - y - 1;
    var more: nat := d * pitch;
    Distribute(y, 1, d, pitch);
  }

  lemma Distribute(a: int, b: int, c: int, p: int)
    ensures (a + b + c) * p == a * p + b * p + c * p
  {
  }

  /** The column and the row of pixel `k` of an image of this width. */
  function ColumnOf(f: Frame, width: nat, k: nat): nat
    requires width > 0
  {
    Left(f, width) + k % width
  }

  function RowOf(width: nat, k: nat): nat
    requires width > 0
  {
    TOP + k / width
  }

  /** Pixel `k` of an image of this width, if it is on the screen. */
  function Paint(f: Frame, width: nat, buf: seq<int>, k: nat, px: Pixel): (after: seq<int>)
    requires width > 0 && f.width <= f.pitch && |buf| == Cells(f)
    ensures |after| == |buf|
  {
    var x, y := ColumnOf(f, width, k), RowOf(width, k);
    if x < f.width && y < f.height then buf[Place(f, x, y) := Colour(px)] else buf
  }

  function Painted(f: Frame, width: nat, buf: seq<int>, pixels: seq<Pixel>): (after: seq<int>)
    requires (pixels == [] || width > 0) && f.width <= f.pitch && |buf| == Cells(f)
    ensures |after| == |buf|
  {
    if pixels == [] then buf
    else
      var n := |pixels| - 1;
      Paint(f, width, Painted(f, width, buf, pixels[..n]), n, pixels[n])
  }

  lemma {:induction false} PaintedMore(f: Frame, width: nat, buf: seq<int>, pixels: seq<Pixel>, px: Pixel)
    requires width > 0 && f.width <= f.pitch && |buf| == Cells(f)
    ensures Painted(f, width, buf, pixels + [px]) == Paint(f, width, Painted(f, width, buf, pixels), |pixels|, px)
  {
    assert (pixels + [px])[..|pixels|] == pixels;
  }

  // ---------------------------------------------------------------------------
  // The header.

  predicate Accepted(data: seq<Byte>) {
    |data| >= 14 && data[..4] == ['q' as int, 'o' as int, 'i' as int, 'f' as int]
  }

  function Width(data: seq<Byte>): nat
    requires Accepted(data)
  {
    ReadBigEndian(data[4..8])
  }

  /** What 32 bits keep of a number. */
  function Low32(n: nat): (m: nat)
    ensures m <= n && m < TWO32 && (n < TWO32 ==> m == n)
  {
    n % TWO32
  }

  /** The number of pixels, a product of two 32-bit numbers kept to 32 bits. */
  function Total(data: seq<Byte>): (n: nat)
    requires Accepted(data)
    ensures n > 0 ==> Width(data) > 0
  {
    Low32(Area(Width(data), ReadBigEndian(data[8..12])))
  }

  /** What the data draws. */
  function Artwork(data: seq<Byte>): Option<seq<Pixel>> {
    if Accepted(data) then Pixels(NEW, data[14..], Total(data)) else Some([])
  }

  // ---------------------------------------------------------------------------
  // Drawing.

  method PutPixel(fb: array<int>, f: Frame, width: nat, k: nat, px: Pixel)
    requires width > 0 && f.width <= f.pitch && fb.Length == Cells(f)
    modifies fb
    ensures fb[..] == Paint(f, width, old(fb[..]), k, px)
  {
    var x := Left(f, width) + k % width;
    var y := TOP + k / width;
    if x < f.width && y < f.height {
      fb[Place(f, x, y)] := Colour(px);
    }
  }

  /** A run, cut at `total` pixels. */
  method PutRun(fb: array<int>, f: Frame, width: nat, pos0: nat, px: Pixel, run: nat, total: nat,
                ghost before: seq<int>, ghost drawn: seq<Pixel>)
    returns (pos: nat)
    requires width > 0 && f.width <= f.pitch && fb.Length == Cells(f) == |before|
    requires pos0 == |drawn| < total && fb[..] == Painted(f, width, before, drawn)
    modifies fb
    ensures pos == Min(pos0 + run, total)
    ensures fb[..] == Painted(f, width, before, (drawn + Repeat(px, run))[..pos])
  {
    pos := pos0;
    var r := 0;
    assert (drawn + Repeat(px, run))[..pos0] == drawn;
    while r < run && pos < total
      invariant r <= run && pos == pos0 + r <= total
      invariant fb[..] == Painted(f, width, before, (drawn + Repeat(px, run))[..pos])
    {
      PutPixel(fb, f, width, pos, px);
      PaintedMore(f, width, before, (drawn + Repeat(px, run))[..pos], px);
      assert (drawn + Repeat(px, run))[..pos + 1] == (drawn + Repeat(px, run))[..pos] + [px];
      pos := pos + 1;
      r := r + 1;
    }
  }

  /** The pixel of a chunk that is not a run. */
  method NextPixel(index: array<Pixel>, px: Pixel, data: seq<Byte>, p: nat, ghost r: Reader) returns (q: Pixel, p': nat)
    requires index.Length == 64 && r.index == index[..] && r.px == px
    requires p < |data| && !IsRun(data[p]) && Read(r, data[p..]).Turn?
    ensures p < p' && Read(r, data[p..]) == Turn(Single(r, q), p' - p)
  {
    var b: int := data[p];
    q := px;
    if b == 0xFE {
      q := q.(r := data[p + 1], g := data[p + 2], b := data[p + 3]);
      p' := p + 4;
    } else if b == 0xFF {
      q := Pixel(data[p + 1], data[p + 2], data[p + 3], data[p + 4]);
      p' := p + 5;
    } else if b / 64 == 0 {
      q := index[b % 64];
      p' := p + 1;
    } else if b / 64 == 1 {
      q := q.(r := Shift(q.r, b / 16 % 4 - 2), g := Shift(q.g, b / 4 % 4 - 2), b := Shift(q.b, b % 4 - 2));
      p' := p + 1;
    } else {
      var vg := b % 64 - 32;
      q := q.(r := Shift(q.r, vg - 8 + data[p + 1] / 16), g := Shift(q.g, vg), b := Shift(q.b, vg - 8 + data[p + 1] % 16));
      p' := p + 2;
    }
  }

  lemma {:induction false} PixelsStep(r: Reader, data: seq<Byte>, n: nat)
    requires data != [] && |r.out| < n && Pixels(r, data, n).Some?
    ensures Read(r, data).Turn?
    ensures Pixels(Read(r, data).r, data[Read(r, data).size..], n) == Pixels(r, data, n)
  {
    hide Read;
  }

  /** The framebuffer, the table and the position are those of the reader `r`. */
  ghost predicate Drawn(f: Frame, width: nat, total: nat, before: seq<int>, r: Reader, buf: seq<int>, index: seq<Pixel>, px: Pixel, pos: nat)
    requires f.width <= f.pitch && |before| == Cells(f) && (total > 0 ==> width > 0)
  {
    && r.index == index && r.px == px && pos == Min(|r.out|, total)
    && buf == Painted(f, width, before, r.out[..pos])
  }

  /** One turn of the drawing loop. */
  method DrawChunk(fb: array<int>, f: Frame, width: nat, total: nat, index: array<Pixel>, px0: Pixel,
                   data: seq<Byte>, p0: nat, pos0: nat, ghost before: seq<int>, ghost r: Reader)
    returns (px: Pixel, p: nat, pos: nat)
    requires width > 0 && f.width <= f.pitch && fb.Length == Cells(f) == |before| && index.Length == 64
    requires p0 < |data| && pos0 < total && Read(r, data[p0..]).Turn?
    requires Drawn(f, width, total, before, r, fb[..], index[..], px0, pos0)
    modifies fb, index
    ensures p == p0 + Read(r, data[p0..]).size
    ensures Drawn(f, width, total, before, Read(r, data[p0..]).r, fb[..], index[..], px, pos)
  {
    hide Read, Single, Hash, Paint, Painted, Repeat;
    assert r.out[..pos0] == r.out;
    if IsRun(data[p0]) {
      RunStep(r, data[p0..]);
      pos := PutRun(fb, f, width, pos0, px0, data[p0] % 64 + 1, total, before, r.out);
      RepeatLength(px0, data[p0] % 64 + 1);
      px, p := px0, p0 + 1;
    } else {
      px, p := NextPixel(index, px0, data, p0, r);
      index[Hash(px)] := px;
      SinglePixel(r, px);
      PutPixel(fb, f, width, pos0, px);
      PaintedMore(f, width, before, r.out, px);
      pos := pos0 + 1;
      assert (r.out + [px])[..pos] == r.out + [px];
    }
  }

  lemma RepeatLength(px: Pixel, n: nat)
    ensures |Repeat(px, n)| == n
  {
  }

  /** fb_draw_panic_image: the framebuffer gets exactly the pixels the data stands for. */
  method Draw(fb: array<int>, f: Frame, data: seq<Byte>)
    requires f.width <= f.pitch && fb.Length == Cells(f) && Artwork(data).Some?
    modifies fb
    ensures fb[..] == Painted(f, if Accepted(data) then Width(data) else 0, old(fb[..]), Artwork(data).value)
  {
    hide Read, Pixels, Painted, Area;
    NothingPainted(f, 0, fb[..]);
    if |data| < 14 || data[0] != 'q' as int || data[1] != 'o' as int || data[2] != 'i' as int || data[3] != 'f' as int {
      assert !Accepted(data);
      return;
    }
    assert data[..4] == [data[0], data[1], data[2], data[3]];
    var width := ReadBigEndian(data[4..8]);
    var total := Total(data);
    var index := new Pixel[64](_ => EMPTY);
    var px := START;
    var p, pos := 14, 0;
    ghost var r := NEW;
    NothingPainted(f, width, fb[..]);
    while p < |data| && pos < total
      invariant 14 <= p <= |data|
      invariant Drawn(f, width, total, old(fb[..]), r, fb[..], index[..], px, pos)
      invariant Pixels(r, data[p..], total) == Artwork(data)
      decreases |data| - p
    {
      PixelsStep(r, data[p..], total);
      ghost var t := Read(r, data[p..]);
      assert data[p..][t.size..] == data[p + t.size..];
      px, p, pos := DrawChunk(fb, f, width, total, index, px, data, p, pos, old(fb[..]), r);
      r := t.r;
    }
    PixelsEnd(r, data[p..], total);
  }

  lemma NothingPainted(f: Frame, width: nat, buf: seq<int>)
    requires f.width <= f.pitch && |buf| == Cells(f)
    ensures Painted(f, width, buf, []) == buf
  {
  }

  lemma SinglePixel(r: Reader, px: Pixel)
    ensures Single(r, px) == Reader(r.index[Hash(px) := px], px, r.out + [px])
  {
  }

  lemma PixelsEnd(r: Reader, data: seq<Byte>, n: nat)
    requires data == [] || |r.out| >= n
    ensures Pixels(r, data, n) == Some(r.out[..Min(|r.out|, n)])
  {
    assert r.out[..|r.out|] == r.out;
  }

  // ---------------------------------------------------------------------------
  // Where the pixels end up.

  /** A row and a column are determined by the position they give. */
  lemma OnePlace(x: nat, y: nat, x': nat, y': nat, pitch: nat)
    requires x < pitch && x' < pitch && y * pitch + x == y' * pitch + x'
    ensures x == x' && y == y'
  {
    if y < y' {
      RowsBefore(y, y', pitch);
    } else if y' < y {
      RowsBefore(y', y, pitch);
    }
  }

  /** The number of the pixel in this row and column of an image. */
  function Number(width: nat, row: nat, col: nat): nat {
    row * width + col
  }

  /** The number of the pixel shown at column `x` of row `y`, if there is one among `n`. */
  function Shown(f: Frame, width: nat, n: nat, x: nat, y: nat): (k: Option<nat>)
    ensures k.Some? ==> k.value < n
  {
    if Left(f, width) <= x < Left(f, width) + width && x < f.width && TOP <= y then
      var k := Number(width, y - TOP, x - Left(f, width));
      if k < n then Some(k) else None
    else None
  }

  lemma PlaceOfPixel(f: Frame, width: nat, k: nat)
    requires width > 0 && ColumnOf(f, width, k) < f.width
    ensures Shown(f, width, k + 1, ColumnOf(f, width, k), RowOf(width, k)) == Some(k)
  {
    assert k == k / width * width + k % width;
  }

  lemma OnePixel(f: Frame, width: nat, n: nat, x: nat, y: nat)
    requires width > 0 && Shown(f, width, n, x, y).Some?
    ensures var k := Shown(f, width, n, x, y).value;
            x == ColumnOf(f, width, k) && y == RowOf(width, k)
  {
    var k := Shown(f, width, n, x, y).value;
    assert k == k / width * width + k % width;
    OnePlace(x - Left(f, width), y - TOP, k % width, k / width, width);
  }

  lemma OneCell(f: Frame, x: nat, y: nat, x': nat, y': nat)
    requires x < f.pitch && x' < f.pitch && Place(f, x, y) == Place(f, x', y')
    ensures x == x' && y == y'
  {
    OnePlace(x, y, x', y', f.pitch);
  }

  /** One more pixel counts for the place where it is drawn and for no other. */
  lemma ShownMore(f: Frame, width: nat, n: nat, x: nat, y: nat)
    requires width > 0
    ensures var here := x < f.width && x == ColumnOf(f, width, n) && y == RowOf(width, n);
            Shown(f, width, n + 1, x, y) == if here then Some(n) else Shown(f, width, n, x, y)
  {
    if Shown(f, width, n + 1, x, y) == Some(n) {
      OnePixel(f, width, n + 1, x, y);
    }
    if x < f.width && x == ColumnOf(f, width, n) && y == RowOf(width, n) {
      PlaceOfPixel(f, width, n);
    }
  }

  /** Every cell of the framebuffer after drawing: the pixel shown there, or what was there. */
  lemma {:induction false} PaintedAt(f: Frame, width: nat, buf: seq<int>, pixels: seq<Pixel>, x: nat, y: nat)
    requires (pixels == [] || width > 0) && f.width <= f.pitch && |buf| == Cells(f) && x < f.pitch && y < f.height
    ensures var k := Shown(f, width, |pixels|, x, y);
            Painted(f, width, buf, pixels)[Place(f, x, y)] ==
              if k.Some? then Colour(pixels[k.value]) else buf[Place(f, x, y)]
    decreases |pixels|
  {
    hide Colour, Place, Shown, ColumnOf, RowOf, Cells;
    if pixels == [] {
      NoneShown(f, width, x, y);
    } else {
      var n := |pixels| - 1;
      PaintedAt(f, width, buf, pixels[..n], x, y);
      ShownMore(f, width, n, x, y);
      var x', y' := ColumnOf(f, width, n), RowOf(width, n);
      if x' < f.width && Place(f, x, y) == Place(f, x', y') {
        OneCell(f, x, y, x', y');
      }
    }
  }

  lemma NoneShown(f: Frame, width: nat, x: nat, y: nat)
    ensures Shown(f, width, 0, x, y) == None
  {
  }

  // ---------------------------------------------------------------------------
  // From the image to the screen.

  lemma {:induction false} FileAccepted(width: nat, height: nat, pixels: seq<Pixel>, file: seq<Byte>)
    requires width < TWO32 && height < TWO32
    requires |pixels| == Area(width, height) && Opaque(pixels)
    requires file == MAGIC + BigEndian(width) + BigEndian(height) + [3, 0] + Coded(pixels) + END_MARKER
    ensures Accepted(file) && Width(file) == width && Total(file) == Low32(Area(width, height))
    ensures Artwork(file) == Some(pixels[..Low32(Area(width, height))])
  {
    hide Area, Coded, Pixels, Low32;
    FileParts(width, height, Coded(pixels), file);
    KernelReadsBack(pixels, END_MARKER, Low32(Area(width, height)));
  }

  /** Encoding an image at build time and drawing it in the panic handler shows every pixel at
      its place, centred below the twelfth row, and touches nothing else; of an image of 2^32
      pixels or more only the first ones, their number modulo 2^32, are drawn. */
  method EncodeAndDraw(width: nat, height: nat, pixels: seq<Pixel>, fb: array<int>, f: Frame)
    requires width < TWO32 && height < TWO32
    requires |pixels| == Area(width, height) && Opaque(pixels)
    requires f.width <= f.pitch && fb.Length == Cells(f)
    modifies fb
    ensures forall x, y :: 0 <= x < f.pitch && 0 <= y < f.height ==>
              var k := Shown(f, width, Low32(|pixels|), x, y);
              fb[Place(f, x, y)] == if k.Some? then Colour(pixels[k.value]) else old(fb[..])[Place(f, x, y)]
  {
    hide Area, Coded, Painted, Artwork, Shown, Colour, Place, Cells, Low32;
    var file := Encode(width, height, pixels);
    FileAccepted(width, height, pixels, file);
    NoArea(width, height);
    Draw(fb, f, file);
    forall x, y | 0 <= x < f.pitch && 0 <= y < f.height
      ensures var k := Shown(f, width, Low32(|pixels|), x, y);
              fb[Place(f, x, y)] == if k.Some? then Colour(pixels[k.value]) else old(fb[..])[Place(f, x, y)]
    {
      PaintedAt(f, width, old(fb[..]), pixels[..Low32(|pixels|)], x, y);
    }
  }

  lemma NoArea(width: nat, height: nat)
    ensures width == 0 ==> Area(width, height) == 0
  {
  }
}
