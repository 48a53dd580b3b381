/** Packed RGB565 buffers: byte order, copying a rectangle, and turning a panel by 180 degrees. */
module DisplaySpec {
  import opened Prelude
  import opened Arithmetic

  /** A rectangle in pixels. */
  datatype Rect = Rect(x: nat, y: nat, width: nat, height: nat)

  /** The byte order of a machine word, and that of the SPI wire, which is high byte first. */
  datatype ByteOrder = LittleEndian | BigEndian

  // ----- byte order

  function DecodePixel(order: ByteOrder, b0: Byte, b1: Byte): U16 {
    if order.LittleEndian? then Word(b0, b1) else Word(b1, b0)
  }

  function EncodePixel(order: ByteOrder, v: U16): (bytes: seq<Byte>)
    ensures |bytes| == 2
  {
    if order.LittleEndian? then [Low(v), High(v)] else [High(v), Low(v)]
  }

  /** Every pixel decoded in one order and encoded in the other; `None` for an odd number of bytes. */
  function Converted(pixels: seq<Byte>, source: ByteOrder, target: ByteOrder): Option<seq<Byte>> {
    if |pixels| % 2 != 0 then None else Some(ConvertedPairs(pixels, source, target))
  }

  function ConvertedPairs(pixels: seq<Byte>, source: ByteOrder, target: ByteOrder): (out: seq<Byte>)
    requires |pixels| % 2 == 0
    ensures |out| == |pixels|
  {
    if pixels == [] then []
    else
      var n := |pixels| - 2;
      ConvertedPairs(pixels[..n], source, target) + EncodePixel(target, DecodePixel(source, pixels[n], pixels[n + 1]))
  }

  lemma WordBytes(b0: Byte, b1: Byte)
    ensures Low(Word(b0, b1)) == b0 && High(Word(b0, b1)) == b1
  {}

  lemma BytesWord(v: U16)
    ensures Word(Low(v), High(v)) == v
  {}

  lemma PixelRoundTrip(a: ByteOrder, b: ByteOrder, b0: Byte, b1: Byte)
    ensures
      var wire := EncodePixel(b, DecodePixel(a, b0, b1));
      EncodePixel(a, DecodePixel(b, wire[0], wire[1])) == [b0, b1]
  {
    hide Low, High, Word;
    BytesWord(DecodePixel(a, b0, b1));
    WordBytes(b0, b1);
    WordBytes(b1, b0);
  }

  lemma ConvertedAppend(pixels: seq<Byte>, pair: seq<Byte>, source: ByteOrder, target: ByteOrder)
    requires |pixels| % 2 == 0 && |pair| == 2
    ensures ConvertedPairs(pixels + pair, source, target)
         == ConvertedPairs(pixels, source, target) + EncodePixel(target, DecodePixel(source, pair[0], pair[1]))
  {
    hide DecodePixel, EncodePixel;
    assert (pixels + pair)[..|pixels|] == pixels;
  }

  /** MAIN: converting to another byte order and back gives the same bytes. */
  lemma {:induction false} ByteOrderRoundTrip(pixels: seq<Byte>, a: ByteOrder, b: ByteOrder)
    requires |pixels| % 2 == 0
    ensures ConvertedPairs(ConvertedPairs(pixels, a, b), b, a) == pixels
  {
    hide DecodePixel, EncodePixel;
    if pixels != [] {
      var n := |pixels| - 2;
      var before, pair := pixels[..n], pixels[n..];
      assert pixels == before + pair;
      ByteOrderRoundTrip(before, a, b);
      ConvertedAppend(before, pair, a, b);
      ConvertedAppend(ConvertedPairs(before, a, b), EncodePixel(b, DecodePixel(a, pair[0], pair[1])), b, a);
      PixelRoundTrip(a, b, pair[0], pair[1]);
      assert pair == [pair[0], pair[1]];
    }
  }

  /** MAIN: converting to the same order changes nothing, and to the other one exchanges the bytes of each pixel. */
  lemma {:induction false} ConvertedBytes(pixels: seq<Byte>, source: ByteOrder, target: ByteOrder)
    requires |pixels| % 2 == 0
    ensures source == target ==> ConvertedPairs(pixels, source, target) == pixels
    ensures source != target ==>
              forall i :: 0 <= i < |pixels| ==>
                ConvertedPairs(pixels, source, target)[i] == pixels[if i % 2 == 0 then i + 1 else i - 1]
  {
    hide DecodePixel, EncodePixel;
    if pixels != [] {
      var n := |pixels| - 2;
      var b0, b1 := pixels[n], pixels[n + 1];
      ConvertedBytes(pixels[..n], source, target);
      PairBytes(b0, b1, source, target);
      var out := ConvertedPairs(pixels, source, target);
      assert out == ConvertedPairs(pixels[..n], source, target) + if source == target then [b0, b1] else [b1, b0];
      if source == target {
        assert pixels == pixels[..n] + [b0, b1];
      } else {
        forall i | 0 <= i < |pixels| ensures out[i] == pixels[if i % 2 == 0 then i + 1 else i - 1] {
          if i < n {
            assert out[i] == pixels[..n][if i % 2 == 0 then i + 1 else i - 1];
          }
        }
      }
    }
  }

  lemma PairBytes(b0: Byte, b1: Byte, source: ByteOrder, target: ByteOrder)
    ensures EncodePixel(target, DecodePixel(source, b0, b1)) == if source == target then [b0, b1] else [b1, b0]
  {
    hide Low, High, Word;
    WordBytes(b0, b1);
    WordBytes(b1, b0);
  }

  // ----- rectangles

  /** A buffer of `w` by `h` pixels. */
  predicate Sized(buffer: seq<Byte>, w: nat, h: nat) {
    w > 0 && h > 0 && |buffer| == 2 * (w * h)
  }

  predicate Inside(area: Rect, w: nat, h: nat) {
    area.width > 0 && area.height > 0 && area.x + area.width <= w && area.y + area.height <= h
  }

  predicate Covers(area: Rect, x: int, y: int) {
    area.x <= x < area.x + area.width && area.y <= y < area.y + area.height
  }

  /** The position of pixel (x, y) in the rectangle's own row-major order. */
  function Rank(area: Rect, x: int, y: int): int {
    (y - area.y) * area.width + (x - area.x)
  }

  lemma RankBounds(area: Rect, x: int, y: int)
    requires Covers(area, x, y)
    ensures 0 <= Rank(area, x, y) < area.width * area.height
    ensures Rank(area, x, y) / area.width == y - area.y && Rank(area, x, y) % area.width == x - area.x
  {
    var r := y - area.y;
    ProductMonotone(0, r, area.width);
    OneMore(r, area.width);
    ProductMonotone(r + 1, area.height, area.width);
    DivMod(r, x - area.x, area.width);
  }

  /** Byte `t` of `buffer` once the first `upto` pixels of the rectangle have been copied in. */
  function BlitByte(buffer: seq<Byte>, w: nat, area: Rect, pixels: seq<Byte>, upto: nat, t: nat): Byte
    requires w > 0 && t < |buffer| && |pixels| == 2 * (area.width * area.height)
  {
    var x, y := t / 2 % w, t / 2 / w;
    if Covers(area, x, y) && Rank(area, x, y) < upto then
      RankBounds(area, x, y);
      pixels[2 * Rank(area, x, y) + t % 2]
    else buffer[t]
  }

  function BlitUpTo(buffer: seq<Byte>, w: nat, area: Rect, pixels: seq<Byte>, upto: nat): (out: seq<Byte>)
    requires w > 0 && |pixels| == 2 * (area.width * area.height)
    ensures |out| == |buffer|
  {
    seq<Byte>(|buffer|, t requires 0 <= t < |buffer| => BlitByte(buffer, w, area, pixels, upto, t))
  }

  /** `buffer` with the rectangle replaced by `pixels` and everything else as it was. */
  function Blit(buffer: seq<Byte>, w: nat, area: Rect, pixels: seq<Byte>): (out: seq<Byte>)
    requires w > 0 && |pixels| == 2 * (area.width * area.height)
    ensures |out| == |buffer|
  {
    BlitUpTo(buffer, w, area, pixels, area.width * area.height)
  }

  // ----- the meaning of a blit, pixel by pixel

  function PixelAt(buffer: seq<Byte>, w: nat, x: nat, y: nat): (Byte, Byte)
    requires 2 * (y * w + x) + 1 < |buffer|
  {
    (buffer[2 * (y * w + x)], buffer[2 * (y * w + x) + 1])
  }

  lemma PixelIndex(w: nat, h: nat, x: nat, y: nat)
    requires x < w && y < h
    ensures 0 <= y * w + x < w * h
  {
    ProductMonotone(0, y, w);
    OneMore(y, w);
    ProductMonotone(y + 1, h, w);
  }

  /** MAIN: inside the rectangle a blit shows the new pixels row by row; outside nothing has changed. */
  lemma BlitPixels(buffer: seq<Byte>, w: nat, h: nat, area: Rect, pixels: seq<Byte>, x: nat, y: nat)
    requires Sized(buffer, w, h) && Inside(area, w, h) && |pixels| == 2 * (area.width * area.height)
    requires x < w && y < h
    ensures 2 * (y * w + x) + 1 < |buffer|
    ensures Covers(area, x, y) ==> x - area.x < area.width && y - area.y < area.height
    ensures Covers(area, x, y) ==> 0 <= Rank(area, x, y) && 2 * Rank(area, x, y) + 1 < |pixels|
    ensures PixelAt(Blit(buffer, w, area, pixels), w, x, y)
         == if Covers(area, x, y) then (pixels[2 * Rank(area, x, y)], pixels[2 * Rank(area, x, y) + 1])
            else PixelAt(buffer, w, x, y)
  {
    hide Rank;
    PixelIndex(w, h, x, y);
    DivMod(y, x, w);
    var p := y * w + x;
    assert (2 * p) / 2 == p && (2 * p + 1) / 2 == p && (2 * p) % 2 == 0 && (2 * p + 1) % 2 == 1;
    if Covers(area, x, y) {
      RankBounds(area, x, y);
    }
  }

  /** The same in numbers: pixel (x, y) of the rectangle is number (y - area.y) * area.width + (x - area.x). */
  lemma BlitShows(buffer: seq<Byte>, w: nat, h: nat, area: Rect, pixels: seq<Byte>, x: nat, y: nat)
    requires Sized(buffer, w, h) && Inside(area, w, h) && |pixels| == 2 * (area.width * area.height)
    requires x < w && y < h
    ensures 0 <= 2 * (y * w + x) && 2 * (y * w + x) + 1 < |buffer|
    ensures
      var p, q, out := 2 * (y * w + x), 2 * ((y - area.y) * area.width + (x - area.x)), Blit(buffer, w, area, pixels);
      if area.x <= x < area.x + area.width && area.y <= y < area.y + area.height then
        0 <= q && q + 1 < |pixels| && out[p] == pixels[q] && out[p + 1] == pixels[q + 1]
      else out[p] == buffer[p] && out[p + 1] == buffer[p + 1]
  {
    hide Blit;
    PixelIndex(w, h, x, y);
    BlitPixels(buffer, w, h, area, pixels, x, y);
  }

  // ----- 180 degrees

  /** Where byte `t` lands when the pixels are read backwards. */
  function Mirror(t: int, pixels: int): int {
    2 * (pixels - 1 - t / 2) + t % 2
  }

  function Rotate(buffer: seq<Byte>): (out: seq<Byte>)
    requires |buffer| % 2 == 0
    ensures |out| == |buffer|
  {
    seq<Byte>(|buffer|, t requires 0 <= t < |buffer| => buffer[Mirror(t, |buffer| / 2)])
  }

  lemma RotateTwice(buffer: seq<Byte>)
    requires |buffer| % 2 == 0
    ensures Rotate(Rotate(buffer)) == buffer
  {}

  /** Reading the pixels backwards is what turning the panel by 180 degrees means. */
  lemma RotatePixels(buffer: seq<Byte>, w: nat, h: nat, x: nat, y: nat)
    requires Sized(buffer, w, h) && x < w && y < h
    ensures 2 * (y * w + x) + 1 < |buffer| && 2 * ((h - 1 - y) * w + (w - 1 - x)) + 1 < |buffer|
    ensures PixelAt(Rotate(buffer), w, x, y) == PixelAt(buffer, w, w - 1 - x, h - 1 - y)
  {
    PixelIndex(w, h, x, y);
    PixelIndex(w, h, w - 1 - x, h - 1 - y);
    MirrorIndex(w, h, x, y);
  }

  lemma MirrorIndex(w: int, h: int, x: int, y: int)
    ensures (h - 1 - y) * w + (w - 1 - x) == w * h - 1 - (y * w + x)
  {}

  // ----- flushes

  datatype Flush = Flush(area: Rect, pixels: seq<Byte>)

  predicate ValidFlush(f: Flush, w: nat, h: nat) {
    Inside(f.area, w, h) && |f.pixels| == 2 * (f.area.width * f.area.height)
  }

  predicate AllValid(fs: seq<Flush>, w: nat, h: nat) {
    forall i :: 0 <= i < |fs| ==> ValidFlush(fs[i], w, h)
  }

  /** What the direct path makes of a run of flushes. */
  function DirectRun(fb: seq<Byte>, w: nat, h: nat, fs: seq<Flush>): (out: seq<Byte>)
    requires w > 0 && AllValid(fs, w, h)
    ensures |out| == |fb|
  {
    if fs == [] then fb
    else Blit(DirectRun(fb, w, h, fs[..|fs| - 1]), w, fs[|fs| - 1].area, fs[|fs| - 1].pixels)
  }

  /** One flush as the rotated panel stores it. */
  function PanelBlit(gram: seq<Byte>, w: nat, f: Flush): (out: seq<Byte>)
    requires w > 0 && |gram| % 2 == 0 && |f.pixels| == 2 * (f.area.width * f.area.height)
    ensures |out| == |gram|
  {
    Rotate(Blit(Rotate(gram), w, f.area, f.pixels))
  }

  /** MAIN: in panel memory the flushed pixel (x, y) lands at the opposite place, and every other pixel stays. */
  lemma PanelPixels(gram: seq<Byte>, w: nat, h: nat, f: Flush, x: nat, y: nat)
    requires Sized(gram, w, h) && ValidFlush(f, w, h) && x < w && y < h
    ensures 2 * ((h - 1 - y) * w + (w - 1 - x)) + 1 < |gram|
    ensures Covers(f.area, x, y) ==> 0 <= 2 * Rank(f.area, x, y) && 2 * Rank(f.area, x, y) + 1 < |f.pixels|
    ensures PixelAt(PanelBlit(gram, w, f), w, w - 1 - x, h - 1 - y)
         == if Covers(f.area, x, y) then (f.pixels[2 * Rank(f.area, x, y)], f.pixels[2 * Rank(f.area, x, y) + 1])
            else PixelAt(gram, w, w - 1 - x, h - 1 - y)
  {
    hide Blit, Rotate, Rank, Covers, PixelAt;
    var blitted := Blit(Rotate(gram), w, f.area, f.pixels);
    PixelIndex(w, h, w - 1 - x, h - 1 - y);
    PixelIndex(w, h, x, y);
    RotatePixels(gram, w, h, x, y);
    BlitPixels(Rotate(gram), w, h, f.area, f.pixels, x, y);
    RotatePixels(blitted, w, h, w - 1 - x, h - 1 - y);
  }

  function PanelRun(gram: seq<Byte>, w: nat, h: nat, fs: seq<Flush>): (out: seq<Byte>)
    requires w > 0 && |gram| % 2 == 0 && AllValid(fs, w, h)
    ensures |out| == |gram|
  {
    if fs == [] then gram else PanelBlit(PanelRun(gram, w, h, fs[..|fs| - 1]), w, fs[|fs| - 1])
  }

  /** One flush on a panel that is the turned framebuffer leaves it so. */
  lemma PanelStep(fb: seq<Byte>, w: nat, f: Flush)
    requires w > 0 && |fb| % 2 == 0 && |f.pixels| == 2 * (f.area.width * f.area.height)
    ensures PanelBlit(Rotate(fb), w, f) == Rotate(Blit(fb, w, f.area, f.pixels))
  {
    hide Rotate, Blit;
    RotateTwice(fb);
  }

  /** MAIN: after the same flushes the panel memory is the framebuffer of the direct path turned by 180 degrees. */
  lemma {:induction false} PanelRefinesDirect(fb: seq<Byte>, w: nat, h: nat, fs: seq<Flush>)
    requires w > 0 && |fb| % 2 == 0 && AllValid(fs, w, h)
    ensures PanelRun(Rotate(fb), w, h, fs) == Rotate(DirectRun(fb, w, h, fs))
  {
    if fs != [] {
      PanelRefinesDirect(fb, w, h, fs[..|fs| - 1]);
      PanelStep(DirectRun(fb, w, h, fs[..|fs| - 1]), w, fs[|fs| - 1]);
    }
  }
}
