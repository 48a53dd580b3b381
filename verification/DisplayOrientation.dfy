/** What a drawn window shows under any setting of the orientation register. */
module DisplayOrientation {
  import opened Prelude
  import opened Arithmetic
  import opened DisplaySpec

  const T_DECK_MADCTL: Byte := 0x55

  // ----- where pixels go

  /** Bit `mask` of the orientation register. */
  predicate Bit(madctl: Byte, mask: Byte)
    requires mask > 0
  {
    madctl / mask % 2 == 1
  }

  /** Where a logical pixel lives in panel memory; negative when it falls off the panel. */
  function Oriented(madctl: Byte, w: nat, h: nat, x: nat, y: nat): (int, int) {
    if madctl == T_DECK_MADCTL then (w - 1 - x, h - 1 - y)
    else
      var a, b := if Bit(madctl, 0x20) then y else x, if Bit(madctl, 0x20) then x else y;
      (if Bit(madctl, 0x40) then w - 1 - a else a, if Bit(madctl, 0x80) then h - 1 - b else b)
  }

  /** The eight values that set only the three bits: exchange is 0x20, mirroring x 0x40, mirroring y 0x80. */
  lemma StandardOrientations(w: nat, h: nat, x: nat, y: nat)
    ensures Oriented(0x00, w, h, x, y) == (x, y) && Oriented(0x40, w, h, x, y) == (w - 1 - x, y)
    ensures Oriented(0x80, w, h, x, y) == (x, h - 1 - y) && Oriented(0xC0, w, h, x, y) == (w - 1 - x, h - 1 - y)
    ensures Oriented(0x20, w, h, x, y) == (y, x) && Oriented(0x60, w, h, x, y) == (w - 1 - y, x)
    ensures Oriented(0xA0, w, h, x, y) == (y, h - 1 - x) && Oriented(0xE0, w, h, x, y) == (w - 1 - y, h - 1 - x)
    ensures Oriented(T_DECK_MADCTL, w, h, x, y) == (w - 1 - x, h - 1 - y)
  {}

  /** The five low bits do not matter, except in the value that the T-Deck uses. */
  lemma LowBitsIgnored(madctl: Byte, w: nat, h: nat, x: nat, y: nat)
    requires madctl != T_DECK_MADCTL
    ensures Oriented(madctl, w, h, x, y) == Oriented(madctl / 32 * 32, w, h, x, y)
  {}

  predicate OnPanel(p: (int, int), w: nat, h: nat) {
    0 <= p.0 < w && 0 <= p.1 < h
  }

  /** The place of pixel `index` of a window, counted row by row. */
  function Place(madctl: Byte, w: nat, h: nat, area: Rect, index: nat): (int, int)
    requires area.width > 0
  {
    Oriented(madctl, w, h, area.x + index % area.width, area.y + index / area.width)
  }

  lemma IndexFits(w: nat, h: nat, area: Rect, index: nat)
    requires Inside(area, w, h) && index < area.width * area.height
    ensures 0 <= index / area.width < area.height && 0 <= index % area.width < area.width
    ensures index == index / area.width * area.width + index % area.width
  {
    var q := index / area.width;
    assert index == q * area.width + index % area.width;
    assert (area.height - q) * area.width == area.width * area.height - q * area.width;
    PositiveFactor(area.height - q, area.width);
  }

  lemma SamePixel(w: nat, p: nat, x: nat, y: nat)
    requires x < w
    ensures p == y * w + x <==> p % w == x && p / w == y
  {
    if p == y * w + x {
      DivMod(y, x, w);
    }
    assert p == p / w * w + p % w;
  }

  lemma PlaceIs(madctl: Byte, w: nat, h: nat, area: Rect, index: nat, p: (int, int))
    requires area.width > 0
    requires p == Oriented(madctl, w, h, area.x + index % area.width, area.y + index / area.width)
    ensures p == Place(madctl, w, h, area, index)
    ensures OnPanel(p, w, h) <==> 0 <= p.0 < w && 0 <= p.1 < h
    ensures madctl == T_DECK_MADCTL ==>
              p == (w - 1 - (area.x + index % area.width), h - 1 - (area.y + index / area.width))
  {}

  /** No two pixels of a window share a place, whatever the orientation. */
  lemma PlacesDiffer(madctl: Byte, w: nat, h: nat, area: Rect, i: nat, j: nat)
    requires area.width > 0 && Place(madctl, w, h, area, i) == Place(madctl, w, h, area, j)
    ensures i == j
  {
    assert i == i / area.width * area.width + i % area.width;
    assert j == j / area.width * area.width + j % area.width;
  }

  // ----- pixels of the panel memory

  function Pixel(gram: seq<Byte>, w: nat, h: nat, x: nat, y: nat): (Byte, Byte)
    requires Sized(gram, w, h) && x < w && y < h
  {
    PixelIndex(w, h, x, y);
    PixelAt(gram, w, x, y)
  }

  function PutPixel(gram: seq<Byte>, target: nat, b0: Byte, b1: Byte): (out: seq<Byte>)
    requires target + 1 < |gram|
    ensures |out| == |gram|
    ensures forall t :: 0 <= t < |gram| ==>
              out[t] == if t == target then b0 else if t == target + 1 then b1 else gram[t]
  {
    gram[..target] + [b0, b1] + gram[target + 2..]
  }

  lemma PutPixelShows(gram: seq<Byte>, w: nat, h: nat, a: nat, b: nat, b0: Byte, b1: Byte, x: nat, y: nat)
    requires Sized(gram, w, h) && a < w && b < h && x < w && y < h
    ensures 0 <= 2 * (b * w + a) && 2 * (b * w + a) + 1 < |gram|
    ensures Pixel(PutPixel(gram, 2 * (b * w + a), b0, b1), w, h, x, y)
         == if (x, y) == (a, b) then (b0, b1) else Pixel(gram, w, h, x, y)
  {
    PixelIndex(w, h, a, b);
    PixelIndex(w, h, x, y);
    SamePixel(w, b * w + a, x, y);
    SamePixel(w, b * w + a, a, b);
  }

  /** Pixel `index` of a window is at its place in the panel memory. */
  ghost predicate InPlace(gram: seq<Byte>, madctl: Byte, w: nat, h: nat, area: Rect, pixels: seq<Byte>, index: nat)
    requires Sized(gram, w, h) && area.width > 0 && 2 * index + 1 < |pixels|
  {
    var p := Place(madctl, w, h, area, index);
    OnPanel(p, w, h) && Pixel(gram, w, h, p.0, p.1) == (pixels[2 * index], pixels[2 * index + 1])
  }

  /** None of the first `upto` pixels of a window has its place at (x, y). */
  ghost predicate Untouched(madctl: Byte, w: nat, h: nat, area: Rect, upto: nat, x: nat, y: nat)
    requires area.width > 0
  {
    forall i :: 0 <= i < upto ==> Place(madctl, w, h, area, i) != (x, y)
  }

  /** The first `upto` pixels of the window are in place, and every other pixel of the panel is as it was. */
  ghost predicate Shows(
      gram: seq<Byte>, before: seq<Byte>, madctl: Byte, w: nat, h: nat, area: Rect, pixels: seq<Byte>, upto: nat)
    requires Sized(gram, w, h) && Sized(before, w, h) && area.width > 0 && 2 * upto <= |pixels|
  {
    && (forall i :: 0 <= i < upto ==> InPlace(gram, madctl, w, h, area, pixels, i))
    && (forall x: nat, y: nat :: x < w && y < h && Untouched(madctl, w, h, area, upto, x, y) ==>
          Pixel(gram, w, h, x, y) == Pixel(before, w, h, x, y))
  }

  lemma ShowsNothing(gram: seq<Byte>, madctl: Byte, w: nat, h: nat, area: Rect, pixels: seq<Byte>)
    requires Sized(gram, w, h) && area.width > 0
    ensures Shows(gram, gram, madctl, w, h, area, pixels, 0)
  {}

  /** Writing the next pixel at its place shows one more. */
  lemma ShowsStep(
      gram: seq<Byte>, before: seq<Byte>, madctl: Byte, w: nat, h: nat, area: Rect, pixels: seq<Byte>, index: nat)
    requires Sized(gram, w, h) && Sized(before, w, h) && area.width > 0 && 2 * index + 1 < |pixels|
    requires Shows(gram, before, madctl, w, h, area, pixels, index)
    requires OnPanel(Place(madctl, w, h, area, index), w, h)
    ensures
      var p := Place(madctl, w, h, area, index);
      && 0 <= 2 * (p.1 * w + p.0) && 2 * (p.1 * w + p.0) + 1 < |gram|
      && Shows(PutPixel(gram, 2 * (p.1 * w + p.0), pixels[2 * index], pixels[2 * index + 1]),
               before, madctl, w, h, area, pixels, index + 1)
  {
    hide Place, Pixel, PutPixel;
    var p, b0, b1 := Place(madctl, w, h, area, index), pixels[2 * index], pixels[2 * index + 1];
    PutPixelShows(gram, w, h, p.0, p.1, b0, b1, p.0, p.1);
    var next := PutPixel(gram, 2 * (p.1 * w + p.0), b0, b1);
    forall i | 0 <= i < index + 1 ensures InPlace(next, madctl, w, h, area, pixels, i) {
      if i < index {
        assert InPlace(gram, madctl, w, h, area, pixels, i);
        var q := Place(madctl, w, h, area, i);
        if q == p {
          PlacesDiffer(madctl, w, h, area, i, index);
        }
        PutPixelShows(gram, w, h, p.0, p.1, b0, b1, q.0, q.1);
      }
    }
    forall x: nat, y: nat | x < w && y < h && Untouched(madctl, w, h, area, index + 1, x, y)
      ensures Pixel(next, w, h, x, y) == Pixel(before, w, h, x, y)
    {
      PutPixelShows(gram, w, h, p.0, p.1, b0, b1, x, y);
      assert Untouched(madctl, w, h, area, index, x, y);
    }
  }

  // ----- the outcome of a whole window

  ghost predicate AllOnPanel(madctl: Byte, w: nat, h: nat, area: Rect, upto: nat)
    requires area.width > 0
  {
    forall i :: 0 <= i < upto ==> OnPanel(Place(madctl, w, h, area, i), w, h)
  }

  /** Drawn in full, or up to the first pixel that the orientation puts off the panel. */
  ghost predicate Outcome(
      gram: seq<Byte>, before: seq<Byte>, madctl: Byte, w: nat, h: nat, area: Rect, pixels: seq<Byte>, ok: bool)
    requires Sized(gram, w, h) && Sized(before, w, h) && area.width > 0 && |pixels| == 2 * (area.width * area.height)
  {
    if ok then
      AllOnPanel(madctl, w, h, area, area.width * area.height)
      && Shows(gram, before, madctl, w, h, area, pixels, area.width * area.height)
    else
      exists k :: 0 <= k < area.width * area.height && StoppedAt(gram, before, madctl, w, h, area, pixels, k)
  }

  ghost predicate StoppedAt(
      gram: seq<Byte>, before: seq<Byte>, madctl: Byte, w: nat, h: nat, area: Rect, pixels: seq<Byte>, k: nat)
    requires Sized(gram, w, h) && Sized(before, w, h) && area.width > 0 && 2 * k <= |pixels|
  {
    && !OnPanel(Place(madctl, w, h, area, k), w, h)
    && AllOnPanel(madctl, w, h, area, k) && Shows(gram, before, madctl, w, h, area, pixels, k)
  }

  /**
   MAIN: a window is drawn in full unless rows and columns are exchanged and, exchanged, it does not fit; on a
   square panel it always does.
   */
  lemma DrawnInFullIff(madctl: Byte, w: nat, h: nat, area: Rect)
    requires Inside(area, w, h)
    ensures AllOnPanel(madctl, w, h, area, area.width * area.height)
       <==> madctl == T_DECK_MADCTL || !Bit(madctl, 0x20) || (area.y + area.height <= w && area.x + area.width <= h)
  {
    hide Place, Bit, OnPanel;
    var n := area.width * area.height;
    forall i | 0 <= i < n
      ensures OnPanel(Place(madctl, w, h, area, i), w, h)
         <==> madctl == T_DECK_MADCTL || !Bit(madctl, 0x20)
              || (area.y + i / area.width < w && area.x + i % area.width < h)
      ensures i / area.width < area.height && i % area.width < area.width
    {
      PlaceOnPanel(madctl, w, h, area, i);
    }
    LastPixel(area);
    if AllOnPanel(madctl, w, h, area, n) {
      assert OnPanel(Place(madctl, w, h, area, n - 1), w, h);
    }
  }

  lemma PlaceOnPanel(madctl: Byte, w: nat, h: nat, area: Rect, i: nat)
    requires Inside(area, w, h) && i < area.width * area.height
    ensures i / area.width < area.height && i % area.width < area.width
    ensures OnPanel(Place(madctl, w, h, area, i), w, h)
       <==> madctl == T_DECK_MADCTL || !Bit(madctl, 0x20)
            || (area.y + i / area.width < w && area.x + i % area.width < h)
  {
    hide Bit;
    IndexFits(w, h, area, i);
  }

  lemma LastPixel(area: Rect)
    requires area.width > 0 && area.height > 0
    ensures
      var last := area.width * area.height - 1;
      last >= 0 && last / area.width == area.height - 1 && last % area.width == area.width - 1
  {
    assert area.width * area.height - 1 == (area.height - 1) * area.width + (area.width - 1);
    ProductMonotone(0, area.height - 1, area.width);
    DivMod(area.height - 1, area.width - 1, area.width);
  }
}
