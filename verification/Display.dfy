/** The two display paths as the program runs them: in-place loops over byte buffers. */
module DisplayClass {
  import opened Prelude
  import opened Arithmetic
  import opened DisplaySpec
  import opened DisplayOrientation

  const ST7789_CASET: Byte := 0x2A
  const ST7789_RASET: Byte := 0x2B
  const ST7789_RAMWR: Byte := 0x2C
  const ST7789_MADCTL: Byte := 0x36
  const ST7789_INVON: Byte := 0x21
  const ST7789_INVOFF: Byte := 0x20

  // ----- byte order and the direct path

  method ConvertRgb565(pixels: seq<Byte>, source: ByteOrder, target: ByteOrder) returns (converted: Option<seq<Byte>>)
    ensures converted == Converted(pixels, source, target)
    ensures converted.None? <==> |pixels| % 2 == 1
    ensures converted.Some? ==>
              && |converted.value| == |pixels|
              && forall i :: 0 <= i < |pixels| ==>
                   converted.value[i] == pixels[if source == target then i else if i % 2 == 0 then i + 1 else i - 1]
  {
    hide DecodePixel, EncodePixel;
    if |pixels| % 2 != 0 {
      return None;
    }
    var out := [];
    var i := 0;
    while i < |pixels|
      invariant 0 <= i <= |pixels| && i % 2 == 0
      invariant out == ConvertedPairs(pixels[..i], source, target)
    {
      var value := DecodePixel(source, pixels[i], pixels[i + 1]);
      ConvertedAppend(pixels[..i], pixels[i..i + 2], source, target);
      assert pixels[..i + 2] == pixels[..i] + pixels[i..i + 2];
      out := out + EncodePixel(target, value);
      i := i + 2;
    }
    assert pixels[..i] == pixels;
    ConvertedBytes(pixels, source, target);
    return Some(out);
  }

  /** What a row copy covers: the bytes of row `row` of the rectangle lie together. */
  lemma RowBytes(w: nat, h: nat, area: Rect, row: nat, t: nat)
    requires Inside(area, w, h) && row < area.height && t < 2 * (w * h)
    ensures
      var start := 2 * ((area.y + row) * w + area.x);
      start <= t < start + 2 * area.width
      <==> t / 2 / w == area.y + row && area.x <= t / 2 % w < area.x + area.width
  {
    var p := t / 2;
    var y, x := p / w, p % w;
    assert p == y * w + x;
    var d := y - (area.y + row);
    assert p - ((area.y + row) * w) == d * w + x;
    if d >= 1 {
      assert d * w >= w;
    } else if d <= -1 {
      assert -d * w >= w;
      assert d * w == -(-d * w);
    }
  }

  lemma RankRow(area: Rect, x: int, y: int, row: nat)
    requires Covers(area, x, y)
    ensures Rank(area, x, y) < row * area.width <==> y < area.y + row
  {
    var r := y - area.y;
    if r < row {
      OneMore(r, area.width);
      ProductMonotone(r + 1, row, area.width);
    } else {
      ProductMonotone(row, r, area.width);
    }
  }

  /** Where byte `t` of row `row` comes from. */
  lemma RowSource(w: nat, area: Rect, row: nat, t: nat)
    requires w > 0 && t / 2 / w == area.y + row
    ensures 2 * Rank(area, t / 2 % w, area.y + row) + t % 2
         == 2 * (row * area.width) + (t - 2 * ((area.y + row) * w + area.x))
  {
    assert t / 2 == t / 2 / w * w + t / 2 % w;
  }

  /** Copying one more row extends the blit by that row. */
  lemma RowStep(buffer: seq<Byte>, w: nat, h: nat, area: Rect, pixels: seq<Byte>, row: nat, t: nat)
    requires Sized(buffer, w, h) && Inside(area, w, h) && |pixels| == 2 * (area.width * area.height)
    requires row < area.height && t < |buffer|
    ensures
      var start := 2 * ((area.y + row) * w + area.x);
      && 0 <= 2 * (row * area.width) && 2 * (row * area.width) + 2 * area.width <= |pixels|
      && BlitByte(buffer, w, area, pixels, (row + 1) * area.width, t)
         == if start <= t < start + 2 * area.width then pixels[2 * (row * area.width) + (t - start)]
            else BlitByte(buffer, w, area, pixels, row * area.width, t)
  {
    hide Rank, Inside;
    var x, y := t / 2 % w, t / 2 / w;
    RowBytes(w, h, area, row, t);
    RowFits(w, h, area, row);
    if Covers(area, x, y) {
      RankRow(area, x, y, row);
      RankRow(area, x, y, row + 1);
      if y == area.y + row {
        RowSource(w, area, row, t);
      }
    } else {
      assert !(y == area.y + row && area.x <= x < area.x + area.width);
    }
  }

  lemma RowFits(w: nat, h: nat, area: Rect, row: nat)
    requires Inside(area, w, h) && row < area.height
    ensures 0 <= 2 * ((area.y + row) * w + area.x)
    ensures 2 * ((area.y + row) * w + area.x) + 2 * area.width <= 2 * (w * h)
    ensures 0 <= 2 * (row * area.width) && 2 * (row * area.width) + 2 * area.width <= 2 * (area.width * area.height)
  {
    OneMore(area.y + row, w);
    ProductMonotone(area.y + row + 1, h, w);
    OneMore(row, area.width);
    ProductMonotone(row + 1, area.height, area.width);
  }

  /** Copies a rectangle of packed pixels into a framebuffer, or refuses and changes nothing. */
  method UpdateRgb565(framebuffer: array<Byte>, width: U32, height: U32, pixels: seq<Byte>, area: Rect)
    returns (ok: bool)
    modifies framebuffer
    ensures ok <==>
              && 0 < area.width && area.x + area.width <= width && 0 < area.height && area.y + area.height <= height
              && framebuffer.Length == 2 * (width * height) && |pixels| == 2 * (area.width * area.height)
    ensures ok ==> framebuffer[..] == Blit(old(framebuffer[..]), width, area, pixels)
    ensures !ok ==> framebuffer[..] == old(framebuffer[..])
  {
    if area.width == 0 || area.height == 0 {
      return false;
    }
    if area.x + area.width > width || area.y + area.height > height {
      return false;
    }
    if framebuffer.Length != 2 * (width * height) || |pixels| != 2 * (area.width * area.height) {
      return false;
    }
    CopyRows(framebuffer, width, height, pixels, area);
    return true;
  }

  method CopyRows(framebuffer: array<Byte>, width: U32, height: U32, pixels: seq<Byte>, area: Rect)
    requires Sized(framebuffer[..], width, height) && Inside(area, width, height)
    requires |pixels| == 2 * (area.width * area.height)
    modifies framebuffer
    ensures framebuffer[..] == Blit(old(framebuffer[..]), width, area, pixels)
  {
    hide Copied, BlitUpTo, Blit, Inside;
    ghost var before := framebuffer[..];
    var sourcePitch := area.width * 2;
    CopiedStart(before, width, area, pixels);
    for row := 0 to area.height
      invariant framebuffer.Length == |before|
      invariant Copied(framebuffer[..], before, width, area, pixels, row)
    {
      RowFits(width, height, area, row);
      var sourceStart := 2 * (row * area.width);
      var targetStart := 2 * ((area.y + row) * width + area.x);
      ghost var was := framebuffer[..];
      CopySlice(framebuffer, targetStart, pixels[sourceStart..sourceStart + sourcePitch]);
      CopiedStep(was, before, width, height, area, pixels, row);
    }
    CopiedEnd(framebuffer[..], before, width, area, pixels);
  }

  /** `copy_from_slice` */
  method CopySlice(buffer: array<Byte>, start: nat, slice: seq<Byte>)
    requires start + |slice| <= buffer.Length
    modifies buffer
    ensures buffer[..] == PutRow(old(buffer[..]), start, slice)
  {
    forall i | 0 <= i < |slice| {
      buffer[start + i] := slice[i];
    }
  }

  function PutRow(buffer: seq<Byte>, start: nat, slice: seq<Byte>): (out: seq<Byte>)
    requires start + |slice| <= |buffer|
    ensures |out| == |buffer|
    ensures forall t :: 0 <= t < |buffer| ==>
              out[t] == if start <= t < start + |slice| then slice[t - start] else buffer[t]
  {
    buffer[..start] + slice + buffer[start + |slice|..]
  }

  /** The framebuffer has received the first `rows` rows of the rectangle. */
  ghost predicate Copied(fb: seq<Byte>, before: seq<Byte>, w: nat, area: Rect, pixels: seq<Byte>, rows: nat)
    requires w > 0 && |pixels| == 2 * (area.width * area.height)
  {
    fb == BlitUpTo(before, w, area, pixels, rows * area.width)
  }

  lemma BlitNothing(buffer: seq<Byte>, w: nat, area: Rect, pixels: seq<Byte>)
    requires w > 0 && |pixels| == 2 * (area.width * area.height)
    ensures BlitUpTo(buffer, w, area, pixels, 0) == buffer
  {
    forall t | 0 <= t < |buffer| ensures BlitByte(buffer, w, area, pixels, 0, t) == buffer[t] {
      if Covers(area, t / 2 % w, t / 2 / w) {
        RankBounds(area, t / 2 % w, t / 2 / w);
      }
    }
  }

  lemma CopiedStart(before: seq<Byte>, w: nat, area: Rect, pixels: seq<Byte>)
    requires w > 0 && |pixels| == 2 * (area.width * area.height)
    ensures Copied(before, before, w, area, pixels, 0)
  {
    BlitNothing(before, w, area, pixels);
  }

  lemma CopiedEnd(fb: seq<Byte>, before: seq<Byte>, w: nat, area: Rect, pixels: seq<Byte>)
    requires w > 0 && |pixels| == 2 * (area.width * area.height)
    requires Copied(fb, before, w, area, pixels, area.height)
    ensures fb == Blit(before, w, area, pixels)
  {}

  lemma CopiedStep(fb: seq<Byte>, before: seq<Byte>, w: nat, h: nat, area: Rect, pixels: seq<Byte>, row: nat)
    requires Sized(before, w, h) && Inside(area, w, h) && |pixels| == 2 * (area.width * area.height)
    requires row < area.height && Copied(fb, before, w, area, pixels, row)
    ensures
      var source, target := 2 * (row * area.width), 2 * ((area.y + row) * w + area.x);
      && 0 <= source && source + 2 * area.width <= |pixels| && 0 <= target && target + 2 * area.width <= |fb|
      && Copied(PutRow(fb, target, pixels[source..source + 2 * area.width]), before, w, area, pixels, row + 1)
  {
    hide BlitByte, Rank, PutRow;
    RowFits(w, h, area, row);
    var source, target := 2 * (row * area.width), 2 * ((area.y + row) * w + area.x);
    var slice := pixels[source..source + 2 * area.width];
    forall t | 0 <= t < |fb|
      ensures PutRow(fb, target, slice)[t] == BlitUpTo(before, w, area, pixels, (row + 1) * area.width)[t]
    {
      RowStep(before, w, h, area, pixels, row, t);
    }
  }

  // ----- the controller

  datatype SpiDevice = Display | Sx1262 | SdCard

  class SharedSpiBus {
    var owner: Option<SpiDevice>

    constructor ()
      ensures owner == None
    {
      owner := None;
    }
  }

  function ParseWindow(data: seq<Byte>, limit: U16): Option<(U16, U16)> {
    if |data| != 4 then None
    else
      var start, end := Word(data[1], data[0]), Word(data[3], data[2]);
      if start <= end && end < limit then Some((start, end)) else None
  }

  /** Four bytes that name a first and a last coordinate, high byte first, within the limit. */
  predicate NamesWindow(data: seq<Byte>, limit: U16) {
    |data| == 4 && WindowOf(data).0 <= WindowOf(data).1 < limit
  }

  function WindowOf(data: seq<Byte>): (U16, U16)
    requires |data| == 4
  {
    var d0: int, d1: int, d2: int, d3: int := data[0], data[1], data[2], data[3];
    (256 * d0 + d1, 256 * d2 + d3)
  }

  /** Two coordinates as a controller expects them: big-endian words. */
  function WindowBytes(start: U16, end: U16): seq<Byte> {
    [High(start), Low(start), High(end), Low(end)]
  }

  lemma WindowRoundTrip(start: U16, end: U16, limit: U16)
    requires start <= end < limit
    ensures ParseWindow(WindowBytes(start, end), limit) == Some((start, end))
  {}

  /** The registers a command can change. */
  datatype Panel = Panel(
    resetHigh: bool, resetSeenLow: bool, initialized: bool, inverted: bool, madctl: Byte,
    column: (U16, U16), row: (U16, U16), ramWriteSelected: bool)

  /** The registers after a command, and whether it was accepted. */
  function Commanded(p: Panel, width: U16, height: U16, command: Byte, data: seq<Byte>): (Panel, bool) {
    var q := p.(ramWriteSelected := false);
    if command == ST7789_MADCTL then if |data| == 1 then (q.(madctl := data[0]), true) else (q, false)
    else if command == ST7789_INVON then if data == [] then (q.(inverted := true), true) else (q, false)
    else if command == ST7789_INVOFF then if data == [] then (q.(inverted := false), true) else (q, false)
    else if command == ST7789_CASET then
      match ParseWindow(data, width) case Some(c) => (q.(column := c), true) case None => (q, false)
    else if command == ST7789_RASET then
      match ParseWindow(data, height) case Some(r) => (q.(row := r), true) case None => (q, false)
    else if command == ST7789_RAMWR then if data == [] then (q.(ramWriteSelected := true), true) else (q, false)
    else (q, true)
  }

  function WindowRect(p: Panel): Rect
    requires p.column.0 <= p.column.1 && p.row.0 <= p.row.1
  {
    Rect(p.column.0, p.row.0, p.column.1 - p.column.0 + 1, p.row.1 - p.row.0 + 1)
  }

  class St7789Controller {
    const width: U16
    const height: U16
    const host: ByteOrder
    const bus: SharedSpiBus
    const gram: array<Byte>
    var panel: Panel
    var backlight: Byte

    ghost predicate Valid()
      reads this, gram
    {
      && Sized(gram[..], width, height)
      && panel.column.0 <= panel.column.1 < width && panel.row.0 <= panel.row.1 < height
    }

    constructor (width: U16, height: U16, host: ByteOrder, bus: SharedSpiBus)
      requires width > 0 && height > 0
      ensures Valid() && fresh(gram) && this.bus == bus
      ensures this.width == width && this.height == height && this.host == host
      ensures forall t :: 0 <= t < gram.Length ==> gram[t] == 0
      ensures panel == Panel(true, false, false, false, 0, (0, width - 1), (0, height - 1), false)
    {
      this.width, this.height, this.host, this.bus := width, height, host, bus;
      gram := new Byte[2 * (width * height)](_ => 0);
      panel := Panel(true, false, false, false, 0, (0, width - 1), (0, height - 1), false);
      backlight := 0;
    }

    method SetReset(high: bool)
      requires Valid()
      modifies this`panel
      ensures Valid()
      ensures panel == (if high then old(panel).(resetHigh := true)
                        else old(panel).(resetHigh := false, resetSeenLow := true, initialized := false,
                                         inverted := false,
                                         madctl := 0, ramWriteSelected := false))
    {
      panel := panel.(resetHigh := high);
      if !high {
        panel := panel.(resetSeenLow := true, initialized := false, inverted := false, madctl := 0,
                        ramWriteSelected := false);
      }
    }

    method SetBacklight(duty: Byte)
      requires Valid()
      modifies this`backlight
      ensures Valid() && backlight == duty
    {
      backlight := duty;
    }

    method InitializeTDeck() returns (ok: bool)
      requires Valid()
      modifies this`panel, bus
      ensures Valid() && bus.owner == old(bus.owner)
      ensures ok <==> old(panel).resetHigh && old(panel).resetSeenLow && old(bus.owner).None?
      ensures ok ==> panel == old(panel).(madctl := T_DECK_MADCTL, inverted := true, initialized := true,
                                          ramWriteSelected := false)
      ensures !ok ==> panel == old(panel)
    {
      if !panel.resetHigh || !panel.resetSeenLow {
        return false;
      }
      ok := WriteCommand(ST7789_MADCTL, [T_DECK_MADCTL]);
      if !ok {
        return;
      }
      ok := WriteCommand(ST7789_INVON, []);
      panel := panel.(initialized := true);
    }

    /** A command is one bus transaction: refused while any device holds the bus. */
    method WriteCommand(command: Byte, data: seq<Byte>) returns (ok: bool)
      requires Valid()
      modifies this`panel, bus
      ensures Valid() && bus.owner == old(bus.owner)
      ensures old(bus.owner).Some? ==> !ok && panel == old(panel)
      ensures old(bus.owner).None? ==> (panel, ok) == Commanded(old(panel), width, height, command, data)
    {
      if bus.owner.Some? {
        return false;
      }
      bus.owner := Some(Display);
      ok := ApplyCommand(command, data);
      bus.owner := None;
    }

    method ApplyCommand(command: Byte, data: seq<Byte>) returns (ok: bool)
      requires Valid()
      modifies this`panel
      ensures Valid()
      ensures (panel, ok) == Commanded(old(panel), width, height, command, data)
      ensures panel == old(panel).(ramWriteSelected := panel.ramWriteSelected, madctl := panel.madctl,
                                   inverted := panel.inverted, column := panel.column, row := panel.row)
      ensures panel.ramWriteSelected <==> command == 0x2C && data == []
      ensures panel.madctl == if command == 0x36 && |data| == 1 then data[0] else old(panel).madctl
      ensures panel.inverted <==> (data == [] && command == 0x21)
                                  || (!(data == [] && command == 0x20) && old(panel).inverted)
      ensures panel.column == if command == 0x2A && NamesWindow(data, width) then WindowOf(data) else old(panel).column
      ensures panel.row == if command == 0x2B && NamesWindow(data, height) then WindowOf(data) else old(panel).row
      ensures ok <==> match command
                      case 0x36 => |data| == 1
                      case 0x21 => data == []
                      case 0x20 => data == []
                      case 0x2C => data == []
                      case 0x2A => NamesWindow(data, width)
                      case 0x2B => NamesWindow(data, height)
                      case _ => true
    {
      panel := panel.(ramWriteSelected := false);
      if command == ST7789_MADCTL {
        if |data| != 1 {
          return false;
        }
        panel := panel.(madctl := data[0]);
      } else if command == ST7789_INVON {
        if data != [] {
          return false;
        }
        panel := panel.(inverted := true);
      } else if command == ST7789_INVOFF {
        if data != [] {
          return false;
        }
        panel := panel.(inverted := false);
      } else if command == ST7789_CASET {
        var window := ParseWindow(data, width);
        if window.None? {
          return false;
        }
        panel := panel.(column := window.value);
      } else if command == ST7789_RASET {
        var window := ParseWindow(data, height);
        if window.None? {
          return false;
        }
        panel := panel.(row := window.value);
      } else if command == ST7789_RAMWR {
        if data != [] {
          return false;
        }
        panel := panel.(ramWriteSelected := true);
      }
      return true;
    }

    /** Where a logical pixel lives in panel memory; negative when it falls off the panel. */
    function MapOrientation(x: nat, y: nat): (int, int)
      reads this
    {
      Oriented(panel.madctl, width, height, x, y)
    }

    method WritePixels(wireBytes: seq<Byte>) returns (ok: bool)
      requires Valid()
      modifies gram, bus
      ensures Valid() && bus.owner == old(bus.owner)
      ensures old(bus.owner).Some? ==> !ok && gram[..] == old(gram[..])
      ensures !PixelsAccepted(wireBytes) ==> !ok && gram[..] == old(gram[..])
      ensures old(bus.owner).None? && PixelsAccepted(wireBytes) ==> Painted(old(gram[..]), WireFlush(wireBytes), ok)
    {
      hide Painted;
      if bus.owner.Some? {
        return false;
      }
      bus.owner := Some(Display);
      ok := ApplyPixels(wireBytes);
      bus.owner := None;
    }

    /** The panel is out of reset, set up and told to expect pixels, and there are as many as the window holds. */
    ghost predicate PixelsAccepted(wireBytes: seq<Byte>)
      requires Valid()
      reads this, gram
    {
      && panel.resetHigh && panel.initialized && panel.ramWriteSelected
      && |wireBytes| == 2 * (WindowRect(panel).width * WindowRect(panel).height)
    }

    /** The pixels on the wire, in host byte order, for the selected window. */
    ghost function WireFlush(wireBytes: seq<Byte>): (f: Flush)
      requires Valid() && |wireBytes| == 2 * (WindowRect(panel).width * WindowRect(panel).height)
      reads this, gram
      ensures ValidFlush(f, width, height)
      ensures f.area.x == panel.column.0 && f.area.x + f.area.width == panel.column.1 + 1
      ensures f.area.y == panel.row.0 && f.area.y + f.area.height == panel.row.1 + 1
      ensures host.BigEndian? ==> f.pixels == wireBytes
      ensures host.LittleEndian? ==>
                && |f.pixels| == |wireBytes|
                && forall i :: 0 <= i < |wireBytes| ==> f.pixels[i] == wireBytes[if i % 2 == 0 then i + 1 else i - 1]
    {
      ConvertedBytes(wireBytes, BigEndian, host);
      Flush(WindowRect(panel), ConvertedPairs(wireBytes, BigEndian, host))
    }

    /** The outcome for any orientation; for that of the T-Deck, the whole picture turned by 180 degrees. */
    ghost predicate Painted(before: seq<Byte>, f: Flush, ok: bool)
      requires Valid() && |before| == gram.Length && ValidFlush(f, width, height)
      reads this, gram
    {
      && Outcome(gram[..], before, panel.madctl, width, height, f.area, f.pixels, ok)
      && (panel.madctl == T_DECK_MADCTL ==> ok && gram[..] == PanelBlit(before, width, f))
    }

    method ApplyPixels(wireBytes: seq<Byte>) returns (ok: bool)
      requires Valid()
      modifies gram
      ensures Valid()
      ensures !PixelsAccepted(wireBytes) ==> !ok && gram[..] == old(gram[..])
      ensures PixelsAccepted(wireBytes) ==> Painted(old(gram[..]), WireFlush(wireBytes), ok)
    {
      hide Painted;
      if !panel.resetHigh || !panel.initialized || !panel.ramWriteSelected {
        return false;
      }
      var converted := ConvertRgb565(wireBytes, BigEndian, host);
      if converted.None? {
        return false;
      }
      var pixels := converted.value;
      var window := WindowRect(panel);
      if |pixels| != 2 * (window.width * window.height) {
        return false;
      }
      ok := Draw(window, pixels);
    }

    /** Writes the pixels of the window row by row, each at the place the orientation register gives it. */
    method Draw(window: Rect, pixels: seq<Byte>) returns (ok: bool)
      requires Valid() && Inside(window, width, height) && |pixels| == 2 * (window.width * window.height)
      modifies gram
      ensures Painted(old(gram[..]), Flush(window, pixels), ok)
    {
      hide Drawn, Target, Rotate, BlitUpTo, PanelBlit, Rank, Shows, Oriented, OnPanel, PutPixel, Place;
      ghost var before := gram[..];
      ghost var logical := Rotate(before);
      DrawnStart(before, width, height, window, pixels);
      ShowsNothing(before, panel.madctl, width, height, window, pixels);
      for index := 0 to window.width * window.height
        invariant AllOnPanel(panel.madctl, width, height, window, index)
        invariant Shows(gram[..], before, panel.madctl, width, height, window, pixels, index)
        invariant panel.madctl == T_DECK_MADCTL ==> Drawn(gram[..], logical, width, window, pixels, index)
      {
        IndexFits(width, height, window, index);
        ghost var was := gram[..];
        var (x, y) := MapOrientation(window.x + index % window.width, window.y + index / window.width);
        PlaceIs(panel.madctl, width, height, window, index, (x, y));
        if x < 0 || y < 0 || x >= width || y >= height {
          assert StoppedAt(gram[..], before, panel.madctl, width, height, window, pixels, index);
          return false;
        }
        PixelIndex(width, height, x, y);
        PutBytes(gram, 2 * (y * width + x), pixels[2 * index], pixels[2 * index + 1]);
        ShowsStep(was, before, panel.madctl, width, height, window, pixels, index);
        if panel.madctl == T_DECK_MADCTL {
          TargetIs(width, height, window, index);
          DrawnStep(was, logical, width, height, window, pixels, index);
        }
      }
      if panel.madctl == T_DECK_MADCTL {
        DrawnEnd(gram[..], before, width, height, window, pixels);
      }
      return true;
    }
  }

  method PutBytes(gram: array<Byte>, target: nat, b0: Byte, b1: Byte)
    requires target + 1 < gram.Length
    modifies gram
    ensures gram[..] == PutPixel(old(gram[..]), target, b0, b1)
  {
    gram[target] := b0;
    gram[target + 1] := b1;
  }

  /** Where pixel `index` of the window goes on a panel mounted upside down. */
  function Target(w: nat, h: nat, area: Rect, index: nat): int
    requires area.width > 0
  {
    2 * ((h - 1 - (area.y + index / area.width)) * w + (w - 1 - (area.x + index % area.width)))
  }

  lemma TargetIs(w: nat, h: nat, area: Rect, index: nat)
    requires Inside(area, w, h) && index < area.width * area.height
    ensures Target(w, h, area, index)
         == 2 * ((h - 1 - (area.y + index / area.width)) * w + (w - 1 - (area.x + index % area.width)))
  {}

  /** The panel memory shows the first `upto` pixels of the window over what was there before. */
  ghost predicate Drawn(gram: seq<Byte>, logical: seq<Byte>, w: nat, area: Rect, pixels: seq<Byte>, upto: nat)
    requires w > 0 && |pixels| == 2 * (area.width * area.height) && |logical| % 2 == 0
  {
    gram == Rotate(BlitUpTo(logical, w, area, pixels, upto))
  }

  lemma DrawnStart(gram: seq<Byte>, w: nat, h: nat, area: Rect, pixels: seq<Byte>)
    requires Sized(gram, w, h) && Inside(area, w, h) && |pixels| == 2 * (area.width * area.height)
    ensures Drawn(gram, Rotate(gram), w, area, pixels, 0)
  {
    BlitNothing(Rotate(gram), w, area, pixels);
    RotateTwice(gram);
  }

  lemma DrawnEnd(gram: seq<Byte>, before: seq<Byte>, w: nat, h: nat, area: Rect, pixels: seq<Byte>)
    requires Sized(before, w, h) && Inside(area, w, h) && |pixels| == 2 * (area.width * area.height)
    requires Drawn(gram, Rotate(before), w, area, pixels, area.width * area.height)
    ensures gram == PanelBlit(before, w, Flush(area, pixels))
  {}

  lemma DrawnStep(gram: seq<Byte>, logical: seq<Byte>, w: nat, h: nat, area: Rect, pixels: seq<Byte>, index: nat)
    requires Sized(logical, w, h) && Inside(area, w, h) && |pixels| == 2 * (area.width * area.height)
    requires index < area.width * area.height && Drawn(gram, logical, w, area, pixels, index)
    ensures 0 <= Target(w, h, area, index) && Target(w, h, area, index) + 1 < |gram|
    ensures Drawn(PutPixel(gram, Target(w, h, area, index), pixels[2 * index], pixels[2 * index + 1]),
                  logical, w, area, pixels, index + 1)
  {
    hide BlitByte, Target, PutPixel, Mirror;
    TargetInside(w, h, area, index);
    var next := PutPixel(gram, Target(w, h, area, index), pixels[2 * index], pixels[2 * index + 1]);
    forall t | 0 <= t < |gram|
      ensures next[t] == Rotate(BlitUpTo(logical, w, area, pixels, index + 1))[t]
    {
      PixelStep(logical, w, h, area, pixels, index, t);
      assert |logical| / 2 == w * h;
    }
  }

  lemma TargetInside(w: nat, h: nat, area: Rect, index: nat)
    requires Inside(area, w, h) && index < area.width * area.height
    ensures 0 <= Target(w, h, area, index) && Target(w, h, area, index) + 1 < 2 * (w * h)
  {
    IndexFits(w, h, area, index);
    PixelIndex(w, h, w - 1 - (area.x + index % area.width), h - 1 - (area.y + index / area.width));
  }

  lemma TargetMirror(w: nat, h: nat, area: Rect, index: nat)
    requires area.width > 0
    ensures Target(w, h, area, index)
         == 2 * (w * h - 1 - ((area.y + index / area.width) * w + (area.x + index % area.width)))
  {
    MirrorIndex(w, h, area.x + index % area.width, area.y + index / area.width);
  }

  lemma RankIs(w: nat, h: nat, area: Rect, index: nat, x: int, y: int)
    requires Inside(area, w, h) && index < area.width * area.height
    ensures Covers(area, x, y) && Rank(area, x, y) == index
            <==> x == area.x + index % area.width && y == area.y + index / area.width
  {
    IndexFits(w, h, area, index);
    if Covers(area, x, y) {
      RankBounds(area, x, y);
    }
  }

  /** The logical pixel a byte of panel memory shows is pixel `index` of the window exactly at its target. */
  lemma TargetHit(w: nat, h: nat, area: Rect, index: nat, t: nat)
    requires Inside(area, w, h) && index < area.width * area.height && t < 2 * (w * h)
    ensures 0 <= Mirror(t, w * h) < 2 * (w * h)
    ensures
      var m := Mirror(t, w * h);
      var x, y := m / 2 % w, m / 2 / w;
      && m % 2 == t % 2
      && (Covers(area, x, y) && Rank(area, x, y) == index
          <==> t == Target(w, h, area, index) || t == Target(w, h, area, index) + 1)
  {
    hide Target, Covers, Rank;
    IndexFits(w, h, area, index);
    var x, y := area.x + index % area.width, area.y + index / area.width;
    TargetMirror(w, h, area, index);
    var p := Mirror(t, w * h) / 2;
    HalfIndex(t, w * h, y * w + x);
    SamePixel(w, p, x, y);
    RankIs(w, h, area, index, p % w, p / w);
  }

  lemma HalfIndex(t: nat, n: nat, q: int)
    requires t < 2 * n
    ensures 0 <= Mirror(t, n) < 2 * n && Mirror(t, n) % 2 == t % 2
    ensures Mirror(t, n) / 2 == q <==> t == 2 * (n - 1 - q) || t == 2 * (n - 1 - q) + 1
  {}

  /** Writing pixel `index` of the window at its mirrored place extends the blit by that pixel. */
  lemma PixelStep(logical: seq<Byte>, w: nat, h: nat, area: Rect, pixels: seq<Byte>, index: nat, t: nat)
    requires Sized(logical, w, h) && Inside(area, w, h) && |pixels| == 2 * (area.width * area.height)
    requires index < area.width * area.height && t < |logical|
    ensures 0 <= Mirror(t, w * h) < |logical|
    ensures
      var target := Target(w, h, area, index);
      BlitByte(logical, w, area, pixels, index + 1, Mirror(t, w * h))
      == if t == target then pixels[2 * index] else if t == target + 1 then pixels[2 * index + 1]
         else BlitByte(logical, w, area, pixels, index, Mirror(t, w * h))
  {
    hide Mirror, Rank, Target;
    TargetHit(w, h, area, index, t);
    TargetEven(w, h, area, index);
  }

  lemma TargetEven(w: nat, h: nat, area: Rect, index: nat)
    requires area.width > 0
    ensures Target(w, h, area, index) % 2 == 0
  {}
}
