/** The LVGL flush callback over either path, and the two paths side by side. */
module DisplayFlush {
  import opened Prelude
  import opened DisplaySpec
  import opened DisplayOrientation
  import opened DisplayClass

  /** An LVGL area: corners, both included. */
  datatype LvArea = LvArea(x1: int, y1: int, x2: int, y2: int)

  predicate ValidArea(a: LvArea, width: nat, height: nat) {
    a.x1 >= 0 && a.y1 >= 0 && a.x2 >= a.x1 && a.y2 >= a.y1 && a.x2 < width && a.y2 < height
  }

  function AreaRect(a: LvArea): Rect
    requires 0 <= a.x1 <= a.x2 && 0 <= a.y1 <= a.y2
  {
    Rect(a.x1, a.y1, a.x2 - a.x1 + 1, a.y2 - a.y1 + 1)
  }

  /** A flush area is used exactly when it lies on the screen, and its corners belong to it. */
  lemma AreaCorners(a: LvArea, width: nat, height: nat)
    ensures ValidArea(a, width, height) <==> 0 <= a.x1 <= a.x2 < width && 0 <= a.y1 <= a.y2 < height
    ensures ValidArea(a, width, height) ==>
              && Inside(AreaRect(a), width, height)
              && forall x, y :: Covers(AreaRect(a), x, y) <==> a.x1 <= x <= a.x2 && a.y1 <= y <= a.y2
  {}

  class LvglV9Display {
    const width: U16
    const height: U16
    const host: ByteOrder
    const framebuffer: array<Byte>
    const controller: St7789Controller?

    ghost predicate Valid()
      reads this, framebuffer, controller, if controller != null then {controller.gram} else {}
    {
      && Sized(framebuffer[..], width, height)
      && (controller != null ==>
            && controller.Valid() && controller.width == width && controller.height == height && controller.host == host
            && controller.gram != framebuffer)
    }

    /** The controller has been through the T-Deck initialization. */
    ghost predicate Ready()
      reads this, controller
    {
      && controller != null
      && controller.panel.resetHigh && controller.panel.initialized && controller.panel.madctl == T_DECK_MADCTL
    }

    constructor Direct(width: U16, height: U16, host: ByteOrder)
      requires width > 0 && height > 0
      ensures Valid() && controller == null && this.width == width && this.height == height && fresh(framebuffer)
      ensures forall t :: 0 <= t < framebuffer.Length ==> framebuffer[t] == 0
    {
      this.width, this.height, this.host := width, height, host;
      framebuffer := new Byte[2 * (width * height)](_ => 0);
      controller := null;
    }

    constructor Onto(controller: St7789Controller)
      requires controller.Valid()
      ensures Valid() && this.controller == controller && fresh(framebuffer)
      ensures width == controller.width && height == controller.height
      ensures forall t :: 0 <= t < framebuffer.Length ==> framebuffer[t] == 0
    {
      this.width, this.height, this.host := controller.width, controller.height, controller.host;
      framebuffer := new Byte[2 * (controller.width * controller.height)](_ => 0);
      this.controller := controller;
    }

    /**
     `lvgl_v9_init_sdl` with controller fidelity: reset low, reset high, T-Deck set-up, full backlight. There is no
     display if another device holds the bus.
     */
    static method Fidelity(controller: St7789Controller) returns (display: LvglV9Display?)
      requires controller.Valid()
      modifies controller`panel, controller`backlight, controller.bus
      ensures display == null <==> old(controller.bus.owner).Some?
      ensures controller.Valid() && controller.bus.owner == old(controller.bus.owner)
      ensures controller.gram[..] == old(controller.gram[..])
      ensures display != null ==>
                && fresh(display) && fresh(display.framebuffer) && display.Valid() && display.Ready()
                && display.controller == controller
                && display.width == controller.width && display.height == controller.height
                && forall t :: 0 <= t < display.framebuffer.Length ==> display.framebuffer[t] == 0
    {
      controller.SetReset(false);
      controller.SetReset(true);
      var ok := controller.InitializeTDeck();
      if !ok {
        return null;
      }
      controller.SetBacklight(255);
      display := new LvglV9Display.Onto(controller);
    }

    /** A flush outside the display is dropped; one the bus refuses leaves everything as it was. */
    method FlushArea(area: LvArea, pixels: seq<Byte>)
      requires Valid()
      requires ValidArea(area, width, height) ==> |pixels| == 2 * (AreaRect(area).width * AreaRect(area).height)
      modifies framebuffer, controller, if controller != null then {controller.gram, controller.bus} else {}
      ensures Valid()
      ensures controller == null ==>
                framebuffer[..] == if !ValidArea(area, width, height) then old(framebuffer[..])
                                   else Blit(old(framebuffer[..]), width, AreaRect(area), pixels)
      ensures controller != null ==> controller.bus.owner == old(controller.bus.owner)
      ensures controller != null && (!ValidArea(area, width, height) || old(controller.bus.owner).Some?) ==>
                framebuffer[..] == old(framebuffer[..]) && controller.gram[..] == old(controller.gram[..])
                && controller.panel == old(controller.panel)
      ensures controller != null && old(controller.bus.owner).None? && old(Ready())
              && ValidArea(area, width, height) ==>
                && Ready() && framebuffer[..] == controller.gram[..]
                && controller.gram[..] == PanelBlit(old(controller.gram[..]), width, Flush(AreaRect(area), pixels))
    {
      hide PanelBlit, Blit, Rotate, ConvertedPairs;
      if !ValidArea(area, width, height) {
        return;
      }
      var rect := AreaRect(area);
      if controller != null {
        var ok := Send(controller, area, pixels);
        if ok {
          CopyAll(framebuffer, controller.gram);
        }
      } else {
        var ok := UpdateRgb565(framebuffer, width, height, pixels, rect);
      }
    }
  }

  /** The four transactions of a flush: columns, rows, write selection, pixels. */
  method Send(controller: St7789Controller, area: LvArea, pixels: seq<Byte>) returns (ok: bool)
    requires controller.Valid() && ValidArea(area, controller.width, controller.height)
    requires |pixels| == 2 * (AreaRect(area).width * AreaRect(area).height)
    modifies controller`panel, controller.gram, controller.bus
    ensures controller.Valid() && controller.bus.owner == old(controller.bus.owner)
    ensures old(controller.bus.owner).Some? ==>
              !ok && controller.gram[..] == old(controller.gram[..]) && controller.panel == old(controller.panel)
    ensures
      var p := old(controller.panel);
      old(controller.bus.owner).None? && p.resetHigh && p.initialized && p.madctl == T_DECK_MADCTL ==>
        && ok
        && controller.panel == p.(column := (area.x1, area.x2), row := (area.y1, area.y2), ramWriteSelected := true)
        && controller.gram[..] == PanelBlit(old(controller.gram[..]), controller.width, Flush(AreaRect(area), pixels))
  {
    hide PanelBlit, ConvertedPairs, Commanded;
    ok := SelectWindow(controller, area);
    if !ok {
      return;
    }
    assert WindowRect(controller.panel) == AreaRect(area);
    var wire := ConvertRgb565(pixels, controller.host, BigEndian);
    ByteOrderRoundTrip(pixels, controller.host, BigEndian);
    ok := controller.WritePixels(wire.value);
  }

  method SelectWindow(controller: St7789Controller, area: LvArea) returns (ok: bool)
    requires controller.Valid() && ValidArea(area, controller.width, controller.height)
    modifies controller`panel, controller.bus
    ensures controller.Valid() && controller.bus.owner == old(controller.bus.owner)
    ensures old(controller.bus.owner).Some? ==> !ok && controller.panel == old(controller.panel)
    ensures old(controller.bus.owner).None? ==>
              && ok
              && controller.panel == old(controller.panel).(column := (area.x1, area.x2), row := (area.y1, area.y2),
                                                            ramWriteSelected := true)
  {
    hide ParseWindow, WindowBytes;
    WindowRoundTrip(area.x1, area.x2, controller.width);
    WindowRoundTrip(area.y1, area.y2, controller.height);
    ok := controller.WriteCommand(ST7789_CASET, WindowBytes(area.x1, area.x2));
    if !ok {
      return;
    }
    ok := controller.WriteCommand(ST7789_RASET, WindowBytes(area.y1, area.y2));
    if !ok {
      return;
    }
    ok := controller.WriteCommand(ST7789_RAMWR, []);
  }

  method CopyAll(target: array<Byte>, source: array<Byte>)
    requires target.Length == source.Length
    modifies target
    ensures target[..] == old(source[..])
  {
    forall i | 0 <= i < target.Length {
      target[i] := source[i];
    }
  }

  // ----- both paths on the same flushes

  datatype LvFlush = LvFlush(area: LvArea, pixels: seq<Byte>)

  predicate Drawable(f: LvFlush, width: nat, height: nat) {
    ValidArea(f.area, width, height) && |f.pixels| == 2 * (AreaRect(f.area).width * AreaRect(f.area).height)
  }

  function AsFlush(f: LvFlush, width: nat, height: nat): (out: Flush)
    requires Drawable(f, width, height)
    ensures ValidFlush(out, width, height)
  {
    Flush(AreaRect(f.area), f.pixels)
  }

  function AsFlushes(fs: seq<LvFlush>, width: nat, height: nat): (out: seq<Flush>)
    requires forall i :: 0 <= i < |fs| ==> Drawable(fs[i], width, height)
    ensures AllValid(out, width, height) && |out| == |fs|
  {
    seq(|fs|, i requires 0 <= i < |fs| => AsFlush(fs[i], width, height))
  }

  lemma DirectRunAppend(fb: seq<Byte>, w: nat, h: nat, fs: seq<Flush>, f: Flush)
    requires w > 0 && AllValid(fs, w, h) && ValidFlush(f, w, h)
    ensures DirectRun(fb, w, h, fs + [f]) == Blit(DirectRun(fb, w, h, fs), w, f.area, f.pixels)
  {
    hide Blit;
    assert (fs + [f])[..|fs|] == fs;
  }

  /**
   MAIN: feed the same flushes, granted by the bus, to a display with the controller and to one without.
   Each ends with what its run says, and the panel memory is the direct framebuffer turned by 180 degrees.
   */
  method FlushBoth(panel: LvglV9Display, direct: LvglV9Display, fs: seq<LvFlush>)
    requires panel.Valid() && direct.Valid() && panel.Ready() && direct.controller == null
    requires panel.controller.bus.owner.None? && panel.width == direct.width && panel.height == direct.height
    requires panel.framebuffer != direct.framebuffer && panel.controller.gram != direct.framebuffer
    requires panel.controller.gram[..] == Rotate(direct.framebuffer[..])
    requires forall i :: 0 <= i < |fs| ==> Drawable(fs[i], panel.width, panel.height)
    modifies panel.framebuffer, panel.controller, panel.controller.gram, panel.controller.bus, direct.framebuffer
    ensures panel.Valid() && direct.Valid() && panel.Ready()
    ensures direct.framebuffer[..]
         == DirectRun(old(direct.framebuffer[..]), panel.width, panel.height, AsFlushes(fs, panel.width, panel.height))
    ensures panel.controller.gram[..] == Rotate(direct.framebuffer[..])
    ensures fs != [] ==> panel.framebuffer[..] == panel.controller.gram[..]
  {
    hide Blit, PanelBlit, Rotate;
    var w, h := panel.width, panel.height;
    ghost var fb, flushes := direct.framebuffer[..], AsFlushes(fs, w, h);
    for i := 0 to |fs|
      invariant panel.Valid() && direct.Valid() && panel.Ready() && panel.controller.bus.owner.None?
      invariant direct.framebuffer[..] == DirectRun(fb, w, h, flushes[..i])
      invariant panel.controller.gram[..] == Rotate(direct.framebuffer[..])
      invariant i > 0 ==> panel.framebuffer[..] == panel.controller.gram[..]
    {
      assert flushes[..i + 1] == flushes[..i] + [flushes[i]];
      DirectRunAppend(fb, w, h, flushes[..i], flushes[i]);
      PanelStep(direct.framebuffer[..], w, flushes[i]);
      panel.FlushArea(fs[i].area, fs[i].pixels);
      direct.FlushArea(fs[i].area, fs[i].pixels);
    }
    assert flushes[..|fs|] == flushes;
  }
}
