/** The GT911 controller as the program runs it. */
module Gt911Class {
  import opened Prelude
  import opened TouchSpec
  import opened TouchRegisters
  import TouchPhantom

  class Gt911Controller {
    var touchPoints: Slots
    var contactSize: U16
    var maxX: U16
    var maxY: U16
    var nowMs: U64
    var frame: Frame
    var lastRawPosition: Option<Raw>
    var lastMappedPosition: Option<Raw>
    var physicalPrimary: Option<(Raw, Point)>
    var injector: Injector
    var stall: Stall
    var phantom: Phantom

    function State(): Touch
      reads this
    {
      Touch(touchPoints, contactSize, maxX, maxY, nowMs, frame, lastRawPosition, lastMappedPosition, physicalPrimary,
            injector, stall, phantom)
    }

    constructor ()
      ensures State() == TouchPhantom.Fresh()
    {
      touchPoints := [None, None, None, None, None];
      contactSize, maxX, maxY, nowMs := 50, 320, 240, 0;
      frame := Frame(false, false, None);
      lastRawPosition, lastMappedPosition, physicalPrimary := None, None, None;
      injector := Injector(0, 0, 0, false);
      stall := Stall(0, None, None, false);
      phantom := Phantom(false, None, None, false);
    }

    method SetI2cFailureRate(pct: Byte)
      modifies this
      ensures State() == RateSet(old(State()), pct)
    {
      injector := injector.(rate := Min(pct, 100), accumulator := 0, consecutive := 0);
      injector := injector.(fired := false);
    }

    method SetFrameStallMs(ms: U32)
      modifies this
      ensures State() == StallSet(old(State()), ms)
    {
      stall := stall.(ms := ms, fired := false);
      ArmStall();
    }

    method SetLatch(enabled: bool)
      modifies this
      ensures State() == LatchSet(old(State()), enabled)
    {
      hide PrimaryOf;
      var wasEnabled := phantom.latch;
      phantom := phantom.(latch := enabled, fired := false);
      if enabled {
        var primary := PrimaryOf(touchPoints);
        phantom := phantom.(point := primary, started := if primary.Some? then Some(nowMs) else None);
      } else {
        phantom := phantom.(point := None, started := None);
        if wasEnabled {
          match physicalPrimary {
            case Some((raw, point)) =>
              touchPoints := touchPoints[0 := Some(point)];
              lastRawPosition := Some(raw);
              lastMappedPosition := Some((point.x, point.y));
            case None =>
              touchPoints := touchPoints[0 := None];
          }
          MarkReady();
        }
      }
    }

    method Inject(mouseX: int, mouseY: int, pressed: bool)
      modifies this
      ensures State() == TouchInjected(old(State()), mouseX, mouseY, pressed)
    {
      hide IsPressed, FrameIsStalled, RawOf, MappedPoint, ArmFrameStall;
      var raw := RawOf(mouseX, mouseY);
      var point := MappedPoint(mouseX, mouseY, contactSize);
      var wasPressed := IsPressed(State());
      var wasStalled := FrameIsStalled(State());
      physicalPrimary := if pressed then Some((raw, point)) else None;
      if pressed {
        Report(raw, point);
        if !wasPressed {
          ArmStall();
          MarkReady();
        } else if !wasStalled {
          MarkReady();
        }
      } else if phantom.latch && phantom.point.Some? {
        touchPoints := touchPoints[0 := phantom.point];
        if !wasStalled {
          MarkReady();
        }
      } else {
        touchPoints := touchPoints[0 := None];
        stall := stall.(started := None, until := None);
        phantom := phantom.(point := None, started := None);
        MarkReady();
      }
    }

    /** Puts a press into slot 0: the finger, or what the latch holds. */
    method Report(raw: Raw, point: Point)
      requires physicalPrimary == Some((raw, point))
      modifies this`touchPoints, this`lastRawPosition, this`lastMappedPosition, this`phantom
      ensures State() == Pressed(old(State()), raw, point)
    {
      if phantom.latch {
        if phantom.point.None? {
          phantom := phantom.(point := Some(point));
        }
        var latched := phantom.point.value;
        touchPoints := touchPoints[0 := Some(latched)];
        if phantom.started.None? {
          phantom := phantom.(started := Some(nowMs));
          lastRawPosition := Some(raw);
          lastMappedPosition := Some((latched.x, latched.y));
        }
      } else {
        touchPoints := touchPoints[0 := Some(point)];
        lastRawPosition := Some(raw);
        lastMappedPosition := Some((point.x, point.y));
      }
    }

    method Tick(now: U64)
      modifies this
      ensures State() == Ticked(old(State()), now)
    {
      hide IsPressed;
      nowMs := now;
      if !IsPressed(State()) {
        return;
      }
      if stall.started.Some? && stall.until.Some? {
        var watchdogAt := SaturatingAdd(stall.started.value, FRAME_WATCHDOG_MS);
        if stall.until.value > watchdogAt && now > watchdogAt && !frame.ready {
          stall := stall.(fired := true);
        }
      }
      if phantom.latch && phantom.started.Some? && Max(now - phantom.started.value, 0) > PHANTOM_WATCHDOG_MS {
        phantom := phantom.(fired := true);
      }
      if frame.ready || FrameIsStalled(State()) {
        return;
      }
      if frame.lastMs.None? || Max(now - frame.lastMs.value, 0) >= SCAN_INTERVAL_MS {
        MarkReady();
      }
    }

    /** Fills `buf` from the register window; zero means that the read failed. */
    method I2cRead(register: U16, buf: array<Byte>) returns (n: nat)
      modifies this, buf
      ensures State() == if register == STATUS_REGISTER then AfterStatusRead(old(State())) else old(State())
      ensures register == STATUS_REGISTER && ReadFails(old(State())) ==> n == 0 && buf[..] == old(buf[..])
      ensures !(register == STATUS_REGISTER && ReadFails(old(State()))) ==>
                && n == Readable(register, buf.Length)
                && buf[..n] == Window(State(), register, buf.Length)
                && buf[n..] == old(buf[n..])
    {
      hide RegisterByte, NextInjector, Address;
      if register == STATUS_REGISTER {
        var failed := FailStatusRead();
        if failed {
          return 0;
        }
      }
      ghost var s := State();
      n := 0;
      ReadsOn(register, n, buf.Length);
      while n < buf.Length && register + n % (U16_MAX + 1) <= U16_MAX
        invariant n <= Readable(register, buf.Length)
        invariant n < Readable(register, buf.Length) <==> n < buf.Length && register + n % (U16_MAX + 1) <= U16_MAX
        invariant State() == s
        invariant forall i :: 0 <= i < n ==> buf[i] == RegisterByte(s, Address(register, i))
        invariant forall i :: n <= i < buf.Length ==> buf[i] == old(buf[i])
      {
        buf[n] := RegisterByte(State(), Address(register, n));
        n := n + 1;
        ReadsOn(register, n, buf.Length);
      }
    }

    /** Writing zero to the status register acknowledges the frame; every other write is ignored. */
    method I2cWrite(register: U16, data: seq<Byte>)
      modifies this
      ensures State() == if register == STATUS_REGISTER && data != [] && data[0] == 0 then Acknowledged(old(State()))
                         else old(State())
    {
      if register == STATUS_REGISTER && data != [] && data[0] == 0 {
        frame := frame.(ready := false);
        frame := frame.(intAsserted := false);
      }
    }

    method FailStatusRead() returns (failed: bool)
      modifies this`injector
      ensures State() == AfterStatusRead(old(State()))
      ensures failed == ReadFails(old(State()))
    {
      hide IsPressed;
      var pressed := IsPressed(State());
      injector := injector.(accumulator := Min(injector.accumulator + injector.rate, U16_MAX));
      if injector.accumulator < 100 {
        injector := injector.(consecutive := 0);
        return false;
      }
      injector := injector.(accumulator := injector.accumulator - 100);
      if pressed {
        injector := injector.(consecutive := Min(injector.consecutive + 1, 255));
        if injector.consecutive >= BUS_WATCHDOG_FAILURES {
          injector := injector.(fired := true);
        }
      } else {
        injector := injector.(consecutive := 0);
      }
      return true;
    }

    method MarkReady()
      modifies this`frame
      ensures State() == MarkFrameReady(old(State()))
    {
      frame := Frame(true, true, Some(nowMs));
    }

    method ArmStall()
      modifies this`stall
      ensures State() == ArmFrameStall(old(State()))
    {
      hide IsPressed;
      if stall.ms == 0 || !IsPressed(State()) {
        stall := stall.(started := None, until := None);
        return;
      }
      stall := stall.(started := Some(nowMs), until := Some(SaturatingAdd(nowMs, stall.ms)));
    }
  }
}
