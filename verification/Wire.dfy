/** The Arduino Wire bus the keyboard and the touch controller share. */
module WireClass {
  import opened Prelude
  import opened TouchSpec
  import opened TouchRegisters
  import opened Gt911Class

  const GT911_I2C_ADDRESS: Byte := 0x5D
  const KEYBOARD_I2C_ADDRESS: Byte := 0x55
  const KEYBOARD_I2C_CLOCK_HZ := 100_000
  const FAST_I2C_CLOCK_HZ := 400_000
  const WIRE_TX_BUFFER_CAPACITY := 128
  const WIRE_RX_BUFFER_CAPACITY := 128
  const KEYBOARD_BRIGHTNESS_COMMAND: Byte := 0x01
  const KEYBOARD_KEY_MODE_COMMAND: Byte := 0x04

  /** The keyboard co-processor; `retained` is the brightness kept for the next keyboard of this instance. */
  datatype Keyboard = Keyboard(
    keyModeActive: bool,
    keyQueue: seq<Byte>,
    lastCommand: Byte,
    backlight: Byte,
    persist: bool,
    retained: Option<Byte>)

  /** One complete write transaction. */
  function Told(k: Keyboard, bytes: seq<Byte>): Keyboard {
    if bytes == [] then k
    else if bytes[0] == KEYBOARD_BRIGHTNESS_COMMAND && |bytes| > 1 then
      k.(lastCommand := bytes[0], backlight := bytes[1], retained := if k.persist then Some(bytes[1]) else k.retained)
    else if bytes[0] == KEYBOARD_KEY_MODE_COMMAND then k.(lastCommand := bytes[0], keyModeActive := true)
    else k.(lastCommand := bytes[0])
  }

  predicate HasKey(k: Keyboard) {
    k.keyModeActive && k.keyQueue != []
  }

  /** The byte a poll returns, and the keyboard after it: the oldest key in key mode, otherwise zero. */
  function Polled(k: Keyboard): (Byte, Keyboard) {
    if HasKey(k) then (k.keyQueue[0], k.(keyQueue := k.keyQueue[1..])) else (0, k)
  }

  class I2cKeyboard {
    var keyModeActive: bool
    var keyQueue: seq<Byte>
    var lastCommand: Byte
    var backlight: Byte
    var persist: bool
    var retained: Option<Byte>

    ghost function State(): Keyboard
      reads this
    {
      Keyboard(keyModeActive, keyQueue, lastCommand, backlight, persist, retained)
    }

    constructor (retained: Option<Byte>)
      ensures State() == Keyboard(false, [], 0, if retained.Some? then retained.value else 0, true, retained)
    {
      keyModeActive, keyQueue, lastCommand, persist, this.retained := false, [], 0, true, retained;
      backlight := if retained.Some? then retained.value else 0;
    }

    method WriteTransaction(bytes: seq<Byte>)
      modifies this
      ensures State() == Told(old(State()), bytes)
      ensures keyQueue == old(keyQueue) && persist == old(persist)
      ensures lastCommand == if bytes == [] then old(lastCommand) else bytes[0]
      ensures keyModeActive <==> old(keyModeActive) || (bytes != [] && bytes[0] == 0x04)
      ensures if |bytes| > 1 && bytes[0] == 0x01 then
                backlight == bytes[1] && retained == if persist then Some(bytes[1]) else old(retained)
              else backlight == old(backlight) && retained == old(retained)
    {
      if bytes == [] {
        return;
      }
      lastCommand := bytes[0];
      if bytes[0] == KEYBOARD_BRIGHTNESS_COMMAND && |bytes| > 1 {
        backlight := bytes[1];
        if persist {
          retained := Some(bytes[1]);
        }
      } else if bytes[0] == KEYBOARD_KEY_MODE_COMMAND {
        keyModeActive := true;
      }
    }

    method ReadKeyByte() returns (key: Byte)
      modifies this
      ensures (key, State()) == Polled(old(State()))
      ensures HasKey(old(State())) ==> [key] + keyQueue == old(keyQueue)
      ensures !HasKey(old(State())) ==> key == 0 && keyQueue == old(keyQueue)
    {
      if !keyModeActive || keyQueue == [] {
        return 0;
      }
      key := keyQueue[0];
      keyQueue := keyQueue[1..];
    }
  }

  class WireShim {
    const keyboard: I2cKeyboard
    const gt911: Gt911Controller
    var begun: bool
    var clockHz: U32
    var transmitAddress: Option<Byte>
    var transmitBuffer: seq<Byte>
    var gt911Register: U16
    var readBuffer: seq<Byte>
    var readPosition: nat
    var powered: bool
    var sdaStuck: bool

    ghost predicate Valid()
      reads this
    {
      && |transmitBuffer| <= WIRE_TX_BUFFER_CAPACITY
      && |readBuffer| <= WIRE_RX_BUFFER_CAPACITY && readPosition <= |readBuffer|
    }

    /** Started, powered, lines free, and clocked at a rate the devices know. */
    predicate BusReady()
      reads this
    {
      powered && begun && !sdaStuck && (clockHz == KEYBOARD_I2C_CLOCK_HZ || clockHz == FAST_I2C_CLOCK_HZ)
    }

    constructor (keyboard: I2cKeyboard, gt911: Gt911Controller)
      ensures Valid() && this.keyboard == keyboard && this.gt911 == gt911
      ensures !begun && clockHz == KEYBOARD_I2C_CLOCK_HZ && powered && !sdaStuck
      ensures transmitAddress == None && transmitBuffer == [] && gt911Register == 0
      ensures readBuffer == [] && readPosition == 0
    {
      this.keyboard, this.gt911 := keyboard, gt911;
      begun, clockHz, powered, sdaStuck := false, KEYBOARD_I2C_CLOCK_HZ, true, false;
      transmitAddress, transmitBuffer, gt911Register := None, [], 0;
      readBuffer, readPosition := [], 0;
    }

    method BeginTransmission(address: Byte)
      requires Valid()
      modifies this`transmitAddress, this`transmitBuffer
      ensures Valid() && transmitAddress == Some(address) && transmitBuffer == []
    {
      transmitAddress := Some(address);
      transmitBuffer := [];
    }

    method WriteByte(b: Byte) returns (n: nat)
      requires Valid()
      modifies this`transmitBuffer
      ensures Valid()
      ensures n == (if transmitAddress.Some? && powered && !sdaStuck && |old(transmitBuffer)| < WIRE_TX_BUFFER_CAPACITY
                    then 1 else 0)
      ensures transmitBuffer == if n == 1 then old(transmitBuffer) + [b] else old(transmitBuffer)
    {
      if transmitAddress.None? || !powered || sdaStuck {
        return 0;
      }
      if |transmitBuffer| >= WIRE_TX_BUFFER_CAPACITY {
        return 0;
      }
      transmitBuffer := transmitBuffer + [b];
      return 1;
    }

    /** 0 on success, 2 for no acknowledgement, 4 for any other failure. */
    method EndTransmission() returns (code: Byte)
      requires Valid()
      modifies this, keyboard, gt911
      ensures Valid() && transmitAddress == None
      ensures begun == old(begun) && clockHz == old(clockHz) && powered == old(powered) && sdaStuck == old(sdaStuck)
      ensures
        var address, bytes := old(transmitAddress), old(transmitBuffer);
        var reached := address.Some? && old(powered && !sdaStuck && begun);
        && code == (if address.None? then 4
                    else if !old(powered) || old(sdaStuck) then 2
                    else if !old(begun) then 4
                    else if address.value == KEYBOARD_I2C_ADDRESS then 0
                    else if address.value != GT911_I2C_ADDRESS then 2
                    else if |bytes| == 1 then 4 else 0)
        && (reached && address.value == GT911_I2C_ADDRESS && |bytes| >= 2 ==>
              && gt911Register == Word(bytes[1], bytes[0])
              && gt911.State() == (if gt911Register == STATUS_REGISTER && |bytes| > 2 && bytes[2] == 0
                                   then Acknowledged(old(gt911.State())) else old(gt911.State())))
        && (!(reached && address.value == GT911_I2C_ADDRESS && |bytes| >= 2) ==>
              gt911Register == old(gt911Register) && gt911.State() == old(gt911.State()))
        && keyboard.State() == (if reached && address.value == KEYBOARD_I2C_ADDRESS
                                then Told(old(keyboard.State()), bytes) else old(keyboard.State()))
        && transmitBuffer == (if address.Some? then [] else old(transmitBuffer))
        && (if address.Some? && (!old(powered) || old(sdaStuck)) then readBuffer == [] && readPosition == 0
            else readBuffer == old(readBuffer) && readPosition == old(readPosition))
    {
      if transmitAddress.None? {
        return 4;
      }
      var address := transmitAddress.value;
      transmitAddress := None;
      if !powered || sdaStuck {
        transmitBuffer := [];
        ClearReadBuffer();
        return 2;
      }
      if !begun {
        transmitBuffer := [];
        return 4;
      }
      var bytes := transmitBuffer;
      transmitBuffer := [];
      if address == KEYBOARD_I2C_ADDRESS {
        keyboard.WriteTransaction(bytes);
      } else if address == GT911_I2C_ADDRESS {
        if bytes == [] {
          return 0;
        }
        if |bytes| < 2 {
          return 4;
        }
        gt911Register := Word(bytes[1], bytes[0]);
        if |bytes| > 2 {
          gt911.I2cWrite(gt911Register, bytes[2..]);
        }
      } else {
        return 2;
      }
      return 0;
    }

    method RequestFrom(address: Byte, count: Byte) returns (n: nat)
      requires Valid()
      modifies this, keyboard, gt911
      ensures Valid() && readPosition == 0 && n == |readBuffer|
      ensures begun == old(begun) && clockHz == old(clockHz) && powered == old(powered) && sdaStuck == old(sdaStuck)
      ensures gt911Register == old(gt911Register)
      ensures transmitAddress == old(transmitAddress) && transmitBuffer == old(transmitBuffer)
      ensures
        var asked := old(BusReady()) && count != 0 && address == GT911_I2C_ADDRESS && count <= WIRE_RX_BUFFER_CAPACITY;
        var polled := old(BusReady()) && count != 0 && address == KEYBOARD_I2C_ADDRESS
                      && clockHz <= KEYBOARD_I2C_CLOCK_HZ;
        var failed := gt911Register == STATUS_REGISTER && ReadFails(old(gt911.State()));
        && gt911.State() == (if asked && gt911Register == STATUS_REGISTER then AfterStatusRead(old(gt911.State()))
                             else old(gt911.State()))
        && keyboard.State() == (if polled then Polled(old(keyboard.State())).1 else old(keyboard.State()))
        && readBuffer == if polled then [Polled(old(keyboard.State())).0]
                         else if asked && !failed && gt911Register + count <= U16_MAX + 1
                         then Window(gt911.State(), gt911Register, count)
                         else []
    {
      ClearReadBuffer();
      if !BusReady() || count == 0 {
        return 0;
      }
      if address == KEYBOARD_I2C_ADDRESS {
        if clockHz > KEYBOARD_I2C_CLOCK_HZ {
          return 0;
        }
        var key := keyboard.ReadKeyByte();
        readBuffer := readBuffer + [key];
      } else if address == GT911_I2C_ADDRESS {
        if count > WIRE_RX_BUFFER_CAPACITY {
          return 0;
        }
        var buf := new Byte[count](_ => 0);
        var read := gt911.I2cRead(gt911Register, buf);
        readBuffer := buf[..];
        if read != count {
          ClearReadBuffer();
          return 0;
        }
        assert buf[..read] == buf[..];
      } else {
        return 0;
      }
      return |readBuffer|;
    }

    /** The next byte, or -1. */
    method Read() returns (b: int)
      requires Valid()
      modifies this`readPosition
      ensures Valid()
      ensures b == if powered && old(readPosition) < |readBuffer| then readBuffer[old(readPosition)] else -1
      ensures readPosition == if b == -1 then old(readPosition) else old(readPosition) + 1
    {
      if !powered || readPosition >= |readBuffer| {
        return -1;
      }
      b := readBuffer[readPosition];
      readPosition := readPosition + 1;
    }

    method ClearReadBuffer()
      modifies this`readBuffer, this`readPosition
      ensures readBuffer == [] && readPosition == 0
    {
      readBuffer, readPosition := [], 0;
    }
  }

  /** What firmware does to select a register. */
  method SelectRegister(wire: WireShim, register: U16) returns (code: Byte)
    requires wire.Valid() && wire.BusReady()
    modifies wire, wire.keyboard, wire.gt911
    ensures wire.Valid() && wire.BusReady() && code == 0
    ensures wire.gt911Register == register && wire.gt911.State() == old(wire.gt911.State())
    ensures wire.keyboard.State() == old(wire.keyboard.State())
    ensures wire.readBuffer == old(wire.readBuffer) && wire.readPosition == old(wire.readPosition)
  {
    wire.BeginTransmission(GT911_I2C_ADDRESS);
    var n := wire.WriteByte(High(register));
    n := wire.WriteByte(Low(register));
    code := wire.EndTransmission();
  }

  /**
   MAIN: on a healthy bus with a frame ready and the read not chosen to fail, firmware that selects the
   status register, requests one byte and eight more per contact, and parses what it reads, recovers the
   contacts in slot order with all four fields.
   */
  method ReadContacts(wire: WireShim, contacts: nat) returns (points: seq<Point>)
    requires wire.Valid() && wire.BusReady()
    requires wire.gt911.State().frame.ready && !ReadFails(wire.gt911.State())
    requires contacts == |Occupied(wire.gt911.State().points)|
    modifies wire, wire.keyboard, wire.gt911
    ensures points == Occupied(old(wire.gt911.State()).points)
    ensures wire.gt911.State() == AfterStatusRead(old(wire.gt911.State()))
    ensures wire.keyboard.State() == old(wire.keyboard.State())
  {
    hide RegisterByte, NextInjector, Occupied;
    var code := SelectRegister(wire, STATUS_REGISTER);
    ghost var s := wire.gt911.State();
    var n := wire.RequestFrom(GT911_I2C_ADDRESS, 1 + 8 * contacts);
    WindowRoundTrip(wire.gt911.State());
    var bytes: seq<Byte> := [];
    while |bytes| < n
      invariant wire.Valid() && wire.powered && |bytes| <= n == |wire.readBuffer|
      invariant wire.readBuffer == Window(AfterStatusRead(s), STATUS_REGISTER, 1 + 8 * contacts)
      invariant wire.readPosition == |bytes| && bytes == wire.readBuffer[..|bytes|]
      invariant wire.gt911.State() == AfterStatusRead(s) && wire.keyboard.State() == old(wire.keyboard.State())
    {
      var b := wire.Read();
      bytes := bytes + [b];
    }
    assert bytes == wire.readBuffer;
    points := ParsePoints(bytes[1..], contacts);
  }
}
