/** What firmware parses back out of the register window is what the controller holds. */
module TouchRegisters {
  import opened Prelude
  import opened TouchSpec

  /**
   How many of `count` registers from `register` a read delivers: it ends where the address space does. From
   register 0 it never meets the end, because the 16-bit offset wraps round first.
   */
  function Readable(register: U16, count: nat): (n: nat)
    ensures n <= count
  {
    if register == 0 then count else Min(count, U16_MAX + 1 - register)
  }

  /** The register a read delivers at `offset`. */
  function Address(register: U16, offset: nat): U16
    requires register == 0 || register + offset <= U16_MAX
  {
    if register == 0 then offset % (U16_MAX + 1) else register + offset
  }

  /** The window of those registers. */
  function Window(s: Touch, register: U16, count: nat): seq<Byte> {
    seq<Byte>(Readable(register, count),
              i requires 0 <= i < Readable(register, count) => RegisterByte(s, Address(register, i)))
  }

  /** A read goes on for as long as adding the 16-bit offset to the register does not overflow. */
  lemma ReadsOn(register: U16, n: nat, count: nat)
    requires n <= Readable(register, count)
    ensures n < Readable(register, count) <==> n < count && register + n % (U16_MAX + 1) <= U16_MAX
  {}

  /** A contact as firmware decodes it from eight bytes. */
  function ParsePoint(b: seq<Byte>): Point
    requires |b| == 8
  {
    Point(b[0], Word(b[1], b[2]), Word(b[3], b[4]), Word(b[5], b[6]))
  }

  function ParsePoints(b: seq<Byte>, count: nat): seq<Point>
    requires |b| >= 8 * count
  {
    seq(count, i requires 0 <= i < count => ParsePoint(b[8 * i..8 * i + 8]))
  }

  lemma PointRoundTrip(p: Point)
    ensures ParsePoint([PointByte(p, 0), PointByte(p, 1), PointByte(p, 2), PointByte(p, 3),
                        PointByte(p, 4), PointByte(p, 5), PointByte(p, 6), PointByte(p, 7)]) == p
  {}

  /** The eight registers of contact `i`. */
  lemma ContactBytes(s: Touch, i: nat, k: nat)
    requires i < |Occupied(s.points)| && k < 8
    ensures RegisterByte(s, STATUS_REGISTER + 1 + 8 * i + k) == PointByte(Occupied(s.points)[i], k)
  {
    assert (8 * i + k) / 8 == i && (8 * i + k) % 8 == k;
  }

  lemma StatusByte(s: Touch)
    ensures RegisterByte(s, STATUS_REGISTER) == if s.frame.ready then 0x80 + |Occupied(s.points)| else 0
  {}

  /** MAIN: status byte and contacts read in one window decode to the occupied slots, in slot order. */
  lemma WindowRoundTrip(s: Touch)
    requires s.frame.ready
    ensures
      var k := |Occupied(s.points)|;
      var w := Window(s, STATUS_REGISTER, 1 + 8 * k);
      |w| == 1 + 8 * k && w[0] == 0x80 + k && ParsePoints(w[1..], k) == Occupied(s.points)
  {
    hide RegisterByte, PointByte, Occupied;
    var k := |Occupied(s.points)|;
    var w := Window(s, STATUS_REGISTER, 1 + 8 * k);
    StatusByte(s);
    forall i | 0 <= i < k ensures ParsePoints(w[1..], k)[i] == Occupied(s.points)[i] {
      var p := Occupied(s.points)[i];
      var b := w[1..][8 * i..8 * i + 8];
      forall j | 0 <= j < 8 ensures b[j] == PointByte(p, j) {
        ContactBytes(s, i, j);
        assert b[j] == w[1 + 8 * i + j];
      }
      assert |b| == 8;
      assert b == [PointByte(p, 0), PointByte(p, 1), PointByte(p, 2), PointByte(p, 3),
                   PointByte(p, 4), PointByte(p, 5), PointByte(p, 6), PointByte(p, 7)];
      PointRoundTrip(p);
    }
  }

  /** `Occupied` keeps exactly the filled slots and their order. */
  lemma {:induction false} OccupiedInOrder(points: seq<Option<Point>>, p: Point)
    ensures p in Occupied(points) <==> Some(p) in points
  {
    if points != [] {
      OccupiedInOrder(points[1..], p);
      assert points == [points[0]] + points[1..];
    }
  }

  lemma {:induction false} OccupiedSplits(left: seq<Option<Point>>, right: seq<Option<Point>>)
    ensures Occupied(left + right) == Occupied(left) + Occupied(right)
  {
    if left == [] {
      assert left + right == right;
    } else {
      assert (left + right)[1..] == left[1..] + right;
      OccupiedSplits(left[1..], right);
    }
  }

  /** Before a frame is ready the status register reads zero, whatever is touched. */
  lemma NoFrameNoContacts(s: Touch)
    requires !s.frame.ready
    ensures Window(s, STATUS_REGISTER, 1) == [0]
  {}

  /** The configuration registers hold the resolution, low byte first. */
  lemma ResolutionRoundTrip(s: Touch)
    ensures
      var w := Window(s, CONFIG_X_REGISTER, 4);
      |w| == 4 && Word(w[0], w[1]) == s.maxX && Word(w[2], w[3]) == s.maxY
  {}
}
