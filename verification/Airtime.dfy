/** LoRa time on air, in the integers the program uses and in the rationals the data sheet uses. */
module Airtime {
  import opened Prelude
  import opened Arithmetic

  function Pow2(n: nat): nat {
    if n == 0 then 1 else 2 * Pow2(n - 1)
  }

  /** The modulations the SX1262 accepts. */
  predicate Supported(sf: Byte, bw: U16, cr: Byte) {
    7 <= sf <= 12 && (bw == 125 || bw == 250 || bw == 500) && 5 <= cr <= 8
  }

  function Product(a: nat, b: nat): nat { a * b }

  function Quotient(a: nat, d: nat): nat
    requires d > 0
  {
    a / d
  }

  function SymbolUs(sf: Byte, bw: U16): nat
    requires bw != 0
  {
    Quotient(Pow2(sf) * 1000, bw)
  }

  function LowDataRate(sf: Byte, bw: U16): nat
    requires bw != 0
  {
    if SymbolUs(sf, bw) > 16000 then 1 else 0
  }

  function Numerator(bytes: nat, sf: Byte, explicitHeader: bool): int {
    8 * bytes - 4 * sf + 28 + 16 - 20 * (if explicitHeader then 0 else 1)
  }

  function Denominator(sf: Byte, bw: U16): nat
    requires bw != 0 && sf >= 7
  {
    4 * (sf - 2 * LowDataRate(sf, bw))
  }

  function Blocks(numerator: int, denominator: nat): nat
    requires denominator > 0
  {
    if numerator > 0 then Quotient(numerator + denominator - 1, denominator) else 0
  }

  /** Quarter symbols of preamble and payload together. */
  function QuarterSymbols(bytes: nat, sf: Byte, bw: U16, cr: Byte, preamble: U16, explicitHeader: bool): nat
    requires Supported(sf, bw, cr)
  {
    var payload := 8 + Product(Blocks(Numerator(bytes, sf, explicitHeader), Denominator(sf, bw)), cr);
    preamble * 4 + 17 + payload * 4
  }

  function AirtimeUs(bytes: nat, sf: Byte, bw: U16, cr: Byte, preamble: U16, explicitHeader: bool): nat {
    if !Supported(sf, bw, cr) then 0
    else Product(QuarterSymbols(bytes, sf, bw, cr, preamble, explicitHeader), SymbolUs(sf, bw)) / 4
  }

  function AirtimeMs(bytes: nat, sf: Byte, bw: U16, cr: Byte, preamble: U16, explicitHeader: bool): U32 {
    Min(DivCeil(AirtimeUs(bytes, sf, bw, cr, preamble, explicitHeader), 1000), U32_MAX)
  }

  // ----- the data sheet formula

  function Times(a: real, b: real): real { a * b }

  function Ceil(x: real): int { -((-x).Floor) }

  function SymbolTime(sf: Byte, bw: U16): real
    requires bw != 0
  {
    Pow2(sf) as real / bw as real * 1000.0
  }

  /** The payload symbols of the data sheet, whose quotient is rational. */
  function PayloadSymbols(bytes: nat, sf: Byte, bw: U16, cr: Byte, explicitHeader: bool): int
    requires Supported(sf, bw, cr)
  {
    var de := if SymbolTime(sf, bw) > 16000.0 then 1 else 0;
    var ih := if explicitHeader then 0 else 1;
    var n := 8.0 * bytes as real - 4.0 * sf as real + 28.0 + 16.0 - 20.0 * ih as real;
    var d := 4.0 * (sf - 2 * de) as real;
    8 + Max(Ceil(n / d) * cr, 0)
  }

  /** Section 4.1.1.7 of the Semtech SX1276 data sheet, in microseconds; `cr` is CR + 4 and CRC is on. */
  function TimeOnAir(bytes: nat, sf: Byte, bw: U16, cr: Byte, preamble: U16, explicitHeader: bool): real
    requires Supported(sf, bw, cr)
  {
    Times(preamble as real + 4.25 + PayloadSymbols(bytes, sf, bw, cr, explicitHeader) as real, SymbolTime(sf, bw))
  }

  // ----- products and quotients

  lemma ProductGrows(a: nat, b: nat, k: nat)
    requires a <= b
    ensures Product(a, k) <= Product(b, k)
    ensures Product(k, a) <= Product(k, b)
  {}

  // ----- the two agree

  lemma Powers()
    ensures Pow2(7) == 128 && Pow2(8) == 256 && Pow2(9) == 512
    ensures Pow2(10) == 1024 && Pow2(11) == 2048 && Pow2(12) == 4096
  {}

  lemma SymbolOf(sf: Byte, bw: U16)
    requires 7 <= sf <= 12 && (bw == 125 || bw == 250 || bw == 500)
    ensures SymbolUs(sf, bw) == Pow2(sf) * (if bw == 125 then 8 else if bw == 250 then 4 else 2)
  {
    QuotientIs(Pow2(sf) * 1000, bw, Pow2(sf) * (if bw == 125 then 8 else if bw == 250 then 4 else 2));
  }

  /** A symbol is a whole multiple of 256 microseconds, so dividing it by four loses nothing. */
  lemma SymbolExact(sf: Byte, bw: U16)
    requires 7 <= sf <= 12 && (bw == 125 || bw == 250 || bw == 500)
    ensures SymbolUs(sf, bw) as real == SymbolTime(sf, bw)
    ensures SymbolUs(sf, bw) % 256 == 0 && 256 <= SymbolUs(sf, bw) <= 32768
    ensures sf <= 11 ==> SymbolUs(sf, bw) <= 16384
  {
    Powers();
    SymbolOf(sf, bw);
    var p := Pow2(sf) as real;
    assert bw == 125 ==> p / 125.0 * 1000.0 == p * 8.0;
    assert bw == 250 ==> p / 250.0 * 1000.0 == p * 4.0;
    assert bw == 500 ==> p / 500.0 * 1000.0 == p * 2.0;
  }

  lemma CeilBetween(x: real, q: int)
    requires q as real - 1.0 < x <= q as real
    ensures Ceil(x) == q
  {}

  /** Rounding up in integers is rounding up the rational quotient. */
  lemma QuotientIsCeil(n: nat, d: nat)
    requires n > 0 && d > 0
    ensures Quotient(n + d - 1, d) == Ceil(n as real / d as real)
  {
    var q := Quotient(n + d - 1, d);
    assert n + d - 1 == q * d + (n + d - 1) % d;
    assert (q * d) as real == q as real * d as real;
    var x := n as real / d as real;
    assert x * d as real == n as real;
    QuotientBetween(x, d as real, n as real, q as real);
    CeilBetween(x, q);
  }

  lemma BlocksIsCeil(n: int, d: nat)
    requires d > 0
    ensures Blocks(n, d) == Max(Ceil(n as real / d as real), 0)
  {
    if n > 0 {
      QuotientIsCeil(n, d);
    } else {
      NotPositive(n as real, d as real);
    }
  }

  lemma NotPositive(n: real, d: real)
    requires n <= 0.0 < d
    ensures n / d <= 0.0
  {}

  lemma QuotientBetween(x: real, d: real, n: real, q: real)
    requires d > 0.0 && x * d == n && q * d - d < n <= q * d
    ensures q - 1.0 < x <= q
  {
    var below, above := x - (q - 1.0), q - x;
    assert below * d == n - (q * d - d) && above * d == q * d - n;
  }

  lemma MaxScales(a: int, k: nat)
    requires k > 0
    ensures Max(a * k, 0) == Product(Max(a, 0), k)
  {}

  lemma QuarterExact(q: nat, s: nat)
    requires s % 4 == 0
    ensures (Product(q, s) / 4) as real == Times(q as real / 4.0, s as real)
  {
    var k := s / 4;
    assert s == 4 * k;
    assert q * s == 4 * (q * k);
    assert (q * k) as real == q as real * k as real;
  }

  lemma PayloadIsExact(bytes: nat, sf: Byte, bw: U16, cr: Byte, explicitHeader: bool)
    requires Supported(sf, bw, cr)
    ensures PayloadSymbols(bytes, sf, bw, cr, explicitHeader)
         == 8 + Product(Blocks(Numerator(bytes, sf, explicitHeader), Denominator(sf, bw)), cr)
  {
    SymbolExact(sf, bw);
    var n, d := Numerator(bytes, sf, explicitHeader), Denominator(sf, bw);
    BlocksIsCeil(n, d);
    MaxScales(Ceil(n as real / d as real), cr);
    assert n as real
        == 8.0 * bytes as real - 4.0 * sf as real + 28.0 + 16.0 - 20.0 * (if explicitHeader then 0 else 1) as real;
    assert d as real == 4.0 * (sf - 2 * (if SymbolTime(sf, bw) > 16000.0 then 1 else 0)) as real;
  }

  lemma QuartersExact(bytes: nat, sf: Byte, bw: U16, cr: Byte, preamble: U16, explicitHeader: bool)
    requires Supported(sf, bw, cr)
    ensures QuarterSymbols(bytes, sf, bw, cr, preamble, explicitHeader) as real / 4.0
         == preamble as real + 4.25 + PayloadSymbols(bytes, sf, bw, cr, explicitHeader) as real
  {
    PayloadIsExact(bytes, sf, bw, cr, explicitHeader);
  }

  /** MAIN: the integer code computes the rational formula exactly, without losing a microsecond. */
  lemma AirtimeIsExact(bytes: nat, sf: Byte, bw: U16, cr: Byte, preamble: U16, explicitHeader: bool)
    requires Supported(sf, bw, cr)
    ensures AirtimeUs(bytes, sf, bw, cr, preamble, explicitHeader) as real
         == TimeOnAir(bytes, sf, bw, cr, preamble, explicitHeader)
  {
    hide QuarterSymbols, PayloadSymbols, SymbolUs, SymbolTime, Times, Product;
    SymbolExact(sf, bw);
    QuartersExact(bytes, sf, bw, cr, preamble, explicitHeader);
    QuarterExact(QuarterSymbols(bytes, sf, bw, cr, preamble, explicitHeader), SymbolUs(sf, bw));
  }

  /** Milliseconds are microseconds rounded up, kept at the largest 32-bit number if there are more. */
  lemma MillisecondsRoundUp(bytes: nat, sf: Byte, bw: U16, cr: Byte, preamble: U16, explicitHeader: bool)
    ensures
      var us := AirtimeUs(bytes, sf, bw, cr, preamble, explicitHeader);
      var ms := AirtimeMs(bytes, sf, bw, cr, preamble, explicitHeader);
      if us <= 1000 * 0xFFFF_FFFF then us <= 1000 * ms < us + 1000 else ms == 0xFFFF_FFFF
  {
    hide AirtimeUs;
  }

  /** A modulation the SX1262 does not have takes no time at all. */
  lemma UnsupportedIsZero(bytes: nat, sf: Byte, bw: U16, cr: Byte, preamble: U16, explicitHeader: bool)
    requires sf < 7 || sf > 12 || bw !in {125, 250, 500} || cr < 5 || cr > 8
    ensures AirtimeUs(bytes, sf, bw, cr, preamble, explicitHeader) == 0
    ensures AirtimeMs(bytes, sf, bw, cr, preamble, explicitHeader) == 0
  {}

  // ----- monotone and bounded

  lemma BlocksMonotone(n: int, m: int, d: nat)
    requires n <= m && d > 0
    ensures Blocks(n, d) <= Blocks(m, d)
  {
    if n > 0 {
      QuotientMonotone(n + d - 1, m + d - 1, d);
    }
  }

  lemma QuarterSymbolsMonotone(a: nat, b: nat, sf: Byte, bw: U16, cr: Byte, preamble: U16, explicitHeader: bool)
    requires a <= b && Supported(sf, bw, cr)
    ensures QuarterSymbols(a, sf, bw, cr, preamble, explicitHeader)
         <= QuarterSymbols(b, sf, bw, cr, preamble, explicitHeader)
  {
    var d := Denominator(sf, bw);
    BlocksMonotone(Numerator(a, sf, explicitHeader), Numerator(b, sf, explicitHeader), d);
    ProductGrows(Blocks(Numerator(a, sf, explicitHeader), d), Blocks(Numerator(b, sf, explicitHeader), d), cr);
  }

  /** MAIN: a longer packet never takes less time. */
  lemma AirtimeMonotone(a: nat, b: nat, sf: Byte, bw: U16, cr: Byte, preamble: U16, explicitHeader: bool)
    requires a <= b
    ensures AirtimeUs(a, sf, bw, cr, preamble, explicitHeader) <= AirtimeUs(b, sf, bw, cr, preamble, explicitHeader)
    ensures AirtimeMs(a, sf, bw, cr, preamble, explicitHeader) <= AirtimeMs(b, sf, bw, cr, preamble, explicitHeader)
  {
    if Supported(sf, bw, cr) {
      QuarterSymbolsMonotone(a, b, sf, bw, cr, preamble, explicitHeader);
      ProductGrows(QuarterSymbols(a, sf, bw, cr, preamble, explicitHeader),
                      QuarterSymbols(b, sf, bw, cr, preamble, explicitHeader), SymbolUs(sf, bw));
    }
  }

  lemma BlocksAtMost(n: int, d: nat)
    requires d >= 1
    ensures Blocks(n, d) <= Max(n, 0)
  {
    if n > 0 {
      QuotientAtMost(n + d - 1, d, n);
      ProductMonotone(1, d, n);
    }
  }

  lemma QuotientAtMost(a: nat, d: nat, most: nat)
    requires d > 0
    ensures a < most * d + d ==> Quotient(a, d) <= most
  {
    var q := a / d;
    assert q * d <= a;
    if q > most {
      ProductMonotone(most + 1, q, d);
      OneMore(most, d);
    }
  }

  lemma QuarterSymbolsAtMost(bytes: nat, sf: Byte, bw: U16, cr: Byte, preamble: U16, explicitHeader: bool)
    requires Supported(sf, bw, cr) && bytes < 0x8000_0000
    ensures QuarterSymbols(bytes, sf, bw, cr, preamble, explicitHeader) <= 0x80_0000_0000 + 0x4_0100
  {
    var blocks := Blocks(Numerator(bytes, sf, explicitHeader), Denominator(sf, bw));
    BlocksAtMost(Numerator(bytes, sf, explicitHeader), Denominator(sf, bw));
    assert blocks <= 0x4_0000_0000;
    ProductGrows(cr, 8, blocks);
  }

  /** For packets below 2^31 bytes the product the code forms last fits 64 bits, and so do its factors. */
  lemma AirtimeFits(bytes: nat, sf: Byte, bw: U16, cr: Byte, preamble: U16, explicitHeader: bool)
    requires Supported(sf, bw, cr) && bytes < 0x8000_0000
    ensures Product(QuarterSymbols(bytes, sf, bw, cr, preamble, explicitHeader), SymbolUs(sf, bw)) <= U64_MAX
  {
    SymbolExact(sf, bw);
    QuarterSymbolsAtMost(bytes, sf, bw, cr, preamble, explicitHeader);
    var q := QuarterSymbols(bytes, sf, bw, cr, preamble, explicitHeader);
    ProductGrows(q, 0x80_0000_0000 + 0x4_0100, SymbolUs(sf, bw));
    ProductGrows(SymbolUs(sf, bw), 32768, 0x80_0000_0000 + 0x4_0100);
  }

  /** What the bridge asks for: preamble 8, explicit header. */
  function PacketAirtime(bytes: nat, sf: Byte, bw: U16, cr: Byte): U32 {
    AirtimeMs(bytes, sf, bw, cr, 8, true)
  }

  lemma LongestBlocks(sf: Byte, bw: U16)
    requires 7 <= sf <= 12 && (bw == 125 || bw == 250 || bw == 500)
    ensures Blocks(Numerator(255, sf, true), Denominator(sf, bw)) <= if sf == 12 then 51 else 74
  {
    var n, d := Numerator(255, sf, true), Denominator(sf, bw);
    if sf == 12 {
      CeilAtMost(n, d, 51);
    } else {
      CeilAtMost(n, d, 74);
    }
  }

  lemma CeilAtMost(n: nat, d: nat, most: nat)
    requires d > 0 && n <= most * d
    ensures Blocks(n, d) <= most
  {
    if n > 0 {
      var q := Quotient(n + d - 1, d);
      assert n + d - 1 == q * d + (n + d - 1) % d;
      assert (most + 1 - q) * d == most * d + d - q * d;
      PositiveFactor(most + 1 - q, d);
    }
  }

  lemma LongestPacket(sf: Byte, bw: U16, cr: Byte)
    requires Supported(sf, bw, cr)
    ensures AirtimeUs(255, sf, bw, cr, 8, true) <= 14032896
  {
    SymbolExact(sf, bw);
    LongestBlocks(sf, bw);
    ProductGrows(cr, 8, Blocks(Numerator(255, sf, true), Denominator(sf, bw)));
    var q, s := QuarterSymbols(255, sf, bw, cr, 8, true), SymbolUs(sf, bw);
    if sf == 12 {
      ProductGrows(q, 1713, s);
      ProductGrows(s, 32768, 1713);
    } else {
      ProductGrows(q, 2449, s);
      ProductGrows(s, 16384, 2449);
    }
  }

  lemma ShortestPacket(sf: Byte, bw: U16, cr: Byte)
    requires Supported(sf, bw, cr)
    ensures AirtimeUs(0, sf, bw, cr, 8, true) > 6000
  {
    SymbolExact(sf, bw);
    var s, q := SymbolUs(sf, bw), QuarterSymbols(0, sf, bw, cr, 8, true);
    assert q >= 81;
    if s == 256 {
      ShortestSymbols(sf, bw, cr);
      ProductGrows(101, q, s);
    } else {
      ProductGrows(81, q, s);
      ProductGrows(512, s, 81);
    }
  }

  lemma ShortestSymbols(sf: Byte, bw: U16, cr: Byte)
    requires Supported(sf, bw, cr) && SymbolUs(sf, bw) == 256
    ensures QuarterSymbols(0, sf, bw, cr, 8, true) >= 101
  {
    Powers();
    SymbolOf(sf, bw);
    assert Numerator(0, sf, true) == 16 && Denominator(sf, bw) == 28;
    QuotientIs(43, 28, 1);
  }

  lemma LimitsReached()
    ensures PacketAirtime(255, 12, 125, 8) == 14033 && PacketAirtime(0, 7, 500, 5) == 7
  {
    Powers();
    SymbolOf(12, 125);
    SymbolOf(7, 500);
    QuotientIs(2075, 40, 51);
    QuotientIs(43, 28, 1);
  }

  /** MAIN: a packet of at most 255 bytes is on the air for 7 to 14033 ms, and both ends are reached. */
  lemma PacketAirtimeBounds(bytes: nat, sf: Byte, bw: U16, cr: Byte)
    requires bytes <= 255 && Supported(sf, bw, cr)
    ensures 7 <= PacketAirtime(bytes, sf, bw, cr) <= 14033
    ensures PacketAirtime(255, 12, 125, 8) == 14033 && PacketAirtime(0, 7, 500, 5) == 7
  {
    AirtimeMonotone(0, bytes, sf, bw, cr, 8, true);
    AirtimeMonotone(bytes, 255, sf, bw, cr, 8, true);
    LongestPacket(sf, bw, cr);
    ShortestPacket(sf, bw, cr);
    LimitsReached();
  }
}
