/** Directory names for virtual instances: safe, and different for different instances. */
module InstanceNames {
  import opened Prelude

  const PERCENT: Byte := 0x25
  const DASH: Byte := 0x2D
  const DOT: Byte := 0x2E
  const SLASH: Byte := 0x2F
  const UNDERSCORE: Byte := 0x5F
  const BACKSLASH: Byte := 0x5C
  const ZERO_NAME: seq<Byte> := [0x25, 0x30, 0x30]  // "%00"

  predicate IsAlphanumeric(b: Byte) {
    0x30 <= b <= 0x39 || 0x41 <= b <= 0x5A || 0x61 <= b <= 0x7A
  }

  predicate IsPlain(b: Byte) {
    IsAlphanumeric(b) || b == DASH || b == UNDERSCORE
  }

  /** The id can serve as a directory name as it stands. */
  predicate Verbatim(id: seq<Byte>) {
    id != [] && id != [DOT] && id != [DOT, DOT] && forall i :: 0 <= i < |id| ==> IsPlain(id[i]) || id[i] == DOT
  }

  /** Upper-case hexadecimal. */
  function HexDigit(n: nat): Byte
    requires n < 16
  {
    if n < 10 then 0x30 + n else 0x41 + n - 10
  }

  function HexValue(b: Byte): nat {
    if 0x30 <= b <= 0x39 then b - 0x30 else if 0x41 <= b <= 0x46 then b - 0x41 + 10 else 0
  }

  function EncodeByte(b: Byte): seq<Byte> {
    if IsPlain(b) then [b] else [PERCENT, HexDigit(b / 16), HexDigit(b % 16)]
  }

  function Encode(id: seq<Byte>): seq<Byte> {
    if id == [] then [] else EncodeByte(id[0]) + Encode(id[1..])
  }

  function InstanceDirectory(id: seq<Byte>): seq<Byte> {
    if Verbatim(id) then id else if Encode(id) == [] then ZERO_NAME else Encode(id)
  }

  lemma {:induction false} EncodeAppend(id: seq<Byte>, b: Byte)
    ensures Encode(id + [b]) == Encode(id) + EncodeByte(b)
  {
    if id == [] {
      assert [] + [b] == [b] && [b][1..] == [];
    } else {
      assert (id + [b])[1..] == id[1..] + [b];
      EncodeAppend(id[1..], b);
    }
  }

  method ComputeInstanceDirectory(id: seq<Byte>) returns (name: seq<Byte>)
    ensures name == InstanceDirectory(id)
  {
    if Verbatim(id) {
      return id;
    }
    var encoded := [];
    for i := 0 to |id|
      invariant encoded == Encode(id[..i])
    {
      assert id[..i + 1] == id[..i] + [id[i]];
      EncodeAppend(id[..i], id[i]);
      if IsPlain(id[i]) {
        encoded := encoded + [id[i]];
      } else {
        encoded := encoded + [PERCENT, HexDigit(id[i] / 16), HexDigit(id[i] % 16)];
      }
    }
    assert id[..|id|] == id;
    if encoded == [] {
      return ZERO_NAME;
    }
    return encoded;
  }

  // ----- what a name looks like

  /** A name of letters, digits, dashes, underscores and dots, but not just one or two dots. */
  predicate Usual(id: seq<Byte>) {
    && id != [] && id != ['.' as int] && id != ['.' as int, '.' as int]
    && forall b :: b in id ==>
         ('0' as int <= b <= '9' as int) || ('A' as int <= b <= 'Z' as int) || ('a' as int <= b <= 'z' as int)
         || b == '-' as int || b == '_' as int || b == '.' as int
  }

  lemma UsualIsVerbatim(id: seq<Byte>)
    ensures Usual(id) <==> Verbatim(id)
  {
    forall i | 0 <= i < |id| ensures id[i] in id {}
    if Verbatim(id) {
      forall b | b in id ensures IsPlain(b) || b == DOT {
        var i :| 0 <= i < |id| && id[i] == b;
      }
    }
  }

  /** MAIN: an id is its own directory name if and only if it is a usual name. */
  lemma OwnNameIff(id: seq<Byte>)
    ensures InstanceDirectory(id) == id <==> Usual(id)
  {
    UsualIsVerbatim(id);
    EncodeNotEmpty(id);
    if !Verbatim(id) && id != [] {
      EncodeGrows(id);
      PlainIsVerbatim(id);
    }
  }

  lemma PlainIsVerbatim(id: seq<Byte>)
    requires id != []
    ensures (forall i :: 0 <= i < |id| ==> IsPlain(id[i])) ==> Verbatim(id)
  {
    assert IsPlain(id[0]) ==> id[0] != DOT;
  }

  /** Encoding never shortens, and lengthens what is not plain. */
  lemma {:induction false} EncodeGrows(id: seq<Byte>)
    ensures |Encode(id)| >= |id|
    ensures |Encode(id)| == |id| ==> forall i :: 0 <= i < |id| ==> IsPlain(id[i])
  {
    if id != [] {
      EncodeGrows(id[1..]);
      forall i | 0 <= i < |id| && |Encode(id)| == |id| ensures IsPlain(id[i]) {
        if i > 0 {
          assert id[i] == id[1..][i - 1];
        }
      }
    }
  }

  /** A byte that is not plain is written as a percent sign and two upper-case hexadecimal digits. */
  lemma PercentForm(b: Byte)
    ensures
      var digits := "0123456789ABCDEF";
      EncodeByte(b) == if IsPlain(b) then [b] else ['%' as int, digits[b / 16] as int, digits[b % 16] as int]
  {}

  // ----- a decoder

  function Decode(name: seq<Byte>): seq<Byte> {
    if name == [] then []
    else if name[0] == PERCENT && |name| >= 3 then
      [(16 * HexValue(name[1]) + HexValue(name[2])) % 256] + Decode(name[3..])
    else [name[0]] + Decode(name[1..])
  }

  lemma HexRoundTrip(b: Byte)
    ensures 16 * HexValue(HexDigit(b / 16)) + HexValue(HexDigit(b % 16)) == b
  {}

  lemma {:induction false} DecodeEncoded(id: seq<Byte>)
    ensures Decode(Encode(id)) == id
  {
    if id != [] {
      DecodeEncoded(id[1..]);
      var e, rest := EncodeByte(id[0]), Encode(id[1..]);
      if IsPlain(id[0]) {
        assert ([id[0]] + rest)[1..] == rest;
      } else {
        HexRoundTrip(id[0]);
        assert (e + rest)[3..] == rest;
        assert (e + rest)[0] == PERCENT;
        assert (e + rest)[1] == HexDigit(id[0] / 16) && (e + rest)[2] == HexDigit(id[0] % 16);
      }
    }
  }

  lemma {:induction false} DecodeWithoutPercent(name: seq<Byte>)
    requires PERCENT !in name
    ensures Decode(name) == name
  {
    if name != [] {
      DecodeWithoutPercent(name[1..]);
    }
  }

  lemma EncodeNotEmpty(id: seq<Byte>)
    ensures Encode(id) == [] <==> id == []
  {}

  /** MAIN: decoding a directory name gives back the id it was made for, unless that was empty. */
  lemma DirectoryRoundTrip(id: seq<Byte>)
    requires id != []
    ensures Decode(InstanceDirectory(id)) == id
  {
    EncodeNotEmpty(id);
    if Verbatim(id) {
      DecodeWithoutPercent(id);
    } else {
      DecodeEncoded(id);
    }
  }

  /** MAIN: two ids share a directory exactly when they are equal, or are the empty id and the single zero byte. */
  lemma DirectoriesAreIsolated(a: seq<Byte>, b: seq<Byte>)
    ensures InstanceDirectory(a) == InstanceDirectory(b) <==> a == b || (a == [] && b == [0]) || (a == [0] && b == [])
  {
    ZeroByte();
    if a != [] {
      DirectoryRoundTrip(a);
    }
    if b != [] {
      DirectoryRoundTrip(b);
    }
    assert Decode(ZERO_NAME) == [0];
  }

  lemma ZeroByte()
    ensures InstanceDirectory([0]) == ZERO_NAME == InstanceDirectory([]) && Decode(ZERO_NAME) == [0]
  {
    assert [0][1..] == [] && Encode([0]) == EncodeByte(0) + [];
    assert ZERO_NAME[3..] == [] && Decode(ZERO_NAME) == [0] + Decode([]);
  }

  predicate SafeByte(b: Byte) {
    IsPlain(b) || b == DOT || b == PERCENT
  }

  lemma {:induction false} EncodeSafe(id: seq<Byte>)
    ensures forall i :: 0 <= i < |Encode(id)| ==> SafeByte(Encode(id)[i]) && Encode(id)[i] != DOT
  {
    if id != [] {
      EncodeSafe(id[1..]);
    }
  }

  /** MAIN: a directory name is a plain file name: not empty, not "." or "..", and without path separators. */
  lemma DirectoryIsSafe(id: seq<Byte>)
    ensures
      var d := InstanceDirectory(id);
      && d != [] && d != [DOT] && d != [DOT, DOT] && SLASH !in d && BACKSLASH !in d
      && forall i :: 0 <= i < |d| ==> SafeByte(d[i])
  {
    EncodeSafe(id);
    if !Verbatim(id) && Encode(id) != [] {
      assert Encode(id)[0] != DOT;
    }
  }
}
