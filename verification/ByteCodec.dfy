/** Bytes, little-endian integers and hexadecimal text. */
module ByteCodec {
  import opened Prelude

  type Byte = x: int | 0 <= x < 256

  function Pow256(n: nat): (p: nat)
    ensures p > 0
  {
    if n == 0 then 1 else 256 * Pow256(n - 1)
  }

  /** The n low bytes of v, least significant first. */
  function Le(v: nat, n: nat): (bytes: seq<Byte>)
    ensures |bytes| == n
    decreases n
  {
    if n == 0 then [] else [v % 256] + Le(v / 256, n - 1)
  }

  function FromLe(bytes: seq<Byte>): nat {
    if bytes == [] then 0 else bytes[0] + 256 * FromLe(bytes[1..])
  }

  lemma {:induction false} FromLeOfLe(v: nat, n: nat)
    requires v < Pow256(n)
    ensures FromLe(Le(v, n)) == v
    decreases n
  {
    if n > 0 {
      FromLeOfLe(v / 256, n - 1);
    }
  }

  lemma {:induction false} LeOfFromLe(bytes: seq<Byte>)
    ensures Le(FromLe(bytes), |bytes|) == bytes && FromLe(bytes) < Pow256(|bytes|)
  {
    if bytes != [] {
      LeOfFromLe(bytes[1..]);
      assert FromLe(bytes) / 256 == FromLe(bytes[1..]) && FromLe(bytes) % 256 == bytes[0];
    }
  }

  /** Four bytes as a number, the first the least significant. */
  lemma FourBytesSay(b: seq<Byte>)
    requires |b| == 4
    ensures FromLe(b) ==
            b[0] as int + 0x100 * (b[1] as int) + 0x1_0000 * (b[2] as int) + 0x100_0000 * (b[3] as int)
  {
    var b1, b2, b3 := b[1..], b[2..], b[3..];
    assert b1[1..] == b2 && b2[1..] == b3 && b3[1..] == [];
    assert FromLe(b3) == b[3] && FromLe(b2) == b[2] as int + 256 * FromLe(b3);
    assert FromLe(b1) == b[1] as int + 256 * FromLe(b2);
  }

  /** Eight bytes are two such numbers, the low one first. */
  lemma EightBytesSay(b: seq<Byte>)
    requires |b| == 8
    ensures FromLe(b) == FromLe(b[..4]) + 0x1_0000_0000 * FromLe(b[4..])
  {
    assert b[1..][1..] == b[2..] && b[2..][1..] == b[3..] && b[3..][1..] == b[4..];
    assert FromLe(b[3..]) == b[3] as int + 256 * FromLe(b[4..]);
    assert FromLe(b[2..]) == b[2] as int + 256 * FromLe(b[3..]);
    assert FromLe(b[1..]) == b[1] as int + 256 * FromLe(b[2..]);
    FourBytesSay(b[..4]);
  }

  // ----------------------------------------------------------------- hexadecimal

  function HexValue(c: char): Option<nat> {
    if '0' <= c <= '9' then Some(c as int - '0' as int)
    else if 'a' <= c <= 'f' then Some(c as int - 'a' as int + 10)
    else if 'A' <= c <= 'F' then Some(c as int - 'A' as int + 10)
    else None
  }

  function HexDigit(v: nat): (c: char)
    requires v < 16
    ensures HexValue(c) == Some(v)
  {
    if v < 10 then '0' + v as char else 'a' + (v - 10) as char
  }

  function LowerHex(c: char): char {
    if 'A' <= c <= 'F' then c - 'A' + 'a' else c
  }

  function EncodeHex(bytes: seq<Byte>): (s: string)
    ensures |s| == 2 * |bytes| && forall i :: 0 <= i < |s| ==> HexValue(s[i]).Some?
  {
    if bytes == [] then "" else [HexDigit(bytes[0] / 16), HexDigit(bytes[0] % 16)] + EncodeHex(bytes[1..])
  }

  /** hex.DecodeString: digits of either case, an even number of them. */
  function DecodeHex(s: string): (res: Option<seq<Byte>>)
    ensures res.Some? ==> |s| == 2 * |res.value|
  {
    if s == "" then Some([])
    else if |s| == 1 || HexValue(s[0]).None? || HexValue(s[1]).None? then None
    else
      match DecodeHex(s[2..])
      case None => None
      case Some(rest) =>
        HexValueIsSmall(s[0]);
        HexValueIsSmall(s[1]);
        Some([16 * HexValue(s[0]).value + HexValue(s[1]).value] + rest)
  }

  lemma HexValueIsSmall(c: char)
    requires HexValue(c).Some?
    ensures HexValue(c).value < 16 && HexDigit(HexValue(c).value) == LowerHex(c)
  {
  }

  /** The digits of either case, and nothing else. */
  lemma HexTable()
    ensures forall v :: 0 <= v < 10 ==> HexValue((48 + v) as char) == Some(v)
    ensures forall v :: 10 <= v < 16 ==> HexValue((87 + v) as char) == Some(v) == HexValue((55 + v) as char)
    ensures forall c :: HexValue(c).Some? ==> '0' <= c <= '9' || 'a' <= c <= 'f' || 'A' <= c <= 'F'
    ensures forall c :: LowerHex(c) as int == if 'A' <= c <= 'F' then c as int + 32 else c as int
  {
  }

  /** Text is read exactly if it is digits, an even number of them: two to a byte, the high one first. */
  lemma {:induction false} HexBytes(s: string)
    ensures DecodeHex(s).Some? <==> |s| % 2 == 0 && forall i :: 0 <= i < |s| ==> HexValue(s[i]).Some?
    ensures DecodeHex(s).Some? ==>
              |DecodeHex(s).value| == |s| / 2 &&
              forall i :: 0 <= i < |s| / 2 ==>
                DecodeHex(s).value[i] as int == 16 * HexValue(s[2 * i]).value + HexValue(s[2 * i + 1]).value
  {
    if |s| >= 2 {
      HexBytes(s[2..]);
      assert s == [s[0], s[1]] + s[2..];
      if DecodeHex(s).Some? {
        forall i | 0 <= i < |s| / 2
          ensures DecodeHex(s).value[i] as int == 16 * HexValue(s[2 * i]).value + HexValue(s[2 * i + 1]).value
        {
          HexValueIsSmall(s[0]);
          HexValueIsSmall(s[1]);
          if i > 0 {
            assert DecodeHex(s).value[i] == DecodeHex(s[2..]).value[i - 1];
          }
        }
      }
    }
  }

  function LowerAll(s: string): string {
    seq(|s|, i requires 0 <= i < |s| => LowerHex(s[i]))
  }

  lemma {:induction false} DecodeHexOfEncode(bytes: seq<Byte>)
    ensures DecodeHex(EncodeHex(bytes)) == Some(bytes)
  {
    if bytes != [] {
      DecodeHexOfEncode(bytes[1..]);
      var s := EncodeHex(bytes);
      assert s[0] == HexDigit(bytes[0] / 16) && s[1] == HexDigit(bytes[0] % 16) && s[2..] == EncodeHex(bytes[1..]);
      assert bytes == [bytes[0]] + bytes[1..];
    }
  }

  lemma DecodeHexStep(s: string)
    requires s != "" && DecodeHex(s).Some?
    ensures |s| >= 2 && DecodeHex(s[2..]).Some? && DecodeHex(s).value != [] &&
            DecodeHex(s).value[1..] == DecodeHex(s[2..]).value
    ensures var b := DecodeHex(s).value[0]; HexDigit(b / 16) == LowerHex(s[0]) && HexDigit(b % 16) == LowerHex(s[1])
  {
    HexValueIsSmall(s[0]);
    HexValueIsSmall(s[1]);
  }

  /** Decoding forgets nothing but the case of the digits. */
  lemma {:induction false} EncodeHexOfDecode(s: string)
    requires DecodeHex(s).Some?
    ensures EncodeHex(DecodeHex(s).value) == LowerAll(s)
  {
    if s != "" {
      EncodeHexOfDecode(s[2..]);
      DecodeHexStep(s);
      hide DecodeHex;
      assert LowerAll(s) == [LowerHex(s[0]), LowerHex(s[1])] + LowerAll(s[2..]);
    }
  }

  lemma {:induction false} HexIsHyphenFree(s: string)
    requires DecodeHex(s).Some?
    ensures '-' !in s
  {
    if s != "" {
      HexIsHyphenFree(s[2..]);
      assert s == [s[0], s[1]] + s[2..];
    }
  }
}
