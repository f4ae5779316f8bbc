/** The signed part of an identity grant: 164 bytes at fixed offsets. */
module GrantCodec {
  import opened Prelude
  import opened ByteCodec

  const MAGIC := 0x31414c52
  const SIGNED := 164
  const TOTAL := 420

  /** sid holds the five sub-authorities of the account's SID. */
  datatype Grant = Grant(session: nat, expiry: nat, boot: seq<Byte>, nonce: seq<Byte>,
                         tenant: seq<Byte>, principal: seq<Byte>, node: seq<Byte>, sid: seq<nat>)

  predicate WellFormed(g: Grant) {
    && g.session < 0x1_0000_0000 && g.expiry < 0x1_0000_0000_0000_0000
    && |g.boot| == 32 && |g.nonce| == 32
    && |g.tenant| == 16 && |g.principal| == 16 && |g.node| == 16
    && |g.sid| == 5 && forall i :: 0 <= i < 5 ==> g.sid[i] < 0x1_0000_0000
  }

  const BLANK: seq<Byte> := [0, 0, 0, 0]

  /** Revision 1, five sub-authorities, identifier authority 5: S-1-5. */
  const SID_HEADER: seq<Byte> := [1, 5, 0, 0, 0, 0, 0, 5]

  function Words(values: seq<nat>): (bytes: seq<Byte>)
    ensures |bytes| == 4 * |values|
  {
    if values == [] then [] else Words(values[..|values| - 1]) + Le(values[|values| - 1], 4)
  }

  function Front(g: Grant): (bytes: seq<Byte>)
    ensures |bytes| == 24
  {
    Le(MAGIC, 4) + Le(TOTAL, 4) + Le(g.session, 4) + BLANK + Le(g.expiry, 8)
  }

  function Encode(g: Grant): (bytes: seq<Byte>)
    requires WellFormed(g)
    ensures |bytes| == SIGNED
  {
    Front(g) + g.boot + g.nonce + g.tenant + g.principal + g.node + SID_HEADER + Words(g.sid)
  }

  // -------------------------------------------------------------------- reading

  function WordAt(b: seq<Byte>, at: nat): nat
    requires at + 4 <= |b|
  {
    FromLe(b[at..at + 4])
  }

  /** A reader of the format, by offset; None unless every fixed field is what it must be. */
  function Decode(b: seq<Byte>): Option<Grant> {
    if |b| != SIGNED || WordAt(b, 0) != MAGIC || WordAt(b, 4) != TOTAL || b[12..16] != BLANK ||
       b[136..144] != SID_HEADER then None
    else
      Some(Grant(WordAt(b, 8), FromLe(b[16..24]), b[24..56], b[56..88], b[88..104], b[104..120], b[120..136],
                 [WordAt(b, 144), WordAt(b, 148), WordAt(b, 152), WordAt(b, 156), WordAt(b, 160)]))
  }

  lemma Widths()
    ensures Pow256(4) == 0x1_0000_0000 && Pow256(8) == 0x1_0000_0000_0000_0000
  {
    assert Pow256(2) == 0x1_0000;
    assert Pow256(4) == 0x1_0000_0000;
    assert Pow256(6) == 0x1_0000_0000_0000;
  }

  lemma FiveWords(v: seq<nat>)
    requires |v| == 5
    ensures Words(v) == Le(v[0], 4) + Le(v[1], 4) + Le(v[2], 4) + Le(v[3], 4) + Le(v[4], 4)
  {
    hide Le;
    var v4, v3, v2, v1 := v[..4], v[..3], v[..2], v[..1];
    assert v4[..3] == v3 && v3[..2] == v2 && v2[..1] == v1 && v1[..0] == [];
    assert Words(v1) == Le(v[0], 4);
    assert Words(v2) == Words(v1) + Le(v[1], 4);
    assert Words(v3) == Words(v2) + Le(v[2], 4);
    assert Words(v4) == Words(v3) + Le(v[3], 4);
  }

  /** Where each field of an encoded grant lies: every byte belongs to exactly one. */
  lemma Layout(g: Grant)
    requires WellFormed(g)
    ensures var b := Encode(g);
            && b[0..4] == Le(MAGIC, 4) && b[4..8] == Le(TOTAL, 4) && b[8..12] == Le(g.session, 4)
            && b[12..16] == BLANK && b[16..24] == Le(g.expiry, 8)
            && b[24..56] == g.boot && b[56..88] == g.nonce
            && b[88..104] == g.tenant && b[104..120] == g.principal && b[120..136] == g.node
            && b[136..144] == SID_HEADER && b[144..148] == Le(g.sid[0], 4) && b[148..152] == Le(g.sid[1], 4)
            && b[152..156] == Le(g.sid[2], 4) && b[156..160] == Le(g.sid[3], 4) && b[160..164] == Le(g.sid[4], 4)
  {
    hide Le, Words;
    FiveWords(g.sid);
  }

  lemma DecodeOfEncode(g: Grant)
    requires WellFormed(g)
    ensures Decode(Encode(g)) == Some(g)
  {
    hide Encode, Le, FromLe, Pow256;
    Layout(g);
    Widths();
    FromLeOfLe(MAGIC, 4);
    FromLeOfLe(TOTAL, 4);
    FromLeOfLe(g.session, 4);
    FromLeOfLe(g.expiry, 8);
    forall i | 0 <= i < 5 ensures FromLe(Le(g.sid[i], 4)) == g.sid[i] {
      FromLeOfLe(g.sid[i], 4);
    }
    assert Decode(Encode(g)).value.sid == g.sid;
  }

  /** Nothing but an encoding decodes: two byte strings never mean the same grant. */
  lemma EncodeOfDecode(b: seq<Byte>)
    requires Decode(b).Some?
    ensures WellFormed(Decode(b).value) && Encode(Decode(b).value) == b
  {
    hide Le, FromLe, Pow256, Words;
    var g := Decode(b).value;
    Widths();
    LeOfFromLe(b[0..4]);
    LeOfFromLe(b[4..8]);
    LeOfFromLe(b[8..12]);
    LeOfFromLe(b[16..24]);
    forall i | 0 <= i < 5 ensures g.sid[i] < 0x1_0000_0000 && Le(g.sid[i], 4) == b[144 + 4 * i..148 + 4 * i] {
      LeOfFromLe(b[144 + 4 * i..148 + 4 * i]);
    }
    FiveWords(g.sid);
    assert Words(g.sid) == b[144..164];
    assert Front(g) == b[0..24];
  }

  // -------------------------------------------------------------- byte by byte

  /** The number in four bytes from this offset, the first the least significant. */
  lemma WordSays(b: seq<Byte>, at: nat, v: nat)
    requires at + 4 <= |b| && b[at..at + 4] == Le(v, 4) && v < 0x1_0000_0000
    ensures v == b[at] as int + 0x100 * (b[at + 1] as int) + 0x1_0000 * (b[at + 2] as int) +
              0x100_0000 * (b[at + 3] as int)
  {
    Widths();
    FromLeOfLe(v, 4);
    FourBytesSay(b[at..at + 4]);
  }

  lemma LongSays(b: seq<Byte>, at: nat, v: nat)
    requires at + 8 <= |b| && b[at..at + 8] == Le(v, 8) && v < 0x1_0000_0000_0000_0000
    ensures v == b[at] as int + 0x100 * (b[at + 1] as int) + 0x1_0000 * (b[at + 2] as int) +
              0x100_0000 * (b[at + 3] as int) +
                 0x1_0000_0000 * (b[at + 4] as int + 0x100 * (b[at + 5] as int) + 0x1_0000 * (b[at + 6] as int) +
                                  0x100_0000 * (b[at + 7] as int))
  {
    Widths();
    FromLeOfLe(v, 8);
    var long := b[at..at + 8];
    EightBytesSay(long);
    FourBytesSay(long[..4]);
    FourBytesSay(long[4..]);
  }

  /**
   * An encoded grant byte by byte: "RLA1" and the total length first, every number
   * with its least significant byte first, each field in its own place.
   */
  lemma GrantBytes(g: Grant)
    requires WellFormed(g)
    ensures var b := Encode(g);
            && |b| == 164
            && b[0..4] == [0x52, 0x4c, 0x41, 0x31] && b[4..8] == [0xa4, 1, 0, 0]
            && g.session == b[8] as int + 0x100 * (b[9] as int) + 0x1_0000 * (b[10] as int) +
                 0x100_0000 * (b[11] as int)
            && b[12..16] == [0, 0, 0, 0]
            && g.expiry ==
               b[16] as int + 0x100 * (b[17] as int) + 0x1_0000 * (b[18] as int) + 0x100_0000 * (b[19] as int) +
               0x1_0000_0000 *
               (b[20] as int + 0x100 * (b[21] as int) + 0x1_0000 * (b[22] as int) + 0x100_0000 * (b[23] as int))
            && b[24..56] == g.boot && b[56..88] == g.nonce
            && b[88..104] == g.tenant && b[104..120] == g.principal && b[120..136] == g.node
            && b[136..144] == [1, 5, 0, 0, 0, 0, 0, 5]
            && forall i :: 0 <= i < 5 ==>
                 g.sid[i] == b[144 + 4 * i] as int + 0x100 * (b[145 + 4 * i] as int) +
                             0x1_0000 * (b[146 + 4 * i] as int) + 0x100_0000 * (b[147 + 4 * i] as int)
  {
    hide Encode, FromLe, Pow256;
    Layout(g);
    var b := Encode(g);
    FixedWords();
    hide Le;
    WordSays(b, 8, g.session);
    LongSays(b, 16, g.expiry);
    forall i | 0 <= i < 5 ensures
        g.sid[i] == b[144 + 4 * i] as int + 0x100 * (b[145 + 4 * i] as int) +
                    0x1_0000 * (b[146 + 4 * i] as int) + 0x100_0000 * (b[147 + 4 * i] as int)
    {
      SubAuthorityLies(g, i);
      WordSays(b, 144 + 4 * i, g.sid[i]);
    }
  }

  lemma SubAuthorityLies(g: Grant, i: nat)
    requires WellFormed(g) && i < 5
    ensures Encode(g)[144 + 4 * i..148 + 4 * i] == Le(g.sid[i], 4)
  {
    hide Encode, Le;
    Layout(g);
  }

  lemma FixedWords()
    ensures Le(MAGIC, 4) == [0x52, 0x4c, 0x41, 0x31] && Le(TOTAL, 4) == [0xa4, 1, 0, 0]
  {
    assert Le(0x31414c52, 4) == [0x52] + Le(0x31414c, 3);
    assert Le(0x31414c, 3) == [0x4c] + Le(0x3141, 2);
    assert Le(0x3141, 2) == [0x41] + Le(0x31, 1);
    assert Le(420, 4) == [0xa4] + Le(1, 3);
    assert Le(1, 3) == [1] + Le(0, 2);
  }

  // -------------------------------------------------------------------- writing

  method Put(g: array<Byte>, at: nat, bytes: seq<Byte>)
    requires at + |bytes| <= g.Length
    modifies g
    ensures g[..at + |bytes|] == old(g[..at]) + bytes
    ensures forall i :: at + |bytes| <= i < g.Length ==> g[i] == old(g[i])
  {
    for i := 0 to |bytes|
      invariant g[..at + i] == old(g[..at]) + bytes[..i]
      invariant forall k :: at + i <= k < g.Length ==> g[k] == old(g[k])
    {
      g[at + i] := bytes[i];
    }
  }

  /** The fields at their offsets into a zeroed buffer; the gaps stay zero. */
  method Fill(g: Grant) returns (b: array<Byte>)
    requires WellFormed(g)
    ensures fresh(b) && b[..] == Encode(g)
  {
    hide Le, Words, Encode, WellFormed;
    b := new Byte[SIGNED](_ => 0);
    FillFront(b, g);
    FillNames(b, g);
    FillSid(b, g);
    assert b[..] == b[..164];
    EncodeInParts(g);
  }

  method FillFront(b: array<Byte>, g: Grant)
    requires WellFormed(g) && b.Length == SIGNED && forall i :: 0 <= i < SIGNED ==> b[i] == 0
    modifies b
    ensures b[..24] == Front(g) && forall i :: 24 <= i < SIGNED ==> b[i] == 0
  {
    hide Le;
    Put(b, 0, Le(MAGIC, 4));
    Put(b, 4, Le(TOTAL, 4));
    Put(b, 8, Le(g.session, 4));
    assert b[..16] == b[..12] + BLANK;
    Put(b, 16, Le(g.expiry, 8));
  }

  method FillNames(b: array<Byte>, g: Grant)
    requires WellFormed(g) && b.Length == SIGNED && b[..24] == Front(g) && forall i :: 24 <= i < SIGNED ==> b[i] == 0
    modifies b
    ensures b[..136] == Front(g) + g.boot + g.nonce + g.tenant + g.principal + g.node
    ensures forall i :: 136 <= i < SIGNED ==> b[i] == 0
  {
    hide Front;
    Put(b, 24, g.boot);
    Put(b, 56, g.nonce);
    Put(b, 88, g.tenant);
    Put(b, 104, g.principal);
    Put(b, 120, g.node);
  }

  method FillSid(b: array<Byte>, g: Grant)
    requires WellFormed(g) && b.Length == SIGNED && forall i :: 136 <= i < SIGNED ==> b[i] == 0
    modifies b
    ensures b[..164] == old(b[..136]) + SID_HEADER + Words(g.sid)
  {
    hide Le;
    b[136], b[137], b[143] := 1, 5, 5;
    assert b[..144] == old(b[..136]) + SID_HEADER;
    for i := 0 to 5
      invariant b[..144 + 4 * i] == old(b[..136]) + SID_HEADER + Words(g.sid[..i])
    {
      assert g.sid[..i + 1][..i] == g.sid[..i];
      Put(b, 144 + i * 4, Le(g.sid[i], 4));
    }
    assert g.sid[..5] == g.sid;
  }

  lemma EncodeInParts(g: Grant)
    requires WellFormed(g)
    ensures Encode(g) == Front(g) + g.boot + g.nonce + g.tenant + g.principal + g.node + SID_HEADER + Words(g.sid)
  {
  }
}
