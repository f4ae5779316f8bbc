/** Identity grants: account SIDs, UUIDs, the clocks of host and broker, and issuing. */
module Identity {
  import opened Prelude
  import opened ByteCodec
  import opened GrantCodec
  import Text
  import Decimal

  // --------------------------------------------------------------------- SIDs

  /** The text of a local account's SID; its first sub-authority is always 21. */
  function SidText(values: seq<nat>): string
    requires |values| == 5
  {
    Text.Join(["S", "1", "5"] + Texts(values), '-')
  }

  function Texts(values: seq<nat>): seq<string> {
    seq(|values|, i requires 0 <= i < |values| => Decimal.FormatUint(values[i]))
  }

  predicate IsAccount(values: seq<nat>) {
    |values| == 5 && values[0] == 21 && forall i :: 0 <= i < 5 ==> values[i] < 0x1_0000_0000
  }

  method SidParts(sid: string) returns (res: Option<seq<nat>>)
    ensures res.Some? ==> IsAccount(res.value) && sid == SidText(res.value)
    ensures res.None? ==> !exists values :: IsAccount(values) && sid == SidText(values)
  {
    var parts := Text.Split(sid, '-');
    Text.JoinSplit(sid, '-');
    if |parts| != 8 || Text.Join(parts[..4], '-') != "S-1-5-21" {
      SidShape(sid);
      return None;
    }
    Text.SplitIsFree(sid, '-');
    SidPrefix(parts);
    var values := [21];
    for i := 4 to 8
      invariant |values| == i - 3 && values[0] == 21
      invariant forall k :: 0 <= k < |values| ==>
                values[k] < 0x1_0000_0000 && Decimal.FormatUint(values[k]) == parts[3 + k]
    {
      var v := Decimal.ParseUint(parts[i]);
      if v.None? || v.value >= 0x1_0000_0000 || Decimal.FormatUint(v.value) != parts[i] {
        SidRefused(sid, i);
        return None;
      }
      values := values + [v.value];
    }
    assert parts == ["S", "1", "5"] + Texts(values);
    return Some(values);
  }

  lemma SidPrefix(parts: seq<string>)
    requires |parts| == 8 && Text.Free(parts, '-') && Text.Join(parts[..4], '-') == "S-1-5-21"
    ensures parts[..4] == ["S", "1", "5", "21"] && Decimal.FormatUint(21) == parts[3]
  {
    var four := ["S", "1", "5", "21"];
    Text.SplitJoin(parts[..4], '-');
    Text.SplitJoin(four, '-');
    JoinFour(four);
    assert parts[..4][3] == parts[3];
  }

  lemma JoinFour(four: seq<string>)
    requires four == ["S", "1", "5", "21"]
    ensures Text.Join(four, '-') == "S-1-5-21"
  {
    assert four[1..] == ["1", "5", "21"] && four[1..][1..] == ["5", "21"] && four[1..][1..][1..] == ["21"];
    assert Text.Join(["21"], '-') == "21";
    assert Text.Join(["5", "21"], '-') == "5-21";
    assert Text.Join(["1", "5", "21"], '-') == "1-5-21";
  }

  /** Splitting the text of a SID gives back its parts. */
  lemma SidTextSplits(values: seq<nat>)
    requires IsAccount(values)
    ensures Text.Split(SidText(values), '-') == ["S", "1", "5"] + Texts(values)
    ensures Texts(values)[0] == "21"
  {
    Text.SplitJoin(["S", "1", "5"] + Texts(values), '-');
  }

  lemma SidShape(sid: string)
    requires var parts := Text.Split(sid, '-'); |parts| != 8 || Text.Join(parts[..4], '-') != "S-1-5-21"
    ensures !exists values :: IsAccount(values) && sid == SidText(values)
  {
    forall values | IsAccount(values) && sid == SidText(values) ensures false {
      SidTextSplits(values);
      var parts := Text.Split(sid, '-');
      assert parts[..4] == ["S", "1", "5", "21"];
      JoinFour(parts[..4]);
    }
  }

  lemma SidRefused(sid: string, i: nat)
    requires 4 <= i < 8 && |Text.Split(sid, '-')| == 8
    requires var v := Decimal.ParseUint(Text.Split(sid, '-')[i]);
             v.None? || v.value >= 0x1_0000_0000 || Decimal.FormatUint(v.value) != Text.Split(sid, '-')[i]
    ensures !exists values :: IsAccount(values) && sid == SidText(values)
  {
    forall values | IsAccount(values) && sid == SidText(values) ensures false {
      SidPartParses(values, i);
    }
  }

  lemma SidPartParses(values: seq<nat>, i: nat)
    requires IsAccount(values) && 3 <= i < 8
    ensures var parts := Text.Split(SidText(values), '-');
            |parts| == 8 && parts[i] == Decimal.FormatUint(values[i - 3]) &&
              Decimal.ParseUint(parts[i]) == Some(values[i - 3])
  {
    SidTextSplits(values);
    Decimal.ParseFormat(values[i - 3]);
    assert Text.Split(SidText(values), '-')[i] == Texts(values)[i - 3];
  }

  /** A SID text says one account, so a grant fixes the text it was made from. */
  lemma SidTextIsInjective(v: seq<nat>, w: seq<nat>)
    requires IsAccount(v) && IsAccount(w) && SidText(v) == SidText(w)
    ensures v == w
  {
    forall i | 0 <= i < 5 ensures v[i] == w[i] {
      SidPartParses(v, i + 3);
      SidPartParses(w, i + 3);
    }
  }

  // -------------------------------------------------------------------- UUIDs

  predicate Hyphens(s: string) {
    |s| == 36 && s[8] == '-' && s[13] == '-' && s[18] == '-' && s[23] == '-'
  }

  /** strings.ReplaceAll with nothing: every hyphen goes, wherever it stands. */
  function WithoutHyphens(s: string): string {
    if s == "" then "" else (if s[0] == '-' then "" else [s[0]]) + WithoutHyphens(s[1..])
  }

  function ParseUuid(value: string): Option<seq<Byte>> {
    if !Hyphens(value) then None
    else
      var bytes := DecodeHex(WithoutHyphens(value));
      if bytes.Some? && |bytes.value| == 16 then bytes else None
  }

  /** The hexadecimal digits of a UUID text, without its four separators. */
  function Digits(s: string): string
    requires |s| == 36
  {
    s[..8] + s[9..13] + s[14..18] + s[19..23] + s[24..]
  }

  function Hyphenated(h: string): string
    requires |h| == 32
  {
    h[..8] + "-" + h[8..12] + "-" + h[12..16] + "-" + h[16..20] + "-" + h[20..]
  }

  function UuidText(bytes: seq<Byte>): string
    requires |bytes| == 16
  {
    Hyphenated(EncodeHex(bytes))
  }

  lemma {:induction false} WithoutHyphensLength(s: string)
    ensures |WithoutHyphens(s)| <= |s|
    ensures |WithoutHyphens(s)| == |s| <==> '-' !in s
    ensures '-' !in s ==> WithoutHyphens(s) == s
  {
    if s != "" {
      WithoutHyphensLength(s[1..]);
      assert s == [s[0]] + s[1..];
    }
  }

  lemma {:induction false} WithoutHyphensConcat(a: string, b: string)
    ensures WithoutHyphens(a + b) == WithoutHyphens(a) + WithoutHyphens(b)
  {
    assert WithoutHyphens("") == "";
    hide WithoutHyphens;
    if a == "" {
      assert a + b == b;
    } else {
      WithoutHyphensConcat(a[1..], b);
      WithoutHyphensStep(a);
      WithoutHyphensStep(a + b);
      assert (a + b)[0] == a[0] && (a + b)[1..] == a[1..] + b;
    }
  }

  lemma WithoutHyphensStep(s: string)
    requires s != ""
    ensures WithoutHyphens(s) == (if s[0] == '-' then "" else [s[0]]) + WithoutHyphens(s[1..])
  {
  }

  lemma WithoutOneHyphen(a: string, b: string)
    ensures WithoutHyphens(a + "-" + b) == WithoutHyphens(a) + WithoutHyphens(b)
  {
    assert WithoutHyphens("-") == "";
    hide WithoutHyphens;
    WithoutHyphensConcat(a, "-");
    WithoutHyphensConcat(a + "-", b);
  }

  lemma SplitAtHyphens(s: string)
    requires Hyphens(s)
    ensures WithoutHyphens(s) == WithoutHyphens(Digits(s))
  {
    assert s == s[..23] + "-" + s[24..] && s[..23] == s[..18] + "-" + s[19..23];
    assert s[..18] == s[..13] + "-" + s[14..18] && s[..13] == s[..8] + "-" + s[9..13];
    hide WithoutHyphens;
    WithoutOneHyphen(s[..23], s[24..]);
    WithoutOneHyphen(s[..18], s[19..23]);
    WithoutOneHyphen(s[..13], s[14..18]);
    WithoutOneHyphen(s[..8], s[9..13]);
    WithoutHyphensConcat(s[..8], s[9..13]);
    WithoutHyphensConcat(s[..8] + s[9..13], s[14..18]);
    WithoutHyphensConcat(s[..8] + s[9..13] + s[14..18], s[19..23]);
    WithoutHyphensConcat(s[..8] + s[9..13] + s[14..18] + s[19..23], s[24..]);
  }

  /**
   * Dropping every hyphen admits no stray ones: a UUID is read exactly when all of
   * its 32 other characters are hexadecimal, and is then what they say.
   */
  lemma UuidIsItsDigits(s: string)
    ensures ParseUuid(s).Some? <==> Hyphens(s) && DecodeHex(Digits(s)).Some?
    ensures ParseUuid(s).Some? ==> ParseUuid(s) == DecodeHex(Digits(s))
  {
    if Hyphens(s) {
      SplitAtHyphens(s);
      WithoutHyphensLength(Digits(s));
      if DecodeHex(Digits(s)).Some? {
        HexIsHyphenFree(Digits(s));
      }
    }
  }

  lemma DigitsOfHyphenated(h: string)
    requires |h| == 32
    ensures Hyphens(Hyphenated(h)) && Digits(Hyphenated(h)) == h
  {
    var s := Hyphenated(h);
    assert s[..8] == h[..8] && s[9..13] == h[8..12] && s[14..18] == h[12..16] && s[19..23] == h[16..20] &&
           s[24..] == h[20..];
  }

  lemma HyphenatedDigits(s: string)
    requires Hyphens(s)
    ensures Hyphenated(LowerAll(Digits(s))) == LowerAll(s)
  {
    var h, t := LowerAll(Digits(s)), LowerAll(s);
    forall i | 0 <= i < 36 ensures Hyphenated(h)[i] == t[i] {
      HyphenatedAt(h, i);
      if i !in {8, 13, 18, 23} {
        DigitsAt(s, i);
      }
    }
  }

  /** How many separators stand before position i. */
  function Before(i: nat): nat {
    if i < 8 then 0 else if i < 13 then 1 else if i < 18 then 2 else if i < 23 then 3 else 4
  }

  lemma HyphenatedAt(h: string, i: nat)
    requires |h| == 32 && i < 36
    ensures Hyphenated(h)[i] == if i in {8, 13, 18, 23} then '-' else h[i - Before(i)]
  {
  }

  lemma DigitsAt(s: string, i: nat)
    requires |s| == 36 && i < 36 && i !in {8, 13, 18, 23}
    ensures Digits(s)[i - Before(i)] == s[i]
  {
  }

  /** Where the two digits of byte i of a UUID stand. */
  const PLACES: seq<nat> := [0, 2, 4, 6, 9, 11, 14, 16, 19, 21, 24, 26, 28, 30, 32, 34]

  /** A UUID is read exactly in its usual form, byte by byte, the high digit first. */
  lemma UuidBytes(s: string)
    ensures ParseUuid(s).Some? <==>
              |s| == 36 && s[8] == s[13] == s[18] == s[23] == '-' &&
              forall i :: 0 <= i < 36 && i !in {8, 13, 18, 23} ==> HexValue(s[i]).Some?
    ensures ParseUuid(s).Some? ==>
              |ParseUuid(s).value| == 16 &&
              forall i :: 0 <= i < 16 ==>
                ParseUuid(s).value[i] as int == 16 * HexValue(s[PLACES[i]]).value + HexValue(s[PLACES[i] + 1]).value
  {
    UuidIsItsDigits(s);
    if Hyphens(s) {
      HexBytes(Digits(s));
      DigitsStand(s);
      forall i | 0 <= i < 36 && i !in {8, 13, 18, 23} ensures Digits(s)[i - Before(i)] == s[i] {
        DigitsAt(s, i);
      }
    }
  }

  lemma PlaceOf(i: nat)
    requires i < 16
    ensures var p := PLACES[i];
            && p + 1 < 36 && p !in {8, 13, 18, 23} && p + 1 !in {8, 13, 18, 23}
            && p - Before(p) == 2 * i && p + 1 - Before(p + 1) == 2 * i + 1
  {
  }

  lemma DigitsStand(s: string)
    requires |s| == 36
    ensures |Digits(s)| == 32
    ensures forall i :: 0 <= i < 16 ==> Digits(s)[2 * i] == s[PLACES[i]] && Digits(s)[2 * i + 1] == s[PLACES[i] + 1]
    ensures forall k :: 0 <= k < 32 ==> Digits(s)[k] == s[Standing(k)]
  {
    forall i | 0 <= i < 16 ensures Digits(s)[2 * i] == s[PLACES[i]] && Digits(s)[2 * i + 1] == s[PLACES[i] + 1] {
      PlaceOf(i);
      DigitsAt(s, PLACES[i]);
      DigitsAt(s, PLACES[i] + 1);
    }
    forall k | 0 <= k < 32 ensures Digits(s)[k] == s[Standing(k)] {
      DigitsAt(s, Standing(k));
    }
  }

  /** Where digit k stands among the separators. */
  function Standing(k: nat): (i: nat)
    requires k < 32
    ensures i < 36 && i !in {8, 13, 18, 23} && i - Before(i) == k
  {
    if k < 8 then k else if k < 12 then k + 1 else if k < 16 then k + 2 else if k < 20 then k + 3 else k + 4
  }

  lemma ParseUuidOfText(bytes: seq<Byte>)
    requires |bytes| == 16
    ensures ParseUuid(UuidText(bytes)) == Some(bytes)
  {
    var s := UuidText(bytes);
    DecodeHexOfEncode(bytes);
    DigitsOfHyphenated(EncodeHex(bytes));
    UuidIsItsDigits(s);
  }

  /** Two texts are read as one UUID only if they differ in case alone. */
  lemma UuidTextOfParse(s: string)
    requires ParseUuid(s).Some?
    ensures UuidText(ParseUuid(s).value) == LowerAll(s)
  {
    UuidIsItsDigits(s);
    EncodeHexOfDecode(Digits(s));
    HyphenatedDigits(s);
  }

  // -------------------------------------------------------------------- clocks

  const TICKS := 10_000_000
  const EPOCH := 116_444_736_000_000_000
  const INT64_MAX := 0x7fff_ffff_ffff_ffff
  const INT64_MIN := -0x8000_0000_0000_0000

  predicate IsInt64(x: int) {
    INT64_MIN <= x <= INT64_MAX
  }

  /** What a 64-bit register holds of x. */
  function Wrap64(x: int): int {
    var low := x % 0x1_0000_0000_0000_0000;
    if low > INT64_MAX then low - 0x1_0000_0000_0000_0000 else low
  }

  /** Go's integer division, toward zero. */
  function Quotient(x: int, y: int): int
    requires y > 0
  {
    if x >= 0 then x / y else -((-x) / y)
  }

  /** The broker's clock as a FILETIME: 100 ns ticks since 1601. */
  function FileTime(nanos: int): int {
    Wrap64(Quotient(nanos, 100) + EPOCH)
  }

  /** Go's conversion to int64: toward zero; outside the range any value may come out. */
  function Truncated(x: real, outside: int): int {
    if x >= 9223372036854775808.0 || x < -9223372036854775808.0 then outside
    else if x >= 0.0 then x.Floor
    else -((-x).Floor)
  }

  /** The code's clock check on the host's reading, in 64-bit arithmetic. */
  predicate ClocksAgree(host: int, nanos: int) {
    var delta := Wrap64(host - FileTime(nanos));
    !(delta > 5 * TICKS || delta < -5 * TICKS)
  }

  /** Despite wrap-around the check is the distance it is meant to be. */
  lemma ClocksAgreeExactly(host: int, nanos: int)
    requires IsInt64(host) && IsInt64(nanos)
    ensures FileTime(nanos) > 0
    ensures FileTime(nanos) == (if nanos >= 0 then nanos / 100 else -(-nanos / 100)) + 116_444_736_000_000_000
    ensures ClocksAgree(host, nanos) <==> -50_000_000 <= host - FileTime(nanos) <= 50_000_000
  {
    var q := Quotient(nanos, 100);
    assert -92_233_720_368_547_759 <= q <= 92_233_720_368_547_759;
  }

  // -------------------------------------------------------------------- grants

  datatype Mapping = Mapping(node: string, tenant: string, principal: string, app: string, sid: string)

  /** A decoded challenge; absent fields read as an empty string or zero. */
  datatype Challenge = Challenge(boot: string, session: real, now: real)

  datatype SignError = BadChallenge | ClockSkew | NoRandom | BadUuid | WrongSid | BadSid | NoSignature

  /** nanos is the broker's clock; nonce and sign may fail; outside is Truncated's. */
  datatype World = World(nanos: int, outside: int, nonce: Option<seq<Byte>>, sign: seq<Byte> -> Option<seq<Byte>>)

  ghost predicate Plausible(w: World) {
    && IsInt64(w.nanos) && IsInt64(w.outside) && (w.nonce.Some? ==> |w.nonce.value| == 32)
    && forall b :: w.sign(b).Some? ==> |w.sign(b).value| == 256
  }

  predicate ChallengeOk(c: Challenge) {
    && DecodeHex(c.boot).Some? && |DecodeHex(c.boot).value| == 32
    && 1.0 <= c.session < 4294967295.0 && c.session == (c.session.Floor as real)
  }

  /** The grant says what the mapping, the challenge and the clocks said. */
  predicate Grants(g: Grant, m: Mapping, c: Challenge, w: World) {
    && WellFormed(g)
    && g.session as real == c.session && 1 <= g.session < 4294967295
    && g.expiry == FileTime(w.nanos) + 45 * TICKS
    && DecodeHex(c.boot) == Some(g.boot) && w.nonce == Some(g.nonce)
    && ParseUuid(m.tenant) == Some(g.tenant) && ParseUuid(m.principal) == Some(g.principal) &&
       ParseUuid(m.node) == Some(g.node)
    && IsAccount(g.sid) && SidText(g.sid) == m.sid
  }

  /** The challenge is well formed and the two clocks agree. */
  predicate Timely(c: Challenge, w: World) {
    ChallengeOk(c) && ClocksAgree(Truncated(c.now, w.outside), w.nanos)
  }

  predicate UuidsOk(m: Mapping) {
    ParseUuid(m.tenant).Some? && ParseUuid(m.principal).Some? && ParseUuid(m.node).Some?
  }

  /** Mapping, challenge and world leave no choice of grant. */
  lemma GrantIsUnique(g: Grant, g': Grant, m: Mapping, c: Challenge, w: World)
    requires Grants(g, m, c, w) && Grants(g', m, c, w)
    ensures g == g'
  {
    SidTextIsInjective(g.sid, g'.sid);
  }

  method SignGrant(pin: string, m: Mapping, c: Challenge, w: World) returns (res: Result<seq<Byte>, SignError>)
    requires Plausible(w)
    ensures res.Ok? ==>
              exists g :: Grants(g, m, c, w) && w.sign(Encode(g)).Some? &&
                res.value == Encode(g) + w.sign(Encode(g)).value
    ensures res.Ok? ==> |res.value| == TOTAL && pin != "" && m.sid == pin
    ensures res == Err(BadChallenge) <==> !ChallengeOk(c)
    ensures res == Err(ClockSkew) <==> ChallengeOk(c) && !ClocksAgree(Truncated(c.now, w.outside), w.nanos)
    ensures res == Err(NoRandom) <==> Timely(c, w) && w.nonce.None?
    ensures res == Err(BadUuid) <==> Timely(c, w) && w.nonce.Some? && !UuidsOk(m)
    ensures res == Err(WrongSid) <==> Timely(c, w) && w.nonce.Some? && UuidsOk(m) && (pin == "" || m.sid != pin)
    ensures res == Err(BadSid) <==>
              Timely(c, w) && w.nonce.Some? && UuidsOk(m) && pin != "" && m.sid == pin &&
              !exists sid :: IsAccount(sid) && SidText(sid) == m.sid
    ensures res == Err(NoSignature) <==>
              Timely(c, w) && pin != "" && m.sid == pin && exists g :: Grants(g, m, c, w) && w.sign(Encode(g)).None?
  {
    hide Encode, SidText, IsAccount, FileTime, ParseUuid, ClocksAgree, Truncated, DecodeHex;
    var boot := DecodeHex(c.boot);
    var session := c.session;
    if boot.None? || |boot.value| != 32 || session < 1.0 || session >= 4294967295.0 ||
       session != session.Floor as real {
      return Err(BadChallenge);
    }
    var filetime := FileTime(w.nanos);
    if !ClocksAgree(Truncated(c.now, w.outside), w.nanos) {
      return Err(ClockSkew);
    }
    if w.nonce.None? {
      return Err(NoRandom);
    }
    var tenant, principal, node := ParseUuid(m.tenant), ParseUuid(m.principal), ParseUuid(m.node);
    if tenant.None? || principal.None? || node.None? {
      return Err(BadUuid);
    }
    if pin == "" || m.sid != pin {
      return Err(WrongSid);
    }
    var sid := SidParts(m.sid);
    if sid.None? {
      return Err(BadSid);
    }
    ExpiryFits(w.nanos);
    AccountFits(sid.value);
    UuidLengths();
    var g := Grant(session.Floor, filetime + 45 * TICKS, boot.value, w.nonce.value, tenant.value, principal.value,
                   node.value, sid.value);
    var b := Fill(g);
    var signature := w.sign(b[..]);
    assert Grants(g, m, c, w);
    forall g' | Grants(g', m, c, w) ensures g' == g {
      GrantIsUnique(g', g, m, c, w);
    }
    if signature.None? {
      return Err(NoSignature);
    }
    return Ok(b[..] + signature.value);
  }

  lemma ExpiryFits(nanos: int)
    requires IsInt64(nanos)
    ensures 0 < FileTime(nanos) && FileTime(nanos) + 45 * TICKS < 0x1_0000_0000_0000_0000
  {
    ClocksAgreeExactly(0, nanos);
  }

  lemma AccountFits(values: seq<nat>)
    requires IsAccount(values)
    ensures |values| == 5 && forall i :: 0 <= i < 5 ==> values[i] < 0x1_0000_0000
  {
  }

  lemma UuidLengths()
    ensures forall s :: ParseUuid(s).Some? ==> |ParseUuid(s).value| == 16
  {
  }

  /** A challenge is 64 hexadecimal digits and a whole session number that fits. */
  lemma ChallengesAccepted(c: Challenge)
    ensures ChallengeOk(c) <==>
              && |c.boot| == 64 && (forall i :: 0 <= i < 64 ==> HexValue(c.boot[i]).Some?)
              && 1.0 <= c.session < 4294967295.0 && c.session.Floor as real == c.session
  {
    HexBytes(c.boot);
  }

  /** What an issued grant says, in its own numbers. */
  lemma GrantSaysWhatWasAsked(g: Grant, m: Mapping, c: Challenge, w: World)
    requires Plausible(w) && Grants(g, m, c, w)
    ensures g.session as real == c.session && 1 <= g.session < 4294967295
    ensures g.expiry == (if w.nanos >= 0 then w.nanos / 100 else -(-w.nanos / 100)) + 116_444_736_450_000_000
    ensures |g.boot| == 32 && w.nonce == Some(g.nonce)
    ensures |g.sid| == 5 && g.sid[0] == 21
    ensures m.sid == "S-1-5-21-" + Decimal.FormatUint(g.sid[1]) + "-" + Decimal.FormatUint(g.sid[2]) + "-" +
                     Decimal.FormatUint(g.sid[3]) + "-" + Decimal.FormatUint(g.sid[4])
  {
    ClocksAgreeExactly(0, w.nanos);
    SidTextIs(g.sid);
  }

  lemma SidTextIs(v: seq<nat>)
    requires |v| == 5 && v[0] == 21
    ensures SidText(v) == "S-1-5-21-" + Decimal.FormatUint(v[1]) + "-" + Decimal.FormatUint(v[2]) + "-" +
                          Decimal.FormatUint(v[3]) + "-" + Decimal.FormatUint(v[4])
  {
    var a, b, c, d := Decimal.FormatUint(v[1]), Decimal.FormatUint(v[2]), Decimal.FormatUint(v[3]),
      Decimal.FormatUint(v[4]);
    Decimal.FormatUintDigits(21);
    Decimal.FormatUintDigits(2);
    var t := Decimal.FormatUint(21);
    assert t == t[..|t| - 1] + [t[|t| - 1]] == "21";
    assert ["S", "1", "5"] + Texts(v) == ["S", "1", "5", "21", a, b, c, d];
    JoinEight(a, b, c, d);
  }

  lemma JoinEight(a: string, b: string, c: string, d: string)
    ensures Text.Join(["S", "1", "5", "21", a, b, c, d], '-') == "S-1-5-21-" + a + "-" + b + "-" + c + "-" + d
  {
    var rest := a + "-" + b + "-" + c + "-" + d;
    JoinRest(a, b, c, d);
    JoinStep("S", ["1", "5", "21", a, b, c, d]);
    JoinStep("1", ["5", "21", a, b, c, d]);
    JoinStep("5", ["21", a, b, c, d]);
    JoinStep("21", [a, b, c, d]);
    hide Text.Join;
    assert "S-1-5-21-" + a + "-" + b + "-" + c + "-" + d == "S-1-5-21-" + rest;
  }

  lemma JoinRest(a: string, b: string, c: string, d: string)
    ensures Text.Join([a, b, c, d], '-') == a + "-" + b + "-" + c + "-" + d
  {
    assert Text.Join([d], '-') == d;
    JoinStep(a, [b, c, d]);
    JoinStep(b, [c, d]);
    JoinStep(c, [d]);
    hide Text.Join;
  }

  lemma JoinStep(part: string, rest: seq<string>)
    requires rest != []
    ensures Text.Join([part] + rest, '-') == part + "-" + Text.Join(rest, '-')
  {
    assert ([part] + rest)[1..] == rest;
  }

  /**
   * What a verifier reads from the signed bytes is what was granted: the caller's
   * mapping up to the case of its UUIDs, its SID to the letter, and the challenge's
   * session and boot.
   */
  lemma GrantIsReadBack(g: Grant, m: Mapping, c: Challenge, w: World)
    requires Grants(g, m, c, w)
    ensures Decode(Encode(g)) == Some(g)
    ensures SidText(g.sid) == m.sid && g.session as real == c.session && EncodeHex(g.boot) == LowerAll(c.boot)
    ensures UuidText(g.tenant) == LowerAll(m.tenant) && UuidText(g.principal) == LowerAll(m.principal) &&
            UuidText(g.node) == LowerAll(m.node)
  {
    DecodeOfEncode(g);
    EncodeHexOfDecode(c.boot);
    UuidTextOfParse(m.tenant);
    UuidTextOfParse(m.principal);
    UuidTextOfParse(m.node);
  }

  /** Two grants with the same signed bytes name the same account, session and boot. */
  lemma SignedBytesFixTheGrant(g: Grant, m: Mapping, c: Challenge, w: World, g': Grant, m': Mapping, c': Challenge,
                               w': World)
    requires Grants(g, m, c, w) && Grants(g', m', c', w')
    ensures Encode(g) == Encode(g') ==>
              && g == g' && m.sid == m'.sid && c.session == c'.session && LowerAll(c.boot) == LowerAll(c'.boot)
              && LowerAll(m.tenant) == LowerAll(m'.tenant) && LowerAll(m.principal) == LowerAll(m'.principal)
              && LowerAll(m.node) == LowerAll(m'.node)
  {
    GrantIsReadBack(g, m, c, w);
    GrantIsReadBack(g', m', c', w');
  }

  /** An issued grant expires 40 to 50 seconds after the host's own reading of its clock. */
  lemma ExpiryFollowsHostClock(g: Grant, m: Mapping, c: Challenge, w: World)
    requires Plausible(w) && Grants(g, m, c, w) && ClocksAgree(Truncated(c.now, w.outside), w.nanos)
    ensures var host := Truncated(c.now, w.outside);
            400_000_000 <= g.expiry - host <= 500_000_000
  {
    TruncatedIsInt64(c.now, w.outside);
    ClocksAgreeExactly(Truncated(c.now, w.outside), w.nanos);
  }

  /** A reading in range is cut off toward zero. */
  lemma TruncatedIsTheWholePart(x: real, outside: int)
    requires -9223372036854775808.0 <= x < 9223372036854775808.0
    ensures var host := Truncated(x, outside);
            && (x >= 0.0 ==> 0 <= host && host as real <= x < (host + 1) as real)
            && (x <= 0.0 ==> host <= 0 && (host - 1) as real < x <= host as real)
  {
  }

  lemma TruncatedIsInt64(x: real, outside: int)
    requires IsInt64(outside)
    ensures IsInt64(Truncated(x, outside))
  {
  }
}
