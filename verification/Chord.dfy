/** Which key chords a caller may send. */
module Chord {
  import Text
  import Decimal

  predicate IsAscii(s: string) {
    forall i :: 0 <= i < |s| ==> s[i] as int <= 127
  }

  function UpperChar(c: char): char {
    if 'a' <= c <= 'z' then c - 'a' + 'A' else c
  }

  /** strings.ToUpper of ASCII text. */
  function Upper(s: string): string {
    Text.Map(s, UpperChar)
  }

  lemma UpperAt(s: string, i: nat)
    requires i < |s|
    ensures Upper(s)[i] == UpperChar(s[i])
  {
  }

  const MODIFIERS: set<string> := {"CTRL", "ALT", "SHIFT", "WIN"}

  const NAMED_KEYS: set<string> := {
    "ENTER", "RETURN", "ESC", "ESCAPE", "TAB", "SPACE", "BACKSPACE", "DELETE", "DEL", "INSERT", "INS",
    "HOME", "END", "PAGEUP", "PGUP", "PAGEDOWN", "PGDN", "UP", "DOWN", "LEFT", "RIGHT"}

  /** F1 to F24. */
  predicate FunctionKey(part: string) {
    || (|part| == 2 && part[0] == 'F' && '1' <= part[1] <= '9')
    || (|part| == 3 && part[0] == 'F' && part[1] == '1' && '0' <= part[2] <= '9')
    || (|part| == 3 && part[0] == 'F' && part[1] == '2' && '0' <= part[2] <= '4')
  }

  predicate BaseKey(part: string) {
    || (|part| == 1 && ('A' <= part[0] <= 'Z' || '0' <= part[0] <= '9'))
    || FunctionKey(part)
    || part in NAMED_KEYS
  }

  /** One part of a chord as it is compared: trimmed, CONTROL meaning CTRL. */
  function Token(raw: string): string {
    var part := Text.TrimSpace(raw);
    if part == "CONTROL" then "CTRL" else part
  }

  function TokensOf(parts: seq<string>): seq<string> {
    seq(|parts|, i requires 0 <= i < |parts| => Token(parts[i]))
  }

  function Tokens(key: string): seq<string> {
    TokensOf(Text.Split(Upper(key), '+'))
  }

  predicate Distinct(s: seq<string>) {
    forall i, j :: 0 <= i < j < |s| ==> s[i] != s[j]
  }

  predicate AllModifiers(s: seq<string>) {
    forall i :: 0 <= i < |s| ==> s[i] in MODIFIERS
  }

  /** Distinct modifiers and then a base key, or one modifier alone. */
  predicate ChordTokens(tokens: seq<string>) {
    && tokens != []
    && var held, last := tokens[..|tokens| - 1], tokens[|tokens| - 1];
    && AllModifiers(held) && Distinct(held)
    && (BaseKey(last) || (held == [] && last in MODIFIERS))
  }

  /** The chord grammar, without any bound on the number of parts. */
  predicate IsChord(key: string) {
    1 <= |key| <= 64 && IsAscii(key) && ChordTokens(Tokens(key))
  }

  /** The code's acceptance, with its cap of five parts: the cap refuses nothing else would not. */
  method ValidChord(key: string) returns (ok: bool)
    ensures ok <==> IsChord(key)
  {
    AsciiBytes(key);
    if Text.ByteLen(key) == 0 || Text.ByteLen(key) > 64 || !IsAscii(key) {
      return false;
    }
    hide IsAscii, Token, Upper, FunctionKey, BaseKey, AllModifiers, Distinct, ChordTokens;
    NothingHeld();
    var parts := Text.Split(Upper(key), '+');
    ghost var tokens := TokensOf(parts);
    if |parts| > 5 {
      ChordsAreShort(tokens);
      return false;
    }
    var seen: set<string> := {};
    for i := 0 to |parts|
      invariant i < |parts|
      invariant AllModifiers(tokens[..i]) && Distinct(tokens[..i])
      invariant forall k :: k in seen <==> k in tokens[..i]
    {
      var part := Token(parts[i]);
      var modifier := part == "CTRL" || part == "ALT" || part == "SHIFT" || part == "WIN";
      if i == |parts| - 1 {
        ChordEnds(tokens);
        return BaseKey(part) || (|parts| == 1 && modifier);
      }
      if !modifier || part in seen {
        Repeats(tokens, i);
        return false;
      }
      assert tokens[..i + 1] == tokens[..i] + [part];
      HoldOneMore(tokens[..i], part);
      seen := seen + {part};
    }
  }

  lemma NothingHeld()
    ensures AllModifiers([]) && Distinct([])
  {
  }

  lemma HoldOneMore(held: seq<string>, part: string)
    requires AllModifiers(held) && Distinct(held) && part in MODIFIERS && part !in held
    ensures AllModifiers(held + [part]) && Distinct(held + [part])
  {
  }

  /** Behind distinct modifiers the last part decides. */
  lemma ChordEnds(tokens: seq<string>)
    requires tokens != [] && AllModifiers(tokens[..|tokens| - 1]) && Distinct(tokens[..|tokens| - 1])
    ensures var last := tokens[|tokens| - 1];
            ChordTokens(tokens) <==> BaseKey(last) || (|tokens| == 1 && last in MODIFIERS)
  {
    hide BaseKey;
    assert |tokens| == 1 <==> tokens[..|tokens| - 1] == [];
  }

  /** A part before the last that is no modifier, or one held already, spoils the chord. */
  lemma Repeats(tokens: seq<string>, i: nat)
    requires i < |tokens| - 1 && (tokens[i] !in MODIFIERS || tokens[i] in tokens[..i])
    ensures !ChordTokens(tokens)
  {
    hide BaseKey;
    var held := tokens[..|tokens| - 1];
    assert held[i] == tokens[i] && held[..i] == tokens[..i];
    if held[i] in held[..i] {
      var j :| 0 <= j < i && held[j] == held[i];
    }
  }

  lemma {:induction false} AsciiBytes(s: string)
    ensures IsAscii(s) ==> Text.ByteLen(s) == |s|
    ensures Text.ByteLen(s) >= |s|
  {
    if s != "" {
      AsciiBytes(s[1..]);
    }
  }

  /** The base keys: one letter or digit, F1 to F24, and the named ones. */
  lemma BaseKeysSpelledOut(part: string)
    ensures BaseKey(part) <==>
              || (|part| == 1 && (65 <= part[0] as int <= 90 || 48 <= part[0] as int <= 57))
              || (exists n :: 1 <= n <= 24 && part == "F" + Decimal.FormatUint(n))
              || part in {"ENTER", "RETURN", "ESC", "ESCAPE", "TAB", "SPACE", "BACKSPACE", "DELETE", "DEL", "INSERT",
                          "INS",
                          "HOME", "END", "PAGEUP", "PGUP", "PAGEDOWN", "PGDN", "UP", "DOWN", "LEFT", "RIGHT"}
  {
    if FunctionKey(part) {
      var n := if |part| == 2 then part[1] as int - 48 else 10 * (part[1] as int - 48) + (part[2] as int - 48);
      NumberText(n);
      assert part == "F" + Decimal.FormatUint(n);
    }
    forall n | 1 <= n <= 24 && part == "F" + Decimal.FormatUint(n) ensures FunctionKey(part) {
      NumberText(n);
    }
  }

  lemma NumberText(n: nat)
    requires 1 <= n <= 24
    ensures var t := Decimal.FormatUint(n);
            if n < 10 then |t| == 1 && t[0] as int == 48 + n
            else |t| == 2 && t[0] as int == 48 + n / 10 && t[1] as int == 48 + n % 10
  {
    Decimal.FormatUintDigits(n);
    Decimal.FormatUintDigits(n / 10);
  }

  /** How a part is read: in capitals, without the white space around it, CONTROL as CTRL. */
  lemma PartsSpelledOut(key: string, k: nat) returns (front: string, middle: string, back: string)
    requires k < |Text.Split(Upper(key), '+')|
    ensures |Upper(key)| == |key|
    ensures forall i :: 0 <= i < |key| ==>
              Upper(key)[i] as int == if 97 <= key[i] as int <= 122 then key[i] as int - 32 else key[i] as int
    ensures Text.Split(Upper(key), '+')[k] == front + middle + back
    ensures (forall i :: 0 <= i < |front| ==> Text.IsSpace(front[i])) && forall i :: 0 <= i < |back| ==>
              Text.IsSpace(back[i])
    ensures middle != "" ==> !Text.IsSpace(middle[0]) && !Text.IsSpace(middle[|middle| - 1])
    ensures Tokens(key)[k] == if middle == "CONTROL" then "CTRL" else middle
  {
    var raw := Text.Split(Upper(key), '+')[k];
    front, back := Text.TrimSpaceTrims(raw);
    middle := Text.TrimSpace(raw);
    forall i | 0 <= i < |key|
      ensures Upper(key)[i] as int == if 97 <= key[i] as int <= 122 then key[i] as int - 32 else key[i] as int
    {
      UpperAt(key, i);
    }
  }

  /** Only so many distinct modifiers exist, so no chord has more than five parts. */
  lemma ChordsAreShort(tokens: seq<string>)
    ensures ChordTokens(tokens) ==> |tokens| <= 5
  {
    if ChordTokens(tokens) {
      DistinctFits(tokens[..|tokens| - 1], MODIFIERS);
    }
  }

  lemma {:induction false} DistinctFits(s: seq<string>, within: set<string>)
    requires Distinct(s) && forall i :: 0 <= i < |s| ==> s[i] in within
    ensures |s| <= |within|
  {
    if s != [] {
      var last := s[|s| - 1];
      DistinctFits(s[..|s| - 1], within - {last});
    }
  }

  /** Every chord the grammar describes can be written: joining its parts is accepted. */
  lemma EveryChordCanBeWritten(tokens: seq<string>)
    requires ChordTokens(tokens)
    ensures IsChord(Text.Join(tokens, '+')) && Tokens(Text.Join(tokens, '+')) == tokens
  {
    ChordsAreShort(tokens);
    forall i | 0 <= i < |tokens| ensures PlainPart(tokens[i]) {
      if i < |tokens| - 1 {
        assert tokens[..|tokens| - 1][i] == tokens[i];
      }
      KeysArePlain(tokens[i]);
    }
    JoinIsPlain(tokens);
    UpperOfPlain(Text.Join(tokens, '+'));
    Text.SplitJoin(tokens, '+');
    assert TokensOf(tokens) == tokens;
  }

  /** A key name as it stands: capitals and digits only. */
  predicate PlainPart(part: string) {
    Capitals(part) && Token(part) == part
  }

  predicate PlainText(s: string) {
    forall i :: 0 <= i < |s| ==> 'A' <= s[i] <= 'Z' || '0' <= s[i] <= '9' || s[i] == '+'
  }

  lemma KeysArePlain(part: string)
    requires BaseKey(part) || part in MODIFIERS
    ensures PlainPart(part)
  {
    if part in NAMED_KEYS {
      NamedKeysAreCapitals(part);
    }
    CapitalsAreTrim(part);
  }

  predicate Capitals(part: string) {
    && 1 <= |part| <= 9
    && forall i :: 0 <= i < |part| ==> 'A' <= part[i] <= 'Z' || '0' <= part[i] <= '9'
  }

  lemma NamedKeysAreCapitals(part: string)
    requires part in NAMED_KEYS
    ensures Capitals(part) && part != "CONTROL"
  {
  }

  lemma CapitalsAreTrim(part: string)
    requires Capitals(part)
    ensures Text.TrimSpace(part) == part
  {
  }

  lemma {:induction false} JoinIsPlain(parts: seq<string>)
    requires parts != [] && forall i :: 0 <= i < |parts| ==> PlainPart(parts[i])
    ensures PlainText(Text.Join(parts, '+')) && 1 <= |Text.Join(parts, '+')| <= 10 * |parts| - 1
    ensures Text.Free(parts, '+')
  {
    if |parts| > 1 {
      JoinIsPlain(parts[1..]);
    }
  }

  lemma UpperOfPlain(s: string)
    requires PlainText(s)
    ensures Upper(s) == s && IsAscii(s)
  {
    forall i | 0 <= i < |s| ensures Upper(s)[i] == s[i] {
      UpperAt(s, i);
    }
  }

  /** Case is no part of a chord. */
  lemma CaseIsNoMatter(key: string, other: string)
    requires Upper(key) == Upper(other)
    ensures IsChord(key) <==> IsChord(other)
  {
    assert |Upper(key)| == |key| && |Upper(other)| == |other|;
    forall i | 0 <= i < |key| ensures key[i] as int <= 127 <==> other[i] as int <= 127 {
      UpperAt(key, i);
      UpperAt(other, i);
    }
  }

  /** A key of an input event: one part, so one base key or one modifier. */
  method ValidInteractionKey(key: string) returns (ok: bool)
    ensures ok <==> IsInteractionKey(key)
  {
    KeyHasOneToken(key);
    if key == "" || '+' in key {
      return false;
    }
    ok := ValidChord(key);
  }

  predicate IsInteractionKey(key: string) {
    1 <= |key| <= 64 && IsAscii(key) && '+' !in key && (BaseKey(Token(Upper(key))) || Token(Upper(key)) in MODIFIERS)
  }

  lemma KeyHasOneToken(key: string)
    ensures '+' !in key ==> Tokens(key) == [Token(Upper(key))]
  {
    if '+' !in key {
      forall i | 0 <= i < |key| ensures Upper(key)[i] != '+' {
        UpperAt(key, i);
        assert key[i] in key;
      }
      Text.SplitAtom(Upper(key), '+');
    }
  }
}
