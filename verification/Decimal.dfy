/** Unsigned decimal text, as strconv and fmt's %d produce and read it. */
module Decimal {
  import opened Prelude

  predicate IsDigit(c: char) {
    '0' <= c <= '9'
  }

  function DigitChar(d: nat): (c: char)
    requires d < 10
    ensures IsDigit(c) && c as int - '0' as int == d
  {
    '0' + d as char
  }

  /** The canonical rendering: no sign, no leading zero. */
  function FormatUint(n: nat): (s: string)
    ensures s != []
    ensures forall i :: 0 <= i < |s| ==> IsDigit(s[i])
    decreases n
  {
    if n < 10 then [DigitChar(n)] else FormatUint(n / 10) + [DigitChar(n % 10)]
  }

  /** The value of a digit string; None for an empty string or a non-digit. */
  function ParseUint(s: string): Option<nat> {
    if s == [] || !IsDigit(s[|s| - 1]) then None
    else
      var last := s[|s| - 1] as int - '0' as int;
      if |s| == 1 then Some(last)
      else
        match ParseUint(s[..|s| - 1])
        case None => None
        case Some(v) => Some(10 * v + last)
  }

  /** The digits from the last to the first, none of them a leading zero. */
  lemma {:induction false} FormatUintDigits(n: nat)
    ensures var s := FormatUint(n);
            && 1 <= |s| && s[|s| - 1] as int == 48 + n % 10
            && (n < 10 ==> |s| == 1)
            && (n >= 10 ==> s[..|s| - 1] == FormatUint(n / 10))
            && (n >= 1 ==> s[0] != '0')
    decreases n
  {
    if n >= 10 {
      FormatUintDigits(n / 10);
      assert FormatUint(n)[..|FormatUint(n)| - 1] == FormatUint(n / 10);
    }
  }

  lemma {:induction false} ParseFormat(n: nat)
    ensures ParseUint(FormatUint(n)) == Some(n)
    decreases n
  {
    if n >= 10 {
      var s := FormatUint(n);
      assert s[..|s| - 1] == FormatUint(n / 10);
      ParseFormat(n / 10);
    }
  }
}
