/**
 * System.Int32 as text: int.Parse with the default NumberStyles.Integer
 * (white space around an optionally signed run of decimal digits, with a
 * FormatException or an OverflowException otherwise) and int.ToString().
 */
module Int32Text {
  import opened Wrappers
  import Text

  const MinInt32: int := -0x8000_0000
  const MaxInt32: int := 0x7FFF_FFFF

  predicate IsInt32(n: int) {
    MinInt32 <= n <= MaxInt32
  }

  /** The white space NumberStyles.AllowLeadingWhite and AllowTrailingWhite accept. */
  predicate IsNumberWhite(c: char) {
    c == ' ' || ('\t' <= c <= '\r')
  }

  predicate IsDigit(c: char) {
    '0' <= c <= '9'
  }

  predicate AllDigits(s: string) {
    forall k :: 0 <= k < |s| ==> IsDigit(s[k])
  }

  /** The value of a run of decimal digits, most significant first. */
  function DigitsValue(digits: string): nat
    requires AllDigits(digits)
    decreases |digits|
  {
    if |digits| == 0 then 0
    else DigitsValue(digits[..|digits| - 1]) * 10 + (digits[|digits| - 1] as int - '0' as int)
  }

  /**
   * int.Parse(s): None stands for the FormatException (no digits, a stray
   * character) and for the OverflowException (outside Int32).
   */
  function ParseInt32(s: string): (r: Option<int>)
    ensures r.Some? ==> IsInt32(r.value)
  {
    var t := Text.TrimWith(s, IsNumberWhite);
    var signed := |t| > 0 && (t[0] == '-' || t[0] == '+');
    var digits := if signed then t[1..] else t;
    if |digits| == 0 || !AllDigits(digits) then None
    else
      var magnitude: int := DigitsValue(digits);
      var v := if signed && t[0] == '-' then -magnitude else magnitude;
      if IsInt32(v) then Some(v) else None
  }

  /** The decimal digits of `n`, without leading zeros. */
  function NatToString(n: nat): (s: string)
    ensures |s| > 0 && AllDigits(s) && DigitsValue(s) == n
    ensures |s| > 1 ==> s[0] != '0'
    decreases n
  {
    if n < 10 then [('0' as int + n) as char]
    else
      var prefix := NatToString(n / 10);
      var s := prefix + [('0' as int + n % 10) as char];
      assert s[..|s| - 1] == prefix;
      s
  }

  /** int.ToString() with the invariant culture's minus sign. */
  function Int32ToString(n: int): (s: string)
  {
    if n < 0 then "-" + NatToString(-n) else NatToString(n)
  }

  /** Every Int32 reads back from its own text. */
  lemma ParseInt32OfToString(n: int)
    requires IsInt32(n)
    ensures ParseInt32(Int32ToString(n)) == Some(n)
  {
    var s := Int32ToString(n);
    Text.TrimWithUnchanged(s, IsNumberWhite);
    if n < 0 {
      assert s[1..] == NatToString(-n);
    }
  }

  /** The text of an Int32 is never empty and holds no comma. */
  lemma Int32ToStringHasNoComma(n: int)
    ensures |Int32ToString(n)| > 0 && Text.NoneIn(Int32ToString(n), {','})
  {
    var d := NatToString(if n < 0 then -n else n);
    assert AllDigits(d);
  }
}
