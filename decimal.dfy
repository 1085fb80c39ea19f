/** The decimal rendering that JavaScript's `Number.prototype.toString()` gives
    a safe integer (magnitude below 2^53).  The bot uses it twice: implicitly,
    when `game.id in storageGames` converts the numeric feed id to a property
    key, and explicitly, when it passes `game.id.toString()` as the ledger's
    game id.  Both uses agree because they are the same rendering; its
    injectivity, proved below, is what makes distinct ids distinct keys. */
module Decimal {

  function DigitChar(d: int): (c: char)
    requires 0 <= d < 10
    ensures '0' <= c <= '9' && c as int - '0' as int == d
  {
    (d + '0' as int) as char
  }

  predicate IsDigit(c: char) {
    '0' <= c <= '9'
  }

  /** The number a string of digits spells, read most significant digit first. */
  function DigitsValue(s: string): int
    decreases |s|
  {
    if s == [] then 0
    else DigitsValue(s[..|s| - 1]) * 10 + (s[|s| - 1] as int - '0' as int)
  }

  /** The digits of `n`, most significant first, without leading zeros. */
  function NatToString(n: nat): (s: string)
    ensures |s| >= 1
    ensures forall i :: 0 <= i < |s| ==> IsDigit(s[i])
    ensures s[0] == '0' <==> n == 0
    ensures |s| == 1 <==> n < 10
    decreases n
  {
    if n < 10 then [DigitChar(n)] else NatToString(n / 10) + [DigitChar(n % 10)]
  }

  /** `ToString` of an integral Number: a minus sign, then the digits of the magnitude. */
  function IntToString(n: int): (s: string)
    ensures |s| >= 1
    ensures s[0] == '-' <==> n < 0
  {
    if n < 0 then "-" + NatToString(-n) else NatToString(n)
  }

  /** The rendering of a natural number spells that number. */
  lemma {:induction false} NatToStringValue(n: nat)
    ensures DigitsValue(NatToString(n)) == n
    decreases n
  {
    var s := NatToString(n);
    if n >= 10 {
      assert s[..|s| - 1] == NatToString(n / 10);
      NatToStringValue(n / 10);
    }
  }

  /** The rendering of an integer is a minus sign exactly for a negative one,
      followed by digits that spell its magnitude. */
  lemma IntToStringValue(n: int)
    ensures var s := IntToString(n);
            var digits := if n < 0 then s[1..] else s;
            (forall i :: 0 <= i < |digits| ==> IsDigit(digits[i]))
            && DigitsValue(digits) == if n < 0 then -n else n
  {
    if n < 0 {
      assert IntToString(n)[1..] == NatToString(-n);
      NatToStringValue(-n);
    } else {
      NatToStringValue(n);
    }
  }

  /** Two distinct integer ids never share a property key: the rendering
      spells its id back, so equal renderings spell the same id. */
  lemma IntToStringInjective(a: int, b: int)
    requires IntToString(a) == IntToString(b)
    ensures a == b
  {
    IntToStringValue(a);
    IntToStringValue(b);
  }
}
