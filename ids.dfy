/** The identifier addItem generates when the caller gives none: the text
    "item-" followed by the clock reading in milliseconds, written in decimal. */
module ItemIds {

  const IdPrefix: string := "item-"

  function DigitChar(d: nat): (c: char)
    requires d < 10
    ensures '0' <= c <= '9'
  {
    (('0' as int) + d) as char
  }

  function DigitValue(c: char): (d: nat)
    requires '0' <= c <= '9'
    ensures d < 10
  {
    (c as int) - ('0' as int)
  }

  predicate AllDigits(s: string) {
    forall k :: 0 <= k < |s| ==> '0' <= s[k] <= '9'
  }

  /** The decimal text of n, without leading zeros, as a template literal
      prints a non-negative integer. */
  function Decimal(n: nat): (s: string)
    ensures |s| > 0 && AllDigits(s)
    ensures n < 10 <==> |s| == 1
    decreases n
  {
    if n < 10 then [DigitChar(n)] else Decimal(n / 10) + [DigitChar(n % 10)]
  }

  /** Reads a string of decimal digits back as a number (the inverse of Decimal). */
  function DecimalValue(s: string): nat
    requires AllDigits(s)
  {
    if s == [] then 0 else DecimalValue(s[..|s| - 1]) * 10 + DigitValue(s[|s| - 1])
  }

  lemma {:induction false} DecimalRoundTrip(n: nat)
    ensures DecimalValue(Decimal(n)) == n
    decreases n
  {
    var s := Decimal(n);
    if n < 10 {
      assert s[..|s| - 1] == [];
    } else {
      DecimalRoundTrip(n / 10);
      assert s[..|s| - 1] == Decimal(n / 10);
    }
  }

  function GeneratedId(now: nat): (id: string)
    ensures |id| > |IdPrefix| && id[..|IdPrefix|] == IdPrefix
    ensures AllDigits(id[|IdPrefix|..])
  {
    IdPrefix + Decimal(now)
  }

  /** Two generated identifiers are equal exactly when the clock readings are:
      two items added in the same millisecond share an identifier. */
  lemma GeneratedIdsEqualIffSameTime(t1: nat, t2: nat)
    ensures GeneratedId(t1) == GeneratedId(t2) <==> t1 == t2
  {
    if GeneratedId(t1) == GeneratedId(t2) {
      assert Decimal(t1) == GeneratedId(t1)[|IdPrefix|..];
      assert Decimal(t2) == GeneratedId(t2)[|IdPrefix|..];
      DecimalRoundTrip(t1);
      DecimalRoundTrip(t2);
    }
  }
}
