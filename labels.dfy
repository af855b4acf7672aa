/** The size label of an annotation: the target length `T` written as `"T*T"` in decimal. */
module Labels {

  predicate IsDigit(c: char)
  {
    '0' <= c <= '9'
  }

  function DigitChar(d: nat): (c: char)
    requires d < 10
    ensures IsDigit(c)
  {
    "0123456789"[d]
  }

  /** Decimal text of `n`, as `str(n)` writes it: no sign, no leading zero. */
  function Decimal(n: nat): (s: string)
    ensures s != []
    ensures forall k :: 0 <= k < |s| ==> IsDigit(s[k])
    ensures |s| > 1 ==> s[0] != '0'
  {
    if n < 10 then [DigitChar(n)] else Decimal(n / 10) + [DigitChar(n % 10)]
  }

  /** The number a string of decimal digits denotes. */
  function DigitsValue(s: string): nat
    requires forall k :: 0 <= k < |s| ==> IsDigit(s[k])
  {
    if s == [] then 0
    else
      assert IsDigit(s[|s| - 1]);
      10 * DigitsValue(s[..|s| - 1]) + (s[|s| - 1] as int - '0' as int)
  }

  lemma {:induction false} DecimalRoundTrip(n: nat)
    ensures DigitsValue(Decimal(n)) == n
  {
    if n >= 10 {
      var s := Decimal(n);
      assert s[..|s| - 1] == Decimal(n / 10);
      DecimalRoundTrip(n / 10);
    }
  }

  /** `f"{size}*{size}"`. */
  function SizeLabel(size: nat): string
  {
    Decimal(size) + "*" + Decimal(size)
  }

  /** The label can be read back: the text before the `*` denotes the size, and so does the text after it. */
  lemma SizeLabelReadsBack(size: nat)
    ensures var s := SizeLabel(size); var d := Decimal(size);
            s[|d|] == '*' && '*' !in d && DigitsValue(s[..|d|]) == size && DigitsValue(s[|d| + 1..]) == size
  {
    var s := SizeLabel(size);
    var d := Decimal(size);
    assert s[..|d|] == d && s[|d| + 1..] == d;
    DecimalRoundTrip(size);
  }
}
