/** Numbers written in base 10 and read back. */
module DecimalText {
  import opened Bytes
  import opened HttpText

  /** std::to_chars in base 10. */
  function Decimal(n: nat): (s: Bytes)
    ensures s != []
  {
    if n < 10 then ['0' as int + n] else Decimal(n / 10) + ['0' as int + n % 10]
  }

  predicate Digits(s: Bytes) { forall c | c in s :: IsDigit(c) }

  lemma {:induction false} DecimalValue(n: nat)
    ensures Numeral(10, Decimal(n)) == Some(n) && Digits(Decimal(n))
  {
    var s := Decimal(n);
    if n < 10 {
      assert s[..|s| - 1] == [];
    } else {
      DecimalValue(n / 10);
      assert s[..|s| - 1] == Decimal(n / 10);
    }
  }

  /** std::from_chars reads the number back. */
  lemma DecimalParses(n: nat)
    requires n < TWO_64
    ensures ParseU64(10, Decimal(n)) == Some(n) && TrimOws(Decimal(n)) == Decimal(n)
  {
    DecimalValue(n);
    var s := Decimal(n);
    assert s[0] in s && s[|s| - 1] in s;
    hide Decimal, Numeral;
  }
}
