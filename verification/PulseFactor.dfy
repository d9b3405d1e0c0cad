/**
  Saving and reloading the pulse multiplication factor, which is stored tenfold
  in an integer slot and divided by ten on the way back.
*/
module PulseFactor {
  import opened Decimal
  import opened Slots

  /** The factor in force after it was saved and reloaded. */
  function Reloaded(factor: int): int {
    TruncDiv(StoredInt(Wrap32(factor * 10)), 10)
  }

  predicate TenfoldFits(factor: int) {
    -TWO31 <= factor * 10 < TWO31
  }

  /** The factors that survive saving and reloading. */
  predicate Storable(factor: int) {
    0 <= factor <= 999 || (1000 <= factor <= 9999 && DigitXor(factor) > 9) || factor == 99999
  }

  lemma ReloadedValue(factor: int)
    requires TenfoldFits(factor)
    ensures Reloaded(factor) ==
            if factor < 0 then 0
            else if factor <= 999 then factor
            else if factor <= 9999 then (if DigitXor(factor) <= 9 then 10 * factor else factor)
            else 99999
  {
    IntegerStorageLaw(factor * 10);
    if factor > 9999 {
      NinesXor();
    } else if factor > 0 {
      TenfoldXor(factor);
      TenfoldQuotient(factor, DigitXor(factor) as int);
    }
  }

  lemma TenfoldXor(factor: nat)
    requires 0 < factor
    ensures DigitXor(10 * factor) == DigitXor(factor)
  {
  }

  lemma TenfoldQuotient(factor: nat, x: nat)
    requires x < 16
    ensures x <= 9 ==> (100 * factor + x) / 10 == 10 * factor
  {
  }

  lemma NinesXor()
    ensures DigitXor(99999) == 9
  {
    assert DigitXor(9) == 9;
    assert DigitXor(99) == 0;
    assert DigitXor(999) == 9;
    assert DigitXor(9999) == 0;
  }

  /** A factor survives exactly when it is storable, whether or not ten times it fits in 32 bits. */
  lemma FixedIff(factor: int)
    ensures Reloaded(factor) == factor <==> Storable(factor)
  {
    ReloadedRange(factor);
    if TenfoldFits(factor) {
      ReloadedValue(factor);
    }
  }

  /** Saving and reloading settles within two rounds. */
  lemma SettlesInTwoRounds(factor: int)
    requires TenfoldFits(factor)
    ensures Storable(Reloaded(Reloaded(factor)))
    ensures Reloaded(Reloaded(Reloaded(factor))) == Reloaded(Reloaded(factor))
  {
    ReloadedValue(factor);
    ReloadedValue(Reloaded(factor));
    ReloadedValue(Reloaded(Reloaded(factor)));
  }

  lemma ReloadedRange(factor: int)
    ensures 0 <= Reloaded(factor) <= 99999
  {
    IntegerStorageLaw(Wrap32(factor * 10));
  }

  /** Even when ten times the factor overflows 32 bits, three rounds are enough. */
  lemma SettlesInThreeRounds(factor: int)
    ensures var thrice := Reloaded(Reloaded(Reloaded(factor))); Storable(thrice) && Reloaded(thrice) == thrice
  {
    ReloadedRange(factor);
    SettlesInTwoRounds(Reloaded(factor));
  }

  /**
    The built-in default does not survive being stored: one save makes it ten times larger, the next
    pins it to the maximum. Set-up replaces every default before any save, so this happens to a
    5660 that was posted or already stored.
  */
  lemma DefaultFactorDrifts()
    ensures Reloaded(5660) == 56600 && Reloaded(56600) == 99999 && Reloaded(99999) == 99999
  {
    ReloadedValue(5660);
    ReloadedValue(56600);
    ReloadedValue(99999);
    assert DigitXor(5) == 5 && DigitXor(56) == 3 && DigitXor(566) == 5 && DigitXor(5660) == 5;
  }
}
