/**
 * The tiered overdue fine (`calculateFine`), in cents:
 * days 1-7 cost 25, days 8-14 cost 50, later days 100; REFERENCE and
 * TEXTBOOK books pay double; the total is capped at 2500 after doubling.
 */
module Fines {
  import opened Wrappers
  import opened Entities

  const MAX_FINE_AMOUNT: int := 2500

  function Min(a: int, b: int): int
  {
    if a <= b then a else b
  }

  /** The rate multiplier of a possibly-null book type: REFERENCE and TEXTBOOK pay double. */
  function Multiplier(t: Option<BookType>): nat
  {
    if t == Some(Reference) || t == Some(Textbook) then 2 else 1
  }

  /**
   * `calculateFine(numOfDays, bookType)`, following the source's branches;
   * a null `bookType` is `None`.
   */
  function CalculateFine(numOfDays: int, bookType: Option<BookType>): (fine: int)
    ensures 0 <= fine <= MAX_FINE_AMOUNT
    ensures numOfDays <= 0 ==> fine == 0
  {
    if numOfDays <= 0 then 0
    else
      var days1 := Min(numOfDays, 7);
      var tier1 := days1 * 25;
      var tier2 := if numOfDays > 7 then tier1 + Min(numOfDays - 7, 7) * 50 else tier1;
      var tier3 := if numOfDays > 14 then tier2 + (numOfDays - 14) * 100 else tier2;
      var doubled := if Multiplier(bookType) == 2 then tier3 * 2 else tier3;
      Min(doubled, MAX_FINE_AMOUNT)
  }

  /** Reference definition: the charge for the `day`-th overdue day. */
  function DailyRate(day: nat): nat
  {
    if day <= 7 then 25 else if day <= 14 then 50 else 100
  }

  /** Reference definition: the sum of the daily charges of days 1..days. */
  function Accrued(days: nat): nat
  {
    if days == 0 then 0 else Accrued(days - 1) + DailyRate(days)
  }

  /** Closed forms of the accrued total on each tier. */
  lemma {:induction false} AccruedClosedForm(days: nat)
    ensures days <= 7 ==> Accrued(days) == 25 * days
    ensures 7 < days <= 14 ==> Accrued(days) == 175 + 50 * (days - 7)
    ensures 14 < days ==> Accrued(days) == 525 + 100 * (days - 14)
  {
    if days > 0 {
      AccruedClosedForm(days - 1);
    }
  }

  /**
   * The fine is the sum of the per-day charges, times the type's multiplier,
   * capped: the tiers are additive, the doubling comes before the cap.
   */
  lemma FineIsCappedDailySum(days: int, t: Option<BookType>)
    ensures CalculateFine(days, t) == if days <= 0 then 0 else Min(Multiplier(t) * Accrued(days), MAX_FINE_AMOUNT)
  {
    if days > 0 {
      AccruedClosedForm(days);
    }
  }

  lemma {:induction false} AccruedMonotone(d1: nat, d2: nat)
    requires d1 <= d2
    ensures Accrued(d1) <= Accrued(d2)
    decreases d2 - d1
  {
    if d1 < d2 {
      AccruedMonotone(d1, d2 - 1);
    }
  }

  /** More days overdue never cost less. */
  lemma FineMonotone(d1: int, d2: int, t: Option<BookType>)
    requires d1 <= d2
    ensures CalculateFine(d1, t) <= CalculateFine(d2, t)
  {
    FineIsCappedDailySum(d1, t);
    FineIsCappedDailySum(d2, t);
    if d1 > 0 {
      AccruedMonotone(d1, d2);
    }
  }

  /** A null book type is charged like an undoubled type, at every day count. */
  lemma NullTypeUndoubled(days: int, t: BookType)
    requires t != Reference && t != Textbook
    ensures CalculateFine(days, None) == CalculateFine(days, Some(t))
    ensures CalculateFine(days, None) == if days <= 0 then 0 else Min(Accrued(days), MAX_FINE_AMOUNT)
  {
    FineIsCappedDailySum(days, None);
    FineIsCappedDailySum(days, Some(t));
  }

  /** The worked examples of the doc-comment and the tests, in cents. */
  lemma FineExamples()
    ensures CalculateFine(5, Some(Fiction)) == 125
    ensures CalculateFine(7, Some(Fiction)) == 175
    ensures CalculateFine(10, Some(Nonfiction)) == 325
    ensures CalculateFine(15, Some(Reference)) == 1250
    ensures CalculateFine(15, Some(Textbook)) == 1250
    ensures CalculateFine(20, Some(Textbook)) == 2250
    ensures CalculateFine(50, Some(Fiction)) == 2500
    ensures CalculateFine(100, Some(Fiction)) == 2500
    ensures CalculateFine(0, Some(Fiction)) == 0
    ensures CalculateFine(20, None) == 1125
  {
  }
}
