/**
 * The circulation rules of the desk, stated on snapshots of the book and
 * the patron: the eligibility chain, the checkout decision and the return.
 * The `CheckoutDesk.Checkout` methods are proved to act exactly as these.
 * A day is an integer day number; money is in cents.
 */
module Circulation {
  import opened Wrappers
  import opened StatusCodes
  import opened Entities
  import opened Fines

  const OVERDUE_LIMIT: int := 3
  /** $10.00, in cents. */
  const FINE_LIMIT: int := 1000
  /** `returnBook`'s failure result -1.0, in cents. */
  const RETURN_FAILED: int := -100

  /** Eligibility evaluated for a patron that is present. */
  predicate PassesChecks(p: PatronState)
  {
    !p.suspended && p.overdueCount < OVERDUE_LIMIT && p.fineBalance < FINE_LIMIT
  }

  /**
   * `validatePatronEligibility`: the first failing check, in the order
   * null, suspended, overdue >= 3, fines >= $10; otherwise ELIGIBLE.
   */
  function Eligibility(p: Option<PatronState>): (r: StatusCode)
    ensures r == Eligible <==> p.Some? && PassesChecks(p.value)
    ensures r == PatronNull <==> p.None?
    ensures r == PatronSuspended <==> p.Some? && p.value.suspended
    ensures r == PatronOverdue <==> p.Some? && !p.value.suspended && p.value.overdueCount >= OVERDUE_LIMIT
    ensures r == FineLimit <==> p.Some? && !p.value.suspended && p.value.overdueCount < OVERDUE_LIMIT && p.value.fineBalance >= FINE_LIMIT
    ensures r != Eligible ==> IsFailure(r)
  {
    if p.None? then PatronNull
    else if p.value.suspended then PatronSuspended
    else if p.value.overdueCount >= OVERDUE_LIMIT then PatronOverdue
    else if p.value.fineBalance >= FINE_LIMIT then FineLimit
    else Eligible
  }

  /**
   * With the suspension flag fixed, more overdue books or more fines never
   * make an ineligible patron eligible.
   */
  lemma EligibilityMonotone(p: PatronState, q: PatronState)
    requires q.suspended == p.suspended
    requires q.overdueCount >= p.overdueCount && q.fineBalance >= p.fineBalance
    ensures Eligibility(Some(q)) == Eligible ==> Eligibility(Some(p)) == Eligible
  {
  }

  /**
   * Eligibility looks only at the suspension flag, the overdue count and the
   * fines: the loan set never changes the code, and a lower balance keeps an
   * eligible patron eligible.
   */
  lemma EligibilityIgnoresLoans(p: PatronState, loans: map<string, int>, fine: int)
    requires fine <= p.fineBalance
    ensures Eligibility(Some(p.(loans := loans))) == Eligibility(Some(p))
    ensures Eligibility(Some(p)) == Eligible ==> Eligibility(Some(p.(loans := loans, fineBalance := fine))) == Eligible
  {
  }

  /** The outcome of one checkout: the code and the new states. */
  datatype CheckoutResult = CheckoutResult(code: StatusCode, book: Option<BookState>, patron: Option<PatronState>)

  /** The success code of a plain (non-renewal) checkout, by priority 1.0, 1.1, 0.0. */
  function SuccessCode(overdueCount: int, countAfter: int, limit: int): (r: StatusCode)
    ensures r in {Success, SuccessOverdueWarning, SuccessCheckoutWarning} && !IsFailure(r)
    ensures r == Success ==> countAfter < limit - 2 && !(1 <= overdueCount <= 2)
  {
    if 1 <= overdueCount <= 2 then SuccessOverdueWarning
    else if countAfter >= limit - 2 then SuccessCheckoutWarning
    else Success
  }

  /** A plain checkout of `b` by `p` would go through. */
  predicate PlainCheckoutAllowed(b: BookState, p: PatronState)
  {
    PassesChecks(p) && !b.referenceOnly && b.isbn !in p.loans
    && IsAvailable(b) && CheckoutCount(p) < MaxCheckoutLimit(p.patronType)
  }

  /** `checkoutBook(book, patron)` on day `today`. */
  function CheckoutStep(b: Option<BookState>, p: Option<PatronState>, today: int): (r: CheckoutResult)
    // eligibility comes first and its code passes through unchanged
    ensures Eligibility(p) != Eligible ==> r.code == Eligibility(p)
    // every failure leaves book and patron as they were
    ensures IsFailure(r.code) ==> r.book == b && r.patron == p
    // the book-related failures, in order
    ensures r.code == BookNull <==> Eligibility(p) == Eligible && b.None?
    ensures r.code == BookReference <==> Eligibility(p) == Eligible && b.Some? && b.value.referenceOnly
    ensures r.code == BookUnavailable <==>
              Eligibility(p) == Eligible && b.Some? && !b.value.referenceOnly
              && b.value.isbn !in p.value.loans && !IsAvailable(b.value)
    ensures r.code == CheckoutLimit <==>
              Eligibility(p) == Eligible && b.Some? && !b.value.referenceOnly
              && b.value.isbn !in p.value.loans && IsAvailable(b.value)
              && CheckoutCount(p.value) >= MaxCheckoutLimit(p.value.patronType)
    // renewal: only the due date of the held ISBN moves
    ensures r.code == SuccessRenewal <==>
              Eligibility(p) == Eligible && b.Some? && !b.value.referenceOnly && b.value.isbn in p.value.loans
    ensures r.code == SuccessRenewal ==>
              r.book == b
              && r.patron == Some(p.value.(loans := p.value.loans[b.value.isbn := today + p.value.loanPeriodDays]))
              && CheckoutCount(r.patron.value) == CheckoutCount(p.value)
    // plain success: one more loan, one fewer copy, code by priority
    ensures r.code in {Success, SuccessOverdueWarning, SuccessCheckoutWarning} <==>
              p.Some? && b.Some? && PlainCheckoutAllowed(b.value, p.value)
    ensures r.code in {Success, SuccessOverdueWarning, SuccessCheckoutWarning} ==>
              r.book == Some(b.value.(availableCopies := b.value.availableCopies - 1))
              && r.patron == Some(p.value.(loans := p.value.loans[b.value.isbn := today + p.value.loanPeriodDays]))
              && CheckoutCount(r.patron.value) == CheckoutCount(p.value) + 1
              && r.code == SuccessCode(p.value.overdueCount, CheckoutCount(p.value) + 1, MaxCheckoutLimit(p.value.patronType))
  {
    var eligibility := Eligibility(p);
    if Code(eligibility) != 0 then CheckoutResult(eligibility, b, p)
    else if b.None? then CheckoutResult(BookNull, b, p)
    else if b.value.referenceOnly then CheckoutResult(BookReference, b, p)
    else
      var patron := p.value;
      var book := b.value;
      var dueDate := today + patron.loanPeriodDays;
      if book.isbn in patron.loans then
        CheckoutResult(SuccessRenewal, b, Some(patron.(loans := patron.loans[book.isbn := dueDate])))
      else if !IsAvailable(book) then CheckoutResult(BookUnavailable, b, p)
      else
        var checkoutLimit := MaxCheckoutLimit(patron.patronType);
        if CheckoutCount(patron) >= checkoutLimit then CheckoutResult(CheckoutLimit, b, p)
        else
          var patron' := patron.(loans := patron.loans[book.isbn := dueDate]);
          var book' := book.(availableCopies := book.availableCopies - 1);
          CheckoutResult(SuccessCode(patron.overdueCount, CheckoutCount(patron'), checkoutLimit), Some(book'), Some(patron'))
  }

  /**
   * The overdue warning dominates the checkout-limit warning: a plain
   * checkout by a patron with 1 or 2 overdue books yields 1.0 whatever
   * the loan count, even within two of the limit.
   */
  lemma OverdueWarningDominates(b: BookState, p: PatronState, today: int)
    requires PlainCheckoutAllowed(b, p) && 1 <= p.overdueCount <= 2
    ensures CheckoutStep(Some(b), Some(p), today).code == SuccessOverdueWarning
  {
  }

  /**
   * A patron who holds `count` books before a plain checkout (and has no
   * overdue books) is warned iff that checkout leaves them within two of
   * their limit, and is refused with 3.2 iff they are already at it.
   */
  lemma CheckoutLimitBoundary(b: BookState, p: PatronState, today: int)
    requires PassesChecks(p) && p.overdueCount <= 0
    requires !b.referenceOnly && b.isbn !in p.loans && IsAvailable(b)
    ensures var r := CheckoutStep(Some(b), Some(p), today);
            (r.code == CheckoutLimit <==> CheckoutCount(p) >= MaxCheckoutLimit(p.patronType))
            && (r.code == SuccessCheckoutWarning <==>
                  MaxCheckoutLimit(p.patronType) - 3 <= CheckoutCount(p) < MaxCheckoutLimit(p.patronType))
            && (r.code == Success <==> CheckoutCount(p) < MaxCheckoutLimit(p.patronType) - 3)
  {
  }

  /** Checking out a book just checked out is a renewal that changes nothing more. */
  lemma CheckoutTwiceIsRenewal(b: BookState, p: PatronState, today: int)
    requires PlainCheckoutAllowed(b, p)
    ensures var r1 := CheckoutStep(Some(b), Some(p), today);
            var r2 := CheckoutStep(r1.book, r1.patron, today);
            r2.code == SuccessRenewal && r2.book == r1.book && r2.patron == r1.patron
  {
    var r1 := CheckoutStep(Some(b), Some(p), today);
    var due := today + p.loanPeriodDays;
    assert r1.patron.value.loans[b.isbn := due] == r1.patron.value.loans;
  }

  /** Java's narrowing `(int)` cast of a `long`: keep the low 32 bits, two's complement. */
  function ToInt32(x: int): (r: int)
    ensures -0x8000_0000 <= r < 0x8000_0000
    ensures (r - x) % 0x1_0000_0000 == 0
  {
    var m := x % 0x1_0000_0000;
    if m >= 0x8000_0000 then m - 0x1_0000_0000 else m
  }

  lemma ToInt32InRange(x: int)
    requires -0x8000_0000 <= x < 0x8000_0000
    ensures ToInt32(x) == x
  {
  }

  /** The outcome of one return: the fine charged (or the sentinel) and the new states. */
  datatype ReturnResult = ReturnResult(fine: int, book: Option<BookState>, patron: Option<PatronState>)

  /**
   * A return of `isbn` by `p` is accepted: `p` holds it and the registry
   * knows the book. A null ISBN (`None`) is never held, since loans are
   * keyed by non-null ISBNs.
   */
  predicate ReturnAccepted(isbn: Option<string>, b: Option<BookState>, p: Option<PatronState>)
  {
    p.Some? && isbn.Some? && isbn.value in p.value.loans && b.Some?
  }

  /** The fine owed on returning a book due on `dueDate` on day `today`. */
  function OverdueFine(dueDate: int, today: int, t: Option<BookType>): (fine: int)
    ensures 0 <= fine <= MAX_FINE_AMOUNT
    ensures today <= dueDate ==> fine == 0
  {
    var daysOverdue := today - dueDate;
    if daysOverdue > 0 then CalculateFine(ToInt32(daysOverdue), t) else 0
  }

  /**
   * `returnBook(isbn, patron)` on day `today`, where `b` is the registry's
   * book for `isbn` (None when absent). The closing of the loan record is
   * `CheckoutDesk.CloseFirstOpen`.
   */
  function ReturnStep(isbn: Option<string>, b: Option<BookState>, p: Option<PatronState>, today: int): (r: ReturnResult)
    ensures !ReturnAccepted(isbn, b, p) <==> r.fine == RETURN_FAILED
    ensures !ReturnAccepted(isbn, b, p) ==> r.book == b && r.patron == p
    ensures ReturnAccepted(isbn, b, p) ==>
              var due := p.value.loans[isbn.value];
              0 <= r.fine <= MAX_FINE_AMOUNT
              && r.fine == OverdueFine(due, today, b.value.bookType)
              && (today <= due ==> r.fine == 0)
              && r.patron == Some(p.value.(fineBalance := p.value.fineBalance + r.fine, loans := p.value.loans - {isbn.value}))
              && CheckoutCount(r.patron.value) == CheckoutCount(p.value) - 1
              && r.book == Some(b.value.(availableCopies := b.value.availableCopies + 1))
  {
    if p.None? || isbn.None? || isbn.value !in p.value.loans then ReturnResult(RETURN_FAILED, b, p)
    else if b.None? then ReturnResult(RETURN_FAILED, b, p)
    else
      var patron := p.value;
      var book := b.value;
      var daysOverdue := today - patron.loans[isbn.value];
      var fine := if daysOverdue > 0 then CalculateFine(ToInt32(daysOverdue), book.bookType) else 0;
      var balance := if daysOverdue > 0 then patron.fineBalance + fine else patron.fineBalance;
      ReturnResult(fine,
                   Some(book.(availableCopies := book.availableCopies + 1)),
                   Some(patron.(fineBalance := balance, loans := patron.loans - {isbn.value})))
  }

  /** Returns overdue by less than 2^31 days are charged `calculateFine(today - due)`. */
  lemma ReturnFineIsCalculateFine(dueDate: int, today: int, t: Option<BookType>)
    requires today - dueDate < 0x8000_0000
    ensures OverdueFine(dueDate, today, t) == if today - dueDate > 0 then CalculateFine(today - dueDate, t) else 0
  {
    if today - dueDate > 0 {
      ToInt32InRange(today - dueDate);
    }
  }

  /** A later return never costs less than an earlier one. */
  lemma ReturnFineMonotone(dueDate: int, day1: int, day2: int, t: Option<BookType>)
    requires day1 <= day2 && day2 - dueDate < 0x8000_0000
    ensures OverdueFine(dueDate, day1, t) <= OverdueFine(dueDate, day2, t)
  {
    ReturnFineIsCalculateFine(dueDate, day1, t);
    ReturnFineIsCalculateFine(dueDate, day2, t);
    FineMonotone(day1 - dueDate, day2 - dueDate, t);
  }

  /**
   * The bound above is needed: from 2^31 days late the narrowing cast
   * makes the day count negative, and the charge drops from 25.00 to 0.
   */
  lemma ReturnFineWrapsAt2To31()
    ensures OverdueFine(0, 0x7FFF_FFFF, Some(Fiction)) == MAX_FINE_AMOUNT
    ensures OverdueFine(0, 0x8000_0000, Some(Fiction)) == 0
  {
    ToInt32InRange(0x7FFF_FFFF);
    FineMonotone(50, 0x7FFF_FFFF, Some(Fiction));
    FineExamples();
  }

  /** Returning a book that was lent on a loan set without it restores that loan set. */
  lemma ReturnRestores(b: BookState, p: PatronState, due: int, later: int)
    requires b.isbn !in p.loans
    ensures var r := ReturnStep(Some(b.isbn), Some(b.(availableCopies := b.availableCopies - 1)),
                                Some(p.(loans := p.loans[b.isbn := due])), later);
            var fine := OverdueFine(due, later, b.bookType);
            r.fine == fine && r.book == Some(b) && r.patron == Some(p.(fineBalance := p.fineBalance + fine))
  {
    assert p.loans[b.isbn := due] - {b.isbn} == p.loans;
  }

  /**
   * A plain checkout followed by the return of the same book restores the
   * copy count and the loan set, and adds the fine (0 if on time) to the balance.
   */
  lemma CheckoutThenReturn(b: BookState, p: PatronState, today: int, later: int)
    requires PlainCheckoutAllowed(b, p)
    ensures var r1 := CheckoutStep(Some(b), Some(p), today);
            var r2 := ReturnStep(Some(b.isbn), r1.book, r1.patron, later);
            var fine := OverdueFine(today + p.loanPeriodDays, later, b.bookType);
            r2.fine == fine
            && r2.book == Some(b)
            && r2.patron == Some(p.(fineBalance := p.fineBalance + fine))
            && (later <= today + p.loanPeriodDays ==> r2.patron == Some(p))
  {
    var due := today + p.loanPeriodDays;
    var b1 := b.(availableCopies := b.availableCopies - 1);
    var p1 := p.(loans := p.loans[b.isbn := due]);
    var r1 := CheckoutStep(Some(b), Some(p), today);
    assert r1.code in {Success, SuccessOverdueWarning, SuccessCheckoutWarning};
    assert r1.book == Some(b1) && r1.patron == Some(p1);
    ReturnRestores(b, p, due, later);
    var fine := OverdueFine(due, later, b.bookType);
    assert later <= due ==> fine == 0;
  }
}
