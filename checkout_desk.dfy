/**
 * The circulation desk (`Checkout`): the book and patron registries, the
 * loan history, and the operations that change books and patrons in place.
 * Each operation is proved to act as the rules of module `Circulation`.
 */
module CheckoutDesk {
  import opened Wrappers
  import opened StatusCodes
  import opened Entities
  import opened Circulation

  /**
   * A loan record (`Transaction`): the patron, the book and the day it was
   * returned, if it was. The source's constructor takes a checkout day and
   * a due day but keeps neither.
   */
  datatype Transaction = Transaction(patron: Patron, book: Book, returnDate: Option<int>)

  predicate IsOpenFor(t: Transaction, p: Patron, b: Book)
  {
    t.patron == p && t.book == b && t.returnDate.None?
  }

  /** The index of the first open record of `p` and `b` in `h`, if any. */
  function FirstOpen(h: seq<Transaction>, p: Patron, b: Book): (r: Option<nat>)
    ensures r.Some? ==> r.value < |h| && IsOpenFor(h[r.value], p, b)
                        && forall j :: 0 <= j < r.value ==> !IsOpenFor(h[j], p, b)
    ensures r.None? ==> forall j :: 0 <= j < |h| ==> !IsOpenFor(h[j], p, b)
  {
    if h == [] then None
    else if IsOpenFor(h[0], p, b) then Some(0)
    else match FirstOpen(h[1..], p, b)
      case None => None
      case Some(k) => Some(k + 1)
  }

  /** The history after closing the first open record of `p` and `b` on day `today`. */
  function CloseFirstOpen(h: seq<Transaction>, p: Patron, b: Book, today: int): (r: seq<Transaction>)
    ensures |r| == |h|
    ensures forall j :: 0 <= j < |h| ==> r[j].patron == h[j].patron && r[j].book == h[j].book
    ensures forall j :: 0 <= j < |h| && r[j] != h[j] ==> FirstOpen(h, p, b) == Some(j) && r[j].returnDate == Some(today)
    ensures FirstOpen(h, p, b).Some? ==> r[FirstOpen(h, p, b).value].returnDate == Some(today)
  {
    match FirstOpen(h, p, b)
    case None => h
    case Some(i) => h[i := h[i].(returnDate := Some(today))]
  }

  /** Closing leaves no more open records of `p` and `b` than before, one fewer if there was one. */
  lemma CloseFirstOpenCloses(h: seq<Transaction>, p: Patron, b: Book, today: int)
    ensures var r := CloseFirstOpen(h, p, b, today);
            (forall j :: 0 <= j < |h| && IsOpenFor(r[j], p, b) ==> IsOpenFor(h[j], p, b))
            && (FirstOpen(h, p, b).Some? ==> !IsOpenFor(r[FirstOpen(h, p, b).value], p, b))
            && (FirstOpen(h, p, b).None? ==> r == h)
  {
  }

  lemma {:induction false} SubsetCardinality(a: set<string>, b: set<string>)
    requires a <= b
    ensures |a| <= |b|
    decreases a
  {
    if a != {} {
      var x :| x in a;
      SubsetCardinality(a - {x}, b - {x});
    }
  }

  class Checkout {
    var bookMap: map<string, Book?>
    var patrons: map<string, Patron>
    var history: seq<Transaction>

    constructor ()
      ensures bookMap == map[] && patrons == map[] && history == []
    {
      bookMap := map[];
      patrons := map[];
      history := [];
    }

    /** `addBook(book)`: register `book` under its ISBN. */
    method AddBook(book: Book)
      modifies this
      ensures bookMap == old(bookMap)[book.isbn := book]
      ensures patrons == old(patrons) && history == old(history)
    {
      bookMap := bookMap[book.isbn := book];
    }

    /** `registerPatron(patron)`: register `patron` under its id. */
    method RegisterPatron(patron: Patron)
      modifies this
      ensures patrons == old(patrons)[patron.id := patron]
      ensures bookMap == old(bookMap) && history == old(history)
    {
      patrons := patrons[patron.id := patron];
    }

    /** `bookMap.get(isbn)`; a null ISBN is `None` and is never a key. */
    function LookUp(isbn: Option<string>): (b: Book?)
      reads this
      ensures b != null ==> isbn.Some? && isbn.value in bookMap && bookMap[isbn.value] == b
      ensures isbn.Some? && isbn.value in bookMap ==> b == bookMap[isbn.value]
    {
      if isbn.Some? && isbn.value in bookMap then bookMap[isbn.value] else null
    }

    /** `checkoutBook(book, patron)` on day `today`. */
    method CheckoutBook(book: Book?, patron: Patron?, today: int) returns (code: StatusCode)
      modifies book, patron
      ensures var r := CheckoutStep(old(BookSnapshot(book)), old(PatronSnapshot(patron)), today);
              code == r.code && BookSnapshot(book) == r.book && PatronSnapshot(patron) == r.patron
    {
      var patronEligibility := Eligibility(PatronSnapshot(patron));
      if Code(patronEligibility) != 0 {
        return patronEligibility;
      } else if book == null {
        return BookNull;
      } else if book.referenceOnly {
        return BookReference;
      }

      var isbn := book.isbn;
      var dueDate := today + patron.loanPeriodDays;

      if isbn in patron.loans {
        patron.loans := patron.loans[isbn := dueDate];
        return SuccessRenewal;
      } else if !(book.availableCopies > 0) {
        return BookUnavailable;
      }

      var checkoutCount := |patron.loans|;
      var checkoutLimit := MaxCheckoutLimit(patron.patronType);
      if checkoutCount >= checkoutLimit {
        return CheckoutLimit;
      }
      patron.loans := patron.loans[isbn := dueDate];
      book.availableCopies := book.availableCopies - 1;

      var overdueCount := patron.overdueCount;
      if overdueCount >= 1 && overdueCount <= 2 {
        return SuccessOverdueWarning;
      }
      checkoutCount := |patron.loans|;
      if checkoutCount >= checkoutLimit - 2 {
        return SuccessCheckoutWarning;
      }
      return Success;
    }

    /** `returnBook(isbn, patron)` on day `today`; the fine is in cents, a null ISBN is `None`. */
    method ReturnBook(isbn: Option<string>, patron: Patron?, today: int) returns (fine: int)
      modifies this, patron, LookUp(isbn)
      ensures bookMap == old(bookMap) && patrons == old(patrons)
      ensures var r := ReturnStep(isbn, old(BookSnapshot(LookUp(isbn))), old(PatronSnapshot(patron)), today);
              fine == r.fine && BookSnapshot(LookUp(isbn)) == r.book && PatronSnapshot(patron) == r.patron
      ensures fine == RETURN_FAILED ==> history == old(history)
      ensures fine != RETURN_FAILED ==>
                patron != null && LookUp(isbn) != null
                && history == CloseFirstOpen(old(history), patron, LookUp(isbn), today)
    {
      if patron == null || isbn.None? || isbn.value !in patron.loans {
        return RETURN_FAILED;
      }

      var book := LookUp(isbn);
      if book == null {
        return RETURN_FAILED;
      }

      ghost var r := ReturnStep(isbn, BookSnapshot(book), PatronSnapshot(patron), today);
      assert ReturnAccepted(isbn, BookSnapshot(book), PatronSnapshot(patron));
      var dueDate := patron.loans[isbn.value];
      var daysOverdue := today - dueDate;

      fine := 0;
      if daysOverdue > 0 {
        fine := Fines.CalculateFine(ToInt32(daysOverdue), book.bookType);
        patron.fineBalance := patron.fineBalance + fine;
      }

      patron.loans := patron.loans - {isbn.value};
      book.availableCopies := book.availableCopies + 1;
      assert fine == r.fine && BookSnapshot(book) == r.book && PatronSnapshot(patron) == r.patron;

      MarkReturned(patron, book, today);
    }

    /** The loop of `returnBook` that marks the first open record of `patron` and `book` returned. */
    method MarkReturned(patron: Patron, book: Book, today: int)
      modifies this
      ensures bookMap == old(bookMap) && patrons == old(patrons)
      ensures history == CloseFirstOpen(old(history), patron, book, today)
    {
      var i := 0;
      while i < |history|
        invariant 0 <= i <= |history|
        invariant history == old(history)
        invariant forall j :: 0 <= j < i ==> !IsOpenFor(history[j], patron, book)
      {
        var t := history[i];
        if t.patron == patron && t.book == book && t.returnDate.None? {
          history := history[i := t.(returnDate := Some(today))];
          break;
        }
        i := i + 1;
      }
    }

    /** The ISBNs whose registered book `countBooksByType(t, onlyAvailable)` counts. */
    function CountedIsbns(t: BookType, onlyAvailable: bool): set<string>
      reads this, bookMap.Values
    {
      set isbn | isbn in bookMap && bookMap[isbn] != null && bookMap[isbn].bookType == Some(t)
                 && (!onlyAvailable || bookMap[isbn].availableCopies > 0)
    }

    /** `countBooksByType(type, onlyAvailable)`; a null type is `None`. */
    method CountBooksByType(t: Option<BookType>, onlyAvailable: bool) returns (looped: nat)
      ensures t.None? ==> looped == 0
      ensures t.Some? ==> looped == |CountedIsbns(t.value, onlyAvailable)|
    {
      if t.None? {
        return 0;
      }
      ghost var counted := CountedIsbns(t.value, onlyAvailable);
      looped := 0;
      var remaining := bookMap.Keys;
      while remaining != {}
        invariant remaining <= bookMap.Keys
        invariant looped == |counted - remaining|
        decreases remaining
      {
        var isbn :| isbn in remaining;
        var b := bookMap[isbn];
        ghost var before := counted - remaining;
        remaining := remaining - {isbn};
        if b != null && b.bookType == t && (!onlyAvailable || b.availableCopies > 0) {
          assert counted - remaining == before + {isbn};
          looped := looped + 1;
        } else {
          assert counted - remaining == before;
        }
      }
    }

    /** Restricting the count to available books never counts more. */
    lemma AvailableCountAtMostTotal(t: BookType)
      ensures |CountedIsbns(t, true)| <= |CountedIsbns(t, false)|
    {
      SubsetCardinality(CountedIsbns(t, true), CountedIsbns(t, false));
    }
  }
}
