/**
 * The two collaborators the circulation desk works on, Book and Patron,
 * reduced to the getters and mutators the desk uses. Each class has a
 * `State()` snapshot, so that the rules can be stated on values.
 * Money is in integer cents: fines are multiples of 0.25 and balances are
 * whole cents. A null book type is `None`.
 */
module Entities {
  import opened Wrappers

  datatype BookType = Fiction | Nonfiction | Reference | Textbook | Children

  datatype PatronType = Faculty | Staff | Student | Public | Child

  /** Maximum number of books a patron of type `t` may hold at once. */
  function MaxCheckoutLimit(t: PatronType): (n: nat)
    ensures 3 <= n <= 20
    ensures n == 20 <==> t == Faculty
    ensures n == 3 <==> t == Child
  {
    match t
    case Faculty => 20
    case Staff => 15
    case Student => 10
    case Public => 5
    case Child => 3
  }

  /** What the desk sees of a book. */
  datatype BookState = BookState(
    isbn: string,
    bookType: Option<BookType>,
    referenceOnly: bool,
    availableCopies: int)

  /** What the desk sees of a patron; `loans` maps ISBN to due day. */
  datatype PatronState = PatronState(
    id: string,
    patronType: PatronType,
    suspended: bool,
    overdueCount: int,
    fineBalance: int,
    loans: map<string, int>,
    loanPeriodDays: int)

  /** `Book.isAvailable()`. */
  predicate IsAvailable(b: BookState)
  {
    b.availableCopies > 0
  }

  /** `Patron.getCheckoutCount()`: the number of books held now. */
  function CheckoutCount(p: PatronState): nat
  {
    |p.loans|
  }

  class Book {
    var isbn: string
    var bookType: Option<BookType>
    var referenceOnly: bool
    var availableCopies: int

    function State(): BookState
      reads this
    {
      BookState(isbn, bookType, referenceOnly, availableCopies)
    }
  }

  class Patron {
    var id: string
    var patronType: PatronType
    var suspended: bool
    var overdueCount: int
    var fineBalance: int
    var loans: map<string, int>
    var loanPeriodDays: int

    function State(): PatronState
      reads this
    {
      PatronState(id, patronType, suspended, overdueCount, fineBalance, loans, loanPeriodDays)
    }
  }

  /** The state of a possibly-null book reference. */
  function BookSnapshot(b: Book?): Option<BookState>
    reads b
  {
    if b == null then None else Some(b.State())
  }

  /** The state of a possibly-null patron reference. */
  function PatronSnapshot(p: Patron?): Option<PatronState>
    reads p
  {
    if p == null then None else Some(p.State())
  }
}
