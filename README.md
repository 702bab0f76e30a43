# Library circulation desk — a Dafny model

This project models the circulation logic of the `Checkout` class of a
library system. The class decides whether a patron may check out a book,
renews a loan the patron already holds, and computes overdue fines on
return. Each outcome is reported as a numeric status code.

The model is layered like the program:

- `StatusCodes` (status_codes.dfy): the `StatusCodes` enum. Its numeric codes are written in tenths, so 3.1 is 31.
- `Entities` (entities.dfy): the parts of `Book` and `Patron` the desk uses, as classes with a value snapshot (`State()`), plus the per-type checkout limits (FACULTY 20, STAFF 15, STUDENT 10, PUBLIC 5, CHILD 3).
- `Fines` (fines.dfy): `calculateFine`, and a reference definition as a sum of daily rates.
- `Isbn` (isbn.dfy): `isValidISBN`, and a reference characterisation by digit count.
- `Circulation` (circulation.dfy): the rules on snapshots. These are the eligibility chain, the checkout decision (`CheckoutStep`) and the return (`ReturnStep`), with lemmas that relate them.
- `CheckoutDesk` (checkout_desk.dfy): the `Checkout` class itself. It holds the book and patron registries and the loan history. Its methods change books and patrons in place, and each is proved to act exactly as the matching `Circulation` rule.

Modelling conventions:

- **Money is integer cents.** Every fine is a multiple of $0.25, so the source's doubles hold these values exactly. The $10.00 fine limit is 1000. The -1.0 failure result of `returnBook` is -100.
- **Days are integer day numbers.** `LocalDate.now()` is a `today` parameter. `ChronoUnit.DAYS.between(due, today)` is `today - due`.
- **The `(int)` cast is written out.** `returnBook` narrows the `long` day difference to `int`; `ToInt32` does the same.
- **Java `null` is modelled explicitly.** A null book or patron is a `null` reference of `Book?` or `Patron?`. A null string or enum argument of `isValidISBN`, `calculateFine`, `returnBook` and `countBooksByType` is `None`, and so is a null book type (`Book.getType()`), which `calculateFine` charges undoubled and `countBooksByType` never counts.

The doc-comment's worked example says 20 days overdue on a TEXTBOOK cost
$23.50 (src/main/java/Checkout.java:262). Its own formula,
(7·0.25 + 7·0.50 + 6·1.00)·2, gives $22.50, and so does the code. The model
follows the code: `Fines.FineExamples` proves 2250 cents.

## Model

| member | source | states |
|---|---|---|
| `StatusCodes.Code` | src/main/java/Checkout.java:27-54 | every code is at most 5.0, and the code is 0.0 exactly for ELIGIBLE and SUCCESS |
| `StatusCodes.CodeDeterminesStatus` | src/main/java/Checkout.java:27-55 | two statuses have the same numeric code iff they are equal, or are ELIGIBLE and SUCCESS (both 0.0) |
| `StatusCodes.FailureCodes` | src/main/java/Checkout.java:189-190 | the failure family (codes 2.x–5.x) is exactly every status other than the five success/eligible ones |
| `Entities.MaxCheckoutLimit` | src/main/java/Checkout.java:149-155 | limits lie between 3 and 20; FACULTY alone has 20 and CHILD alone has 3 |
| `Circulation.Eligibility` | src/main/java/Checkout.java:113-130 | first match wins: null gives 3.1; suspended gives 3.0; overdue count ≥ 3 gives 4.0; fines ≥ $10.00 give 4.1; otherwise ELIGIBLE. Each code holds iff its condition holds and no earlier one does, and every non-eligible result is a failure code |
| `Circulation.EligibilityMonotone` | src/main/java/Checkout.java:123-128 | of two patrons with the same suspension flag, the one with at least as many overdue books and at least as much in fines is eligible only if the other is |
| `Circulation.EligibilityIgnoresLoans` | src/main/java/Checkout.java:113-130 | the loan set never changes the eligibility code, and lowering the fine balance keeps an eligible patron eligible |
| `Circulation.CheckoutStep` | src/main/java/Checkout.java:199-246 | a non-eligible code passes through unchanged. Every failure (2.x–5.x) leaves book and patron unchanged. 2.1, 5.0, 0.1, 2.0 and 3.2 each hold iff their condition holds, in the documented order. A renewal only resets the held ISBN's due date to today + loan period, and the loan count and copies are unchanged. A plain success adds exactly that loan, takes exactly one copy, and returns 1.0, else 1.1, else 0.0 |
| `Circulation.SuccessCode` | src/main/java/Checkout.java:230-245 | the success code is one of 0.0, 1.0 and 1.1, never a failure; 0.0 only when there are no 1–2 overdue books and the count after checkout is more than 2 below the limit |
| `Circulation.OverdueWarningDominates` | src/main/java/Checkout.java:230-241 | a plain checkout by a patron with 1–2 overdue books returns 1.0, whatever the loan count, even within 2 of the limit |
| `Circulation.CheckoutLimitBoundary` | src/main/java/Checkout.java:222-241 | for an eligible patron with an overdue count of 0 or less and an available, unheld book that is not reference-only: 3.2 iff the count is at least the limit; 1.1 iff the count after checkout is within 2 of the limit; 0.0 otherwise |
| `Circulation.CheckoutTwiceIsRenewal` | src/main/java/Checkout.java:214-216 | checking out again, on the same day, a book just checked out is a renewal (0.1) that leaves book and patron exactly as the first checkout left them |
| `Circulation.ToInt32` | src/main/java/Checkout.java:373 | the narrowing cast gives a value in the 32-bit range that is congruent to its argument mod 2^32 |
| `Circulation.ToInt32InRange` | src/main/java/Checkout.java:373 | the cast is the identity on values already in the 32-bit range |
| `Circulation.ReturnStep` | src/main/java/Checkout.java:357-380 | the -1.0 sentinel is returned iff the patron is null, the ISBN is null or not held by the patron, or the registry has no book for it, and then nothing changes. Otherwise it charges the overdue fine: in [0, 25.00], and 0 when returned by the due date. That amount is added to the balance, the loan is removed (one fewer loan), and one copy is released |
| `Circulation.OverdueFine` | src/main/java/Checkout.java:367-375 | the charge on return is in [0, 25.00], and 0 when returned on or before the due day |
| `Circulation.ReturnFineIsCalculateFine` | src/main/java/Checkout.java:367-375 | for a day difference below 2^31 the charge is `calculateFine(today - due)` when positive, else 0 |
| `Circulation.ReturnFineMonotone` | src/main/java/Checkout.java:367-375 | returning later never costs less, for returns under 2^31 days late |
| `Circulation.ReturnFineWrapsAt2To31` | src/main/java/Checkout.java:369-373 | the bound is needed: 2^31 − 1 days late costs 25.00, but 2^31 days late costs 0, because `(int)` wraps the day count negative |
| `Circulation.CheckoutThenReturn` | src/main/java/Checkout.java:357-390 | a plain checkout followed by a return of the same book restores the copy count and the loan set exactly; the balance grows by the overdue fine, and nothing changes if returned by the due date |
| `Fines.CalculateFine` | src/main/java/Checkout.java:269-299 | the fine is always in [0, 25.00], and is 0 for zero or negative days |
| `Fines.AccruedClosedForm` | src/main/java/Checkout.java:276-290 | the sum of daily rates is 25·d up to day 7, 175 + 50·(d−7) up to day 14, then 525 + 100·(d−14) |
| `Fines.FineIsCappedDailySum` | src/main/java/Checkout.java:252-257 | the fine is the sum of per-day charges (0.25 for days 1–7, 0.50 for days 8–14, 1.00 after), doubled for REFERENCE and TEXTBOOK, then capped at 25.00 |
| `Fines.NullTypeUndoubled` | src/main/java/Checkout.java:293-295 | a null book type fails the REFERENCE/TEXTBOOK test, so it is charged exactly like an undoubled type: the capped sum of daily rates |
| `Fines.FineMonotone` | src/main/java/Checkout.java:277-298 | for a fixed book type the fine never decreases as the days grow |
| `Fines.FineExamples` | src/main/java/Checkout.java:259-263 | 5 FICTION → 1.25, 7 FICTION → 1.75, 10 NONFICTION → 3.25, 15 REFERENCE or TEXTBOOK → 12.50, 20 TEXTBOOK → 22.50, 50 and 100 FICTION → 25.00, 0 days → 0, 20 days with a null type → 11.25 |
| `Isbn.RemoveHyphens` | src/main/java/Checkout.java:322 | the result has no hyphen and is no longer than the input |
| `Isbn.RemoveHyphensAppend` | src/main/java/Checkout.java:322 | stripping hyphens distributes over concatenation |
| `Isbn.RemoveHyphensNoHyphen` | src/main/java/Checkout.java:322 | stripping leaves a hyphen-free string unchanged |
| `Isbn.RemoveHyphensIdempotent` | src/main/java/Checkout.java:322 | stripping twice is stripping once |
| `Isbn.OnlyDigitsAfterStrip` | src/main/java/Checkout.java:322-327 | the stripped string is all digits iff the input holds only digits and hyphens |
| `Isbn.StripLength` | src/main/java/Checkout.java:322-331 | over digits and hyphens, the stripped length is the digit count |
| `Isbn.IsValidIsbn` | src/main/java/Checkout.java:316-332 | a valid ISBN is non-null and at least 10 characters long |
| `Isbn.IsValidIsbnIff` | src/main/java/Checkout.java:316-332 | a non-null string is a valid ISBN iff it holds only digits and hyphens and exactly 10 or 13 digits |
| `Isbn.ValidByStripped` | src/main/java/Checkout.java:316-332 | a non-null string is valid iff its hyphen-free form is |
| `Isbn.StripInsertedHyphen` | src/main/java/Checkout.java:322 | stripping removes a hyphen inserted anywhere |
| `Isbn.HyphenInsensitive` | src/main/java/Checkout.java:316-332 | inserting a hyphen anywhere never changes validity |
| `Isbn.ValidWithoutHyphens` | src/main/java/Checkout.java:325-331 | a hyphen-free string is valid iff it is 10 or 13 digits |
| `Isbn.NullOrEmptyInvalid` | src/main/java/Checkout.java:317-319 | null and empty strings are invalid |
| `CheckoutDesk.FirstOpen` | src/main/java/Checkout.java:382-387 | the index found is the first record of this patron and book with no return date; none is found iff no such record exists |
| `CheckoutDesk.CloseFirstOpen` | src/main/java/Checkout.java:382-387 | the history keeps its length and every record's patron and book. Only the first open matching record can change, and it gets today as its return date |
| `CheckoutDesk.CloseFirstOpenCloses` | src/main/java/Checkout.java:382-387 | closing opens nothing. It closes the first open record if there is one, and otherwise leaves the history unchanged |
| `CheckoutDesk.Checkout.LookUp` | src/main/java/Checkout.java:362 | the book found is the one registered under the ISBN; a null or unregistered ISBN finds none |
| `CheckoutDesk.Checkout.constructor` | src/main/java/Checkout.java:77-81 | registries and history start empty |
| `CheckoutDesk.Checkout.AddBook` | src/main/java/Checkout.java:87-89 | the book is registered under its ISBN. Other entries, the patrons and the history are unchanged |
| `CheckoutDesk.Checkout.RegisterPatron` | src/main/java/Checkout.java:94-96 | the patron is registered under its id. Other entries, the books and the history are unchanged |
| `CheckoutDesk.Checkout.CheckoutBook` | src/main/java/Checkout.java:199-246 | the returned code and the new book and patron states are exactly those of `CheckoutStep` on the old states. Only the book and the patron may change |
| `CheckoutDesk.Checkout.ReturnBook` | src/main/java/Checkout.java:357-390 | the fine and the new patron and book states are those of `ReturnStep`. The registries are unchanged. On failure the history is unchanged; otherwise the history is `CloseFirstOpen` of the old one |
| `CheckoutDesk.Checkout.MarkReturned` | src/main/java/Checkout.java:382-387 | the history becomes `CloseFirstOpen` of the old one, with the registries unchanged |
| `CheckoutDesk.Checkout.CountBooksByType` | src/main/java/Checkout.java:406-437 | a null type gives 0. Otherwise the result is the number of registry entries holding a non-null book of that type, and with `onlyAvailable` only those with copies left |
| `CheckoutDesk.Checkout.AvailableCountAtMostTotal` | src/main/java/Checkout.java:402-404 | counting only available books never gives more than counting all books of the type |

## Left out

- `getInventory`, `getPatrons` (src/main/java/Checkout.java:439-449): they return copies of the registries, and no rule depends on them.
- `isPatronType` (src/main/java/Checkout.java:341-347): it depends on the enum's `toString`, which is not part of this model.
- Book.java and Patron.java are not part of this model. `Book.checkout()`/`returnBook()` are taken to decrement/increment `availableCopies` by one, with no bound. `isAvailable()` is `availableCopies > 0`, and the reference-only flag is a field independent of the type; if the unseen `Book` constructor ties the flag to the REFERENCE type, or gives reference books no available copies, `countBooksByType(REFERENCE, true)` would count differently (checkout is unaffected, because the reference-only check comes before the availability check). `getCheckoutCount()` is the size of the loan map. `addFine` adds to the balance. `equals` is object identity. The loan period is a patron field, because its per-type values are not visible.
- `CheckoutDesk.Checkout.AddBook` and `RegisterPatron` take non-null arguments: passing null throws in the source (a `NullPointerException` from `getIsbn()`/`getPatronId()`), and exceptions are not modelled.
- `Book.isbn` and `Patron.id` are non-null strings. A book or patron with a null ISBN or id, and the null map keys it would create, are not modelled.
- Transaction records are values in a sequence rather than shared mutable objects. Aliasing of a record is not modelled. The source never adds a record (`checkoutBook` does not append to `history`), and the record's constructor keeps neither date, so the model has no operation that creates one.
- Java `double` arithmetic: fines and balances are exact integer cents. Floating-point rounding of balances that are not multiples of a cent (such as `addFine(10.01); payFine(0.02)`) is not modelled.
- The wall clock is a `today` parameter. Console output (commented out in the source) is omitted.
- Java `int` overflow of the overdue count and the loan count is not modelled. Those values are unbounded integers, and only the narrowing cast in `returnBook` is written out.
