/**
 * ISBN format check (`isValidISBN`): after deleting every hyphen the
 * string must be one or more ASCII digits (`\d+`), 10 or 13 of them.
 * A Java null string is `None`.
 */
module Isbn {
  import opened Wrappers

  const ISBN_LENGTH_10: nat := 10
  const ISBN_LENGTH_13: nat := 13

  predicate IsDigit(c: char)
  {
    '0' <= c <= '9'
  }

  /** `s.replace("-", "")`. */
  function RemoveHyphens(s: string): (r: string)
    ensures '-' !in r
    ensures |r| <= |s|
  {
    if s == [] then []
    else (if s[0] == '-' then [] else [s[0]]) + RemoveHyphens(s[1..])
  }

  /** Stripping is the identity on a string without hyphens. */
  lemma {:induction false} RemoveHyphensNoHyphen(s: string)
    requires '-' !in s
    ensures RemoveHyphens(s) == s
  {
    if s != [] {
      assert s[0] != '-';
      assert '-' !in s[1..];
      RemoveHyphensNoHyphen(s[1..]);
    }
  }

  /** Stripping twice is stripping once. */
  lemma RemoveHyphensIdempotent(s: string)
    ensures RemoveHyphens(RemoveHyphens(s)) == RemoveHyphens(s)
  {
    RemoveHyphensNoHyphen(RemoveHyphens(s));
  }

  /** Every character is an ASCII digit (`\\d`). */
  predicate OnlyDigits(s: string)
  {
    forall i :: 0 <= i < |s| ==> IsDigit(s[i])
  }

  /** `s.matches("\\d+")`. */
  predicate AllDigits(s: string)
  {
    |s| > 0 && OnlyDigits(s)
  }

  /** `isValidISBN(isbn)`: a valid ISBN is non-null and at least 10 characters long. */
  predicate IsValidIsbn(isbn: Option<string>): (r: bool)
    ensures r ==> isbn.Some? && |isbn.value| >= ISBN_LENGTH_10
  {
    if isbn.None? || |isbn.value| == 0 then false
    else
      var numbers := RemoveHyphens(isbn.value);
      if !AllDigits(numbers) then false
      else |numbers| == ISBN_LENGTH_10 || |numbers| == ISBN_LENGTH_13
  }

  /** Reference definition: the number of digits in `s`. */
  function DigitCount(s: string): nat
  {
    if s == [] then 0 else (if IsDigit(s[0]) then 1 else 0) + DigitCount(s[1..])
  }

  /** Every character is a digit or a hyphen. */
  predicate DigitsAndHyphens(s: string)
  {
    forall i :: 0 <= i < |s| ==> IsDigit(s[i]) || s[i] == '-'
  }

  lemma {:induction false} RemoveHyphensAppend(a: string, b: string)
    ensures RemoveHyphens(a + b) == RemoveHyphens(a) + RemoveHyphens(b)
  {
    if a != [] {
      var head := if a[0] == '-' then [] else [a[0]];
      assert (a + b)[0] == a[0];
      assert (a + b)[1..] == a[1..] + b;
      RemoveHyphensAppend(a[1..], b);
      calc {
        RemoveHyphens(a + b);
        head + RemoveHyphens(a[1..] + b);
        head + (RemoveHyphens(a[1..]) + RemoveHyphens(b));
        (head + RemoveHyphens(a[1..])) + RemoveHyphens(b);
      }
    } else {
      assert a + b == b;
    }
  }

  lemma OnlyDigitsAppend(x: string, y: string)
    ensures OnlyDigits(x + y) <==> OnlyDigits(x) && OnlyDigits(y)
  {
    if OnlyDigits(x) && OnlyDigits(y) {
      forall i | 0 <= i < |x + y| ensures IsDigit((x + y)[i]) {
        if i >= |x| { assert (x + y)[i] == y[i - |x|]; }
      }
    }
    if OnlyDigits(x + y) {
      forall i | 0 <= i < |y| ensures IsDigit(y[i]) {
        assert y[i] == (x + y)[|x| + i];
      }
      forall i | 0 <= i < |x| ensures IsDigit(x[i]) {
        assert x[i] == (x + y)[i];
      }
    }
  }

  lemma DigitsAndHyphensCons(s: string)
    requires s != []
    ensures DigitsAndHyphens(s) <==> (IsDigit(s[0]) || s[0] == '-') && DigitsAndHyphens(s[1..])
  {
    if (IsDigit(s[0]) || s[0] == '-') && DigitsAndHyphens(s[1..]) {
      forall i | 0 <= i < |s| ensures IsDigit(s[i]) || s[i] == '-' {
        if i > 0 { assert s[i] == s[1..][i - 1]; }
      }
    }
    if DigitsAndHyphens(s) {
      forall i | 0 <= i < |s[1..]| ensures IsDigit(s[1..][i]) || s[1..][i] == '-' {
        assert s[1..][i] == s[i + 1];
      }
    }
  }

  /** Stripping hyphens leaves only digits iff only digits and hyphens were there. */
  lemma {:induction false} OnlyDigitsAfterStrip(s: string)
    ensures OnlyDigits(RemoveHyphens(s)) <==> DigitsAndHyphens(s)
  {
    if s != [] {
      var head := if s[0] == '-' then [] else [s[0]];
      OnlyDigitsAfterStrip(s[1..]);
      OnlyDigitsAppend(head, RemoveHyphens(s[1..]));
      DigitsAndHyphensCons(s);
      assert OnlyDigits(head) <==> IsDigit(s[0]) || s[0] == '-' by {
        if head != [] { assert head[0] == s[0]; }
      }
    }
  }

  /** Over digits and hyphens, stripping leaves exactly the digits. */
  lemma {:induction false} StripLength(s: string)
    requires DigitsAndHyphens(s)
    ensures |RemoveHyphens(s)| == DigitCount(s)
  {
    if s != [] {
      DigitsAndHyphensCons(s);
      StripLength(s[1..]);
    }
  }

  /**
   * Independent characterisation: a non-null ISBN is valid iff it holds
   * only digits and hyphens, and 10 or 13 digits.
   */
  lemma IsValidIsbnIff(s: string)
    ensures IsValidIsbn(Some(s)) <==> DigitsAndHyphens(s) && (DigitCount(s) == 10 || DigitCount(s) == 13)
  {
    OnlyDigitsAfterStrip(s);
    if DigitsAndHyphens(s) {
      StripLength(s);
    }
  }

  /** Validity of a non-null ISBN depends only on its hyphen-free form. */
  lemma ValidByStripped(s: string)
    ensures IsValidIsbn(Some(s)) == IsValidIsbn(Some(RemoveHyphens(s)))
  {
    RemoveHyphensIdempotent(s);
  }

  /** Stripping removes an inserted hyphen. */
  lemma {:induction false} StripInsertedHyphen(a: string, b: string)
    ensures RemoveHyphens(a + ['-'] + b) == RemoveHyphens(a + b)
  {
    var x := a + ['-'] + b;
    if a == [] {
      assert x[0] == '-' && x[1..] == b;
      assert a + b == b;
    } else {
      assert x[0] == a[0] && (a + b)[0] == a[0];
      assert x[1..] == a[1..] + ['-'] + b;
      assert (a + b)[1..] == a[1..] + b;
      StripInsertedHyphen(a[1..], b);
    }
  }

  /** Inserting a hyphen anywhere never changes validity. */
  lemma HyphenInsensitive(a: string, b: string)
    ensures IsValidIsbn(Some(a + ['-'] + b)) == IsValidIsbn(Some(a + b))
  {
    StripInsertedHyphen(a, b);
    ValidByStripped(a + ['-'] + b);
    ValidByStripped(a + b);
  }

  /** A hyphen-free ISBN is valid iff it is 10 or 13 digits. */
  lemma ValidWithoutHyphens(s: string)
    requires '-' !in s
    ensures IsValidIsbn(Some(s)) <==> AllDigits(s) && (|s| == 10 || |s| == 13)
  {
    RemoveHyphensNoHyphen(s);
  }

  /** Null and empty strings are rejected. */
  lemma NullOrEmptyInvalid()
    ensures !IsValidIsbn(None)
    ensures !IsValidIsbn(Some(""))
  {
  }
}
