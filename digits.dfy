/** Decimal digits as the two regular expressions of the system read `\d`.

    In a JavaScript regular expression `\d` is `[0-9]`, with or without the `u` flag.
    Python's `\d` on a `str` also accepts the other Unicode decimal digits; the put-code
    extractor's model reads it as `[0-9]` as well. */
module Digits {
  predicate IsDigit(c: char) {
    '0' <= c <= '9'
  }

  predicate AllDigits(s: string) {
    forall i :: 0 <= i < |s| ==> IsDigit(s[i])
  }
}
