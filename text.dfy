/** Character classes used by the INN pattern `\b\d{10,12}\b` and by `str.isdigit()`.
    Python applies these to all of Unicode; the model keeps the ASCII digits and,
    for word characters, the ASCII letters, digits and underscore plus the basic
    Cyrillic alphabet the documents are written in. */
module Text {

  /** `\d`: a decimal digit (ASCII only in this model). */
  predicate IsDigit(c: char)
  {
    '0' <= c <= '9'
  }

  /** `\w`: a character that is part of a word. */
  predicate IsWordChar(c: char)
  {
    IsDigit(c) || ('a' <= c <= 'z') || ('A' <= c <= 'Z') || c == '_'
    || ('\U{0410}' <= c <= '\U{044F}') || c == '\U{0401}' || c == '\U{0451}'
  }

  /** `str.isdigit()`: non-empty and made only of digits. */
  predicate IsDigits(s: string)
  {
    |s| > 0 && forall i :: 0 <= i < |s| ==> IsDigit(s[i])
  }
}
