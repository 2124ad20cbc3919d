/** The character classes of json_parser.c. */
module JsonChars {

  /** `json_is_whitespace`. */
  predicate IsWhitespace(c: char)
  {
    c == ' ' || c == '\t' || c == '\r' || c == '\n'
  }

  /** `json_is_escapable`: the characters allowed after a backslash, besides `u`. */
  predicate IsEscapable(c: char)
  {
    || c == '"' || c == '\\' || c == '/' || c == 'b'
    || c == 'f' || c == 'n' || c == 'r' || c == 't'
  }

  /** `json_is_hex_digit`. */
  predicate IsHexDigit(c: char)
  {
    ('0' <= c <= '9') || ('A' <= c <= 'F') || ('a' <= c <= 'f')
  }

  /** `json_is_dec_digit`. */
  predicate IsDecDigit(c: char)
  {
    '0' <= c <= '9'
  }

  /** `json_is_pos_digit`: a digit that may start a multi-digit integer part. */
  predicate IsPosDigit(c: char)
  {
    '1' <= c <= '9'
  }

  /** `json_is_num_delim`: what may follow a complete number. */
  predicate IsNumDelim(c: char)
  {
    IsWhitespace(c) || c == ',' || c == ']' || c == '}'
  }

  /** The contents of a C string: no NUL before the terminator at index |s|. */
  predicate NulFree(s: string)
  {
    forall k :: 0 <= k < |s| ==> s[k] != '\0'
  }

  /** How the classes nest: no delimiter can be part of a number, and `0` is the one digit that is not positive. */
  lemma ClassRelations(c: char)
    ensures IsPosDigit(c) <==> IsDecDigit(c) && c != '0'
    ensures IsDecDigit(c) ==> IsHexDigit(c)
    ensures IsWhitespace(c) ==> IsNumDelim(c)
    ensures IsNumDelim(c) ==> !IsDecDigit(c) && c != '.' && c != 'e' && c != 'E' && c != '-' && c != '+'
    ensures IsEscapable(c) ==> c != 'u'
  {
  }
}
