/**
 * The Unicode character classes and the case mapping that the analyser
 * borrows from the JavaScript engine. Their tables are not modelled: the
 * analysis is stated for any choice of them that has the few facts the
 * `Unicode` type names.
 */
module TextClasses {

  /** `\p{L}`, `\p{N}`, `\s` (also what `String.prototype.trim` removes)
      and `String.prototype.toLowerCase`. */
  datatype Classes = Classes(
    isLetter: char -> bool,
    isNumber: char -> bool,
    isSpace: char -> bool,
    lower: string -> string)

  /** What every Unicode table and `toLowerCase` have in common: U+0020 is
      white space and the empty string lowercases to itself. */
  type Unicode = u: Classes | u.isSpace(' ') && u.lower("") == ""
    witness Classes(c => false, c => false, c => c == ' ', s => s)

  /** Lowercasing a string of white space gives a string of white space, as
      it does with the real tables (no white-space character has a case). */
  ghost predicate LowerKeepsBlank(u: Unicode) {
    forall s: string :: Blank(s, u) ==> Blank(u.lower(s), u)
  }

  /** `\d`: the ten ASCII digits only. */
  predicate IsAsciiDigit(c: char) {
    '0' <= c <= '9'
  }

  /** A string holding no white-space character. */
  predicate NoSpace(s: string, u: Unicode) {
    forall i :: 0 <= i < |s| ==> !u.isSpace(s[i])
  }

  /** A string made of white space only (empty included). */
  predicate Blank(s: string, u: Unicode) {
    forall i :: 0 <= i < |s| ==> u.isSpace(s[i])
  }
}
