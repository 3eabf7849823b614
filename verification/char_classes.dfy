/** ASCII character classes as Python's `str` methods and `re` classes see them. */
module CharClasses {

  /** Whitespace in the sense of `str.isspace`, `str.split()`, `str.strip()` and the
      regex class `\s`, restricted to ASCII: tab, line feed, vertical tab, form feed,
      carriage return (9-13), the four information separators (28-31) and space (32). */
  predicate IsSpace(c: char) {
    9 <= c as int <= 13 || 28 <= c as int <= 32
  }

  predicate IsNotSpace(c: char) {
    !IsSpace(c)
  }

  /** Sentence-ending punctuation, the class `[.!?]`. */
  predicate IsStop(c: char) {
    c == '.' || c == '!' || c == '?'
  }

  predicate IsNotStop(c: char) {
    !IsStop(c)
  }

  /** The class `\d` on ASCII. */
  predicate IsDigit(c: char) {
    '0' <= c <= '9'
  }

  predicate IsUpper(c: char) {
    'A' <= c <= 'Z'
  }

  predicate IsLower(c: char) {
    'a' <= c <= 'z'
  }

  /** The class `[a-zA-Z]`. */
  predicate IsLetter(c: char) {
    IsUpper(c) || IsLower(c)
  }

  /** The class `\w` on ASCII: letters, digits and underscore. */
  predicate IsWordChar(c: char) {
    IsLetter(c) || IsDigit(c) || c == '_'
  }

  function ToLower(c: char): (d: char)
    ensures IsLetter(c) <==> IsLetter(d)
    ensures !IsUpper(d)
    ensures !IsLetter(c) ==> d == c
  {
    if IsUpper(c) then (c as int + 32) as char else c
  }

  function ToUpper(c: char): (d: char)
    ensures IsLetter(c) <==> IsLetter(d)
    ensures !IsLower(d)
    ensures !IsLetter(c) ==> d == c
  {
    if IsLower(c) then (c as int - 32) as char else c
  }

  /** `str.lower()` on ASCII text. */
  function LowerStr(s: string): (r: string)
    ensures |r| == |s|
    ensures forall i :: 0 <= i < |s| ==> r[i] == ToLower(s[i])
  {
    seq(|s|, i requires 0 <= i < |s| => ToLower(s[i]))
  }

  /** `str.capitalize()` on ASCII text: the first character upper-cased, all others
      lower-cased. Only letters change; the result agrees with the input up to case. */
  function Capitalize(w: string): (r: string)
    ensures |r| == |w|
    ensures LowerStr(r) == LowerStr(w)
    ensures forall i :: 0 <= i < |w| ==> (IsSpace(r[i]) <==> IsSpace(w[i]))
    ensures |r| > 0 ==> !IsLower(r[0])
    ensures forall i :: 1 <= i < |r| ==> !IsUpper(r[i])
  {
    if |w| == 0 then [] else [ToUpper(w[0])] + LowerStr(w[1..])
  }

  lemma LowerStrAppend(a: string, b: string)
    ensures LowerStr(a + b) == LowerStr(a) + LowerStr(b)
  {
  }
}
