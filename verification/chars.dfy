/**
 * Character classes used by the tokenizer and by string trimming.
 *
 * The application relies on the Unicode properties `\p{L}` (letter), `\p{N}`
 * (number), the JavaScript `\s` class and `toLowerCase`. `IsSpace` is exactly
 * the JavaScript `\s` set; `IsLetter` and `Lower` cover the Latin, Greek,
 * Cyrillic and CJK blocks, and `IsNumber` the common decimal, superscript,
 * fraction, Roman, circled and full-width numbers, an approximation of
 * the full Unicode tables.
 */
module Chars {

  /** The ASCII digits, the only ones JavaScript's `Number` reads. */
  predicate IsDigit(c: char) { '0' <= c <= '9' }

  /** Characters of `\p{N}`: the ASCII digits and the common non-ASCII numbers. */
  predicate IsNumber(c: char) {
    || IsDigit(c)
    || c == '\U{00B2}' || c == '\U{00B3}' || c == '\U{00B9}'
    || ('\U{00BC}' <= c <= '\U{00BE}')
    || ('\U{0660}' <= c <= '\U{0669}')
    || ('\U{06F0}' <= c <= '\U{06F9}')
    || ('\U{0966}' <= c <= '\U{096F}')
    || ('\U{2070}' <= c <= '\U{2079}' && c != '\U{2071}' && c != '\U{2072}' && c != '\U{2073}')
    || ('\U{2080}' <= c <= '\U{2089}')
    || ('\U{2150}' <= c <= '\U{2189}' && c != '\U{2183}' && c != '\U{2184}')
    || ('\U{2460}' <= c <= '\U{249B}')
    || ('\U{FF10}' <= c <= '\U{FF19}')
  }

  predicate IsLetter(c: char) {
    || ('a' <= c <= 'z')
    || ('A' <= c <= 'Z')
    || ('\U{00C0}' <= c <= '\U{024F}' && c != '\U{00D7}' && c != '\U{00F7}')
    || ('\U{0386}' <= c <= '\U{03FF}' && c != '\U{0387}')
    || ('\U{0400}' <= c <= '\U{0481}')
    || ('\U{048A}' <= c <= '\U{052F}')
    || ('\U{4E00}' <= c <= '\U{9FFF}')
  }

  /** Characters matched by `[\p{L}\p{N}]`. */
  predicate IsWordChar(c: char) { IsLetter(c) || IsNumber(c) }

  /** The JavaScript `\s` class (WhiteSpace and LineTerminator code points). */
  predicate IsSpace(c: char) {
    || c == ' ' || c == '\t' || c == '\n' || c == '\r'
    || c == '\U{000B}' || c == '\U{000C}' || c == '\U{00A0}' || c == '\U{1680}'
    || ('\U{2000}' <= c <= '\U{200A}')
    || c == '\U{2028}' || c == '\U{2029}' || c == '\U{202F}' || c == '\U{205F}'
    || c == '\U{3000}' || c == '\U{FEFF}'
  }

  predicate IsUpper(c: char) {
    ('A' <= c <= 'Z') || ('\U{00C0}' <= c <= '\U{00DE}' && c != '\U{00D7}')
  }

  /** Per-character `toLowerCase`. */
  function Lower(c: char): (r: char)
    ensures IsUpper(c) ==> r as int == c as int + 32
    ensures !IsUpper(c) ==> r == c
    ensures !IsUpper(r)
    ensures IsLetter(r) <==> IsLetter(c)
    ensures IsSpace(r) <==> IsSpace(c)
  {
    if IsUpper(c) then (c as int + 32) as char else c
  }

  /** `toLowerCase` on a whole string, one character at a time. */
  function LowerStr(s: string): (r: string)
    ensures |r| == |s|
    ensures forall i :: 0 <= i < |s| ==> r[i] == Lower(s[i])
  {
    seq(|s|, i requires 0 <= i < |s| => Lower(s[i]))
  }

  lemma LowerIdempotent(c: char)
    ensures Lower(Lower(c)) == Lower(c)
  {
  }

  lemma LowerStrAppend(a: string, b: string)
    ensures LowerStr(a + b) == LowerStr(a) + LowerStr(b)
  {
  }
}
