/** The few java.lang.String operations the server and client rely on, over ASCII: case
    mapping, `equalsIgnoreCase` and `isBlank`. */
module Text {
  /** `Character.toLowerCase` on ASCII letters; every other character is kept. */
  function ToLower(c: char): char {
    if 'A' <= c <= 'Z' then (c as int + 32) as char else c
  }

  /** `Character.toUpperCase` on ASCII letters; every other character is kept. */
  function ToUpper(c: char): char {
    if 'a' <= c <= 'z' then (c as int - 32) as char else c
  }

  /** `String.toLowerCase`, character by character. */
  function LowerCase(s: string): (r: string)
    ensures |r| == |s|
    ensures forall i :: 0 <= i < |s| ==> r[i] == ToLower(s[i])
    ensures forall i :: 0 <= i < |r| ==> !('A' <= r[i] <= 'Z')
  {
    if |s| == 0 then "" else [ToLower(s[0])] + LowerCase(s[1..])
  }

  /** `String.toUpperCase`, character by character. */
  function UpperCase(s: string): (r: string)
    ensures |r| == |s|
    ensures forall i :: 0 <= i < |s| ==> r[i] == ToUpper(s[i])
    ensures forall i :: 0 <= i < |r| ==> !('a' <= r[i] <= 'z')
  {
    if |s| == 0 then "" else [ToUpper(s[0])] + UpperCase(s[1..])
  }

  /** `String.equalsIgnoreCase`: same length, and the characters agree once upper-cased. */
  predicate EqualsIgnoreCase(a: string, b: string) {
    |a| == |b| && forall i :: 0 <= i < |a| ==> ToUpper(a[i]) == ToUpper(b[i])
  }

  /** The characters `Character.isWhitespace` accepts below 128: space, tab, line feed,
      vertical tab, form feed, carriage return and the four separators 0x1C-0x1F. */
  predicate IsWhitespace(c: char) {
    c == ' ' || '\t' <= c <= '\r' || '\U{1C}' <= c <= '\U{1F}'
  }

  /** `String.isBlank`: empty, or whitespace only. */
  predicate IsBlank(s: string) {
    forall i :: 0 <= i < |s| ==> IsWhitespace(s[i])
  }

  /** Lower-casing changes no letter's identity up to case: the result equals the input
      ignoring case, and lower-casing twice is lower-casing once. */
  lemma LowerCaseIgnoresCase(s: string)
    ensures EqualsIgnoreCase(LowerCase(s), s)
    ensures LowerCase(LowerCase(s)) == LowerCase(s)
  {
  }

  /** Strings equal ignoring case lower-case to the same string. */
  lemma {:induction false} EqualIgnoringCaseLowerEqual(a: string, b: string)
    requires EqualsIgnoreCase(a, b)
    ensures LowerCase(a) == LowerCase(b)
  {
    if |a| > 0 {
      assert ToUpper(a[0]) == ToUpper(b[0]);
      EqualIgnoringCaseLowerEqual(a[1..], b[1..]);
    }
  }

  /** No string is both "WHITE" and "BLACK" ignoring case. */
  lemma WhiteIsNotBlack(s: string)
    ensures !(EqualsIgnoreCase("WHITE", s) && EqualsIgnoreCase("BLACK", s))
  {
    if EqualsIgnoreCase("WHITE", s) {
      assert ToUpper(s[0]) == 'W';
    }
  }
}
