/** The string predicates and conversions of java.lang.String that the services use. */
module Text {
  import opened Common

  /** Character.isWhitespace for one char: the Unicode space separators other than the
      no-break spaces, and the controls HT, LF, VT, FF, CR and FS, GS, RS, US. */
  predicate IsWhitespace(c: char)
  {
    || c == ' '
    || ('\t' <= c <= '\r')
    || ('\U{1C}' <= c <= '\U{1F}')
    || c == '\U{1680}'
    || ('\U{2000}' <= c <= '\U{2006}')
    || ('\U{2008}' <= c <= '\U{200A}')
    || c == '\U{2028}' || c == '\U{2029}' || c == '\U{205F}' || c == '\U{3000}'
  }

  /** String.isBlank: empty, or whitespace only. */
  predicate IsBlank(s: string)
  {
    forall i | 0 <= i < |s| :: IsWhitespace(s[i])
  }

  /** The guard `s == null || s.isBlank()` that the services repeat. */
  predicate NullOrBlank(s: Option<string>)
  {
    s.None? || IsBlank(s.value)
  }

  /** Bean Validation's @NotBlank: not null and `trim()` leaves something, which is to
      say some char lies above U+0020. */
  predicate NotBlank(s: Option<string>)
  {
    s.Some? && exists i | 0 <= i < |s.value| :: s.value[i] > ' '
  }

  /** @NotBlank and `isBlank` disagree both ways: an ideographic space passes the first
      although it is blank to the second, and a lone NUL fails the first although it is
      not blank to the second. */
  lemma NotBlankIsNotIsBlank()
    ensures NotBlank(Some("\U{3000}")) && IsBlank("\U{3000}")
    ensures !NotBlank(Some("\U{0}")) && !IsBlank("\U{0}")
  {
    assert "\U{3000}"[0] > ' ';
    assert !IsWhitespace("\U{0}"[0]);
  }

  /** On text made of ASCII only, the two agree. */
  lemma NotBlankOnAscii(s: string)
    requires forall i | 0 <= i < |s| :: s[i] as int < 0x80 && (s[i] <= ' ' ==> IsWhitespace(s[i]))
    ensures NotBlank(Some(s)) <==> !IsBlank(s)
  {
  }

  function UpperChar(c: char): char
  {
    if 'a' <= c <= 'z' then (c as int - 32) as char else c
  }

  /** String.toUpperCase, on the ASCII letters (currency codes are ISO 4217 letters). */
  function ToUpper(s: string): (r: string)
    ensures |r| == |s|
    ensures forall i | 0 <= i < |s| :: r[i] == UpperChar(s[i])
  {
    seq(|s|, i requires 0 <= i < |s| => UpperChar(s[i]))
  }

  /** Upper-casing leaves no lower-case ASCII letter and changes nothing else. */
  lemma ToUpperMeaning(s: string)
    ensures forall i | 0 <= i < |s| :: !('a' <= ToUpper(s)[i] <= 'z')
    ensures forall i | 0 <= i < |s| :: !('a' <= s[i] <= 'z') ==> ToUpper(s)[i] == s[i]
    ensures forall i | 0 <= i < |s| :: 'a' <= s[i] <= 'z' ==> ToUpper(s)[i] as int == s[i] as int - 32
  {
  }

  lemma ToUpperIdempotent(s: string)
    ensures ToUpper(ToUpper(s)) == ToUpper(s)
  {
  }

  /** Upper-casing never turns a blank string into a non-blank one, or back. */
  lemma ToUpperKeepsBlankness(s: string)
    ensures IsBlank(ToUpper(s)) <==> IsBlank(s)
  {
    assert forall i | 0 <= i < |s| :: IsWhitespace(s[i]) ==> ToUpper(s)[i] == s[i];
    assert forall i | 0 <= i < |s| :: IsWhitespace(ToUpper(s)[i]) ==> ToUpper(s)[i] == s[i];
  }
}
