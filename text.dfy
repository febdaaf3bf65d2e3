/** The Kotlin character and string operations the core calls (JVM behaviour, locale-independent):
    `Char.isWhitespace`, `CharSequence.isBlank`, `String?.isNullOrBlank`, `String.uppercase` and
    `String.lowercase`. */
module Text {
  import opened Wrappers

  /** `Char.isWhitespace` on the JVM: `Character.isWhitespace(c) || Character.isSpaceChar(c)`, i.e. the ASCII
      controls TAB, LF, VT, FF, CR and the four information separators, plus every Unicode space, line and
      paragraph separator (the no-break spaces included). */
  predicate IsWhitespace(c: char) {
    || ('\t' <= c <= '\r')
    || ('\U{1C}' <= c <= ' ')
    || c == '\U{A0}'
    || c == '\U{1680}'
    || ('\U{2000}' <= c <= '\U{200A}')
    || c == '\U{2028}' || c == '\U{2029}' || c == '\U{202F}' || c == '\U{205F}'
    || c == '\U{3000}'
  }

  /** Which characters count as whitespace: the ASCII controls and space, the no-break spaces (which
      `Character.isWhitespace` alone would reject) and the ideographic space; not NEL, the zero-width space or
      a printable character. */
  lemma WhitespaceCases()
    ensures IsWhitespace('\t') && IsWhitespace('\n') && IsWhitespace('\r') && IsWhitespace(' ')
    ensures IsWhitespace('\U{1F}') && IsWhitespace('\U{A0}') && IsWhitespace('\U{2007}') && IsWhitespace('\U{202F}')
    ensures IsWhitespace('\U{3000}') && IsWhitespace('\U{2028}')
    ensures !IsWhitespace('\U{85}') && !IsWhitespace('\U{200B}') && !IsWhitespace('\U{FEFF}') && !IsWhitespace('\U{0}')
    ensures forall c :: '!' <= c <= '~' ==> !IsWhitespace(c)
  {
  }

  /** `CharSequence.isBlank`: every character is whitespace (so the empty string is blank). */
  function IsBlank(s: string): (b: bool)
    ensures b <==> forall i :: 0 <= i < |s| ==> IsWhitespace(s[i])
    ensures !b ==> |s| > 0
  {
    if s == [] then true
    else
      assert forall i :: 1 <= i < |s| ==> s[i] == s[1..][i - 1];
      IsWhitespace(s[0]) && IsBlank(s[1..])
  }

  /** `String?.isNullOrBlank`. */
  function IsNullOrBlank(s: Option<string>): (b: bool)
    ensures !b <==> s.Some? && exists i :: 0 <= i < |s.value| && !IsWhitespace(s.value[i])
  {
    match s
    case None => true
    case Some(t) => IsBlank(t)
  }

  predicate IsAsciiUpper(c: char) { 'A' <= c <= 'Z' }
  predicate IsAsciiLower(c: char) { 'a' <= c <= 'z' }

  /** A string made of ASCII characters only, none of them an upper-case letter. */
  predicate IsLowerAscii(s: string) {
    forall i :: 0 <= i < |s| ==> s[i] < '\U{80}' && !IsAsciiUpper(s[i])
  }

  /** A string made of upper-case ASCII letters and underscores, the shape of an enum constant's name. */
  predicate IsConstantName(s: string) {
    forall i :: 0 <= i < |s| ==> IsAsciiUpper(s[i]) || s[i] == '_'
  }

  /** The upper case of one character under `String.uppercase()` (`toUpperCase(Locale.ROOT)`), which may be
      longer than one character. Written out are the ASCII letters and every non-ASCII character whose upper
      case consists of ASCII letters only: sharp s, dotless i, long s and the Latin ligatures U+FB00-U+FB06.
      Every other character is mapped to itself; for a non-ASCII one the true upper case still contains a
      non-ASCII character, which is all that decides whether a key can match an enum constant. */
  function UpperChar(c: char): (r: string)
    ensures c < '\U{80}' ==> |r| == 1 && !IsAsciiLower(r[0]) && LowerChar(r[0]) == LowerChar(c)
  {
    if c < '\U{80}' then [if IsAsciiLower(c) then (c as int - 32) as char else c]
    else if c == '\U{DF}' then "SS"
    else if c == '\U{131}' then "I"
    else if c == '\U{17F}' then "S"
    else if c == '\U{FB00}' then "FF"
    else if c == '\U{FB01}' then "FI"
    else if c == '\U{FB02}' then "FL"
    else if c == '\U{FB03}' then "FFI"
    else if c == '\U{FB04}' then "FFL"
    else if c == '\U{FB05}' || c == '\U{FB06}' then "ST"
    else [c]
  }

  /** `String.uppercase()`: the concatenation of the upper cases of the characters. */
  function Upper(s: string): (r: string)
  {
    if s == [] then [] else UpperChar(s[0]) + Upper(s[1..])
  }

  /** Upper-casing distributes over concatenation. */
  lemma {:induction false} UpperAppend(a: string, b: string)
    ensures Upper(a + b) == Upper(a) + Upper(b)
  {
    if a == [] {
      assert a + b == b;
    } else {
      calc {
        Upper(a + b);
        UpperChar(a[0]) + Upper((a + b)[1..]);
        { assert (a + b)[1..] == a[1..] + b; }
        UpperChar(a[0]) + Upper(a[1..] + b);
        { UpperAppend(a[1..], b); }
        UpperChar(a[0]) + (Upper(a[1..]) + Upper(b));
      }
    }
  }

  /** Upper-casing never shortens a string and leaves no ASCII lower-case letter in it. */
  lemma {:induction false} UpperNoLowerAscii(s: string)
    ensures |Upper(s)| >= |s|
    ensures forall i :: 0 <= i < |Upper(s)| ==> !IsAsciiLower(Upper(s)[i])
  {
    if s != [] {
      UpperNoLowerAscii(s[1..]);
      var head := UpperChar(s[0]);
      assert Upper(s) == head + Upper(s[1..]);
      assert forall i :: 0 <= i < |head| ==> !IsAsciiLower(head[i]);
    }
  }

  /** The non-ASCII characters whose upper case is ASCII, one character possibly becoming two or three:
      sharp s, dotless i, long s and the Latin ligatures U+FB00-U+FB06. */
  lemma UpperSpecialCases()
    ensures Upper("\U{DF}") == "SS" && Upper("\U{131}") == "I" && Upper("\U{17F}") == "S"
    ensures Upper("\U{FB00}") == "FF" && Upper("\U{FB01}") == "FI" && Upper("\U{FB02}") == "FL"
    ensures Upper("\U{FB03}") == "FFI" && Upper("\U{FB04}") == "FFL"
    ensures Upper("\U{FB05}") == "ST" && Upper("\U{FB06}") == "ST"
  {
    UpperOne('\U{DF}'); UpperOne('\U{131}'); UpperOne('\U{17F}');
    UpperOne('\U{FB00}'); UpperOne('\U{FB01}'); UpperOne('\U{FB02}'); UpperOne('\U{FB03}');
    UpperOne('\U{FB04}'); UpperOne('\U{FB05}'); UpperOne('\U{FB06}');
  }

  /** A one-character string upper-cases as its character does. */
  lemma UpperOne(c: char)
    ensures Upper([c]) == UpperChar(c)
  {
    assert [c][1..] == [];
  }

  /** The lower case of an ASCII upper-case letter; every other character is unchanged. */
  function LowerChar(c: char): (r: char)
    ensures IsAsciiUpper(c) ==> IsAsciiLower(r) && r as int == c as int + 32
    ensures !IsAsciiUpper(c) ==> r == c
  {
    if IsAsciiUpper(c) then (c as int + 32) as char else c
  }

  /** `String.lowercase()`, restricted to ASCII upper-case letters: the core applies it to enum constant names
      only, which are ASCII. */
  function Lower(s: string): (r: string)
    ensures |r| == |s|
    ensures forall i :: 0 <= i < |s| ==> r[i] == LowerChar(s[i])
  {
    if s == [] then [] else [LowerChar(s[0])] + Lower(s[1..])
  }

  /** On ASCII text, upper-casing works character by character and keeps the length. */
  lemma {:induction false} UpperAscii(s: string)
    requires forall i :: 0 <= i < |s| ==> s[i] < '\U{80}'
    ensures |Upper(s)| == |s|
    ensures forall i :: 0 <= i < |s| ==> Upper(s)[i] == UpperChar(s[i])[0]
  {
    if s != [] {
      UpperAscii(s[1..]);
      assert forall i :: 1 <= i < |s| ==> s[i] == s[1..][i - 1];
    }
  }

  /** Lower-casing a constant name gives a lower-case ASCII string that upper-cases back to the name. */
  lemma {:induction false} LowerThenUpper(s: string)
    requires IsConstantName(s)
    ensures IsLowerAscii(Lower(s))
    ensures Upper(Lower(s)) == s
  {
    if s != [] {
      assert IsConstantName(s[1..]) by {
        assert forall i :: 1 <= i < |s| ==> s[i] == s[1..][i - 1];
      }
      LowerThenUpper(s[1..]);
      assert Lower(s) == [LowerChar(s[0])] + Lower(s[1..]);
      assert Lower(s)[1..] == Lower(s[1..]);
    }
  }

  /** The converse on ASCII: a lower-case ASCII string that upper-cases to a constant name is that name
      lower-cased. */
  lemma UpperThenLower(k: string, name: string)
    requires IsLowerAscii(k)
    requires IsConstantName(name)
    requires Upper(k) == name
    ensures k == Lower(name)
  {
    UpperAscii(k);
    forall i | 0 <= i < |k| ensures k[i] == Lower(name)[i] {
      assert name[i] == UpperChar(k[i])[0];
    }
  }
}
