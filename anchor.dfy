/**
 * Anchor sanitisation for the `package` command's templates
 * (`sanitizeAnchor` and `isAlphaNumeric` in cmd/package.go): a left-to-right
 * pass over the characters of a name that writes '-' for a hyphen or a
 * space, the lower-case form of a letter, digit or underscore, and nothing
 * for any other character.
 *
 * The input is a sequence of already decoded characters. The Unicode
 * letter and digit classes and the lower-case mapping are parameters
 * (`Classes`); `Ascii` is their ASCII instance.
 */
module Anchor {

  /** The character classes and case mapping the filter consults. */
  datatype Classes = Classes(isLetter: char -> bool, isDigit: char -> bool, toLower: char -> char)

  /** An ASCII letter. */
  predicate AsciiLetter(c: char)
  {
    'a' <= c <= 'z' || 'A' <= c <= 'Z'
  }

  /** An ASCII digit. */
  predicate AsciiDigit(c: char)
  {
    '0' <= c <= '9'
  }

  /** ASCII lower-casing: an upper-case letter becomes its lower-case partner. */
  function AsciiLower(c: char): char
  {
    if 'A' <= c <= 'Z' then (c as int + 32) as char else c
  }

  /** The classes restricted to ASCII. */
  function Ascii(): Classes
  {
    Classes(AsciiLetter, AsciiDigit, AsciiLower)
  }

  /**
   * What the ASCII classes say about one character: the 52 ASCII letters are
   * letters, the ten ASCII digits are digits and nothing else is either;
   * lower-casing sends an upper-case letter to its partner 32 code points up,
   * sends every letter into 'a'..'z', and leaves every other character alone.
   */
  lemma AsciiClasses(c: char)
    ensures 'a' <= c <= 'z' || 'A' <= c <= 'Z' ==> Ascii().isLetter(c)
    ensures '0' <= c <= '9' ==> Ascii().isDigit(c)
    ensures Ascii().isLetter(c) ==> 'a' <= Ascii().toLower(c) <= 'z'
    ensures Ascii().isDigit(c) ==> '0' <= c <= '9' && !Ascii().isLetter(c)
    ensures 'A' <= c <= 'Z' ==> Ascii().toLower(c) as int == c as int + 32
    ensures !('A' <= c <= 'Z') ==> Ascii().toLower(c) == c
  {
  }

  /** `isAlphaNumeric`: an underscore, a letter or a digit. */
  predicate IsAlphaNumeric(cl: Classes, r: char)
  {
    r == '_' || cl.isLetter(r) || cl.isDigit(r)
  }

  /** Whether a character contributes to the anchor at all. */
  predicate Kept(cl: Classes, r: char)
  {
    r == '-' || r == ' ' || IsAlphaNumeric(cl, r)
  }

  /** What one character of the input writes to the anchor: at most one character. */
  function AnchorChar(cl: Classes, r: char): (out: seq<char>)
    ensures |out| <= 1
    ensures |out| == 1 <==> Kept(cl, r)
  {
    if r == '-' || r == ' ' then ['-']
    else if IsAlphaNumeric(cl, r) then [cl.toLower(r)]
    else []
  }

  /** The anchor of `s`: every character's contribution, in input order. */
  function Sanitized(cl: Classes, s: seq<char>): (out: seq<char>)
    ensures |out| <= |s|
    decreases |s|
  {
    if s == [] then [] else AnchorChar(cl, s[0]) + Sanitized(cl, s[1..])
  }

  /**
   * `sanitizeAnchor`: consumes the input from the front one character at a
   * time, writing each character's contribution to a buffer, and returns a
   * copy of the buffer.
   */
  method SanitizeAnchor(cl: Classes, input: seq<char>) returns (result: seq<char>)
    ensures result == Sanitized(cl, input)
  {
    var b := input;
    var buf: seq<char> := [];
    while |b| > 0
      invariant |b| <= |input| && b == input[|input| - |b|..]
      invariant buf == Sanitized(cl, input[..|input| - |b|])
    {
      var r := b[0];
      ghost var done := input[..|input| - |b|];
      if r == '-' || r == ' ' {
        buf := buf + ['-'];
      } else if IsAlphaNumeric(cl, r) {
        buf := buf + [cl.toLower(r)];
      }
      assert input[..|input| - |b| + 1] == done + [r];
      SanitizedAppend(cl, done, [r]);
      b := b[1..];
    }
    assert input[..|input|] == input;
    result := buf;
  }

  /**
   * The filter works character by character, left to right: the anchor of a
   * concatenation is the concatenation of the anchors.
   */
  lemma {:induction false} SanitizedAppend(cl: Classes, x: seq<char>, y: seq<char>)
    ensures Sanitized(cl, x + y) == Sanitized(cl, x) + Sanitized(cl, y)
    decreases |x|
  {
    if x == [] {
      assert x + y == y;
    } else {
      assert (x + y)[1..] == x[1..] + y;
      SanitizedAppend(cl, x[1..], y);
    }
  }

  /**
   * A single character on its own: '-' and ' ' give "-", a letter, digit or
   * underscore gives its lower-case form, anything else gives nothing.
   */
  lemma SanitizedSingle(cl: Classes, r: char)
    ensures r == '-' || r == ' ' ==> Sanitized(cl, [r]) == ['-']
    ensures r != '-' && r != ' ' && IsAlphaNumeric(cl, r) ==> Sanitized(cl, [r]) == [cl.toLower(r)]
    ensures !Kept(cl, r) ==> Sanitized(cl, [r]) == []
  {
    assert [r][1..] == [];
  }

  /** The anchor is empty exactly when no character of the input is kept; the empty input gives the empty anchor. */
  lemma {:induction false} SanitizedEmpty(cl: Classes, s: seq<char>)
    ensures Sanitized(cl, s) == [] <==> forall i :: 0 <= i < |s| ==> !Kept(cl, s[i])
    decreases |s|
  {
    if s != [] {
      SanitizedEmpty(cl, s[1..]);
      assert forall i :: 1 <= i < |s| ==> s[i] == s[1..][i - 1];
    }
  }

  /** The number of characters of `s` that are kept, counted from the back. */
  function KeptCount(cl: Classes, s: seq<char>): nat
    decreases |s|
  {
    if s == [] then 0
    else KeptCount(cl, s[..|s| - 1]) + (if Kept(cl, s[|s| - 1]) then 1 else 0)
  }

  /** The anchor has one character for every kept character of the input. */
  lemma {:induction false} SanitizedLength(cl: Classes, s: seq<char>)
    ensures |Sanitized(cl, s)| == KeptCount(cl, s)
    decreases |s|
  {
    if s != [] {
      var init, last := s[..|s| - 1], s[|s| - 1];
      assert s == init + [last];
      SanitizedLength(cl, init);
      SanitizedAppend(cl, init, [last]);
      assert Sanitized(cl, [last]) == AnchorChar(cl, last) + Sanitized(cl, []);
    }
  }

  /**
   * Every character of the anchor is '-' or the lower-case form of a letter,
   * digit or underscore of the input.
   */
  lemma {:induction false} SanitizedChars(cl: Classes, s: seq<char>)
    ensures forall i :: 0 <= i < |Sanitized(cl, s)| ==>
      Sanitized(cl, s)[i] == '-' ||
      exists j :: 0 <= j < |s| && IsAlphaNumeric(cl, s[j]) && Sanitized(cl, s)[i] == cl.toLower(s[j])
    decreases |s|
  {
    if s != [] {
      SanitizedChars(cl, s[1..]);
      var head, tail := AnchorChar(cl, s[0]), Sanitized(cl, s[1..]);
      forall i | 0 <= i < |head + tail| && (head + tail)[i] != '-'
        ensures exists j :: 0 <= j < |s| && IsAlphaNumeric(cl, s[j]) && (head + tail)[i] == cl.toLower(s[j])
      {
        if i < |head| {
          assert IsAlphaNumeric(cl, s[0]) && (head + tail)[i] == cl.toLower(s[0]);
        } else {
          assert (head + tail)[i] == tail[i - |head|];
          var j :| 0 <= j < |s[1..]| && IsAlphaNumeric(cl, s[1..][j]) && tail[i - |head|] == cl.toLower(s[1..][j]);
          assert s[j + 1] == s[1..][j];
        }
      }
    }
  }

  /**
   * With the ASCII classes, a character is alphanumeric exactly when it is an
   * underscore, an ASCII letter or an ASCII digit, and its lower-case form is
   * then an underscore, a lower-case letter or a digit.
   */
  lemma AsciiAlphaNumeric(r: char)
    ensures IsAlphaNumeric(Ascii(), r) <==> r == '_' || 'a' <= r <= 'z' || 'A' <= r <= 'Z' || '0' <= r <= '9'
    ensures IsAlphaNumeric(Ascii(), r) ==> AnchorSafe(Ascii().toLower(r))
  {
  }

  /** The characters an ASCII anchor is made of. */
  predicate AnchorSafe(c: char)
  {
    c == '-' || c == '_' || 'a' <= c <= 'z' || '0' <= c <= '9'
  }

  /**
   * With the ASCII classes, an anchor holds only '-', '_', lower-case letters
   * and digits: no spaces and no upper case.
   */
  lemma {:induction false} AsciiSanitizedSafe(s: seq<char>)
    ensures forall i :: 0 <= i < |Sanitized(Ascii(), s)| ==> AnchorSafe(Sanitized(Ascii(), s)[i])
    decreases |s|
  {
    if s != [] {
      AsciiSanitizedSafe(s[1..]);
      var head, tail := AnchorChar(Ascii(), s[0]), Sanitized(Ascii(), s[1..]);
      assert forall i :: 0 <= i < |head| ==> AnchorSafe(head[i]);
      assert forall i :: |head| <= i < |head + tail| ==> (head + tail)[i] == tail[i - |head|];
    }
  }

  /** With the ASCII classes, an anchor is its own anchor. */
  lemma {:induction false} AsciiSanitizedIdempotent(s: seq<char>)
    ensures Sanitized(Ascii(), Sanitized(Ascii(), s)) == Sanitized(Ascii(), s)
  {
    AsciiSanitizedSafe(s);
    SafeFixed(Sanitized(Ascii(), s));
  }

  /** An ASCII-safe string is left as it is. */
  lemma {:induction false} SafeFixed(t: seq<char>)
    requires forall i :: 0 <= i < |t| ==> AnchorSafe(t[i])
    ensures Sanitized(Ascii(), t) == t
    decreases |t|
  {
    if t != [] {
      assert forall i :: 0 <= i < |t[1..]| ==> t[1..][i] == t[i + 1];
      SafeFixed(t[1..]);
      assert AnchorChar(Ascii(), t[0]) == [t[0]];
      assert [t[0]] + t[1..] == t;
    }
  }
}
