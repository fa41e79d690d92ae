/**
 * The comparison of a guess with the challenge song's name:
 * `guess.trim().toLowerCase() === name.trim().toLowerCase()`.
 *
 * `trim` is modelled exactly: it removes the characters ECMAScript counts as
 * white space or line terminators from both ends. `toLowerCase` is modelled on
 * ASCII only: `A`..`Z` become `a`..`z` and every other character is kept.
 */
module GuessMatch {

  /** ECMAScript WhiteSpace (TAB, VT, FF, ZWNBSP and the Unicode category Zs) and LineTerminator. */
  predicate IsWhitespace(c: char)
  {
    || c == '\t' || c == '\U{000B}' || c == '\U{000C}' || c == ' ' || c == '\U{00A0}' || c == '\U{FEFF}'
    || c == '\U{1680}' || ('\U{2000}' <= c <= '\U{200A}') || c == '\U{202F}' || c == '\U{205F}' || c == '\U{3000}'
    || c == '\n' || c == '\r' || c == '\U{2028}' || c == '\U{2029}'
  }

  predicate AllWhitespace(s: string)
  {
    forall i :: 0 <= i < |s| ==> IsWhitespace(s[i])
  }

  lemma AllWhitespaceConcat(a: string, b: string)
    requires AllWhitespace(a) && AllWhitespace(b)
    ensures AllWhitespace(a + b)
  {
  }

  /** The first index at or after `i` that does not hold white space (or `|s|`). */
  function SkipLeading(s: string, i: nat): (k: nat)
    requires i <= |s|
    ensures i <= k <= |s|
    ensures forall j :: i <= j < k ==> IsWhitespace(s[j])
    ensures k == |s| || !IsWhitespace(s[k])
    decreases |s| - i
  {
    if i < |s| && IsWhitespace(s[i]) then SkipLeading(s, i + 1) else i
  }

  /** The end of `s[lo..j]` once its trailing white space is dropped. */
  function SkipTrailing(s: string, lo: nat, j: nat): (k: nat)
    requires lo <= j <= |s|
    ensures lo <= k <= j
    ensures forall m :: k <= m < j ==> IsWhitespace(s[m])
    ensures k == lo || !IsWhitespace(s[k - 1])
    decreases j
  {
    if lo < j && IsWhitespace(s[j - 1]) then SkipTrailing(s, lo, j - 1) else j
  }

  /** `trim`: the string without white space at either end. */
  function Trim(s: string): (r: string)
    ensures r == [] || (!IsWhitespace(r[0]) && !IsWhitespace(r[|r| - 1]))
  {
    var a := SkipLeading(s, 0);
    s[a..SkipTrailing(s, a, |s|)]
  }

  predicate IsAsciiUpper(c: char)
  {
    'A' <= c <= 'Z'
  }

  /** ASCII `toLowerCase` of one character. */
  function LowerChar(c: char): (d: char)
    ensures !IsAsciiUpper(d)
    ensures !IsAsciiUpper(c) ==> d == c
    ensures IsAsciiUpper(c) ==> d == "abcdefghijklmnopqrstuvwxyz"[c as int - 'A' as int]
    ensures IsWhitespace(d) <==> IsWhitespace(c)
  {
    if IsAsciiUpper(c) then (c as int - 'A' as int + 'a' as int) as char else c
  }

  /** ASCII `toLowerCase` of a string. */
  function Lower(s: string): string
  {
    seq(|s|, i requires 0 <= i < |s| => LowerChar(s[i]))
  }

  /** The form both sides of the comparison are brought to. */
  function Normalize(s: string): string
  {
    Lower(Trim(s))
  }

  /** Whether a guess names the challenge song. */
  predicate GuessMatches(guess: string, name: string)
  {
    Normalize(guess) == Normalize(name)
  }

  /** The core of a string: its leading and trailing white space split off. */
  lemma TrimSplits(s: string) returns (pre: string, post: string)
    ensures s == pre + Trim(s) + post
    ensures AllWhitespace(pre) && AllWhitespace(post)
  {
    var a := SkipLeading(s, 0);
    var b := SkipTrailing(s, a, |s|);
    pre, post := s[..a], s[b..];
    assert s == s[..a] + s[a..b] + s[b..];
  }

  /**
   * `trim` returns exactly the core: whatever white space surrounds a string
   * whose ends are not white space, trimming gives that string back.
   */
  lemma TrimUnique(pre: string, core: string, post: string)
    requires AllWhitespace(pre) && AllWhitespace(post)
    requires core == [] || (!IsWhitespace(core[0]) && !IsWhitespace(core[|core| - 1]))
    ensures Trim(pre + core + post) == core
  {
    var s := pre + core + post;
    var a := SkipLeading(s, 0);
    if core != [] {
      assert s[|pre|] == core[0];
      assert s[|pre| + |core| - 1] == core[|core| - 1];
      assert s[a..SkipTrailing(s, a, |s|)] == core;
    }
  }

  lemma LowerConcat(a: string, b: string)
    ensures Lower(a + b) == Lower(a) + Lower(b)
  {
  }

  lemma LowerKeepsWhitespace(s: string)
    requires AllWhitespace(s)
    ensures AllWhitespace(Lower(s))
  {
  }

  /** Lower-casing changes no white space, so it commutes with trimming. */
  lemma TrimLowerCommute(s: string)
    ensures Trim(Lower(s)) == Lower(Trim(s))
  {
    var pre, post := TrimSplits(s);
    var core := Trim(s);
    LowerConcat(pre, core);
    LowerConcat(pre + core, post);
    LowerKeepsWhitespace(pre);
    LowerKeepsWhitespace(post);
    TrimUnique(Lower(pre), Lower(core), Lower(post));
  }

  /** White space added around a guess (or a song name) does not change whether it matches. */
  lemma NormalizeIgnoresPadding(pre: string, s: string, post: string)
    requires AllWhitespace(pre) && AllWhitespace(post)
    ensures Normalize(pre + s + post) == Normalize(s)
  {
    var p, q := TrimSplits(s);
    var core := Trim(s);
    AllWhitespaceConcat(pre, p);
    AllWhitespaceConcat(q, post);
    assert pre + s + post == (pre + p) + core + (q + post);
    TrimUnique(pre + p, core, q + post);
  }

  /** The same character, or one ASCII letter as a capital and as a small letter. */
  predicate SameIgnoringAsciiCase(c: char, e: char)
  {
    || c == e
    || (IsAsciiUpper(c) && e as int == c as int + 32)
    || (IsAsciiUpper(e) && c as int == e as int + 32)
  }

  /** Equal strings, up to the case of ASCII letters. */
  predicate EqualIgnoringAsciiCase(a: string, b: string)
  {
    |a| == |b| && forall i :: 0 <= i < |a| ==> SameIgnoringAsciiCase(a[i], b[i])
  }

  lemma LowerCharEqual(c: char, e: char)
    ensures LowerChar(c) == LowerChar(e) <==> SameIgnoringAsciiCase(c, e)
  {
  }

  /** Two strings lower-case alike exactly when they are equal up to ASCII case. */
  lemma LowerEqual(a: string, b: string)
    ensures Lower(a) == Lower(b) <==> EqualIgnoringAsciiCase(a, b)
  {
    if Lower(a) == Lower(b) {
      forall i | 0 <= i < |a| ensures SameIgnoringAsciiCase(a[i], b[i]) {
        assert Lower(a)[i] == Lower(b)[i];
        LowerCharEqual(a[i], b[i]);
      }
    }
    if EqualIgnoringAsciiCase(a, b) {
      forall i | 0 <= i < |a| ensures Lower(a)[i] == Lower(b)[i] {
        LowerCharEqual(a[i], b[i]);
      }
    }
  }

  /**
   * A guess matches a name exactly when, once both are trimmed, they are equal
   * up to the case of ASCII letters: any other difference makes it fail.
   */
  lemma GuessMatchesExactly(guess: string, name: string)
    ensures GuessMatches(guess, name) <==> EqualIgnoringAsciiCase(Trim(guess), Trim(name))
  {
    LowerEqual(Trim(guess), Trim(name));
  }

  /** Two strings that differ only in the case of ASCII letters normalise alike. */
  lemma NormalizeIgnoresCase(a: string, b: string)
    requires EqualIgnoringAsciiCase(a, b)
    ensures Normalize(a) == Normalize(b)
  {
    LowerEqual(a, b);
    TrimLowerCommute(a);
    TrimLowerCommute(b);
  }

  // Two answers to a challenge on the song "Help".

  /** Padding and capitals do not matter. */
  lemma PaddedRecasedTitleMatches()
    ensures GuessMatches(" HELP\n", "Help")
  {
    assert AllWhitespace(" ") && AllWhitespace("\n");
    assert " HELP\n" == " " + "HELP" + "\n";
    NormalizeIgnoresPadding(" ", "HELP", "\n");
    NormalizeIgnoresCase("HELP", "Help");
  }

  lemma HelpTrimsToItself()
    ensures Trim("Help") == "Help"
  {
    assert "Help" == [] + "Help" + [];
    TrimUnique([], "Help", []);
  }

  lemma HellTrimsToItself()
    ensures Trim("Hell") == "Hell"
  {
    assert "Hell" == [] + "Hell" + [];
    TrimUnique([], "Hell", []);
  }

  /** A title of the same length that differs in one letter does not match. */
  lemma OtherTitleDoesNotMatch()
    ensures !GuessMatches("Hell", "Help")
  {
    HelpTrimsToItself();
    HellTrimsToItself();
    GuessMatchesExactly("Hell", "Help");
    assert !SameIgnoringAsciiCase("Hell"[3], "Help"[3]);
  }
}
