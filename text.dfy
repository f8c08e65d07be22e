/** Text normalisation and whole-word keyword matching, as the intent
    classifier uses them: the input is lower-cased, and a keyword of a
    pattern `\b(k1|k2|...)\b` counts only where it stands as a whole word.

    The model works over ASCII: only 'A'..'Z' are lower-cased, and the word
    characters of `\b` are [A-Za-z0-9_]. */
module Text {

  /** Lower-cases one character (ASCII letters only). */
  function LowerChar(c: char): (d: char)
    ensures 'A' <= c <= 'Z' ==> d as int == c as int + 32
    ensures !('A' <= c <= 'Z') ==> d == c
    ensures !('A' <= d <= 'Z')
  {
    if 'A' <= c <= 'Z' then (c as int + 32) as char else c
  }

  /** The text as `str.lower()` gives it, restricted to ASCII. */
  function Lower(s: string): (r: string)
    ensures |r| == |s|
    ensures forall i :: 0 <= i < |s| ==> r[i] == LowerChar(s[i])
  {
    seq(|s|, i requires 0 <= i < |s| => LowerChar(s[i]))
  }

  /** Lower-casing twice is lower-casing once. */
  lemma LowerIdempotent(s: string)
    ensures Lower(Lower(s)) == Lower(s)
  {
  }

  /** The characters `\w` matches: ASCII letters, digits and the underscore. */
  predicate IsWordChar(c: char)
  {
    ('a' <= c <= 'z') || ('A' <= c <= 'Z') || ('0' <= c <= '9') || c == '_'
  }

  /** `\b` + word + `\b` matches in `t` at index `i`: the text spells `w`
      from `i`, and neither the character before nor the one after it is a
      word character (the start and the end of the text count as boundaries).
      Every keyword of the classifier begins and ends with a word character,
      which is what makes `\b` mean exactly this at both ends. */
  predicate WordAt(t: string, w: string, i: int)
  {
    && 0 <= i
    && i + |w| <= |t|
    && t[i..i + |w|] == w
    && (i == 0 || !IsWordChar(t[i - 1]))
    && (i + |w| == |t| || !IsWordChar(t[i + |w|]))
  }

  /** `re.search(r'\b(w)\b', t)` finds something. */
  predicate ContainsWord(t: string, w: string)
  {
    exists i | 0 <= i <= |t| :: WordAt(t, w, i)
  }

  /** The empty text contains no non-empty word. */
  lemma EmptyHasNoWord(w: string)
    requires w != []
    ensures !ContainsWord([], w)
  {
  }

  /** A word embedded in a longer word does not match there: if the
      character right before or right after the occurrence is a word
      character, the boundary fails. */
  lemma EmbeddedIsNoMatch(t: string, w: string, i: int)
    requires 0 <= i && i + |w| <= |t| && t[i..i + |w|] == w
    requires (0 < i && IsWordChar(t[i - 1])) || (i + |w| < |t| && IsWordChar(t[i + |w|]))
    ensures !WordAt(t, w, i)
  {
  }

  /** A keyword with a character the text lacks does not occur in it. */
  lemma MissingCharNoWord(t: string, w: string, c: char)
    requires c in w && c !in t
    ensures !ContainsWord(t, w)
  {
  }

  /** In a text made only of word characters (a single word), a keyword
      matches only when it is the whole text: a keyword embedded in a longer
      word, such as "hi" in "hit", never matches. */
  lemma {:induction false} SingleWordMatch(t: string, w: string)
    requires forall i :: 0 <= i < |t| ==> IsWordChar(t[i])
    ensures ContainsWord(t, w) <==> w == t
  {
    if ContainsWord(t, w) {
      var i :| 0 <= i <= |t| && WordAt(t, w, i);
      assert i == 0;
      assert i + |w| == |t|;
    }
    if w == t {
      assert WordAt(t, w, 0);
    }
  }
}
