/** Text helpers the headline scorer relies on: ASCII lower-casing (the
    model of Python's str.lower on ASCII text) and substring search (the
    model of Python's `word in text`). */
module Text {

  /** Lower-cases one ASCII upper-case letter; every other character is kept. */
  function LowerChar(c: char): (r: char)
    ensures 'A' <= c <= 'Z' ==> 'a' <= r <= 'z' && r as int - c as int == 32
    ensures !('A' <= c <= 'Z') ==> r == c
  {
    if 'A' <= c <= 'Z' then (c as int + 32) as char else c
  }

  /** Lower-cases a string character by character. */
  function Lower(s: string): (r: string)
    ensures |r| == |s|
    ensures forall i :: 0 <= i < |s| ==> r[i] == LowerChar(s[i])
  {
    if s == [] then [] else [LowerChar(s[0])] + Lower(s[1..])
  }

  /** A string with no ASCII upper-case letter. */
  predicate IsLower(s: string)
  {
    forall i :: 0 <= i < |s| ==> !('A' <= s[i] <= 'Z')
  }

  /** The result of lower-casing has no upper-case letter left, and a
      string without upper-case letters is its own lower-case form. */
  lemma LowerIsLower(s: string)
    ensures IsLower(Lower(s))
    ensures IsLower(s) ==> Lower(s) == s
  {
  }

  /** Lower-casing twice is lower-casing once. */
  lemma LowerIdempotent(s: string)
    ensures Lower(Lower(s)) == Lower(s)
  {
    LowerIsLower(s);
  }

  /** `word` occurs in `text` starting at index `i`. */
  ghost predicate OccursAt(word: string, text: string, i: int)
  {
    0 <= i && i + |word| <= |text| && text[i..i + |word|] == word
  }

  /** The reference meaning of Python's `word in text`: some slice of
      `text` equals `word`. */
  ghost predicate Contains(text: string, word: string)
  {
    exists i :: OccursAt(word, text, i)
  }

  /** `text` begins with `word`, compared character by character. */
  function StartsWith(text: string, word: string): bool
  {
    if word == [] then true
    else if text == [] || text[0] != word[0] then false
    else StartsWith(text[1..], word[1..])
  }

  /** The character-wise comparison decides whether `text` begins with `word`. */
  lemma {:induction false} StartsWithIffPrefix(text: string, word: string)
    ensures StartsWith(text, word) <==> |word| <= |text| && text[..|word|] == word
  {
    if word != [] && text != [] && text[0] == word[0] {
      StartsWithIffPrefix(text[1..], word[1..]);
      if |word| <= |text| && text[..|word|] == word {
        assert text[1..][..|word| - 1] == text[..|word|][1..];
      }
      if |word| - 1 <= |text| - 1 && text[1..][..|word| - 1] == word[1..] {
        assert text[..|word|] == [text[0]] + text[1..][..|word| - 1];
      }
    } else if word != [] && |word| <= |text| {
      assert text[..|word|][0] == text[0];
    }
  }

  /** Past a start position where `word` does not begin, the text holds
      `word` exactly when its tail does. */
  lemma ContainsPastFirst(word: string, text: string)
    requires |word| < |text| && text[..|word|] != word
    ensures Contains(text, word) <==> Contains(text[1..], word)
  {
    if Contains(text, word) {
      var i :| OccursAt(word, text, i);
      assert i != 0;
      assert text[1..][i - 1..i - 1 + |word|] == text[i..i + |word|];
      assert OccursAt(word, text[1..], i - 1);
    }
    if Contains(text[1..], word) {
      var i :| OccursAt(word, text[1..], i);
      assert text[1..][i..i + |word|] == text[i + 1..i + 1 + |word|];
      assert OccursAt(word, text, i + 1);
    }
  }

  /** Substring search, scanning the start positions of `text` from the
      left: Python's `word in text`. It finds `word` exactly when some slice
      of `text` equals it. */
  function Occurs(word: string, text: string): (found: bool)
    ensures found <==> Contains(text, word)
    decreases |text|
  {
    StartsWithIffPrefix(text, word);
    if StartsWith(text, word) then
      assert OccursAt(word, text, 0);
      true
    else if |text| <= |word| then false
    else
      ContainsPastFirst(word, text);
      Occurs(word, text[1..])
  }

  /** A word that occurs in a text also occurs in any longer text around it. */
  lemma ContainsInLonger(pre: string, text: string, post: string, word: string)
    requires Contains(text, word)
    ensures Contains(pre + text + post, word)
  {
    var i :| OccursAt(word, text, i);
    var whole := pre + text + post;
    assert whole[|pre| + i..|pre| + i + |word|] == text[i..i + |word|];
    assert OccursAt(word, whole, |pre| + i);
  }

  /** A word with a character that the text lacks does not occur in it. */
  lemma AbsentCharRulesOut(word: string, text: string, c: char)
    requires c in word && c !in text
    ensures !Occurs(word, text)
  {
  }
}
