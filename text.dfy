/**
  Text matching used by the keyword filter: ASCII case folding and literal
  substring search. Together they stand for a case-insensitive regular
  expression search whose pattern holds no metacharacters.
*/
module Text {

  /** Characters that Python's `re` module treats as special outside a character class. */
  const RegexMetachars: set<char> :=
    {'.', '^', '$', '*', '+', '?', '{', '}', '[', ']', '\\', '|', '(', ')'}

  /** A word whose regular expression matches exactly its own characters. */
  predicate IsLiteralPattern(w: string) {
    forall i :: 0 <= i < |w| ==> w[i] !in RegexMetachars
  }

  predicate IsUpper(c: char) {
    'A' <= c <= 'Z'
  }

  const UpperLetters := "ABCDEFGHIJKLMNOPQRSTUVWXYZ"
  const LowerLetters := "abcdefghijklmnopqrstuvwxyz"

  /** ASCII lower-casing of one character; every other character is left alone. */
  function LowerChar(c: char): (d: char)
    ensures !IsUpper(d)
    ensures IsUpper(c) || d == c
    ensures forall k :: 0 <= k < 26 && c == UpperLetters[k] ==> d == LowerLetters[k]
  {
    if IsUpper(c) then (c as int - 'A' as int + 'a' as int) as char else c
  }

  /**
    Two characters fold to the same character exactly when they are equal or
    are the upper-case and lower-case forms of one ASCII letter.
  */
  lemma {:induction false} SameFold(c: char, e: char)
    ensures LowerChar(c) == LowerChar(e) <==>
      c == e || exists k :: 0 <= k < 26 && CasePair(c, e, k)
  {
    if IsUpper(c) {
      LetterAt(c as int - 'A' as int);
    }
    if IsUpper(e) {
      LetterAt(e as int - 'A' as int);
    }
    if c != e && LowerChar(c) == LowerChar(e) {
      if IsUpper(c) {
        assert CasePair(c, e, c as int - 'A' as int);
      } else {
        assert CasePair(c, e, e as int - 'A' as int);
      }
    }
    if exists k :: 0 <= k < 26 && CasePair(c, e, k) {
      var k :| 0 <= k < 26 && CasePair(c, e, k);
      LetterAt(k);
    }
  }

  /** `c` and `e` are the two cases of the k-th letter, in either order. */
  predicate CasePair(c: char, e: char, k: int)
    requires 0 <= k < 26
  {
    (c == UpperLetters[k] && e == LowerLetters[k]) || (c == LowerLetters[k] && e == UpperLetters[k])
  }

  /** The k-th letter of the two alphabets, as a code point. */
  lemma LetterAt(k: int)
    requires 0 <= k < 26
    ensures UpperLetters[k] as int == 'A' as int + k
    ensures LowerLetters[k] as int == 'a' as int + k
  {
  }

  /** ASCII lower-casing of a string, character by character. */
  function Lower(s: string): (r: string)
    ensures |r| == |s|
    ensures forall i :: 0 <= i < |r| ==> !IsUpper(r[i])
  {
    seq(|s|, i requires 0 <= i < |s| => LowerChar(s[i]))
  }

  /**
    Each character of the folded string is the original character, or the
    original and the folded character are the two cases of one ASCII letter.
  */
  lemma {:induction false} LowerFoldsEach(s: string)
    ensures forall i :: 0 <= i < |s| ==>
      Lower(s)[i] == s[i] || exists k :: 0 <= k < 26 && CasePair(s[i], Lower(s)[i], k)
  {
    forall i | 0 <= i < |s| && IsUpper(s[i])
      ensures exists k :: 0 <= k < 26 && CasePair(s[i], Lower(s)[i], k)
    {
      var k := s[i] as int - 'A' as int;
      LetterAt(k);
      assert CasePair(s[i], Lower(s)[i], k);
    }
  }

  /** `w` occurs in `t` starting at position `i`. */
  ghost predicate OccursAt(t: string, w: string, i: int) {
    0 <= i && i + |w| <= |t| && t[i..i + |w|] == w
  }

  /** `w` occurs somewhere in `t`. */
  ghost predicate Occurs(t: string, w: string) {
    exists i :: OccursAt(t, w, i)
  }

  /** Literal substring search, scanning the start positions from left to right. */
  function Contains(t: string, w: string): (b: bool)
    ensures |w| == 0 ==> b
    ensures b ==> |w| <= |t|
    decreases |t|
  {
    if |t| < |w| then false
    else t[..|w|] == w || Contains(t[1..], w)
  }

  /** The search finds `w` exactly when `w` occurs somewhere in `t`. */
  lemma {:induction false} ContainsIff(t: string, w: string)
    ensures Contains(t, w) <==> Occurs(t, w)
    decreases |t|
  {
    if |t| < |w| {
      forall i | OccursAt(t, w, i) ensures false { }
    } else if t[..|w|] == w {
      assert t[0..|w|] == t[..|w|];
      assert OccursAt(t, w, 0);
    } else {
      ContainsIff(t[1..], w);
      forall j | 0 <= j && j + |w| <= |t| - 1
        ensures OccursAt(t[1..], w, j) <==> OccursAt(t, w, j + 1)
      {
        assert t[1..][j..j + |w|] == t[j + 1..j + 1 + |w|];
      }
      if Contains(t, w) {
        var j :| OccursAt(t[1..], w, j);
        assert OccursAt(t, w, j + 1);
      } else {
        assert !OccursAt(t, w, 0) by {
          assert t[0..|w|] == t[..|w|];
        }
        forall i | OccursAt(t, w, i) ensures i > 0 && OccursAt(t[1..], w, i - 1) { }
      }
    }
  }

  /** A word whose first character is absent from the text does not occur in it. */
  lemma {:induction false} FirstCharAbsent(t: string, w: string)
    requires |w| > 0 && w[0] !in t
    ensures !Contains(t, w)
  {
    ContainsIff(t, w);
  }

  /** The empty word occurs in every text. */
  lemma EmptyWordOccurs(t: string)
    ensures Contains(t, "")
  {
  }

  /** Case-insensitive literal search: both sides are folded before searching. */
  function ContainsIgnoreCase(text: string, word: string): (b: bool)
    ensures |word| == 0 ==> b
    ensures b ==> |word| <= |text|
  {
    Contains(Lower(text), Lower(word))
  }

  /** The case-insensitive search finds `word` exactly when its folded form occurs in the folded text. */
  lemma ContainsIgnoreCaseIff(text: string, word: string)
    ensures ContainsIgnoreCase(text, word) <==> Occurs(Lower(text), Lower(word))
  {
    ContainsIff(Lower(text), Lower(word));
  }

  /** Folding the text first does not change the outcome of a case-insensitive search. */
  lemma {:induction false} IgnoreCaseOfLowered(text: string, word: string)
    ensures ContainsIgnoreCase(Lower(text), word) == ContainsIgnoreCase(text, word)
  {
    LowerIdempotent(text);
  }

  lemma LowerIdempotent(s: string)
    ensures Lower(Lower(s)) == Lower(s)
  {
    assert forall i :: 0 <= i < |s| ==> Lower(Lower(s))[i] == Lower(s)[i];
  }
}
