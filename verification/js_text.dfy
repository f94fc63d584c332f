/** The two string operations of the JavaScript runtime that the endpoint relies on:
    `toLowerCase` (restricted to the ASCII range) and the substring search that a
    literal regular expression such as `/krnl/i` performs. */
module JsText {

  /** Optional values: a query parameter or header that may be missing. */
  datatype Option<+T> = None | Some(value: T)

  /** The value of `x || ''` for an optional string. */
  function OrEmpty(x: Option<string>): string {
    match x
    case Some(v) => v
    case None => ""
  }

  predicate IsUpper(c: char) {
    'A' <= c <= 'Z'
  }

  /** Lower-cases one character of the ASCII range; every other character is kept. */
  function LowerChar(c: char): (r: char)
    ensures !IsUpper(r)
    ensures !IsUpper(c) ==> r == c
  {
    if IsUpper(c) then (c as int + 32) as char else c
  }

  /** `s.toLowerCase()`, character by character. */
  function Lower(s: string): (r: string)
    ensures |r| == |s|
    ensures forall i :: 0 <= i < |s| ==> r[i] == LowerChar(s[i])
  {
    if s == [] then [] else [LowerChar(s[0])] + Lower(s[1..])
  }

  /** A string with no upper-case ASCII letter is its own lower-case form. */
  lemma LowerFixesLowercase(s: string)
    requires forall i :: 0 <= i < |s| ==> !IsUpper(s[i])
    ensures Lower(s) == s
  {
  }

  /** `word` occurs in `text` starting at position `i`. */
  predicate OccursAt(text: string, word: string, i: int) {
    0 <= i && i + |word| <= |text| && text[i..i + |word|] == word
  }

  /** The search a regular expression made of a literal word performs: try the
      word at the start of `text`, then move one character on. */
  predicate Contains(text: string, word: string)
    ensures Contains(text, word) ==> |word| <= |text|
    decreases |text|
  {
    (|word| <= |text| && text[..|word|] == word) || (text != [] && Contains(text[1..], word))
  }

  /** The search succeeds exactly when the word occurs at some position. */
  lemma {:induction false} ContainsIffOccurs(text: string, word: string)
    ensures Contains(text, word) <==> exists i :: OccursAt(text, word, i)
    decreases |text|
  {
    if text == [] {
      if Contains(text, word) {
        assert OccursAt(text, word, 0);
      }
      if exists i :: OccursAt(text, word, i) {
        var i :| OccursAt(text, word, i);
        assert i == 0 && word == [];
      }
    } else {
      ContainsIffOccurs(text[1..], word);
      if Contains(text, word) {
        if |word| <= |text| && text[..|word|] == word {
          assert OccursAt(text, word, 0);
        } else {
          assert Contains(text[1..], word);
          var j :| OccursAt(text[1..], word, j);
          assert 0 <= j && j + 1 + |word| <= |text|;
          assert text[1..][j..j + |word|] == text[j + 1..j + 1 + |word|];
          assert OccursAt(text, word, j + 1);
        }
      }
      if exists i :: OccursAt(text, word, i) {
        var i :| OccursAt(text, word, i);
        if i > 0 {
          assert text[1..][i - 1..i - 1 + |word|] == text[i..i + |word|];
          assert OccursAt(text[1..], word, i - 1);
        }
      }
    }
  }
}
