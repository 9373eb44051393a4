/**
 Texts described by their characters: words in letters of either case, white space, digits.
 */
module Spelling {
  import opened Text

  /** The characters are the same, or the same ASCII letter in another case. */
  predicate SameLetter(a: char, b: char) {
    var x, y := a as int, b as int;
    x == y || (65 <= x <= 90 && y == x + 32) || (65 <= y <= 90 && x == y + 32)
  }

  predicate IsDecimal(c: char) { 48 <= c as int <= 57 }

  /** The text reads `word`, in letters of either case. */
  predicate Spells(s: string, word: string) {
    |s| == |word| && forall i :: 0 <= i < |s| ==> SameLetter(s[i], word[i])
  }

  /** The text reads `word` from `i` on. */
  predicate SpellsAt(s: string, word: string, i: nat) { i + |word| <= |s| && Spells(s[i..i + |word|], word) }

  /** The text has a part that reads `word`. */
  predicate HasPart(s: string, word: string) { exists i :: 0 <= i <= |s| && SpellsAt(s, word, i) }

  lemma {:induction false} FoldSpells(s: string, word: string)
    ensures EqualFold(s, word) <==> Spells(s, word)
  {
    if EqualFold(s, word) {
      forall i | 0 <= i < |s| ensures SameLetter(s[i], word[i]) {
        assert Lower(s)[i] == Lower(word)[i];
        FoldLetter(s[i], word[i]);
      }
    }
    if Spells(s, word) {
      forall i | 0 <= i < |s| ensures LowerChar(s[i]) == LowerChar(word[i]) {
        FoldLetter(s[i], word[i]);
      }
    }
  }

  lemma {:induction false} FoldLetter(a: char, b: char)
    ensures LowerChar(a) == LowerChar(b) <==> SameLetter(a, b)
  {
  }

  /** A word without capital letters. */
  predicate IsSmall(word: string) { forall i :: 0 <= i < |word| ==> !(65 <= word[i] as int <= 90) }

  lemma {:induction false} SmallIsLower(word: string)
    requires IsSmall(word)
    ensures Lower(word) == word
  {
  }

  lemma {:induction false} LowerSpells(s: string, word: string)
    requires IsSmall(word)
    ensures Lower(s) == word <==> Spells(s, word)
  {
    SmallIsLower(word);
    FoldSpells(s, word);
  }

  lemma {:induction false} PartFound(s: string, word: string)
    requires IsSmall(word)
    ensures Contains(Lower(s), word) <==> HasPart(s, word)
  {
    hide Spells, Lower;
    if Contains(Lower(s), word) {
      var i :| 0 <= i <= |Lower(s)| && At(Lower(s), word, i);
      LowerPart(s, i, |word|);
      LowerSpells(s[i..i + |word|], word);
      assert SpellsAt(s, word, i);
    }
    if HasPart(s, word) {
      var i :| 0 <= i <= |s| && SpellsAt(s, word, i);
      LowerPart(s, i, |word|);
      LowerSpells(s[i..i + |word|], word);
      assert At(Lower(s), word, i);
    }
  }

  lemma {:induction false} LowerPart(s: string, i: nat, n: nat)
    requires i + n <= |s|
    ensures Lower(s)[i..i + n] == Lower(s[i..i + n])
  {
  }
}
