/**
 Nested connection strings that are put back with a quote in them and make the whole string malformed.
 */
module ConnStringSplit {
  import opened Text
  import opened ConnString
  import opened ConnStringEscape
  import opened ConnStringRedaction

  /** The first quote of the text is followed by a word, whitespace and another word. */
  predicate Splits(red: string) {
    var k := Run(NotQuote, red);
    k < |red| &&
    var r := red[k + 1..];
    var w := Run(IsKeyChar, r);
    var sp := Run(IsConnSpace, r[w..]);
    0 < sp && w + sp < |r| && r[w + sp] != '='
  }

  /** A printed value whose first quote is followed by two words is no longer read. */
  lemma {:induction false} SplitChanges(p: Param, red: string, rest: string)
    requires All(IsConnSpace, p.lead) && All(IsKeyChar, p.key) && All(IsConnSpace, p.pre) && All(IsConnSpace, p.post)
    requires (p.key == "" ==> p.pre == "") && Splits(red)
    ensures Parse(p.Head() + ("'" + EscapeValue(red) + "'") + rest) == Malformed
  {
    hide EscapeValue, ParseOne, Run, Param.Head, Double, NotQuote;
    var k := Run(NotQuote, red);
    QuoteSplit(red, k);
    QuoteFirst(p, red, rest);
    SplitFails(red, rest);
    Regrouped(EscapeValue(red[k + 1..]), rest);
    BadBehind(p.Head() + ("'" + EscapeValue(red) + "'") + rest, "'" + EscapeValue(red[k + 1..]) + "'" + rest);
  }

  lemma {:induction false} SplitFails(red: string, rest: string)
    requires Splits(red)
    ensures ParseOne("'" + (EscapeValue(red[Run(NotQuote, red) + 1..]) + ("'" + rest))) == Bad
  {
    hide EscapeValue, ParseOne, Run, NotQuote;
    WordsApart(red[Run(NotQuote, red) + 1..], "'" + rest);
  }

  lemma {:induction false} BadBehind(s: string, more: string)
    requires var r := ParseOne(s); r.Got? && r.rest == more && ParseOne(more) == Bad
    ensures Parse(s) == Malformed
  {
    hide ParseOne;
  }

  lemma {:induction false} Regrouped(e: string, rest: string)
    ensures "'" + (e + ("'" + rest)) == "'" + e + "'" + rest
  {
  }

  /** After the quote comes a key that no '=' follows. */
  lemma {:induction false} WordsApart(r: string, z: string)
    requires var w := Run(IsKeyChar, r); var sp := Run(IsConnSpace, r[w..]); 0 < sp && w + sp < |r| && r[w + sp] != '='
    ensures ParseOne("'" + (EscapeValue(r) + z)) == Bad
  {
    hide EscapeValue, Run, ParseOne, IsKeyChar, IsConnSpace;
    var w := Run(IsKeyChar, r);
    var sp := Run(IsConnSpace, r[w..]);
    ThreeParts(r, w, w + sp);
    SliceOfSlice(r, w, |r|, 0, sp);
    var word, gap, last := r[..w], r[w..w + sp], r[w + sp..];
    RunAll(IsKeyChar, r);
    RunAll(IsConnSpace, r[w..]);
    assert last != "" && last[0] == r[w..][sp];
    EscapedApart(word, gap, last, z);
  }

  lemma {:induction false} EscapedApart(word: string, gap: string, last: string, z: string)
    requires All(IsKeyChar, word) && gap != "" && All(IsConnSpace, gap) && last != "" && !IsConnSpace(last[0]) && last[0] != '='
    ensures ParseOne("'" + (EscapeValue(word + gap + last) + z)) == Bad
  {
    hide EscapeValue, ParseOne, IsKeyChar, IsConnSpace;
    EscapeAppend(word + gap, last);
    EscapeAppend(word, gap);
    EscapeGap(gap);
    EscapeStart(last);
    EscapeKey(word);
    KeyFails("'" + EscapeValue(word), gap, EscapeValue(last) + z);
    Gathered(EscapeValue(word), gap, EscapeValue(last), z);
  }

  lemma {:induction false} RunAll(p: char -> bool, s: string)
    ensures All(p, s[..Run(p, s)]) && (Run(p, s) < |s| ==> !p(s[Run(p, s)]))
  {
    hide Run;
  }

  lemma {:induction false} ThreeParts(r: string, i: nat, j: nat)
    requires i <= j <= |r|
    ensures r == r[..i] + r[i..j] + r[j..]
  {
  }

  lemma {:induction false} Gathered(e: string, gap: string, l: string, z: string)
    ensures ("'" + e) + (gap + (l + z)) == "'" + ((e + gap + l) + z)
  {
  }

  /** A key that whitespace and then no '=' follow. */
  lemma {:induction false} KeyFails(key: string, gap: string, x: string)
    requires key != "" && All(IsKeyChar, key) && gap != "" && All(IsConnSpace, gap) && x != "" && !IsConnSpace(x[0]) && x[0] != '='
    ensures ParseOne(key + (gap + x)) == Bad
  {
    hide Run, TakeRun, DropRun, ScanValue;
    var s := key + (gap + x);
    assert s[0] == key[0] && (gap + x)[0] == gap[0] && "" + s == s;
    CutRun(IsConnSpace, "", s);
    CutRun(IsKeyChar, key, gap + x);
    CutRun(IsConnSpace, gap, x);
  }

  lemma {:induction false} EscapeGap(gap: string)
    requires All(IsConnSpace, gap)
    ensures EscapeValue(gap) == gap
  {
    DoubleNone(gap, '\\');
    DoubleNone(gap, '\'');
  }

  lemma {:induction false} EscapeStart(s: string)
    requires s != ""
    ensures EscapeValue(s) != "" && EscapeValue(s)[0] == s[0]
  {
  }

  lemma {:induction false} EscapeKey(word: string)
    requires All(IsKeyChar, word)
    ensures All(IsKeyChar, "'" + EscapeValue(word))
  {
    hide EscapeValue;
    var e := EscapeValue(word);
    forall i | 0 <= i < |e| ensures IsKeyChar(e[i]) {
      EscapeKeeps(word, e[i]);
    }
  }
}
