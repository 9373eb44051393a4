/**
 Token lists that read back as themselves, and the texts that may follow them. The lexer never
 looks back, so replacing what follows a token list matters only where the list ends.
 */
module SqlChain {
  import opened Text
  import opened SqlLexer
  import opened SqlBoundary

  /** Reading the text of `a` followed by `r` yields the tokens `a` first. */
  predicate Chain(a: seq<Lexeme>, r: string) {
    a == [] || (Fits(a[0], Join(a[1..]) + r) && Chain(a[1..], r))
  }

  lemma {:induction false} ChainOne(t: Lexeme, r: string)
    requires Fits(t, r)
    ensures Chain([t], r)
  {
    hide Fits;
    assert [t][1..] == [];
    assert Join([]) + r == r;
  }

  lemma {:induction false} LexChain(a: seq<Lexeme>, r: string)
    requires Chain(a, r)
    ensures Lex(Join(a) + r) == a + Lex(r)
  {
    hide First, Ends;
    if a == [] {
      assert Join(a) + r == r;
    } else {
      var s := Join(a) + r;
      assert s == a[0].text + (Join(a[1..]) + r);
      assert s[|a[0].text|..] == Join(a[1..]) + r;
      LexChain(a[1..], r);
    }
  }

  lemma {:induction false} ChainLex(s: string)
    ensures Chain(Lex(s), "")
    decreases |s|
  {
    hide First, Ends;
    if s != "" {
      var t := First(s);
      var rest := s[|t.text|..];
      LexCovers(rest);
      assert Lex(s) == [t] + Lex(rest);
      assert s == t.text + (Join(Lex(rest)) + "");
      ChainLex(rest);
    }
  }

  lemma {:induction false} ChainSplit(a: seq<Lexeme>, b: seq<Lexeme>, r: string)
    ensures Chain(a + b, r) <==> Chain(a, Join(b) + r) && Chain(b, r)
  {
    hide Fits;
    if a == [] {
      assert a + b == b;
    } else {
      assert (a + b)[1..] == a[1..] + b;
      JoinAppend(a[1..], b);
      assert Join(a[1..]) + Join(b) + r == Join(a[1..]) + (Join(b) + r);
      ChainSplit(a[1..], b, r);
    }
  }

  /** The text `r'` may take the place of `r` after `t`. An ampersand that is `hot`, directly behind a U,
      must not come to stand in front of a quote. */
  predicate Bridge(t: Lexeme, hot: bool, r: string, r': string) {
    Ends(t, r') && (hot && "'" <= r' ==> "'" <= r)
  }

  predicate IsU(t: Lexeme) { t.kind == Ident && Lower(t.text) == "u" }

  /** The last of the tokens `a`, which follow `front`, is an ampersand directly behind a U. */
  predicate IsHot(front: Option<Lexeme>, a: seq<Lexeme>) {
    a != [] && a[|a| - 1].text == "&" && (if |a| > 1 then IsU(a[|a| - 2]) else front.Some? && IsU(front.value))
  }

  predicate Follows(front: Option<Lexeme>, a: seq<Lexeme>, r: string, r': string) {
    a == [] || Bridge(a[|a| - 1], IsHot(front, a), r, r')
  }

  lemma {:induction false} FollowsAny(front: Option<Lexeme>, a: seq<Lexeme>, hot: bool, r: string, r': string)
    requires a != [] ==> Bridge(a[|a| - 1], hot, r, r') && (a[|a| - 1].text == "&" ==> hot)
    ensures Follows(front, a, r, r')
  {
    hide Ends;
  }

  /** What follows a token list may be replaced by anything its last token allows. */
  lemma {:induction false} ChainSwap(front: Option<Lexeme>, a: seq<Lexeme>, r: string, r': string)
    requires Chain(a, r) && Follows(front, a, r, r')
    ensures Chain(a, r')
    decreases |a|
  {
    hide Fits, Ends;
    if a != [] {
      if |a| == 1 {
        assert Join(a[1..]) + r == r && Join(a[1..]) + r' == r';
        Refit(a[0], r, r');
      } else {
        assert a[1..][|a| - 2] == a[|a| - 1];
        assert |a| > 2 ==> a[1..][|a| - 3] == a[|a| - 2];
        ChainSwap(Some(a[0]), a[1..], r, r');
        FitsEnds(a[0], Join(a[1..]) + r);
        EndsSwap(a[0], a[1..], r, r');
        Refit(a[0], Join(a[1..]) + r, Join(a[1..]) + r');
      }
    }
  }

  lemma {:induction false} EndsSwap(t: Lexeme, a: seq<Lexeme>, r: string, r': string)
    requires a != [] && Chain(a, r) && Follows(Some(t), a, r, r')
    requires Ends(t, Join(a) + r)
    ensures Ends(t, Join(a) + r')
  {
    hide Lower, BlockScan, First, OpensDollar;
    var x := Join(a);
    assert x[0] == a[0].text[0];
    assert (x + r)[0] == x[0] == (x + r')[0];
    if t.kind == Ident {
      if |x| == 1 {
        OneCharacter(a);
      }
    } else if t.kind == Other && t.text == "$" {
      OpensSwap(Some(t), a, r, r');
    }
  }

  lemma {:induction false} OneCharacter(a: seq<Lexeme>)
    requires a != [] && |Join(a)| == 1 && forall i :: 0 <= i < |a| ==> a[i].text != ""
    ensures |a| == 1 && a[0].text == Join(a)
  {
    hide Lexeme.WellFormed;
  }

  /** A lone dollar sign does not start a dollar quote in the new text either. */
  lemma {:induction false} OpensSwap(front: Option<Lexeme>, a: seq<Lexeme>, r: string, r': string)
    requires a != [] && Chain(a, r) && Follows(front, a, r, r')
    requires !OpensDollar(Join(a) + r)
    ensures !OpensDollar(Join(a) + r')
  {
    hide Run, First, BlockScan, Lower;
    var x := Join(a);
    if OpensDollar(x + r') {
      var s' := x + r';
      var j := TagLen(s');
      if j < |x| {
        OpensWithin(x, r', r);
      } else {
        assert forall i :: 0 <= i < |x| ==> x[i] == s'[i] && IsTagCont(s'[i]);
        assert s'[|x|] == r'[0];
        WholeWord(a, r);
        assert false;
      }
    }
  }

  lemma {:induction false} OpensWithin(x: string, r: string, r': string)
    requires OpensDollar(x + r) && TagLen(x + r) < |x|
    ensures OpensDollar(x + r')
  {
    hide Run;
    var s, s', j := x + r, x + r', TagLen(x + r);
    SamePrefix(x, r, r', |x|);
    if IsIdentStart(s[0]) {
      assert s'[j] == s[j];
      RunIs(IsTagCont, s', j);
    }
  }

  /** A token list whose text is all letters and digits is one identifier. */
  lemma {:induction false} WholeWord(a: seq<Lexeme>, r: string)
    requires a != [] && Chain(a, r)
    requires Join(a) != "" && IsIdentStart(Join(a)[0])
    requires forall i :: 0 <= i < |Join(a)| ==> IsTagCont(Join(a)[i])
    ensures |a| == 1 && a[0].kind == Ident
  {
    hide First;
    var t, x, rest := a[0], Join(a), Join(a[1..]) + r;
    Associate(t.text, Join(a[1..]), r);
    assert t.text[0] == x[0];
    assert forall i :: 0 <= i < |t.text| ==> t.text[i] == x[i];
    NoQuoteIdent(t, rest);
    WordTakesAll(t, x, r, rest);
    assert Join(a[1..]) == "";
  }

  lemma {:induction false} WordTakesAll(t: Lexeme, x: string, r: string, rest: string)
    requires Fits(t, rest) && t.kind == Ident && t.text + rest == x + r && IsIdentStart(t.text[0])
    requires forall i :: 0 <= i < |x| ==> IsTagCont(x[i])
    ensures |t.text| >= |x|
  {
    hide Run, Quoted, BlockScan, Lower, DollarLexeme;
    var s := t.text + rest;
    assert s[0] == t.text[0];
    var j := Run(IsIdentCont, s);
    assert forall i :: 0 <= i < |x| ==> s[i] == x[i];
    assert t.text == s[..j];
  }

  lemma {:induction false} NoQuoteIdent(t: Lexeme, r: string)
    requires Fits(t, r) && IsIdentStart(t.text[0]) && '\'' !in t.text
    ensures t.kind == Ident
  {
    hide Fits;
    if t.kind != Ident {
      var k := PrefixQuote(t, r);
    }
  }

  lemma {:induction false} PrefixQuote(t: Lexeme, r: string) returns (k: nat)
    requires Fits(t, r) && IsIdentStart(t.text[0]) && t.kind != Ident
    ensures k < |t.text| && t.text[k] == '\''
  {
    hide Run, Quoted, BlockScan, Lower, DollarLexeme;
    k := t.lo - 1;
    assert (t.text + r)[k] == t.text[k];
  }
}
