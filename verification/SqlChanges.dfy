/**
 The texts of statements, and of constants with another body.
 */
module SqlChanges {
  import opened Text
  import opened SqlLexer
  import opened SqlBoundary
  import opened SqlRedact
  import opened SqlRelex
  import opened SqlConstants
  import ConnString
  import opened ConnStringTags
  import ConnStringGrowth
  import opened ConnStringEscape
  import opened ConnStringLaws

  // Texts

  function TextOf(s: Script): string { Join(Ungroup(s)) }

  lemma {:induction false} RewrittenText(query: string)
    ensures Rewritten(query) == TextOf(Walk(START, Statement(query)))
  {
  }

  /** The text of a statement starts with its first piece. */
  lemma {:induction false} PieceFirst(p: Piece, r: Script)
    ensures TextOf(Script([p] + r.pieces, r.tail)) == Join(p.gap) + (p.tok.text + TextOf(r))
  {
    hide Flatten, Join;
    var w := Script([p] + r.pieces, r.tail);
    FirstOut(w.pieces);
    assert w.pieces[1..] == r.pieces;
    assert Ungroup(w) == p.gap + ([p.tok] + Ungroup(r));
    JoinAppend(p.gap, [p.tok] + Ungroup(r));
    JoinCons(p.tok, Ungroup(r));
  }

  lemma {:induction false} ScriptText(p: Piece)
    ensures TextOf(Script([p], [])) == Join(p.gap) + p.tok.text
  {
    hide TextOf;
    PieceFirst(p, Script([], []));
    assert [p] + [] == [p];
    EmptyText();
    assert p.tok.text + "" == p.tok.text;
  }

  lemma {:induction false} EmptyText()
    ensures TextOf(Script([], [])) == ""
  {
  }

  /** A text that starts with a nonempty piece. */
  lemma {:induction false} StartOf(p: Piece, r: Script)
    requires p.gap != [] ==> p.gap[0].text != ""
    requires p.tok.text != ""
    ensures TextOf(Script([p] + r.pieces, r.tail)) != ""
    ensures TextOf(Script([p] + r.pieces, r.tail))[0] == if p.gap == [] then p.tok.text[0] else p.gap[0].text[0]
  {
    hide TextOf;
    PieceFirst(p, r);
    if p.gap == [] {
      JoinNone();
      assert Join(p.gap) + (p.tok.text + TextOf(r)) == p.tok.text + TextOf(r);
    } else {
      assert Join(p.gap)[0] == p.gap[0].text[0];
    }
  }

  lemma {:induction false} FirstTexts(s: Script)
    requires Sound(s) && s.pieces != []
    ensures s.pieces[0].tok.text != "" && (s.pieces[0].gap != [] ==> s.pieces[0].gap[0].text != "")
    ensures Fits(s.pieces[0].tok, TextOf(Script(s.pieces[1..], s.tail)))
  {
    hide Fits, Flatten;
    var ps := s.pieces;
    TokenThen(ps, 0, s.tail);
    FitsText(ps[0].tok, Join(Flatten(ps[1..]) + s.tail));
    if ps[0].gap != [] {
      FirstOut(ps);
      assert Ungroup(s)[0] == ps[0].gap[0];
      ChainAt(Ungroup(s), "", 0);
      FitsText(ps[0].gap[0], Join(Ungroup(s)[1..]) + "");
    }
  }

  lemma {:induction false} WithBodyStart(u: Lexeme, b: string)
    requires u.WellFormed() && 0 < u.lo
    ensures WithBody(u, b).text != "" && WithBody(u, b).text[0] == u.text[0]
  {
  }

  // The constant

  /** Two dollar quotes with the same tag, in front of other text. */
  lemma {:induction false} DollarDiffers(u: Lexeme, r: string, b2: string, r2: string)
    requires Fits(u, r) && u.kind == Dollar && u.WellFormed() && u.terminated
    requires b2 != u.Body() && ConnStringGrowth.Grows(u.Body(), b2)
    ensures u.text + r != WithBody(u, b2).text + r2
  {
    hide First, DollarLexeme, Find, Avoids, Fits, ConnStringGrowth.Grows;
    DollarRead(u, r);
    TagChars(u, r);
    BodyAvoids(u, r);
    ClosedDollar(u, r);
    var z, b := u.text[..u.lo], u.Body();
    AvoidsFind(b, z, r);
    Quotes(z, b, r);
    Quotes(z, b2, r2);
    if b + z + r == b2 + z + r2 {
      FoundFirst(b, b2, z, r, r2);
    } else {
      Cancel(z, b + z + r, b2 + z + r2);
    }
  }

  lemma {:induction false} Quotes(z: string, b: string, r: string)
    ensures z + b + z + r == z + (b + z + r)
  {
  }

  lemma {:induction false} ClosedDollar(u: Lexeme, r: string)
    requires "$" <= u.text && u.kind == Dollar && DollarLexeme(u.text + r) == u && u.terminated && u.WellFormed()
    ensures u.text == u.text[..u.lo] + u.Body() + u.text[..u.lo]
  {
    hide Run, FindFrom, TagLen, OpensDollar;
    DollarShape(u, r);
  }

  lemma {:induction false} FoundFirst(b: string, b2: string, z: string, r: string, r2: string)
    requires Find(b + z + r, z) == |b| && b + z + r == b2 + z + r2 && z != "" && z[0] != '*'
    requires ConnStringGrowth.Grows(b, b2)
    ensures b == b2
  {
    hide FindFrom;
    var s := b + z + r;
    assert s[|b2|..|b2| + |z|] == z by { assert (b2 + z + r2)[|b2|..|b2| + |z|] == z; }
    assert At(s, z, |b2|);
    assert |b| <= |b2|;
    assert b2 == s[..|b2|] && b == s[..|b|] && s[|b|] == z[0];
    Shorter(s, |b|, |b2|);
  }

  lemma {:induction false} Shorter(s: string, m: nat, n: nat)
    requires m <= n <= |s|
    ensures s[..m] <= s[..n] && (m < n ==> s[..n][m] == s[m])
  {
  }

  /** Two constants with the same opening, in front of other text. */
  lemma {:induction false} StringDiffers(u: Lexeme, r: string, red: string, red2: string, r2: string)
    requires Fits(u, r) && u.kind == Str && u.WellFormed() && u.terminated && !u.escapes && u.Body() == ConnString.Double(red, '\'')
    requires red2 != red && ("'" <= r2 ==> r2 == REDACTED.text && r != "")
    ensures u.text + r != WithBody(u, ConnString.Double(red2, '\'')).text + r2
  {
    hide First, QuoteScan, ConnString.Double, Ends, REDACTED;
    var z, d, d2 := u.text[..u.lo], ConnString.Double(red, '\''), ConnString.Double(red2, '\'');
    StringOpening(u, r);
    FitsEnds(u, r);
    StrEnds(u, r);
    ClosedString(u, r);
    var s, s2 := d + (['\''] + r), d2 + (['\''] + r2);
    assert u.text + r == z + s && WithBody(u, d2).text + r2 == z + s2;
    assert |s| == |d| + 1 + |r| && |s2| == |d2| + 1 + |r2|;
    assert d == s[..|d|] && d2 == s2[..|d2|];
    ScanDoubled(red, '\'', r);
    if s != s2 {
      Cancel(z, s, s2);
    } else if "'" <= r2 {
      MergedScan(red2, r2);
    } else {
      ScanDoubled(red2, '\'', r2);
      SameValue(red, red2);
    }
  }

  lemma {:induction false} SameValue(red: string, red2: string)
    requires ConnString.Double(red, '\'') == ConnString.Double(red2, '\'')
    ensures red == red2
  {
    UndoubleDouble(red, '\'');
    UndoubleDouble(red2, '\'');
  }

  lemma {:induction false} ClosedString(u: Lexeme, r: string)
    requires Fits(u, r) && u.kind == Str && u.WellFormed() && u.terminated && 0 < u.lo
    ensures u.text == u.text[..u.lo] + (u.Body() + ['\''])
  {
    hide First, QuoteScan;
    OpeningRead(u, r, u.text + r);
    StringEnd(u, r);
  }

  lemma {:induction false} StringEnd(u: Lexeme, r: string)
    requires u.terminated && 0 < u.lo && u.WellFormed() && u == Quoted(Str, u.text + r, u.lo - 1, '\'', u.escapes, u.unicode)
    ensures u.hi + 1 == |u.text| && u.text[u.hi] == '\''
  {
    hide QuoteScan;
    var s := u.text + r;
    var scan := QuoteScan(s[u.lo..], '\'', u.escapes);
    assert scan.closed && s[u.lo..][scan.len] == s[u.lo + scan.len];
    assert u.hi < |u.text| ==> s[u.hi] == u.text[u.hi];
  }

  /** A constant that runs into the placeholder ends where that ends. */
  lemma {:induction false} MergedScan(red2: string, r2: string)
    requires r2 == REDACTED.text
    ensures var d2 := ConnString.Double(red2, '\'');
            |r2| == 10 && QuoteScan(d2 + (['\''] + r2), '\'', false) == Scan(|d2| + 10, true)
  {
    hide QuoteScan, ConnString.Double;
    var v := red2 + "'" + STARS;
    DoubleMerged(red2);
    ScanDoubled(v, '\'', "");
    var d2 := ConnString.Double(red2, '\'');
    assert (d2 + "''" + STARS) + (['\''] + "") == d2 + (['\''] + r2);
    assert |d2 + "''" + STARS| == |d2| + 10;
  }

  lemma {:induction false} DoubleMerged(red2: string)
    ensures ConnString.Double(red2 + "'" + STARS, '\'') == ConnString.Double(red2, '\'') + "''" + STARS
  {
    hide ConnString.Double;
    DoubleAppend(red2 + "'", STARS, '\'');
    DoubleAppend(red2, "'", '\'');
    DoubleOne('\'');
    StarsAre();
    DoubleNone(STARS, '\'');
  }

  lemma {:induction false} ToEndRedacted(u: Lexeme)
    requires u.WellFormed() && ConnRewrite(u).Some? && ConnRewrite(u).value.toEnd
    ensures ConnRewrite(u).value.repl == REDACTED
  {
    hide MentionsConnSecret, TruncatedInHost, ConnString.RedactPasswords, Undouble, ConnString.Double, WithBody;
  }

  lemma {:induction false} RewriteFlags(u: Lexeme)
    requires u.WellFormed() && !u.escapes && !u.unicode && ConnRewrite(u).Some? && !ConnRewrite(u).value.toEnd
    ensures var red2 := ConnString.RedactPasswords(ValueOf(u));
            red2 != ValueOf(u) && ConnRewrite(u).value.repl == WithBody(u, if u.kind == Dollar then red2 else ConnString.Double(red2, '\''))
  {
    hide MentionsConnSecret, TruncatedInHost, ConnString.RedactPasswords, Undouble, ConnString.Double, WithBody;
  }

  lemma {:induction false} TextsDiffer(u: Lexeme, r: string, v: Lexeme, r2: string)
    requires Fits(u, r) && Fits(v, r2) && u != v
    ensures u.text + r != v.text + r2
  {
  }

  lemma {:induction false} OpenChanges(u: Lexeme, r: string, b: string)
    requires u.WellFormed() && u.IsLiteral() && !u.terminated && Ends(u, r) && Fits(u, r) && WithBody(u, b) != u
    ensures r == "" && u.text + r != WithBody(u, b).text
  {
    hide First;
    assert r == "";
    assert u.text + r == u.text;
    OpenHi(u);
  }

  lemma {:induction false} OpenHi(u: Lexeme)
    requires Fits(u, "") && u.IsLiteral() && !u.terminated && u.WellFormed()
    ensures u.hi == |u.text|
  {
    hide Run, BlockScan, QuoteScan, Lower, Find, TagLen;
    assert u.text + "" == u.text;
  }

  // The statement

  lemma {:induction false} SameFront(kept: seq<Piece>, r: Script, r': Script)
    requires TextOf(r) != TextOf(r')
    ensures TextOf(Script(kept + r.pieces, r.tail)) != TextOf(Script(kept + r'.pieces, r'.tail))
    decreases |kept|
  {
    hide TextOf;
    if kept == [] {
      assert kept + r.pieces == r.pieces && kept + r'.pieces == r'.pieces;
    } else {
      var x, x' := Script(kept[1..] + r.pieces, r.tail), Script(kept[1..] + r'.pieces, r'.tail);
      SameFront(kept[1..], r, r');
      assert kept + r.pieces == [kept[0]] + x.pieces && kept + r'.pieces == [kept[0]] + x'.pieces;
      PieceFirst(kept[0], x);
      PieceFirst(kept[0], x');
      Cancel(kept[0].tok.text, TextOf(x), TextOf(x'));
      Cancel(Join(kept[0].gap), kept[0].tok.text + TextOf(x), kept[0].tok.text + TextOf(x'));
    }
  }

  lemma {:induction false} WalkKeep(c: Context, s: Script)
    requires WellFormed(s.pieces) && s.pieces != [] && Decide(c, Toks(s.pieces)) == Keep
    ensures var r := Walk(Next(c, s.pieces[0].tok), Script(s.pieces[1..], s.tail));
            Walk(c, s) == Script([s.pieces[0]] + r.pieces, r.tail)
  {
    hide Decide, Next;
  }

  lemma {:induction false} WalkNothing(c: Context)
    ensures Walk(c, Script([], [])) == Script([], [])
  {
  }

  lemma {:induction false} EditIsOne(c: Context, ts: seq<Lexeme>)
    requires ts != [] && ts[0].WellFormed() && Decide(c, ts).Edit? && Decide(c, ts).from == 0
    ensures Decide(c, ts).to == 1
  {
    hide Decide, ConnRewrite;
    EditShape(c, ts);
  }
}
