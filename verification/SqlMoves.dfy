/**
 When redacting a statement changes its text.
 */
module SqlMoves {
  import opened Text
  import opened SqlLexer
  import opened SqlBoundary
  import opened SqlChain
  import opened SqlRedact
  import opened SqlRelex
  import opened SqlConstants
  import opened SqlIdempotence
  import opened SqlApart
  import opened SqlFused
  import opened SqlExposed
  import opened SqlChanges
  import ConnString
  import ConnStringGrowth

  /** A constant with escapes mentions no secret. */
  predicate Silent(t: Lexeme) { t.IsLiteral() && (t.escapes || t.unicode) ==> !MentionsConnSecret(t.Body()) }

  predicate AllSilent(ps: seq<Piece>) { forall i :: 0 <= i < |ps| ==> Silent(ps[i].tok) }

  /** A constant with Unicode escapes, at least as long as a placeholder. */
  predicate IsUni(t: Lexeme) {
    t.kind == Str && t.unicode && |t.text| >= 12 && (t.text[0] == 'u' || t.text[0] == 'U') && t.text[1] == '&' && t.text[2] == '\''
  }

  /** The step puts the placeholder for itself. */
  predicate Trivial(e: Step, ps: seq<Piece>) {
    e.Edit? && e.from < |ps| && e.from > 0 && e.to == e.from + 1 && !e.toEnd && ps[e.from].tok == e.repl
  }

  /** Every step keeps its token or puts the placeholder for itself. */
  predicate Idle(c: Context, ps: seq<Piece>)
    requires WellFormed(ps)
    decreases |ps|
  {
    ps == [] ||
    var e := Decide(c, Toks(ps));
    if e == Keep then Idle(Next(c, ps[0].tok), ps[1..])
    else Trivial(e, ps) && Idle(After(c, Toks(ps[..e.to])), ps[e.to..])
  }

  /** The step replaces a constant with Unicode escapes, or drops one behind a placeholder. */
  predicate Uncovers(e: Step, ps: seq<Piece>) {
    && e.Edit? && 0 < e.from < e.to <= |ps| && !e.toEnd && e.repl == REDACTED
    && (e.to < |ps| ==> !ps[e.to].tok.IsLiteral())
    && (IsUni(ps[e.from].tok) || (ps[e.from].tok == REDACTED && e.from + 1 < e.to && IsUni(ps[e.from + 1].tok)))
  }

  /** The first step that is not idle rewrites a constant, or uncovers one with Unicode escapes. */
  predicate Tame(c: Context, ps: seq<Piece>)
    requires WellFormed(ps)
    decreases |ps|
  {
    ps == [] ||
    var e := Decide(c, Toks(ps));
    if e == Keep then Tame(Next(c, ps[0].tok), ps[1..])
    else if Trivial(e, ps) then Tame(After(c, Toks(ps[..e.to])), ps[e.to..])
    else e.from == 0 || Uncovers(e, ps)
  }

  // A constant that is rewritten

  lemma {:induction false} PlainFlags(t: Lexeme, r: string)
    requires Fits(t, r) && t.text[0] == '\''
    ensures t.kind == Str && !t.escapes && !t.unicode
  {
    hide Quoted, Run, BlockScan, DollarLexeme, WordLexeme;
    assert (t.text + r)[0] == '\'';
    QuotedFlags(t.text + r);
  }

  lemma {:induction false} QuotedFlags(s: string)
    requires s != ""
    ensures var t := Quoted(Str, s, 0, '\'', false, false); t.kind == Str && !t.escapes && !t.unicode
  {
    hide QuoteScan;
  }

  lemma {:induction false} FirstDiffers(a: string, r: string, b: string, r2: string)
    requires a != "" && b != "" && a[0] != b[0]
    ensures a + r != b + r2
  {
    assert (a + r)[0] == a[0] && (b + r2)[0] == b[0];
  }

  /** A constant that is rewritten changes the text from there on. */
  lemma {:induction false} LiteralMoves(t: Lexeme, r: string, rw: Rewrite, r2: string)
    requires Fits(t, r) && t.IsLiteral() && t.WellFormed() && ConnRewrite(t) == Some(rw)
    requires rw.toEnd ==> r2 == ""
    requires r == "" ==> r2 == ""
    requires "'" <= r2 && !("'" <= r) ==> r2 == REDACTED.text && r != ""
    ensures t.text + r != rw.repl.text + r2
  {
    hide Fits, ConnRewrite, REDACTED, Ends;
    RedactedQuiet();
    RedactedFits();
    RedactedQuote();
    RewriteDiffers(t);
    if rw.repl == REDACTED && t.text[0] != '\'' {
      FirstDiffers(t.text, r, REDACTED.text, r2);
    } else if rw.toEnd {
      ToEndRedacted(t);
      TextsDiffer(t, r, REDACTED, "");
    } else {
      if rw.repl == REDACTED {
        PlainFlags(t, r);
      } else {
        RewrittenBody(t, r);
      }
      ValueMoves(t, r, rw, r2);
    }
  }

  lemma {:induction false} ValueMoves(t: Lexeme, r: string, rw: Rewrite, r2: string)
    requires Fits(t, r) && t.IsLiteral() && t.WellFormed() && ConnRewrite(t) == Some(rw) && !rw.toEnd && !t.escapes && !t.unicode
    requires r == "" ==> r2 == ""
    requires "'" <= r2 && !("'" <= r) ==> r2 == REDACTED.text && r != ""
    ensures t.text + r != rw.repl.text + r2
  {
    hide Fits, ConnRewrite, REDACTED, Ends, WithBody, ConnString.RedactPasswords, ConnString.Double, Undouble;
    var v := ValueOf(t);
    var red := ConnString.RedactPasswords(v);
    RewriteFlags(t);
    RewriteDiffers(t);
    ConnStringGrowth.RedactionGrows(v);
    FitsEnds(t, r);
    if !t.terminated {
      OpenChanges(t, r, if t.kind == Dollar then red else ConnString.Double(red, '\''));
      assert rw.repl.text + "" == rw.repl.text;
    } else if t.kind == Dollar {
      DollarDiffers(t, r, red, r2);
    } else {
      StrEnds(t, r);
      BodyRestored(t, r);
      StringDiffers(t, r, v, red, r2);
    }
  }

  /** What follows a constant starts with a quote only if it did, or the rest is given up. */
  lemma {:induction false} StartsLike(c: Context, s: Script)
    requires Sound(s) && AllSilent(s.pieces)
    ensures var r, r2 := TextOf(s), TextOf(Walk(c, s));
            && (r == "" ==> r2 == "")
            && ("'" <= r2 && !("'" <= r) ==> r2 == REDACTED.text && r != "")
  {
    hide Walk, TextOf, ConnRewrite, Chain, REDACTED, Silent;
    if s.pieces == [] {
      WalkNone(c, s);
    } else {
      var p, w := s.pieces[0], Walk(c, s);
      FirstTexts(s);
      WalkFirst(c, s);
      StartPiece(s);
      if w.pieces[0].tok == p.tok {
        StartPiece(w);
      } else {
        RewriteOpens(s, ConnRewrite(p.tok).value);
        StartPiece(w);
        if p.gap == [] && "'" <= w.pieces[0].tok.text && !("'" <= p.tok.text) {
          GivenUpEnds(c, s);
        }
      }
    }
  }

  lemma {:induction false} WalkNone(c: Context, s: Script)
    requires s.pieces == []
    ensures Walk(c, s) == s
  {
  }

  /** The first character of a text. */
  lemma {:induction false} StartPiece(s: Script)
    requires s.pieces != [] && s.pieces[0].tok.text != "" && (s.pieces[0].gap != [] ==> s.pieces[0].gap[0].text != "")
    ensures var p := s.pieces[0]; var r := TextOf(s);
            r != "" && r[0] == if p.gap == [] then p.tok.text[0] else p.gap[0].text[0]
  {
    hide TextOf;
    var r := Script(s.pieces[1..], s.tail);
    assert s.pieces == [s.pieces[0]] + r.pieces;
    StartOf(s.pieces[0], r);
  }

  lemma {:induction false} GivenUpEnds(c: Context, s: Script)
    requires Sound(s) && AllSilent(s.pieces) && s.pieces != [] && s.pieces[0].gap == []
    requires var p, w := s.pieces[0], Walk(c, s);
             && p.tok.IsLiteral() && ConnRewrite(p.tok).Some? && w.pieces != [] && w.pieces[0].tok == ConnRewrite(p.tok).value.repl
             && "'" <= w.pieces[0].tok.text && !("'" <= p.tok.text)
    ensures TextOf(Walk(c, s)) == REDACTED.text
  {
    hide TextOf, ConnRewrite, Chain, REDACTED, Silent, Decide, Fits, Flatten, After, Next, IsConstantName;
    var p := s.pieces[0];
    RewriteOpens(s, ConnRewrite(p.tok).value);
    SoundFirst(s);
    OpeningKept(p.tok, Join(Flatten(s.pieces[1..]) + s.tail));
    LoPlain(p.tok);
    ConstantAgain(c, Toks(s.pieces));
    QuietEnds(p.tok, Join(Flatten(s.pieces[1..]) + s.tail));
    var kept := s.pieces[..0] + [Piece(p.gap, REDACTED)];
    WalkEdit(c, s, Decide(c, Toks(s.pieces)));
    assert kept == [Piece([], REDACTED)];
    ScriptText(Piece([], REDACTED));
    JoinNone();
    assert "" + REDACTED.text == REDACTED.text;
  }

  lemma {:induction false} LoPlain(t: Lexeme)
    requires t.lo != 1
    ensures !IsConstantName(t)
  {
  }

  /** A quiet constant that is given up, and does not start with a quote, is given up to the end. */
  lemma {:induction false} QuietEnds(t: Lexeme, r: string)
    requires Fits(t, r) && t.IsLiteral() && t.WellFormed() && Silent(t) && t.text[0] != '\'' && ConnRewrite(t).Some? && ConnRewrite(t).value.repl == REDACTED
    ensures ConnRewrite(t).value.toEnd
  {
    hide Fits, MentionsConnSecret, TruncatedInHost, ConnString.RedactPasswords, Undouble, ConnString.Double, AmbiguousEscapes, WithBody;
    OpeningKept(t, r);
    if !ConnRewrite(t).value.toEnd && !t.escapes && !t.unicode {
      var red := ConnString.RedactPasswords(ValueOf(t));
      WithBodyStart(t, if t.kind == Dollar then red else ConnString.Double(red, '\''));
    }
  }

  lemma {:induction false} ConnMoves(c: Context, s: Script)
    requires Sound(s) && AllSilent(s.pieces) && s.pieces != []
    requires var e := Decide(c, Toks(s.pieces)); e.Edit? && e.from == 0
    ensures TextOf(Walk(c, s)) != TextOf(s)
  {
    hide TextOf, ConnRewrite, Chain, REDACTED, Silent, Decide, After, Next, Walk;
    var ps, e, p := s.pieces, Decide(c, Toks(s.pieces)), s.pieces[0];
    var rest, q := Script(ps[1..], s.tail), Piece(p.gap, e.repl);
    EditShape(c, Toks(ps));
    EditIsOne(c, Toks(ps));
    var kept := ps[..0] + [q];
    assert kept == [q];
    WalkEdit(c, s, Decide(c, Toks(s.pieces)));
    var r' := if e.toEnd then Script([], []) else Walk(After(c, Toks(kept)), rest);
    assert kept + [] == kept;
    EmptyText();
    FirstTexts(s);
    SoundRest(s, 1);
    if !e.toEnd {
      StartsLike(After(c, Toks(kept)), rest);
    }
    LiteralMoves(p.tok, TextOf(rest), Rewrite(e.repl, e.toEnd), TextOf(r'));
    assert ps == [p] + rest.pieces;
    PieceFirst(p, rest);
    PieceFirst(q, r');
    Cancel(Join(p.gap), p.tok.text + TextOf(rest), e.repl.text + TextOf(r'));
  }

  // A constant with Unicode escapes

  /** Two ways to cut spaces and comments off a text. */
  lemma {:induction false} SameGap(g: seq<Lexeme>, a: string, h: seq<Lexeme>, b: string)
    requires Chain(g, a) && Chain(h, b) && AllGap(g) && AllGap(h) && Join(g) + a == Join(h) + b
    requires a != "" && b != "" && First(a).Significant() && First(b).Significant()
    ensures g == h && a == b
    decreases |g|
  {
    hide First;
    if g == [] && h == [] {
      assert Join(g) + a == a && Join(h) + b == b;
    } else if g == [] {
      assert Join(g) + a == a;
      GapFirst(h, b);
    } else if h == [] {
      assert Join(h) + b == b;
      GapFirst(g, a);
    } else {
      GapFirst(g, a);
      GapFirst(h, b);
      Associate(g[0].text, Join(g[1..]), a);
      Associate(h[0].text, Join(h[1..]), b);
      if Join(g[1..]) + a != Join(h[1..]) + b {
        Cancel(g[0].text, Join(g[1..]) + a, Join(h[1..]) + b);
      }
      SameGap(g[1..], a, h[1..], b);
    }
  }

  lemma {:induction false} GapFirst(g: seq<Lexeme>, a: string)
    requires g != [] && Chain(g, a) && AllGap(g)
    ensures Join(g) + a != "" && First(Join(g) + a) == g[0] && !g[0].Significant()
  {
    hide First;
    Associate(g[0].text, Join(g[1..]), a);
  }

  lemma {:induction false} IdentChars(t: Lexeme, r: string)
    requires Fits(t, r) && t.kind == Ident
    ensures All(IsIdentCont, t.text) && IsIdentStart(t.text[0])
  {
    hide Run, Quoted, BlockScan, Lower, DollarLexeme;
    assert (t.text + r)[0] == t.text[0];
    IdentRead(t, r);
  }

  lemma {:induction false} IdentRead(t: Lexeme, r: string)
    requires Fits(t, r) && t.kind == Ident
    ensures IsIdentStart(t.text[0]) && t.text == (t.text + r)[..Run(IsIdentCont, t.text + r)]
  {
    hide Run, BlockScan, Lower, QuoteScan;
    assert (t.text + r)[0] == t.text[0];
  }

  lemma {:induction false} AmpAlone(t: Lexeme, r: string)
    requires Fits(t, r) && t.text[0] == '&'
    ensures t.kind == Other && t.text == "&"
  {
    hide Run, Quoted, BlockScan, DollarLexeme, WordLexeme;
    assert (t.text + r)[0] == '&';
    assert t.text == (t.text + r)[..1];
  }

  lemma {:induction false} SecondChar(a: string, b: string)
    ensures |a| > 1 ==> (a + b)[1] == a[1]
  {
  }

  /** A token that is no constant, where a text that starts with "u&'" is read. */
  lemma {:induction false} OnlyU(t: Lexeme, r: string, m: string, x: string, z: string)
    requires Fits(t, r) && !t.IsLiteral() && |m| >= 12 && (m[0] == 'u' || m[0] == 'U') && m[1] == '&' && m[2] == '\'' && m + x == t.text + z
    ensures IsU(t) && |t.text| == 1 && |z| > 1 && z[0] == '&' && z[1] == '\''
  {
    hide First, Fits;
    FitsText(t, r);
    assert (m + x)[0] == m[0] && (m + x)[1] == m[1] && (m + x)[2] == m[2];
    assert (t.text + z)[0] == t.text[0];
    WordKind(t, r);
    IdentChars(t, r);
    SecondChar(t.text, z);
    assert |t.text| == 1;
    assert Lower(t.text)[0] == LowerChar(t.text[0]) == 'u';
    assert Lower(t.text) == "u";
    assert (t.text + z)[1] == z[0] && (t.text + z)[2] == z[1];
  }

  /** A statement in which the walk puts "&'" at the front loses all else. */
  lemma {:induction false} AmpQuote(c: Context, prev: Before, u: Piece, s: Script)
    requires Stands(Behind(prev, u), s) && IsU(u.tok) && AllSilent(s.pieces)
    requires var z := TextOf(Walk(c, s)); |z| > 1 && z[0] == '&' && z[1] == '\''
    ensures TextOf(Walk(c, s)) == "&" + REDACTED.text && s.pieces != []
  {
    hide Stands, Walk, TextOf, ConnRewrite, REDACTED, Silent, IsU, Behind, Next;
    var b := Behind(prev, u);
    StandsSound(b, s);
    if s.pieces == [] {
      WalkNone(c, s);
      TailNoAmp(s);
    } else {
      var p := s.pieces[0];
      AmpFirst(c, s);
      var c1, rest := Next(c, p.tok), Script(s.pieces[1..], s.tail);
      AmpInert(p);
      WalkPlainly(c, s);
      var w := Walk(c1, rest);
      PieceFirst(p, w);
      JoinNone();
      assert "" + (p.tok.text + TextOf(w)) == "&" + TextOf(w);
      assert ("&" + TextOf(w))[1] == TextOf(w)[0];
      StandsBehind(b, s);
      HotHere(prev, u, p);
      StandsQuote(Behind(b, p), rest);
      StartsLike(c1, rest);
    }
  }

  lemma {:induction false} StandsQuote(prev: Before, s: Script)
    requires Stands(prev, s) && prev.hot
    ensures Sound(s) && !("'" <= TextOf(s))
  {
  }

  lemma {:induction false} TailNoAmp(s: Script)
    requires Sound(s) && s.pieces == []
    ensures TextOf(s) != "" ==> TextOf(s)[0] != '&'
  {
    hide Fits;
    var ts := Ungroup(s);
    assert ts == s.tail;
    if ts != [] {
      ChainAt(ts, "", 0);
      FirstChar(ts[0], Join(ts[1..]) + "");
      FitsText(ts[0], Join(ts[1..]) + "");
      assert Join(ts)[0] == ts[0].text[0];
    }
  }

  lemma {:induction false} AmpFirst(c: Context, s: Script)
    requires Sound(s) && s.pieces != []
    requires var z := TextOf(Walk(c, s)); z != "" && z[0] == '&'
    ensures IsAmp(s.pieces[0])
  {
    hide Walk, TextOf, ConnRewrite, REDACTED, Fits, Chain, Flatten;
    var p, w := s.pieces[0], Walk(c, s);
    FirstTexts(s);
    WalkFirst(c, s);
    if w.pieces[0].tok != p.tok {
      RewriteOpens(s, ConnRewrite(p.tok).value);
    }
    StartPiece(w);
    SoundFirst(s);
    RedactedQuote();
    if p.gap != [] {
      GapNoAmpFirst(s);
    } else {
      FirstChar(p.tok, Join(Flatten(s.pieces[1..]) + s.tail));
      if p.tok.text[0] == '&' {
        AmpAlone(p.tok, Join(Flatten(s.pieces[1..]) + s.tail));
      }
    }
  }

  lemma {:induction false} GapNoAmpFirst(s: Script)
    requires Sound(s) && s.pieces != [] && s.pieces[0].gap != []
    ensures s.pieces[0].gap[0].text != "" && s.pieces[0].gap[0].text[0] != '&'
  {
    hide Fits, Flatten;
    FirstOut(s.pieces);
    var ts := Ungroup(s);
    assert ts[0] == s.pieces[0].gap[0];
    ChainAt(ts, "", 0);
    FirstChar(ts[0], Join(ts[1..]) + "");
    FitsText(ts[0], Join(ts[1..]) + "");
  }

  /** What follows a token that is no constant, before and after the walk. */
  lemma {:induction false} StaysSignificant(t: Lexeme, y: string, z: string)
    requires Fits(t, y) && t.Significant() && !t.IsLiteral()
    requires (z == "" || z[0] == '\'' || z[0] == '"' || (y != "" && z[0] == y[0]))
    ensures First(t.text + z).Significant()
  {
    hide Run, Quoted, BlockScan, DollarLexeme, WordLexeme, Lower, OpensDollar;
    FirstChar(t, y);
    FitsEnds(t, y);
    var s := t.text + z;
    assert s[0] == t.text[0] == (t.text + y)[0];
    assert |t.text| > 1 ==> s[1] == t.text[1] == (t.text + y)[1];
    assert |t.text| == 1 && z != "" ==> s[1] == z[0];
    assert |t.text| == 1 && y != "" ==> (t.text + y)[1] == y[0];
    FirstKinds(s);
    FirstKinds(t.text + y);
  }

  lemma {:induction false} FirstKinds(s: string)
    requires s != "" && !IsSpace(s[0])
    ensures First(s).Significant() <==> !(|s| > 1 && ((s[0] == '-' && s[1] == '-') || (s[0] == '/' && s[1] == '*')))
  {
    hide Run, BlockScan, Lower, QuoteScan, FindFrom, OpensDollar, TagLen;
  }

  /** The first character behind a token. */
  lemma {:induction false} NextChar(c: Context, s: Script)
    requires Sound(s)
    ensures var y, z := TextOf(s), TextOf(Walk(c, s)); z == "" || z[0] == '\'' || z[0] == '"' || (y != "" && z[0] == y[0])
  {
    hide Walk, TextOf, ConnRewrite, REDACTED, Fits, Chain, Flatten;
    if s.pieces == [] {
      WalkNone(c, s);
    } else {
      var p, w := s.pieces[0], Walk(c, s);
      FirstTexts(s);
      WalkFirst(c, s);
      if w.pieces[0].tok != p.tok {
        RewriteOpens(s, ConnRewrite(p.tok).value);
      }
      RedactedQuote();
      StartPiece(w);
      StartPiece(s);
    }
  }

  lemma {:induction false} SuffixShorter(ps: seq<Piece>, tail: seq<Lexeme>, k: nat)
    requires k <= |ps|
    ensures |TextOf(Script(ps[k..], tail))| <= |TextOf(Script(ps, tail))|
    decreases k
  {
    hide TextOf;
    if k == 0 {
      assert ps[0..] == ps;
    } else {
      SuffixShorter(ps[1..], tail, k - 1);
      assert ps[1..][k - 1..] == ps[k..] && ps == [ps[0]] + ps[1..];
      PieceFirst(ps[0], Script(ps[1..], tail));
    }
  }

  /** The text of a statement as the first gap and the rest. */
  lemma {:induction false} GapAndRest(s: Script)
    requires Sound(s) && s.pieces != []
    ensures var p, r := s.pieces[0], Script(s.pieces[1..], s.tail);
            && TextOf(s) == Join(p.gap) + (p.tok.text + TextOf(r)) && Chain(p.gap, p.tok.text + TextOf(r)) && AllGap(p.gap)
            && p.tok.text != "" && First(p.tok.text + TextOf(r)) == p.tok && p.tok.Significant() && Fits(p.tok, TextOf(r))
  {
    hide Flatten, First;
    var p, r := s.pieces[0], Script(s.pieces[1..], s.tail);
    assert s.pieces == [p] + r.pieces;
    PieceFirst(p, r);
    TokenThen(s.pieces, 0, s.tail);
    FrontNone(s.pieces);
    JoinCons(p.tok, Flatten(s.pieces[1..]) + s.tail);
  }

  /** The same for what the walk makes of a statement that starts with no constant. */
  lemma {:induction false} WalkedGap(c: Context, s: Script) returns (z: string)
    requires Sound(s) && s.pieces != [] && !s.pieces[0].tok.IsLiteral()
    ensures var p := s.pieces[0];
            && TextOf(Walk(c, s)) == Join(p.gap) + (p.tok.text + z) && Chain(p.gap, p.tok.text + z)
            && First(p.tok.text + z).Significant()
            && (IsU(p.tok) ==> z == TextOf(Walk(Next(c, p.tok), Script(s.pieces[1..], s.tail))))
  {
    hide Walk, TextOf, Chain, First, Fits, Next, ConnRewrite, IsU;
    var p, r, w := s.pieces[0], Script(s.pieces[1..], s.tail), Walk(c, s);
    GapAndRest(s);
    WalkFirst(c, s);
    var x := Script(w.pieces[1..], w.tail);
    assert w.pieces == [p] + x.pieces;
    PieceFirst(p, x);
    z := TextOf(x);
    if Plainly(p.tok) {
      WalkPlainly(c, s);
      assert ([p] + Walk(Next(c, p.tok), r).pieces)[1..] == Walk(Next(c, p.tok), r).pieces;
      SoundRest(s, 1);
      NextChar(Next(c, p.tok), r);
      StaysSignificant(p.tok, TextOf(r), z);
    } else {
      NameSignificant(p.tok, TextOf(r), z);
    }
    if IsU(p.tok) {
      UNoName(p.tok);
    }
    if p.gap != [] {
      FirstChar(p.tok, TextOf(r));
      GapStarts(None, p.gap, p.tok, TextOf(r), p.tok.text + z);
      ChainSwap(None, p.gap, p.tok.text + TextOf(r), p.tok.text + z);
    } else {
      ChainNone(p.tok.text + z);
    }
  }

  lemma {:induction false} ChainNone(r: string)
    ensures Chain([], r)
  {
  }

  lemma {:induction false} NameSignificant(t: Lexeme, y: string, z: string)
    requires Fits(t, y) && t.IsName()
    ensures First(t.text + z).Significant()
  {
    hide First;
    assert (t.text + z)[0] == t.text[0];
    NameStart(t, y);
    FirstKinds(t.text + z);
  }

  lemma {:induction false} NameStart(t: Lexeme, y: string)
    requires Fits(t, y) && t.IsName()
    ensures t.text[0] == '"' || IsIdentStart(t.text[0])
  {
    hide Run, BlockScan, Lower, QuoteScan, FindFrom, OpensDollar, TagLen;
    assert (t.text + y)[0] == t.text[0];
  }

  /** Dropping a constant with Unicode escapes and those behind it changes the text. */
  lemma {:induction false} DroppedDiffers(c: Context, a: Script, k: nat)
    requires Sound(a) && AllSilent(a.pieces) && 1 <= k <= |a.pieces| && IsUni(a.pieces[0].tok)
    requires k < |a.pieces| ==> !a.pieces[k].tok.IsLiteral()
    ensures WellFormed(a.pieces[k..]) && TextOf(Walk(c, Script(a.pieces[k..], a.tail))) != TextOf(a)
  {
    hide Walk, TextOf, Chain, First, Fits, Next, ConnRewrite, IsU, Silent, REDACTED, Join;
    var m, r := a.pieces[0].tok, Script(a.pieces[k..], a.tail);
    var y := TextOf(Script(a.pieces[1..], a.tail));
    GapAndRest(a);
    SoundRest(a, k);
    SuffixShorter(a.pieces[1..], a.tail, k - 1);
    assert a.pieces[1..][k - 1..] == a.pieces[k..];
    if r.pieces == [] {
      WalkNone(c, r);
    } else {
      var z := WalkedGap(c, r);
      GapAndRest(r);
      var p := r.pieces[0];
      if TextOf(Walk(c, r)) == TextOf(a) {
        SameGap(a.pieces[0].gap, m.text + y, p.gap, p.tok.text + z);
        OnlyU(p.tok, TextOf(Script(r.pieces[1..], r.tail)), m.text, y, z);
        UAlone(c, r);
        assert false;
      }
    }
  }

  lemma {:induction false} UAlone(c: Context, r: Script)
    requires Sound(r) && r.pieces != [] && AllSilent(r.pieces) && IsU(r.pieces[0].tok)
    requires var z := TextOf(Walk(Next(c, r.pieces[0].tok), Script(r.pieces[1..], r.tail))); |z| > 1 && z[0] == '&' && z[1] == '\''
    ensures |TextOf(Walk(Next(c, r.pieces[0].tok), Script(r.pieces[1..], r.tail)))| == 11
  {
    hide Walk, TextOf, Next, Sound, Stands, Silent, IsU;
    StandsAlone(r);
    StandsBehind(NOTHING, r);
    assert forall i :: 0 <= i < |r.pieces[1..]| ==> r.pieces[1..][i] == r.pieces[i + 1];
    AmpQuote(Next(c, r.pieces[0].tok), NOTHING, r.pieces[0], Script(r.pieces[1..], r.tail));
    RedactedLength();
  }

  lemma {:induction false} StandsAlone(s: Script)
    requires Sound(s)
    ensures Stands(NOTHING, s)
  {
  }

  lemma {:induction false} RedactedLength()
    ensures |REDACTED.text| == 10
  {
  }

  lemma {:induction false} QuietRest(ps: seq<Piece>, k: nat)
    requires AllSilent(ps) && k <= |ps|
    ensures AllSilent(ps[k..])
  {
    hide Silent;
    assert forall i :: 0 <= i < |ps[k..]| ==> ps[k..][i] == ps[i + k];
  }

  /** The text of a statement with an edit in it, compared from there on. */
  lemma {:induction false} EditMoves(c: Context, s: Script, k: nat, b: Script)
    requires WellFormed(s.pieces) && s.pieces != [] && k <= |s.pieces|
    requires Walk(c, s) == Script(s.pieces[..k] + b.pieces, b.tail) && TextOf(b) != TextOf(Script(s.pieces[k..], s.tail))
    ensures TextOf(Walk(c, s)) != TextOf(s)
  {
    hide TextOf, Walk;
    var a := Script(s.pieces[k..], s.tail);
    SameFront(s.pieces[..k], b, a);
    assert s.pieces[..k] + a.pieces == s.pieces;
  }

  lemma {:induction false} UncoversMoves(c: Context, s: Script)
    requires Sound(s) && AllSilent(s.pieces) && s.pieces != [] && Uncovers(Decide(c, Toks(s.pieces)), s.pieces)
    ensures TextOf(Walk(c, s)) != TextOf(s)
  {
    hide TextOf, REDACTED, AllSilent, Decide, After, Next, Walk, Sound, IsUni;
    SoundPieces(s);
    var ps, e := s.pieces, Decide(c, Toks(s.pieces));
    var q := Piece(ps[e.from].gap, REDACTED);
    var kept, rest := ps[..e.from] + [q], Script(ps[e.to..], s.tail);
    WalkEdit(c, s, Decide(c, Toks(s.pieces)));
    SoundRest(s, e.to);
    SoundPieces(rest);
    var r := Walk(After(c, Toks(kept)), rest);
    if IsUni(ps[e.from].tok) {
      var b := Script([q] + r.pieces, r.tail);
      UniReplaced(ps[e.from], Script(ps[e.from + 1..], s.tail), r);
      assert ps[e.from..] == [ps[e.from]] + ps[e.from + 1..];
      assert ps[..e.from] + b.pieces == kept + r.pieces;
      EditMoves(c, s, e.from, b);
    } else {
      assert kept == ps[..e.from + 1];
      DroppedBehind(After(c, Toks(kept)), s, e);
      EditMoves(c, s, e.from + 1, r);
    }
  }

  lemma {:induction false} DroppedBehind(c: Context, s: Script, e: Step)
    requires Sound(s) && AllSilent(s.pieces) && Uncovers(e, s.pieces) && !IsUni(s.pieces[e.from].tok)
    ensures WellFormed(s.pieces[e.to..])
    ensures TextOf(Walk(c, Script(s.pieces[e.to..], s.tail))) != TextOf(Script(s.pieces[e.from + 1..], s.tail))
  {
    hide TextOf, REDACTED, AllSilent, Walk, Sound, IsUni;
    var ps, n := s.pieces, e.from + 1;
    SoundRest(s, n);
    QuietRest(ps, n);
    assert ps[n..][e.to - n..] == ps[e.to..] && ps[n..][0] == ps[n];
    DroppedDiffers(c, Script(ps[n..], s.tail), e.to - n);
  }

  lemma {:induction false} UniReplaced(p: Piece, x: Script, r: Script)
    requires IsUni(p.tok)
    ensures TextOf(Script([Piece(p.gap, REDACTED)] + r.pieces, r.tail)) != TextOf(Script([p] + x.pieces, x.tail))
  {
    hide TextOf, REDACTED;
    var q := Piece(p.gap, REDACTED);
    PieceFirst(q, r);
    PieceFirst(p, x);
    RedactedQuote();
    FirstDiffers(REDACTED.text, TextOf(r), p.tok.text, TextOf(x));
    Cancel(Join(p.gap), REDACTED.text + TextOf(r), p.tok.text + TextOf(x));
  }

  /** Redacting a statement leaves its text alone if and only if every step is idle. */
  lemma {:induction false} TextMoves(c: Context, s: Script)
    requires Sound(s) && AllSilent(s.pieces) && Tame(c, s.pieces)
    ensures TextOf(Walk(c, s)) == TextOf(s) <==> Idle(c, s.pieces)
    decreases |s.pieces|
  {
    hide TextOf, Sound, REDACTED, AllSilent, Decide, After, Next, Walk, Uncovers, Trivial;
    SoundPieces(s);
    var ps := s.pieces;
    if ps == [] {
      WalkNone(c, s);
    } else {
      var e := Decide(c, Toks(ps));
      if e == Keep {
        var c1, rest := Next(c, ps[0].tok), Script(ps[1..], s.tail);
        SoundRest(s, 1);
        QuietRest(ps, 1);
        TextMoves(c1, rest);
        WalkKeep(c, s);
        SoundPieces(rest);
        RestMoves(c, s, [ps[0]], Walk(c1, rest));
      } else if Trivial(e, ps) {
        TrivialMoves(c, s, e);
        var c1, rest := After(c, Toks(ps[..e.to])), Script(ps[e.to..], s.tail);
        SoundRest(s, e.to);
        QuietRest(ps, e.to);
        TextMoves(c1, rest);
      } else if e.from == 0 {
        ConnMoves(c, s);
      } else {
        UncoversMoves(c, s);
      }
    }
  }

  lemma {:induction false} RestMoves(c: Context, s: Script, kept: seq<Piece>, r: Script)
    requires WellFormed(s.pieces) && |kept| <= |s.pieces| && kept == s.pieces[..|kept|] && Walk(c, s) == Script(kept + r.pieces, r.tail)
    ensures TextOf(Walk(c, s)) == TextOf(s) <==> TextOf(r) == TextOf(Script(s.pieces[|kept|..], s.tail))
  {
    hide TextOf, Walk;
    var rest := Script(s.pieces[|kept|..], s.tail);
    FrontMoves(kept, r, rest);
    assert kept + rest.pieces == s.pieces;
  }

  lemma {:induction false} TrivialMoves(c: Context, s: Script, e: Step)
    requires WellFormed(s.pieces) && s.pieces != [] && Decide(c, Toks(s.pieces)) == e && Trivial(e, s.pieces)
    ensures WellFormed(s.pieces[e.to..])
    ensures var rest := Script(s.pieces[e.to..], s.tail);
            TextOf(Walk(c, s)) == TextOf(s) <==> TextOf(Walk(After(c, Toks(s.pieces[..e.to])), rest)) == TextOf(rest)
  {
    hide TextOf, Decide, After, Walk;
    var ps := s.pieces;
    var kept := ps[..e.from] + [Piece(ps[e.from].gap, e.repl)];
    assert kept == ps[..e.to];
    assert forall i :: 0 <= i < |ps[e.to..]| ==> ps[e.to..][i] == ps[i + e.to];
    WalkEdit(c, s, Decide(c, Toks(s.pieces)));
    RestMoves(c, s, kept, Walk(After(c, Toks(kept)), Script(ps[e.to..], s.tail)));
  }

  lemma {:induction false} FrontMoves(kept: seq<Piece>, r: Script, r': Script)
    ensures TextOf(Script(kept + r.pieces, r.tail)) == TextOf(Script(kept + r'.pieces, r'.tail)) <==> TextOf(r) == TextOf(r')
    decreases |kept|
  {
    hide TextOf;
    if TextOf(r) != TextOf(r') {
      SameFront(kept, r, r');
    } else if kept == [] {
      assert kept + r.pieces == r.pieces && kept + r'.pieces == r'.pieces;
    } else {
      var x, x' := Script(kept[1..] + r.pieces, r.tail), Script(kept[1..] + r'.pieces, r'.tail);
      FrontMoves(kept[1..], r, r');
      assert kept + r.pieces == [kept[0]] + x.pieces && kept + r'.pieces == [kept[0]] + x'.pieces;
      PieceFirst(kept[0], x);
      PieceFirst(kept[0], x');
    }
  }
}
