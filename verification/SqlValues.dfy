/**
 What a redacted statement says about the values it replaces: nothing.
 */
module SqlValues {
  import opened Text
  import opened SqlLexer
  import opened SqlBoundary
  import opened SqlChain
  import opened SqlRedact
  import opened SqlGate
  import opened SqlRelex

  /** The walk from the first of the pieces on puts a placeholder for the token at `n`, or drops it. */
  predicate Replaced(c: Context, s: Script, n: nat)
    requires WellFormed(s.pieces) && n < |s.pieces|
    decreases |s.pieces|
  {
    var ps := s.pieces;
    match Decide(c, Toks(ps))
    case Keep => n > 0 && Replaced(Next(c, ps[0].tok), Script(ps[1..], s.tail), n - 1)
    case Edit(from, to, repl, toEnd) =>
      if n < to then 0 < from <= n
      else toEnd || Replaced(After(c, Toks(ps[..from] + [Piece(ps[from].gap, repl)])), Script(ps[to..], s.tail), n - to)
  }

  /** The tokens differ at `n` alone, where each has a constant without a backslash. */
  predicate DifferAt(ts: seq<Lexeme>, us: seq<Lexeme>, n: nat) {
    && n < |ts| == |us|
    && (forall i :: 0 <= i < |ts| && i != n ==> us[i] == ts[i])
    && ts[n].kind == Str && us[n].kind == Str && !AmbiguousEscapes(ts[n]) && !AmbiguousEscapes(us[n])
  }

  lemma {:induction false} LiteralsSame(ts: seq<Lexeme>, us: seq<Lexeme>, m: nat)
    requires |ts| == |us| && m <= |ts|
    requires forall i :: 0 <= i < |ts| ==> us[i].IsLiteral() == ts[i].IsLiteral()
    ensures Literals(us[m..]) == Literals(ts[m..])
  {
    var a, b := Literals(ts[m..]), Literals(us[m..]);
    assert forall i :: 0 <= i < |ts| - m ==> us[m..][i].IsLiteral() == ts[m..][i].IsLiteral();
    assert a < |ts| - m ==> !ts[m..][a].IsLiteral();
    assert b < |us| - m ==> !us[m..][b].IsLiteral();
  }

  lemma {:induction false} SemicolonSame(ts: seq<Lexeme>, us: seq<Lexeme>, m: nat)
    requires |ts| == |us| && m <= |ts|
    requires forall i :: 0 <= i < |ts| ==> us[i].Is(Other, ";") == ts[i].Is(Other, ";")
    ensures UpToSemicolon(us[m..]) == UpToSemicolon(ts[m..])
  {
    hide Lexeme.Is;
    var a, b := UpToSemicolon(ts[m..]), UpToSemicolon(us[m..]);
    assert forall i :: 0 <= i < |ts| - m ==> us[m..][i].Is(Other, ";") == ts[m..][i].Is(Other, ";");
    assert a < |ts| - m ==> ts[m..][a].Is(Other, ";");
    assert b < |us| - m ==> us[m..][b].Is(Other, ";");
  }

  /** No decision in front of the differing constant depends on it. */
  lemma {:induction false} DecideSame(c: Context, ts: seq<Lexeme>, us: seq<Lexeme>, n: nat)
    requires DifferAt(ts, us, n) && n > 0 && ts[0].WellFormed()
    ensures Decide(c, us) == Decide(c, ts)
  {
    hide IsSecret, ConnRewrite, IsConstantName, DecideName, DecideLiteral, AmbiguousEscapes;
    if IsSecret(ts[0]) {
      NameSame(c, ts, us, n);
    } else if ts[0].IsLiteral() {
      LiteralSame(ts, us, n);
    }
  }

  lemma {:induction false} NameSame(c: Context, ts: seq<Lexeme>, us: seq<Lexeme>, n: nat)
    requires DifferAt(ts, us, n) && n > 0
    ensures DecideName(c, us) == DecideName(c, ts)
  {
    hide IsSecret, AmbiguousEscapes, HoldsNoSecret, Literals, UpToSemicolon, EqualFold;
    if |ts| > 1 {
      var m := if IsSeparator(ts[1]) then 2 else 1;
      assert IsSeparator(us[1]) == IsSeparator(ts[1]);
      if m < |ts| {
        LiteralsSame(ts, us, m);
        SemicolonSame(ts, us, m);
      }
    }
  }

  lemma {:induction false} LiteralSame(ts: seq<Lexeme>, us: seq<Lexeme>, n: nat)
    requires DifferAt(ts, us, n) && n > 0 && ts[0].WellFormed()
    ensures DecideLiteral(us) == DecideLiteral(ts)
  {
    hide IsSecretName, ConnRewrite, IsConstantName, AmbiguousEscapes, Literals, EqualFold;
    if |ts| > 2 {
      LiteralsSame(ts, us, 2);
      assert us[1].Is(Other, ",") == ts[1].Is(Other, ",");
    }
  }

  lemma {:induction false} ReplacedSame(c: Context, s: Script, p: Piece, n: nat)
    requires WellFormed(s.pieces) && n < |s.pieces| && p.tok.WellFormed() && Replaced(c, s, n)
    requires p.gap == s.pieces[n].gap && DifferAt(Toks(s.pieces), Toks(s.pieces[n := p]), n)
    ensures WellFormed(s.pieces[n := p])
    ensures Walk(c, Script(s.pieces[n := p], s.tail)) == Walk(c, s)
    decreases |s.pieces|
  {
    hide Decide, Next, After, AmbiguousEscapes;
    var ps, qs := s.pieces, s.pieces[n := p];
    if n > 0 {
      DecideSame(c, Toks(ps), Toks(qs), n);
      match Decide(c, Toks(ps))
      case Keep =>
        assert qs[1..] == ps[1..][n - 1 := p];
        Shifted(ps, p, n, 1);
        ReplacedSame(Next(c, ps[0].tok), Script(ps[1..], s.tail), p, n - 1);
      case Edit(from, to, repl, toEnd) =>
        assert qs[..from] == ps[..from] && qs[from].gap == ps[from].gap;
        var kept := ps[..from] + [Piece(ps[from].gap, repl)];
        if n < to {
          assert qs[to..] == ps[to..];
        } else if !toEnd {
          assert qs[to..] == ps[to..][n - to := p];
          Shifted(ps, p, n, to);
          ReplacedSame(After(c, Toks(kept)), Script(ps[to..], s.tail), p, n - to);
        }
    }
  }

  lemma {:induction false} Shifted(ps: seq<Piece>, p: Piece, n: nat, k: nat)
    requires k <= n < |ps| && DifferAt(Toks(ps), Toks(ps[n := p]), n)
    ensures DifferAt(Toks(ps[k..]), Toks(ps[k..][n - k := p]), n - k)
  {
    hide AmbiguousEscapes;
    assert Toks(ps)[n] == ps[n].tok && Toks(ps[n := p])[n] == p.tok;
  }

  // The texts

  /** The plain constant with this body, as read: its quotes are doubled and it holds no backslash. */
  predicate PlainBody(b: string) {
    '\\' !in b && QuoteScan(b + "'" + "", '\'', false) == Scan(|b|, true)
  }

  function Constant(b: string): Lexeme {
    Lexeme(Str, "'" + (b + "'"), 1, 1 + |b|, false, false, true)
  }

  lemma {:induction false} ConstantFits(b: string, post: string)
    requires PlainBody(b) && !("'" <= post)
    ensures Fits(Constant(b), post) && Constant(b).WellFormed() && !AmbiguousEscapes(Constant(b))
  {
    hide QuoteScan, Run, BlockScan, DollarLexeme, WordLexeme;
    var t := Constant(b);
    assert b + "'" + "" == b + ['\''] + "";
    QuotedClosed(Str, "'", b, '\'', false, false, "");
    assert t.text + "" == "'" + (b + ['\'']) + "";
    assert (t.text + "")[0] == '\'';
    assert Fits(t, "");
    assert t.Body() == b;
    Refit(t, "", post);
  }

  /** In front of a quote, one constant is like another. */
  lemma {:induction false} ChainConstant(a: seq<Lexeme>, b: string, b': string, post: string)
    requires Chain(a, Constant(b).text + post)
    ensures Chain(a, Constant(b').text + post)
  {
    hide Fits, Ends, Bridge, Chain;
    var r, r' := Constant(b).text + post, Constant(b').text + post;
    if a != [] {
      LastEnds(a, r);
      assert r == "'" + (b + "'" + post) && r' == "'" + (b' + "'" + post);
      EndsOpening(a[|a| - 1], "'", b + "'" + post, b' + "'" + post);
    }
    FollowsAny(None, a, true, r, r');
    ChainSwap(None, a, r, r');
  }

  /** The statement around a constant. */
  lemma {:induction false} AroundConstant(a: seq<Lexeme>, b: string, post: string)
    requires PlainBody(b) && !("'" <= post) && Chain(a, Constant(b).text + post)
    ensures Lex(Join(a) + (Constant(b).text + post)) == a + ([Constant(b)] + Lex(post))
  {
    hide Fits, Chain, Lex;
    var t := Constant(b);
    ConstantFits(b, post);
    LexChain(a, t.text + post);
    JoinNone();
    JoinCons(t, []);
    assert [t] + [] == [t] && t.text + "" == t.text;
    assert Chain([t], post) by { ChainOne(t, post); }
    LexChain([t], post);
  }

  /** The number of significant tokens. */
  function Significants(a: seq<Lexeme>): nat {
    if a == [] then 0 else (if a[0].Significant() then 1 else 0) + Significants(a[1..])
  }

  /** Where grouping puts a significant token, and what it does to all the others. */
  lemma {:induction false} GroupAround(a: seq<Lexeme>, t: Lexeme, u: Lexeme, r: seq<Lexeme>)
    requires t.Significant() && u.Significant()
    ensures var s, s', n := Group(a + ([t] + r)), Group(a + ([u] + r)), Significants(a);
            && n < |s.pieces| && s.pieces[n].tok == t
            && s' == Script(s.pieces[n := Piece(s.pieces[n].gap, u)], s.tail)
    decreases |a|
  {
    hide Group;
    if a == [] {
      assert a + ([t] + r) == [t] + r && a + ([u] + r) == [u] + r;
      GroupToken(t, r);
      GroupToken(u, r);
    } else {
      var x, y := a[1..] + ([t] + r), a[1..] + ([u] + r);
      GroupAround(a[1..], t, u, r);
      assert a + ([t] + r) == [a[0]] + x && a + ([u] + r) == [a[0]] + y;
      if a[0].Significant() {
        GroupToken(a[0], x);
        GroupToken(a[0], y);
      } else {
        GroupGap([a[0]], x);
        GroupGap([a[0]], y);
      }
    }
  }

  /** Two statements that differ only in the body of a plain constant that is redacted as a value
      have the same redaction. */
  lemma {:induction false} ValueIndependent(a: seq<Lexeme>, b: string, b': string, post: string)
    requires PlainBody(b) && PlainBody(b') && !("'" <= post) && Chain(a, Constant(b).text + post)
    requires var s := Statement(Join(a) + (Constant(b).text + post));
             Significants(a) < |s.pieces| && Replaced(START, s, Significants(a))
    ensures RedactQuery(Join(a) + (Constant(b).text + post)) == RedactQuery(Join(a) + (Constant(b').text + post))
  {
    hide Fits, Chain, Lex, Group, Walk, Replaced, RedactQuery, AmbiguousEscapes;
    var q, q', n := Join(a) + (Constant(b).text + post), Join(a) + (Constant(b').text + post), Significants(a);
    ChainConstant(a, b, b', post);
    AroundConstant(a, b, post);
    AroundConstant(a, b', post);
    ConstantFits(b, post);
    ConstantFits(b', post);
    GroupAround(a, Constant(b), Constant(b'), Lex(post));
    var s := Statement(q);
    var p := Piece(s.pieces[n].gap, Constant(b'));
    assert DifferAt(Toks(s.pieces), Toks(s.pieces[n := p]), n);
    ReplacedSame(START, s, p, n);
    GateSound(q);
    GateSound(q');
  }
}
