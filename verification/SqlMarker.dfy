/**
 The statement tagger of pkg/sqlmarker, and how it gets along with redaction.
 */
module SqlMarker {
  import opened Text
  import opened SqlLexer
  import opened SqlBoundary
  import opened SqlChain
  import opened SqlRedact
  import opened SqlGate
  import opened SqlRelex

  const MARKER := "ai_dba_wb_internal"

  const INSERTED := " " + COMMENT

  const COMMENT := "/* " + MARKER + " */"

  predicate IsAlpha(c: char) { 'a' <= c <= 'z' || 'A' <= c <= 'Z' }

  function Blank(sql: string): string { TakeRun(IsSpace, sql) }

  function Trimmed(sql: string): string { DropRun(IsSpace, sql) }

  function Keyword(sql: string): string { TakeRun(IsAlpha, Trimmed(sql)) }

  function Rest(sql: string): string { DropRun(IsAlpha, Trimmed(sql)) }

  /** The marker put in after the leading keyword. */
  function Marked(sql: string): string { Blank(sql) + (Keyword(sql) + (INSERTED + Rest(sql))) }

  function Tag(sql: string): string {
    if Contains(sql, MARKER) || Keyword(sql) == "" then sql else Marked(sql)
  }

  // Gaps in front of a statement

  /** The statement with more spaces and comments in front of it. */
  function Prepend(gap: seq<Lexeme>, s: Script): Script {
    if s.pieces == [] then Script([], gap + s.tail)
    else Script([Piece(gap + s.pieces[0].gap, s.pieces[0].tok)] + s.pieces[1..], s.tail)
  }

  lemma {:induction false} PrependOut(gap: seq<Lexeme>, s: Script)
    ensures Ungroup(Prepend(gap, s)) == gap + Ungroup(s)
    ensures Toks(Prepend(gap, s).pieces) == Toks(s.pieces)
  {
    if s.pieces != [] {
      assert Prepend(gap, s).pieces[1..] == s.pieces[1..];
    }
  }

  lemma {:induction false} SameTokens(a: seq<Piece>, b: seq<Piece>)
    requires Toks(a) == Toks(b)
    ensures |a| == |b| && forall i :: 0 <= i < |a| ==> a[i].tok == b[i].tok
  {
    assert forall i :: 0 <= i < |a| ==> a[i].tok == Toks(a)[i];
    assert forall i :: 0 <= i < |b| ==> b[i].tok == Toks(b)[i];
  }

  /** What is done to a statement does not depend on the gap in front of it. */
  lemma {:induction false} WalkPrepend(gap: seq<Lexeme>, c: Context, s: Script)
    requires WellFormed(s.pieces)
    ensures WellFormed(Prepend(gap, s).pieces)
    ensures Walk(c, Prepend(gap, s)) == Prepend(gap, Walk(c, s))
  {
    hide Decide, Next, After;
    PrependOut(gap, s);
    var ps, qs := s.pieces, Prepend(gap, s).pieces;
    SameTokens(qs, ps);
    if ps != [] {
      assert qs[1..] == ps[1..];
      match Decide(c, Toks(ps))
      case Keep =>
      case Edit(from, to, repl, toEnd) =>
        PrependKept(gap, s, from, repl);
        assert qs[to..] == ps[to..];
    }
  }

  lemma {:induction false} PrependKept(gap: seq<Lexeme>, s: Script, from: nat, repl: Lexeme)
    requires from < |s.pieces|
    ensures var ps, qs := s.pieces, Prepend(gap, s).pieces;
            var a, b := ps[..from] + [Piece(ps[from].gap, repl)], qs[..from] + [Piece(qs[from].gap, repl)];
            && Toks(a) == Toks(b)
            && forall r: seq<Piece>, t: seq<Lexeme> :: Prepend(gap, Script(a + r, t)) == Script(b + r, t)
  {
    var ps, qs := s.pieces, Prepend(gap, s).pieces;
    var a, b := ps[..from] + [Piece(ps[from].gap, repl)], qs[..from] + [Piece(qs[from].gap, repl)];
    assert a[1..] == b[1..] && b[0] == Piece(gap + a[0].gap, a[0].tok);
    forall r: seq<Piece>, t: seq<Lexeme>
      ensures Prepend(gap, Script(a + r, t)) == Script(b + r, t)
    {
      assert (a + r)[1..] == a[1..] + r;
      assert b + r == [b[0]] + (b[1..] + r);
    }
  }

  /** Spaces and comments in front of a statement stay, and change nothing. */
  lemma {:induction false} GapOut(gap: seq<Lexeme>, q: string)
    requires AllGap(gap) && Chain(gap, q)
    ensures Statement(Join(gap) + q) == Prepend(gap, Statement(q))
    ensures Rewritten(Join(gap) + q) == Join(gap) + Rewritten(q)
  {
    hide Walk, Group, Lex, Fits, Flatten;
    LexChain(gap, q);
    GroupGap(gap, Lex(q));
    WalkPrepend(gap, START, Statement(q));
    PrependOut(gap, Walk(START, Statement(q)));
    JoinAppend(gap, Ungroup(Walk(START, Statement(q))));
  }

  // What is inserted is one space and one comment

  function Inserted(): seq<Lexeme> { [Plain(Space, " "), Plain(Comment, COMMENT)] }

  lemma {:induction false} BlockBody(b: string, r: string)
    requires '/' !in b && '*' !in b
    ensures BlockScan(b + ("*/" + r), 1) == Scan(|b| + 2, true)
  {
    var s := b + ("*/" + r);
    if b != "" {
      assert s[1..] == b[1..] + ("*/" + r);
      BlockBody(b[1..], r);
    }
  }

  lemma {:induction false} CommentFits(r: string)
    ensures Fits(Plain(Comment, COMMENT), r)
  {
    hide Run, Quoted, DollarLexeme, WordLexeme;
    var b := " " + MARKER + " ";
    var s := COMMENT + r;
    assert s == "/*" + (b + ("*/" + r));
    assert s[2..] == b + ("*/" + r);
    BlockBody(b, r);
    CutAppend(COMMENT, r, |COMMENT|);
  }

  lemma {:induction false} SpaceFits(blank: string, r: string)
    requires blank != "" && All(IsSpace, blank) && (r != "" ==> !IsSpace(r[0]))
    ensures Fits(Plain(Space, blank), r)
  {
    hide Run, BlockScan, Quoted, DollarLexeme, WordLexeme;
    CutRun(IsSpace, blank, r);
    assert (blank + r)[0] == blank[0];
  }

  lemma {:induction false} InsertedChain(r: string)
    ensures Chain(Inserted(), r) && AllGap(Inserted()) && Join(Inserted()) == INSERTED
  {
    hide First, Fits, COMMENT;
    var sp, cm := Plain(Space, " "), Plain(Comment, COMMENT);
    CommentFits(r);
    CommentStart();
    assert (COMMENT + r)[0] == COMMENT[0];
    SpaceFits(" ", COMMENT + r);
    JoinNone();
    JoinCons(cm, []);
    assert [cm] + [] == [cm] && COMMENT + "" == COMMENT;
    ChainOne(cm, r);
    ChainOne(sp, COMMENT + r);
    ChainSplit([sp], [cm], r);
    JoinCons(sp, [cm]);
    assert Inserted() == [sp] + [cm];
  }

  lemma {:induction false} CommentStart()
    ensures COMMENT != "" && COMMENT[0] == '/'
  {
  }

  // The keyword

  /** The text `rest` may follow the word `w` as a token. */
  predicate Whole(w: string, rest: string) { rest == "" || WordEnds(Lower(w), rest) }

  lemma {:induction false} KeywordFits(w: string, rest: string)
    requires w != "" && All(IsAlpha, w) && Whole(w, rest)
    ensures Fits(Plain(Ident, w), rest)
  {
    hide Run, BlockScan, Quoted, DollarLexeme;
    var s := w + rest;
    assert s[0] == w[0];
    RunIs(IsIdentCont, s, |w|);
    assert s[..|w|] == w;
    assert |w| < |s| ==> s[|w|] == rest[0];
    assert |w| + 1 < |s| ==> s[|w| + 1] == rest[1];
  }

  function Cons(p: Piece, s: Script): Script { Script([p] + s.pieces, s.tail) }

  lemma {:induction false} ConsOut(p: Piece, s: Script)
    ensures Ungroup(Cons(p, s)) == p.gap + [p.tok] + Ungroup(s)
  {
    assert Cons(p, s).pieces[1..] == s.pieces;
  }

  /** A statement's start, up to the opening of its first token, is kept. */
  predicate LikeStart(s: Script, r: Script) {
    if s.pieces == [] then r == s
    else
      && r.pieces != [] && r.pieces[0].gap == s.pieces[0].gap
      && (SameStart(s.pieces[0].tok.text, r.pieces[0].tok.text) || "'" <= r.pieces[0].tok.text || "\"" <= r.pieces[0].tok.text)
  }

  lemma {:induction false} WalkLikeStart(c: Context, s: Script)
    requires Sound(s)
    ensures LikeStart(s, Walk(c, s))
  {
    hide Decide, Next, After, Chain, Flatten;
    var ps := s.pieces;
    if ps != [] {
      match Decide(c, Toks(ps))
      case Keep =>
      case Edit(from, to, repl, toEnd) =>
        if from == 0 {
          RewriteStart(c, s);
        } else {
          assert (ps[..from] + [Piece(ps[from].gap, repl)])[0] == ps[0];
        }
    }
  }

  lemma {:induction false} RewriteStart(c: Context, s: Script)
    requires Sound(s) && s.pieces != []
    requires var e := Decide(c, Toks(s.pieces)); e.Edit? && e.from == 0
    ensures var t, repl := s.pieces[0].tok.text, Decide(c, Toks(s.pieces)).repl.text;
            SameStart(t, repl) || "'" <= repl
  {
    hide Decide, ConnRewrite, Flatten, IsSecret, IsSeparator, Chain, Fits;
    var t := s.pieces[0].tok;
    EditShape(c, Toks(s.pieces));
    RewriteKinds(t);
    TokenThen(s.pieces, 0, s.tail);
    OpeningKept(t, Join(Flatten(s.pieces[1..]) + s.tail));
    var repl := Decide(c, Toks(s.pieces)).repl;
    if repl != REDACTED {
      assert t.text[..t.lo][0] == repl.text[0];
    }
  }

  /** The pieces kept and replaced, seen without the first of them. */
  function Kept(s: Script, from: nat, repl: Lexeme): seq<Piece>
    requires from < |s.pieces|
  {
    s.pieces[..from] + [Piece(s.pieces[from].gap, repl)]
  }

  lemma {:induction false} ConsKept(p: Piece, g: Script, from: nat, to: nat, repl: Lexeme)
    requires 1 <= from < to <= |g.pieces| + 1
    ensures Kept(Cons(p, g), from, repl) == [p] + Kept(g, from - 1, repl)
    ensures Cons(p, g).pieces[to..] == g.pieces[to - 1..]
  {
  }

  /** What becomes of the statement behind a keyword that leads to the edit `e`. */
  function Edited(c: Context, p: Piece, g: Script, e: Step): Script
    requires WellFormed(g.pieces) && e.Edit? && 1 <= e.from < e.to <= |g.pieces| + 1
  {
    var a := Kept(g, e.from - 1, e.repl);
    var r := if e.toEnd then Script([], []) else Walk(After(c, Toks([p] + a)), Script(g.pieces[e.to - 1..], g.tail));
    Script(a + r.pieces, r.tail)
  }

  lemma {:induction false} KeywordEdited(c: Context, p: Piece, g: Script, e: Step)
    requires WellFormed(Cons(p, g).pieces) && WellFormed(g.pieces) && p.tok.kind == Ident
    requires Decide(c, Toks(Cons(p, g).pieces)) == e && e.Edit?
    ensures 1 <= e.from < e.to <= |g.pieces| + 1 && ("'" <= e.repl.text || "\"" <= e.repl.text)
    ensures Walk(c, Cons(p, g)) == Cons(p, Edited(c, p, g, e))
  {
    hide Decide, Next, After, Walk;
    KeywordEdit(c, Toks(Cons(p, g).pieces));
    ConsKept(p, g, e.from, e.to, e.repl);
    WalkEdit(c, Cons(p, g), e);
    var a := Kept(g, e.from - 1, e.repl);
    assert forall r: seq<Piece> :: [p] + a + r == [p] + (a + r);
  }

  lemma {:induction false} EditedPrepend(c: Context, p: Piece, g: Script, gap: seq<Lexeme>, e: Step)
    requires WellFormed(g.pieces) && WellFormed(Prepend(gap, g).pieces) && e.Edit? && 1 <= e.from < e.to <= |g.pieces| + 1
    ensures |Prepend(gap, g).pieces| == |g.pieces|
    ensures Edited(c, p, Prepend(gap, g), e) == Prepend(gap, Edited(c, p, g, e))
  {
    hide After, Walk;
    var g' := Prepend(gap, g);
    PrependKept(gap, g, e.from - 1, e.repl);
    ToksCons(p, Script(Kept(g, e.from - 1, e.repl), []));
    ToksCons(p, Script(Kept(g', e.from - 1, e.repl), []));
    assert g'.pieces[e.to - 1..] == g.pieces[e.to - 1..];
  }

  lemma {:induction false} EditedStart(c: Context, p: Piece, g: Script, e: Step)
    requires WellFormed(g.pieces) && e.Edit? && 1 <= e.from < e.to <= |g.pieces| + 1
    requires "'" <= e.repl.text || "\"" <= e.repl.text
    ensures LikeStart(g, Edited(c, p, g, e))
  {
    hide After, Walk;
    var a := Kept(g, e.from - 1, e.repl);
    assert a[0].gap == g.pieces[0].gap && (e.from == 1 || a[0] == g.pieces[0]);
    assert g.pieces[0].tok.WellFormed();
  }

  lemma {:induction false} ToksCons(p: Piece, s: Script)
    ensures Toks(Cons(p, s).pieces) == [p.tok] + Toks(s.pieces)
  {
  }

  /** The walk keeps the keyword, and does to the rest the same with and without the marker. */
  lemma {:induction false} WalkKeyword(c: Context, p: Piece, g: Script, gap: seq<Lexeme>) returns (y: Script)
    requires p.tok.kind == Ident && p.tok.WellFormed() && Sound(g)
    ensures WellFormed(Cons(p, g).pieces) && WellFormed(Cons(p, Prepend(gap, g)).pieces)
    ensures Walk(c, Cons(p, g)) == Cons(p, y) && Walk(c, Cons(p, Prepend(gap, g))) == Cons(p, Prepend(gap, y))
    ensures LikeStart(g, y)
  {
    hide Decide, Next, After, Chain, Flatten, Edited, LikeStart;
    var g' := Prepend(gap, g);
    WalkPrepend(gap, Next(c, p.tok), g);
    PrependOut(gap, g);
    ToksCons(p, g);
    ToksCons(p, g');
    var ps, qs := Cons(p, g).pieces, Cons(p, g').pieces;
    if Decide(c, Toks(ps)) == Keep {
      assert ps[1..] == g.pieces && qs[1..] == g'.pieces;
      y := Walk(Next(c, p.tok), g);
      WalkLikeStart(Next(c, p.tok), g);
    } else {
      var e := Decide(c, Toks(ps));
      KeywordEdited(c, p, g, e);
      KeywordEdited(c, p, g', e);
      y := Edited(c, p, g, e);
      EditedPrepend(c, p, g, gap, e);
      EditedStart(c, p, g, e);
    }
  }

  lemma {:induction false} KeywordEdit(c: Context, ts: seq<Lexeme>)
    requires ts != [] && ts[0].WellFormed() && ts[0].kind == Ident && Decide(c, ts).Edit?
    ensures var e := Decide(c, ts);
            1 <= e.from && e.from + 1 <= e.to && ("'" <= e.repl.text || "\"" <= e.repl.text)
  {
    hide Decide, ConnRewrite, IsSecret, IsSeparator, Lexeme.Is;
    EditShape(c, ts);
  }

  // The texts

  predicate StartsAlike(o: string, n: string) {
    n == "" || SameStart(o, n) || n[0] == '\'' || n[0] == '"'
  }

  lemma {:induction false} LikeStartText(s: Script, r: Script)
    requires Sound(s) && LikeStart(s, r)
    ensures StartsAlike(Join(Ungroup(s)), Join(Ungroup(r)))
  {
    hide Flatten, Chain, Fits;
    if s.pieces != [] {
      var p, q := s.pieces[0], r.pieces[0];
      FirstOut(s.pieces);
      FirstOut(r.pieces);
      FirstToken(p, Flatten(s.pieces[1..]) + s.tail);
      FirstToken(q, Flatten(r.pieces[1..]) + r.tail);
      assert Ungroup(s) == p.gap + [p.tok] + (Flatten(s.pieces[1..]) + s.tail);
      assert Ungroup(r) == q.gap + [q.tok] + (Flatten(r.pieces[1..]) + r.tail);
      if p.gap != [] {
        GapTexts(s);
      }
    } else {
      var o := Join(Ungroup(s));
      assert o != "" ==> SameStart(o, o);
    }
  }

  lemma {:induction false} FirstToken(p: Piece, x: seq<Lexeme>)
    ensures var t := if p.gap == [] then p.tok.text else p.gap[0].text;
            t != "" ==> SameStart(t, Join(p.gap + [p.tok] + x))
  {
    var a := p.gap + [p.tok] + x;
    assert a[0] == if p.gap == [] then p.tok else p.gap[0];
    assert Join(a) == a[0].text + Join(a[1..]);
  }

  lemma {:induction false} GapTexts(s: Script)
    requires Sound(s) && s.pieces != [] && s.pieces[0].gap != []
    ensures s.pieces[0].gap[0].text != ""
  {
    hide Flatten, Chain, Fits;
    var a := Ungroup(s);
    FirstOut(s.pieces);
    assert a[0] == s.pieces[0].gap[0];
    ChainAt(a, "", 0);
    FitsText(a[0], Join(a[1..]) + "");
  }

  lemma {:induction false} KeywordStatement(w: string, rest: string)
    requires w != "" && All(IsAlpha, w) && Whole(w, rest)
    ensures Statement(w + rest) == Cons(Piece([], Plain(Ident, w)), Statement(rest))
  {
    hide Lex, Group, Fits;
    var t := Plain(Ident, w);
    KeywordFits(w, rest);
    ChainOne(t, rest);
    LexChain([t], rest);
    JoinNone();
    JoinCons(t, []);
    assert [t] + [] == [t] && w + "" == w;
    GroupToken(t, Lex(rest));
  }

  /** Redaction keeps a statement's keyword and commutes with putting the marker behind it. */
  lemma {:induction false} KeywordOut(w: string, rest: string) returns (x: string)
    requires w != "" && All(IsAlpha, w) && Whole(w, rest)
    ensures Rewritten(w + rest) == w + x && Rewritten(w + (INSERTED + rest)) == w + (INSERTED + x)
    ensures StartsAlike(rest, x)
  {
    hide Walk, Statement, INSERTED, Flatten, LikeStart;
    var p, g, gap := Piece([], Plain(Ident, w)), Statement(rest), Inserted();
    InsertedChain(rest);
    GapOut(gap, rest);
    KeywordStatement(w, rest);
    InsertedWhole(w, rest);
    KeywordStatement(w, INSERTED + rest);
    StatementSound(rest);
    var y := WalkKeyword(START, p, g, gap);
    x := Join(Ungroup(y));
    KeywordText(w, y);
    PrependOut(gap, y);
    JoinAppend(gap, Ungroup(y));
    KeywordText(w, Prepend(gap, y));
    LikeStartText(g, y);
    StatementText(rest);
  }

  lemma {:induction false} InsertedWhole(w: string, rest: string)
    ensures Whole(w, INSERTED + rest)
  {
    assert (INSERTED + rest)[0] == ' ';
  }

  lemma {:induction false} KeywordText(w: string, y: Script)
    ensures Join(Ungroup(Cons(Piece([], Plain(Ident, w)), y))) == w + Join(Ungroup(y))
  {
    hide Flatten;
    var p := Piece([], Plain(Ident, w));
    ConsOut(p, y);
    JoinCons(p.tok, Ungroup(y));
    assert [] + [p.tok] + Ungroup(y) == [p.tok] + Ungroup(y);
  }

  /** Leading whitespace stays, and changes nothing. */
  lemma {:induction false} BlankOut(blank: string, q: string)
    requires All(IsSpace, blank) && (q != "" ==> !IsSpace(q[0]))
    ensures Rewritten(blank + q) == blank + Rewritten(q)
  {
    hide Statement, Walk, Fits;
    if blank == "" {
      assert blank + q == q && blank + Rewritten(q) == Rewritten(q);
    } else {
      var t := Plain(Space, blank);
      SpaceFits(blank, q);
      ChainOne(t, q);
      JoinNone();
      JoinCons(t, []);
      assert [t] + [] == [t] && blank + "" == blank;
      GapOut([t], q);
    }
  }

  lemma {:induction false} RewrittenStart(q: string)
    ensures StartsAlike(q, Rewritten(q))
  {
    hide Statement, Walk, LikeStart;
    StatementSound(q);
    WalkLikeStart(START, Statement(q));
    LikeStartText(Statement(q), Walk(START, Statement(q)));
    StatementText(q);
  }

  // The theorem

  /** The leading alphabetic run of `q`, if there is one, is a token of its own. */
  predicate WholeKeyword(q: string) { Keyword(q) == "" || Whole(Keyword(q), Rest(q)) }

  lemma {:induction false} Parts(q: string)
    ensures All(IsSpace, Blank(q)) && All(IsAlpha, Keyword(q))
    ensures q == Blank(q) + Trimmed(q) && Trimmed(q) == Keyword(q) + Rest(q)
    ensures Trimmed(q) != "" ==> !IsSpace(Trimmed(q)[0])
  {
    hide Run;
    CutAtRun(IsSpace, q);
    CutAtRun(IsAlpha, Trimmed(q));
  }

  /** The parts of a text put together from them. */
  lemma {:induction false} PartsOf(blank: string, w: string, x: string)
    requires All(IsSpace, blank) && All(IsAlpha, w) && (x != "" ==> !IsAlpha(x[0]))
    requires w == "" && x != "" ==> !IsSpace(x[0])
    ensures var q := blank + (w + x); Blank(q) == blank && Keyword(q) == w && Rest(q) == x
  {
    hide Run;
    assert w != "" ==> (w + x)[0] == w[0];
    assert w == "" ==> w + x == x;
    CutRun(IsSpace, blank, w + x);
    CutRun(IsAlpha, w, x);
  }

  lemma {:induction false} MarkedLonger(q: string)
    ensures Marked(q) != q
  {
    hide Run;
    Parts(q);
    assert |Marked(q)| == |q| + |INSERTED|;
  }

  /** The redacted statement's parts, and the redacted marked statement. */
  lemma {:induction false} RedactedParts(q: string)
    requires WholeKeyword(q)
    ensures Keyword(RedactQuery(q)) == Keyword(q)
    ensures Keyword(q) != "" ==> RedactQuery(Marked(q)) == Marked(RedactQuery(q))
  {
    hide RedactQuery, Rewritten, INSERTED, Blank, Keyword, Rest, Trimmed, Whole;
    GateSound(q);
    GateSound(Marked(q));
    Parts(q);
    var blank, w, rest := Blank(q), Keyword(q), Rest(q);
    BlankOut(blank, Trimmed(q));
    if w == "" {
      RewrittenStart(Trimmed(q));
      NoKeyword(q);
      var x := Rewritten(Trimmed(q));
      assert "" + x == x;
      PartsOf(blank, "", x);
    } else {
      var x := KeywordOut(w, rest);
      NoKeyword(q);
      PartsOf(blank, w, x);
      WordSpace(w, INSERTED + rest);
      BlankOut(blank, w + (INSERTED + rest));
    }
  }

  lemma {:induction false} NoKeyword(q: string)
    ensures Rest(q) != "" ==> !IsAlpha(Rest(q)[0])
    ensures Keyword(q) == "" ==> Trimmed(q) == Rest(q)
  {
    hide Run;
    CutAtRun(IsAlpha, Trimmed(q));
    assert "" + Rest(q) == Rest(q);
  }

  lemma {:induction false} WordSpace(w: string, r: string)
    requires w != "" && All(IsAlpha, w)
    ensures !IsSpace((w + r)[0])
  {
    assert (w + r)[0] == w[0];
  }

  /** Tagging and redaction commute, whichever comes first, exactly when redaction neither removes nor
      brings in the marker (a statement without a keyword is never tagged, so they commute there too). */
  lemma {:induction false} TagCommutes(q: string)
    requires WholeKeyword(q)
    ensures RedactQuery(Tag(q)) == Tag(RedactQuery(q)) <==>
            Keyword(q) == "" || (Contains(q, MARKER) <==> Contains(RedactQuery(q), MARKER))
  {
    hide RedactQuery, Keyword, Marked, Contains, WholeKeyword;
    RedactedParts(q);
    MarkedLonger(RedactQuery(q));
  }

  // The loops of the source

  /** Finds the leading keyword by index and inserts the comment after it. */
  method TagStatement(sql: string) returns (out: string)
    ensures out == Tag(sql)
  {
    hide Run, Contains, MARKER, COMMENT;
    if Contains(sql, MARKER) {
      return sql;
    }
    var n, start := |sql|, -1;
    for i := 0 to n
      invariant start == -1 && forall k :: 0 <= k < i ==> IsSpace(sql[k])
    {
      if !IsSpace(sql[i]) {
        start := i;
        break;
      }
    }
    ghost var blank := if start < 0 then n else start;
    RunIs(IsSpace, sql, blank);
    assert sql[blank..] == Trimmed(sql);
    if start < 0 {
      return sql;
    }
    var end := start;
    while end < n && IsAlpha(sql[end])
      invariant start <= end <= n
      invariant forall k :: start <= k < end ==> IsAlpha(sql[k])
    {
      end := end + 1;
    }
    RunIs(IsAlpha, sql[start..], end - start);
    assert Keyword(sql) == sql[start..end] && Rest(sql) == sql[end..];
    if end == start {
      return sql;
    }
    out := sql[..end] + " " + COMMENT + sql[end..];
    Assembled(sql[..start], sql[start..end], " ", COMMENT, sql[end..]);
    assert sql[..end] == sql[..start] + sql[start..end];
  }

  lemma {:induction false} Assembled(a: string, b: string, c: string, d: string, e: string)
    ensures a + b + c + d + e == a + (b + ((c + d) + e))
  {
  }
}
