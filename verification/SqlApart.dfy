/**
 A redacted statement reads back as the tokens it was made of exactly where rewritten constants keep their
 places.
 */
module SqlApart {
  import opened Text
  import opened SqlLexer
  import opened SqlBoundary
  import opened SqlChain
  import opened SqlRedact
  import opened SqlGate
  import opened SqlRelex
  import opened SqlIdempotence

  /** The last of the tokens `front` are what `prev` says is in front. */
  predicate Describes(front: seq<Lexeme>, prev: Before) {
    && (prev.tok.Some? ==> front != [] && front[|front| - 1] == prev.tok.value)
    && (prev.hot ==> |front| >= 2 && front[|front| - 1].text == "&" && IsU(front[|front| - 2]))
  }

  lemma {:induction false} DescribesBehind(front: seq<Lexeme>, prev: Before, p: Piece)
    requires Describes(front, prev)
    ensures Describes(front + (p.gap + [p.tok]), Behind(prev, p))
  {
    hide IsU;
    var a := p.gap + [p.tok];
    var all := front + a;
    assert all[|all| - 1] == p.tok;
    if |a| > 1 {
      assert all[|all| - 2] == a[|a| - 2];
    } else if front != [] {
      assert all[|all| - 2] == front[|front| - 1];
    }
  }

  lemma {:induction false} DescribesLast(a: seq<Lexeme>, t: Lexeme)
    ensures Describes(a + [t], Before(Some(t), false))
  {
  }

  /** Tokens that fit one behind another do not collide. */
  lemma {:induction false} NoQuoteBehind(front: seq<Lexeme>, prev: Before, x: seq<Lexeme>)
    requires Describes(front, prev) && prev.tok.Some? && (prev.tok.value.kind == Str || prev.hot)
    requires x != [] && "'" <= x[0].text
    ensures !Chain(front + x, "")
  {
    hide Fits, BlockScan, OpensDollar, Lower;
    if Chain(front + x, "") {
      var n := |front|;
      ChainSplit(front, x, "");
      assert Join(x) + "" == Join(x);
      JoinStart(x);
      if prev.tok.value.kind == Str {
        LastEnds(front, Join(x));
      } else {
        ChainAt(front, Join(x), n - 2);
        assert front[n - 1..] == [front[n - 1]];
        JoinCons(front[n - 1], []);
        JoinNone();
        assert [front[n - 1]] + [] == [front[n - 1]] && "&" + "" == "&";
        FitsEnds(front[n - 2], "&" + Join(x));
      }
    }
  }

  lemma {:induction false} JoinStart(x: seq<Lexeme>)
    requires x != [] && "'" <= x[0].text
    ensures "'" <= Join(x)
  {
  }

  /** A constant that is read back where it was put has kept its place. */
  lemma {:induction false} Placed(front: seq<Lexeme>, prev: Before, p: Piece, r: string, rw: Rewrite, y: seq<Lexeme>)
    requires Describes(front, prev) && p.tok.WellFormed() && p.tok.IsLiteral() && Fits(p.tok, r) && ConnRewrite(p.tok) == Some(rw)
    requires Chain(front + (p.gap + ([rw.repl] + y)), "")
    ensures PlacedConstant(prev, p, rw.repl)
  {
    hide Fits, ConnRewrite, Chain, Describes, REDACTED;
    var x := p.gap + ([rw.repl] + y);
    ChainSplit(front, x, "");
    ChainSplit(p.gap, [rw.repl] + y, "");
    ChainAt([rw.repl] + y, "", 0);
    assert ([rw.repl] + y)[1..] == y;
    EndsNothing(rw.repl);
    Refit(rw.repl, Join(y) + "", "");
    RewriteWellFormed(p.tok);
    RewriteKinds(p.tok);
    OpeningKept(p.tok, r);
    RedactedQuote();
    if Collides(prev, p, rw.repl) {
      NoQuoteBehind(front, prev, x);
    }
  }

  lemma {:induction false} RedactedQuote()
    ensures "'" <= REDACTED.text
  {
  }

  /** If what the walk makes is read back, its constants have kept their places. */
  lemma {:induction false} ChainApart(front: seq<Lexeme>, prev: Before, c: Context, s: Script)
    requires Sound(s) && Describes(front, prev) && Chain(front + Ungroup(Walk(c, s)), "")
    ensures Apart(prev, c, s)
    decreases |s.pieces|
  {
    hide Fits, Flatten, Decide, Next, After, PlacedConstant, Chain, Toks, ValueEdit, Describes, Ungroup, ConnRewrite, Behind;
    var ps := s.pieces;
    if ps != [] {
      match Decide(c, Toks(ps))
      case Keep =>
        var rest := Script(ps[1..], s.tail);
        SoundRest(s, 1);
        var r, a := Walk(Next(c, ps[0].tok), rest), ps[0].gap + [ps[0].tok];
        KeptFirst(ps[0], r);
        assert front + (a + Ungroup(r)) == (front + a) + Ungroup(r);
        DescribesBehind(front, prev, ps[0]);
        ChainApart(front + a, Behind(prev, ps[0]), Next(c, ps[0].tok), rest);
      case Edit(from, to, repl, toEnd) =>
        var kept := ps[..from] + [Piece(ps[from].gap, repl)];
        var r := if toEnd then Script([], []) else Walk(After(c, Toks(kept)), Script(ps[to..], s.tail));
        assert Walk(c, s) == Script(kept + r.pieces, r.tail) by { assert kept + [] == kept; }
        KeptSplit(ps, from, repl, r);
        var a := Front(ps, from);
        if from == 0 {
          FirstPlaced(front, prev, c, s, r);
        }
        if !toEnd {
          SoundRest(s, to);
          assert front + (a + ([repl] + Ungroup(r))) == ((front + a) + [repl]) + Ungroup(r);
          DescribesLast(front + a, repl);
          ChainApart((front + a) + [repl], Before(Some(repl), false), After(c, Toks(kept)), Script(ps[to..], s.tail));
        }
    }
  }

  lemma {:induction false} KeptFirst(p: Piece, r: Script)
    ensures Ungroup(Script([p] + r.pieces, r.tail)) == (p.gap + [p.tok]) + Ungroup(r)
  {
    hide Flatten;
    FirstOut([p] + r.pieces);
    assert ([p] + r.pieces)[1..] == r.pieces;
  }

  lemma {:induction false} FirstPlaced(front: seq<Lexeme>, prev: Before, c: Context, s: Script, r: Script)
    requires Sound(s) && s.pieces != [] && Describes(front, prev)
    requires var e := Decide(c, Toks(s.pieces));
             e.Edit? && e.from == 0 && Chain(front + (Front(s.pieces, 0) + ([e.repl] + Ungroup(r))), "")
    ensures PlacedConstant(prev, s.pieces[0], Decide(c, Toks(s.pieces)).repl)
  {
    hide Fits, Flatten, Decide, PlacedConstant, Chain, Describes, Ungroup, ConnRewrite;
    var e := Decide(c, Toks(s.pieces));
    EditShape(c, Toks(s.pieces));
    FrontNone(s.pieces);
    SoundFirst(s);
    Placed(front, prev, s.pieces[0], Join(Flatten(s.pieces[1..]) + s.tail), Rewrite(e.repl, e.toEnd), Ungroup(r));
  }

  lemma {:induction false} SoundFirst(s: Script)
    requires Sound(s) && s.pieces != []
    ensures Fits(s.pieces[0].tok, Join(Flatten(s.pieces[1..]) + s.tail))
  {
    hide Fits, Flatten, Chain;
    TokenThen(s.pieces, 0, s.tail);
  }

  /** A redacted statement reads back as the tokens the walk makes if and only if rewritten constants keep
      their places. */
  lemma {:induction false} RelexExactly(query: string)
    ensures Statement(Rewritten(query)) == Walk(START, Statement(query)) <==> Apart(NOTHING, START, Statement(query))
  {
    hide Walk, Group, Chain, Apart, Lex, Ungroup, Sound;
    if Apart(NOTHING, START, Statement(query)) {
      Relex(query);
    }
    if Statement(Rewritten(query)) == Walk(START, Statement(query)) {
      StatementSound(query);
      ChainLex(Rewritten(query));
      UngroupGroup(Lex(Rewritten(query)));
      assert [] + Lex(Rewritten(query)) == Lex(Rewritten(query));
      ChainApart([], NOTHING, START, Statement(query));
    }
  }

  /** Where the connection-string rule rewrites nothing, redaction is idempotent. */
  lemma {:induction false} NoneRewrittenIdempotent(query: string)
    requires NoneRewritten(START, Statement(query))
    ensures RedactQuery(RedactQuery(query)) == RedactQuery(query)
  {
    hide Walk, Apart, Stays, RedactQuery, Statement, Sound, NoneRewritten;
    GateSound(query);
    GateSound(Rewritten(query));
    StatementFormed(query);
    NoneRewrittenStays(NOTHING, START, Statement(query));
    Relex(query);
    WalkAgain(START, Statement(query));
  }

  lemma {:induction false} StatementFormed(query: string)
    ensures WellFormed(Statement(query).pieces)
  {
    hide Statement;
    StatementSound(query);
  }
}
