/**
 The tagger of pkg/sqlmarker in characters, and that its marker changes no token of a statement.
 */
module SqlMarkerText {
  import opened Text
  import opened SqlLexer
  import SqlBoundary
  import opened SqlChain
  import opened SqlMarker
  import opened SqlTokens
  import SqlRelex

  predicate IsLetter(c: char) { 65 <= c as int <= 90 || 97 <= c as int <= 122 }

  /** The marker goes behind the leading word, if the statement starts with one and does not hold it yet. */
  lemma {:induction false} TagExactly(sql: string, n: nat, k: nat)
    requires IsRun(IsBlank, sql, n) && IsRun(IsLetter, sql[n..], k)
    ensures Tag(sql) ==
            if k == 0 || Contains(sql, "ai_dba_wb_internal") then sql
            else sql[..n + k] + " /* ai_dba_wb_internal */" + sql[n + k..]
  {
    hide Contains, Blank, Keyword, Rest, MARKER, INSERTED;
    PartsAre(sql, n, k);
    MarkerIs();
    if k > 0 {
      assert Keyword(sql) != "";
    }
    Grouped(Blank(sql), Keyword(sql), INSERTED, Rest(sql));
  }

  lemma {:induction false} MarkerIs()
    ensures MARKER == "ai_dba_wb_internal" && INSERTED == " /* ai_dba_wb_internal */"
  {
  }

  lemma {:induction false} PartsAre(sql: string, n: nat, k: nat)
    requires IsRun(IsBlank, sql, n) && IsRun(IsLetter, sql[n..], k)
    ensures Blank(sql) + Keyword(sql) == sql[..n + k] && |Keyword(sql)| == k && Rest(sql) == sql[n + k..]
  {
    hide Run;
    forall c ensures IsSpace(c) <==> IsBlank(c) { ClassesAre(c); }
    RunIs(IsSpace, sql, n);
    RunIs(IsAlpha, sql[n..], k);
    assert Trimmed(sql) == sql[n..] && Keyword(sql) == sql[n..][..k] && Rest(sql) == sql[n..][k..];
    assert sql[n..][k..] == sql[n + k..] && sql[..n + k] == sql[..n] + sql[n..][..k];
  }

  lemma {:induction false} Grouped(a: string, b: string, c: string, d: string)
    ensures a + (b + (c + d)) == (a + b) + c + d
  {
  }

  lemma {:induction false} TagIdempotent(sql: string)
    ensures Tag(Tag(sql)) == Tag(sql)
  {
    hide Contains, Keyword, MARKER, INSERTED, Blank, Rest;
    if Tag(sql) != sql {
      var a, b := Blank(sql) + Keyword(sql), Rest(sql);
      Grouped(Blank(sql), Keyword(sql), INSERTED, b);
      MarkerInside(a, b);
    }
  }

  lemma {:induction false} MarkerInside(a: string, b: string)
    ensures Contains(a + INSERTED + b, MARKER)
  {
    hide MARKER;
    var s, i := a + INSERTED + b, |a| + 4;
    assert INSERTED == " /* " + MARKER + " */";
    assert s == (a + " /* ") + MARKER + (" */" + b);
    assert s[i..i + |MARKER|] == MARKER;
    assert At(s, MARKER, i);
  }

  // The tokens

  /** The tokens behind white space at the start. */
  lemma {:induction false} BehindBlank(blank: string, q: string)
    requires All(IsSpace, blank) && (q != "" ==> !IsSpace(q[0]))
    ensures Solid(Lex(blank + q)) == Solid(Lex(q))
  {
    hide Lex, Solid, SqlBoundary.Fits;
    if blank == "" {
      assert blank + q == q;
    } else {
      var t := Plain(Space, blank);
      SqlMarker.SpaceFits(blank, q);
      ChainOne(t, q);
      LexChain([t], q);
      SqlRelex.JoinNone();
      SqlRelex.JoinCons(t, []);
      assert [t] + [] == [t] && blank + "" == blank;
      SolidAround([], t, Lex(q));
      assert [] + ([t] + Lex(q)) == [t] + Lex(q);
      SolidNone();
    }
  }

  /** The tokens behind a word. */
  lemma {:induction false} BehindWord(w: string, rest: string)
    requires SqlBoundary.Fits(Plain(Ident, w), rest)
    ensures Solid(Lex(w + rest)) == [Plain(Ident, w)] + Solid(Lex(rest))
  {
    hide Lex, Solid, SqlBoundary.Fits;
    var t := Plain(Ident, w);
    ChainOne(t, rest);
    LexChain([t], rest);
    SqlRelex.JoinNone();
    SqlRelex.JoinCons(t, []);
    assert [t] + [] == [t] && w + "" == w;
    SolidCons(t, Lex(rest));
  }

  /** The marker itself is no token that counts. */
  lemma {:induction false} BehindMarker(rest: string)
    ensures Solid(Lex(INSERTED + rest)) == Solid(Lex(rest))
  {
    hide Lex, Solid, SqlBoundary.Fits, INSERTED, COMMENT;
    InsertedChain(rest);
    LexChain(Inserted(), rest);
    SolidAppend(Inserted(), Lex(rest));
    InsertedNone();
  }

  lemma {:induction false} InsertedNone()
    ensures Solid(Inserted()) == []
  {
    hide COMMENT;
    var ts := Inserted();
    assert ts[1..][1..] == [];
  }

  /** A word that is no token of its own is not read as one. */
  lemma {:induction false} NotWhole(w: string, rest: string)
    requires w != "" && All(IsAlpha, w) && !Whole(w, rest)
    ensures var ts := Solid(Lex(w + rest)); ts != [] && ts[0] != Plain(Ident, w)
  {
    hide Lex, Solid, First, SqlBoundary.Ends;
    var s := w + rest;
    var t := First(s);
    assert s[0] == w[0];
    WordFirst(s);
    LexStep(s);
    SolidCons(t, Lex(s[|t.text|..]));
    if t == Plain(Ident, w) {
      assert SqlBoundary.Fits(t, rest);
      SqlBoundary.FitsEnds(t, rest);
      EndsWhole(w, rest);
    }
  }

  lemma {:induction false} EndsWhole(w: string, rest: string)
    ensures SqlBoundary.Ends(Plain(Ident, w), rest) <==> Whole(w, rest)
  {
    hide Lower;
  }

  lemma {:induction false} LexStep(s: string)
    requires s != ""
    ensures Lex(s) == [First(s)] + Lex(s[|First(s).text|..])
  {
    hide First;
  }

  lemma {:induction false} WordFirst(s: string)
    requires s != "" && IsAlpha(s[0])
    ensures First(s).kind == Ident || First(s).kind == Str
  {
    hide Run, Quoted, BlockScan, DollarLexeme;
  }

  /** Tagging leaves the tokens that count as they are, if and only if the statement is not tagged or its leading word
      is a token of its own. */
  lemma {:induction false} TagTokens(q: string)
    ensures Solid(Lex(Tag(q))) == Solid(Lex(q)) <==> Tag(q) == q || WholeKeyword(q)
  {
    hide Lex, Solid, Contains, MARKER, INSERTED, Blank, Keyword, Rest, Trimmed, Whole, SqlBoundary.Fits;
    if Tag(q) != q {
      var blank, w, rest := Blank(q), Keyword(q), Rest(q);
      Parts(q);
      MarkedTokens(blank, w, rest);
      BehindBlank(blank, w + rest);
      if Whole(w, rest) {
        KeywordFits(w, rest);
        BehindWord(w, rest);
      } else {
        NotWhole(w, rest);
      }
    }
  }

  lemma {:induction false} MarkedTokens(blank: string, w: string, rest: string)
    requires All(IsSpace, blank) && w != "" && All(IsAlpha, w)
    ensures Solid(Lex(blank + (w + (INSERTED + rest)))) == [Plain(Ident, w)] + Solid(Lex(rest))
  {
    hide Lex, Solid, INSERTED, Whole, SqlBoundary.Fits;
    WordSpace(w, INSERTED + rest);
    BehindBlank(blank, w + (INSERTED + rest));
    InsertedWhole(w, rest);
    KeywordFits(w, INSERTED + rest);
    BehindWord(w, INSERTED + rest);
    BehindMarker(rest);
  }
}
