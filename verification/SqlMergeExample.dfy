/**
 A placeholder that is read together with the text before it: behind u& it becomes a constant of another
 kind behind the name of a secret.
 */
module SqlMergeExample {
  import opened Text
  import opened SqlLexer
  import opened SqlBoundary
  import opened SqlRedact
  import opened SqlGate
  import opened SqlRelex
  import opened SqlHidden
  import opened SqlIdempotence
  import opened SqlChanges
  import opened SqlExamples
  import opened SqlSetExample

  const T_U := Plain(Ident, "u")
  const T_AND := Plain(Other, "&")
  const T_ESC := Escaped("password=y")

  /** The placeholder as a constant with Unicode escapes. */
  const T_UNI := Lexeme(Str, "u&" + REDACTED.text, 3, 11, false, true, true)

  const MERGE_TEXT := "password=u&E'password=y'"

  lemma {:induction false} AndFits()
    ensures Fits(T_AND, "")
  {
    hide Run, WordLexeme, DollarLexeme;
    assert "&" + "" == "&" && "&"[..1] == "&";
  }

  lemma {:induction false} UniFits()
    ensures Fits(T_UNI, "")
  {
    hide QuoteScan, Run, BlockScan, DollarLexeme;
    var s := "u&'********'";
    assert T_UNI.text == s && s + "" == s && s[3..] == "********" + "'";
    StarScan("********");
    RunIs(IsIdentCont, s, 1);
    assert s[..1] == "u" && Lower("u") == "u";
    assert s[..12] == s;
  }

  lemma {:induction false} StarScan(b: string)
    requires forall i :: 0 <= i < |b| ==> b[i] == '*'
    ensures QuoteScan(b + "'", '\'', false) == Scan(|b|, true)
    decreases |b|
  {
    if b == "" {
      assert b + "'" == "'";
    } else {
      assert (b + "'")[0] == b[0] && (b + "'")[1..] == b[1..] + "'";
      StarScan(b[1..]);
    }
  }

  lemma {:induction false} FrontEnds(r: string)
    requires r != "" && (r[0] == 'u' || r[0] == 'E')
    ensures Ends(T_EQ, r) && Ends(T_AND, r)
  {
  }

  lemma {:induction false} WordsEnd(r: string)
    requires r != "" && (r[0] == '=' || (r[0] == '&' && |r| > 1 && r[1] == 'E'))
    ensures (r[0] == '=' ==> Ends(T_NAME, r)) && (r[0] == '&' ==> Ends(T_U, r))
  {
    hide Lower;
  }

  /** The name and the '=' in front of tokens. */
  lemma {:induction false} NamedReads(ts: seq<Lexeme>, x: string, ps: seq<Piece>)
    requires Reads(ts, x, ps) && x != "" && x[0] == 'u'
    ensures Statement("password=" + x) == Script([Piece([], T_NAME), Piece([], T_EQ)] + ps, [])
  {
    hide Reads, Fits, Ends, Statement;
    EqualsFits();
    FrontEnds(x);
    ReadsToken(T_EQ, ts, x, ps);
    WordFits("password");
    WordsEnd("=" + x);
    ReadsToken(T_NAME, [T_EQ] + ts, "=" + x, [Piece([], T_EQ)] + ps);
    assert "password" + ("=" + x) == "password=" + x;
    assert [Piece([], T_NAME)] + ([Piece([], T_EQ)] + ps) == [Piece([], T_NAME), Piece([], T_EQ)] + ps;
    ReadsBack([T_NAME] + ([T_EQ] + ts), "password=" + x, [Piece([], T_NAME), Piece([], T_EQ)] + ps);
  }

  const MERGE := [Piece([], T_NAME), Piece([], T_EQ), Piece([], T_U), Piece([], T_AND), Piece([], T_ESC)]

  lemma {:induction false} EscapeReads()
    ensures Reads([T_ESC] + [], "E'password=y'", [Piece([], T_ESC)] + [])
  {
    hide Reads, Fits, Ends;
    ReadsNone();
    EscapedFits("password=y");
    EndsNothing(T_ESC);
    ReadsToken(T_ESC, [], "", []);
    assert T_ESC.text + "" == "E'password=y'";
  }

  lemma {:induction false} AndReads(ts: seq<Lexeme>, x: string, ps: seq<Piece>)
    requires Reads(ts, x, ps) && x != "" && x[0] == 'E'
    ensures Reads([T_U] + ([T_AND] + ts), "u" + ("&" + x), [Piece([], T_U)] + ([Piece([], T_AND)] + ps))
  {
    hide Reads, Fits, Ends;
    AndFits();
    FrontEnds(x);
    ReadsToken(T_AND, ts, x, ps);
    WordFits("u");
    WordsEnd("&" + x);
    ReadsToken(T_U, [T_AND] + ts, "&" + x, [Piece([], T_AND)] + ps);
  }

  lemma {:induction false} MergeReads()
    ensures Statement(MERGE_TEXT) == Script(MERGE, [])
  {
    hide Reads, Statement, T_ESC, T_U, T_AND, T_NAME, T_EQ;
    EscapeReads();
    var x, e := "E'password=y'", [Piece([], T_ESC)] + [];
    AndReads([T_ESC] + [], x, e);
    var ps := [Piece([], T_U)] + ([Piece([], T_AND)] + e);
    NamedReads([T_U] + ([T_AND] + ([T_ESC] + [])), "u" + ("&" + x), ps);
    assert "password=" + ("u" + ("&" + x)) == MERGE_TEXT;
    assert [Piece([], T_NAME), Piece([], T_EQ)] + ps == MERGE;
  }

  const MERGED_PIECES := [Piece([], T_NAME), Piece([], T_EQ), Piece([], T_UNI)]

  lemma {:induction false} MergedReads()
    ensures Statement("password=u&'********'") == Script(MERGED_PIECES, [])
  {
    hide Reads, Fits, Ends, Statement;
    ReadsNone();
    UniFits();
    EndsNothing(T_UNI);
    ReadsToken(T_UNI, [], "", []);
    var x := "u&'********'";
    assert T_UNI.text + "" == x;
    NamedReads([T_UNI] + [], x, [Piece([], T_UNI)] + []);
    assert "password=" + x == "password=u&'********'";
    assert [Piece([], T_NAME), Piece([], T_EQ)] + ([Piece([], T_UNI)] + []) == MERGED_PIECES;
  }

  /** Nothing is done before the constant. */
  lemma {:induction false} FrontKept(ts: seq<Lexeme>)
    requires ts != [] && ts[0].WellFormed()
    requires ts[0] == T_EQ || ts[0] == T_U || ts[0] == T_AND || (ts[0] == T_NAME && |ts| > 2 && ts[1] == T_EQ && ts[2] == T_U)
    ensures forall c: Context :: !c.target ==> Decide(c, ts) == Keep
  {
    hide IsSecretName, DecideLiteral;
    if IsSecretName("u") { LongName("u"); }
  }

  lemma {:induction false} NoTarget()
    ensures var c1 := Next(START, T_NAME); var c2 := Next(c1, T_EQ); var c3 := Next(c2, T_U);
            !c1.target && !c2.target && !c3.target
  {
    assert |Lower("set")| == 3 && |Lower("local")| == 5 && |Lower("session")| == 7 && |Lower("password")| == 8 && |Lower("u")| == 1;
  }

  lemma {:induction false} AllWellFormed()
    ensures WellFormed(MERGE)
  {
    hide Lexeme.WellFormed, T_NAME, T_EQ, T_U, T_AND, T_ESC;
    EachWellFormed();
  }

  lemma {:induction false} EachWellFormed()
    ensures T_NAME.WellFormed() && T_EQ.WellFormed() && T_U.WellFormed() && T_AND.WellFormed() && T_ESC.WellFormed()
  {
  }

  lemma {:induction false} MergeWalk()
    ensures WellFormed(MERGE)
    ensures Walk(START, Script(MERGE, [])) == Script(MERGE[..4] + [Piece([], REDACTED)], [])
  {
    hide Decide, Next, Walk, ConnRewrite, IsConstantName, T_ESC, REDACTED;
    var ps := MERGE;
    var c1 := Next(START, T_NAME);
    var c2 := Next(c1, T_EQ);
    var c3 := Next(c2, T_U);
    var c4 := Next(c3, T_AND);
    NoTarget();
    AllWellFormed();
    assert Toks(ps)[0] == T_NAME && Toks(ps)[1] == T_EQ && Toks(ps)[2] == T_U;
    assert Toks(ps[1..])[0] == T_EQ && Toks(ps[2..])[0] == T_U && Toks(ps[3..])[0] == T_AND;
    FrontKept(Toks(ps));
    WalkKeep(START, Script(ps, []));
    FrontKept(Toks(ps[1..]));
    WalkKeep(c1, Script(ps[1..], []));
    assert ps[1..][1..] == ps[2..] && ps[2..][1..] == ps[3..] && ps[3..][1..] == ps[4..] == [Piece([], T_ESC)];
    FrontKept(Toks(ps[2..]));
    WalkKeep(c2, Script(ps[2..], []));
    FrontKept(Toks(ps[3..]));
    WalkKeep(c3, Script(ps[3..], []));
    LastWalk(c4);
  }

  lemma {:induction false} LastWalk(c: Context)
    ensures T_ESC.WellFormed() && Walk(c, Script([Piece([], T_ESC)], [])) == Script([Piece([], REDACTED)], [])
  {
    hide Decide, Walk, ConnRewrite, IsConstantName, After, REDACTED;
    MergedRewrites();
    OneStep(c, T_ESC, REDACTED, []);
    var ps, kept := [Piece([], T_ESC)], [Piece([], REDACTED)];
    assert Toks(ps) == [T_ESC] + [] && ps[..0] + kept == kept && ps[1..] == [];
    WalkEdit(c, Script(ps, []), Edit(0, 1, REDACTED, false));
    WalkNothing(After(c, Toks(kept)));
    assert kept + [] == kept;
  }

  lemma {:induction false} MergedText()
    ensures TextOf(Script(MERGE[..4] + [Piece([], REDACTED)], [])) == "password=u&'********'"
  {
    hide TextOf, Join, REDACTED;
    JoinNone();
    var p5 := Script([Piece([], REDACTED)], []);
    ScriptText(p5.pieces[0]);
    assert "" + REDACTED.text == REDACTED.text;
    var p4 := Script([Piece([], T_AND)] + p5.pieces, []);
    PieceFirst(Piece([], T_AND), p5);
    var p3 := Script([Piece([], T_U)] + p4.pieces, []);
    PieceFirst(Piece([], T_U), p4);
    var p2 := Script([Piece([], T_EQ)] + p3.pieces, []);
    PieceFirst(Piece([], T_EQ), p3);
    PieceFirst(Piece([], T_NAME), p2);
    assert MERGE[..4] + p5.pieces == [Piece([], T_NAME)] + p2.pieces;
    SpelledOut(REDACTED.text);
    RedactedText();
  }

  lemma {:induction false} SpelledOut(x: string)
    ensures "" + ("password" + ("" + ("=" + ("" + ("u" + ("" + ("&" + x))))))) == "password=u&" + x
  {
    assert "" + ("&" + x) == "&" + x;
    assert "" + ("u" + ("&" + x)) == "u&" + x;
    assert "" + ("=" + ("u&" + x)) == "=u&" + x;
  }

  lemma {:induction false} RedactedText()
    ensures REDACTED.text == "'********'"
  {
  }

  /** Where a placeholder runs together with the text before it, a name in a redacted statement can be
      followed by another constant than the plain placeholder. */
  lemma {:induction false} NotHidden()
    ensures RedactQuery("password=u&E'password=y'") == "password=u&'********'"
    ensures var ts := Toks(Statement("password=u&'********'").pieces); ts != [] && !Guarded(START, ts)
  {
    hide Walk, Statement, RedactQuery, TextOf, MERGE;
    GateSound(MERGE_TEXT);
    MergeReads();
    MergeWalk();
    MergedText();
    RewrittenText(MERGE_TEXT);
    MergedReads();
    ValueSeen();
  }

  lemma {:induction false} ValueSeen()
    ensures !Guarded(START, Toks(MERGED_PIECES))
  {
    hide IsSecretName;
    PasswordSecret();
    var ts := Toks(MERGED_PIECES);
    assert ts == [T_NAME, T_EQ, T_UNI];
    assert T_UNI != REDACTED;
  }
}
