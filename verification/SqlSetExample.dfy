/**
 A SET command whose value is more than one token: its parameters are replaced, although the source
 calls parameters untouchable.
 */
module SqlSetExample {
  import opened Text
  import opened SqlLexer
  import opened SqlBoundary
  import opened SqlChain
  import opened SqlRedact
  import opened SqlGate
  import opened SqlRelex
  import opened SqlIdempotence
  import opened SqlChanges

  // Tokens on their own

  lemma {:induction false} WordFits(w: string)
    requires w != "" && IsIdentStart(w[0]) && All(IsIdentCont, w)
    ensures Fits(Plain(Ident, w), "")
  {
    hide Run, QuoteScan, BlockScan, Quoted, Lower, DollarLexeme;
    assert w + "" == w;
    RunIs(IsIdentCont, w, |w|);
    assert w[..|w|] == w;
  }

  lemma {:induction false} BlankFits()
    ensures Fits(Plain(Space, " "), "")
  {
    hide Run;
    assert " " + "" == " ";
    RunIs(IsSpace, " ", 1);
    assert " "[..1] == " ";
  }

  lemma {:induction false} EqualsFits()
    ensures Fits(Plain(Op, "="), "")
  {
    hide Run, WordLexeme, DollarLexeme;
    assert "=" + "" == "=";
    RunIs(IsOpChar, "=", 1);
    assert "="[..1] == "=";
  }

  lemma {:induction false} OneFits(c: char)
    requires c == '.' || c == ','
    ensures Fits(Plain(Other, [c]), "")
  {
    hide Run, WordLexeme, DollarLexeme;
    assert [c] + "" == [c] && [c][..1] == [c];
  }

  lemma {:induction false} ParameterFits(d: char)
    requires IsDigit(d)
    ensures Fits(Plain(Other, ['$', d]), "")
  {
    hide Run, WordLexeme;
    var s := ['$', d];
    assert s + "" == s && s[1..] == [d];
    RunIs(IsDigit, [d], 1);
    assert s[..2] == s;
  }

  // Building a statement from the back

  /** The tokens have the text, and are read back from it as the pieces. */
  ghost predicate Reads(ts: seq<Lexeme>, text: string, ps: seq<Piece>) {
    Chain(ts, "") && Join(ts) == text && Group(ts) == Script(ps, [])
  }

  lemma {:induction false} ReadsNone()
    ensures Reads([], "", [])
  {
  }

  lemma {:induction false} ReadsToken(t: Lexeme, ts: seq<Lexeme>, text: string, ps: seq<Piece>)
    requires Reads(ts, text, ps) && Fits(t, "") && Ends(t, text) && t.Significant()
    ensures Reads([t] + ts, t.text + text, [Piece([], t)] + ps)
  {
    hide Fits, Ends;
    var all := [t] + ts;
    assert all[1..] == ts && all[0] == t;
    Refit(t, "", text);
    assert Join(ts) + "" == text;
  }

  lemma {:induction false} ReadsSpace(ts: seq<Lexeme>, text: string, ps: seq<Piece>)
    requires Reads(ts, text, ps) && ps != [] && ps[0].gap == [] && text != "" && !IsSpace(text[0])
    ensures var g := Plain(Space, " "); Reads([g] + ts, " " + text, [Piece([g], ps[0].tok)] + ps[1..])
  {
    hide Fits;
    var g := Plain(Space, " ");
    var all := [g] + ts;
    assert all[1..] == ts && all[0] == g;
    BlankFits();
    Refit(g, "", text);
    assert Join(ts) + "" == text;
    assert [g] + ps[0].gap == [g];
  }

  const SP := Plain(Space, " ")
  const T_SET := Plain(Ident, "SET")
  const T_A := Plain(Ident, "a")
  const T_DOT := Plain(Other, ".")
  const T_NAME := Plain(Ident, "password")
  const T_EQ := Plain(Op, "=")
  const T_ONE := Plain(Other, "$1")
  const T_COMMA := Plain(Other, ",")
  const T_TWO := Plain(Other, "$2")

  const VALUE := [Piece([SP], T_ONE), Piece([], T_COMMA), Piece([SP], T_TWO)]

  lemma {:induction false} ValueReads() returns (ts: seq<Lexeme>)
    ensures Reads(ts, " $1, $2", VALUE)
  {
    hide Reads, Fits;
    ReadsNone();
    ParameterFits('2');
    assert ['$', '2'] == "$2" && ['$', '1'] == "$1" && [','] == ",";
    ReadsToken(T_TWO, [], "", []);
    ReadsSpace([T_TWO] + [], "$2" + "", [Piece([], T_TWO)] + []);
    OneFits(',');
    var a := [SP] + ([T_TWO] + []);
    assert " " + ("$2" + "") == " $2";
    assert [Piece([SP], T_TWO)] + ([Piece([], T_TWO)] + [])[1..] == [Piece([SP], T_TWO)];
    ReadsToken(T_COMMA, a, " $2", [Piece([SP], T_TWO)]);
    ParameterFits('1');
    assert "," + " $2" == ", $2";
    var ps := [Piece([], T_COMMA)] + [Piece([SP], T_TWO)];
    ReadsToken(T_ONE, [T_COMMA] + a, ", $2", ps);
    assert "$1" + ", $2" == "$1, $2";
    var qs := [Piece([], T_ONE)] + ps;
    ReadsSpace([T_ONE] + ([T_COMMA] + a), "$1, $2", qs);
    assert " " + "$1, $2" == " $1, $2";
    assert [Piece([SP], T_ONE)] + qs[1..] == VALUE;
    ts := [SP] + ([T_ONE] + ([T_COMMA] + a));
  }

  const HEAD := [Piece([], T_SET), Piece([SP], T_A), Piece([], T_DOT), Piece([], T_NAME), Piece([SP], T_EQ)]

  const SET_TEXT := "SET a.password = $1, $2"

  lemma {:induction false} EqualsReads(ts: seq<Lexeme>, x: string)
    requires Reads(ts, x, VALUE) && x != "" && x[0] == ' '
    ensures var ts' := [SP] + ([T_EQ] + ts); Reads(ts', " " + ("=" + x), [Piece([SP], T_EQ)] + VALUE)
  {
    hide Reads, Fits, VALUE;
    EqualsFits();
    ReadsToken(T_EQ, ts, x, VALUE);
    var ps := [Piece([], T_EQ)] + VALUE;
    ReadsSpace([T_EQ] + ts, "=" + x, ps);
    assert ps[1..] == VALUE;
  }

  lemma {:induction false} NameReads(ts: seq<Lexeme>, x: string, ps: seq<Piece>)
    requires Reads(ts, x, ps) && x != "" && x[0] == ' '
    ensures Reads([T_DOT] + ([T_NAME] + ts), "." + ("password" + x), [Piece([], T_DOT)] + ([Piece([], T_NAME)] + ps))
  {
    hide Reads, Fits, Ends;
    WordFits("password");
    NameEnds(x);
    ReadsToken(T_NAME, ts, x, ps);
    OneFits('.');
    assert ['.'] == ".";
    DotEnds("password" + x);
    ReadsToken(T_DOT, [T_NAME] + ts, "password" + x, [Piece([], T_NAME)] + ps);
  }

  lemma {:induction false} DotEnds(r: string)
    ensures Ends(T_DOT, r)
  {
  }

  lemma {:induction false} FrontReads(ts: seq<Lexeme>, x: string, ps: seq<Piece>)
    requires Reads(ts, x, ps) && x != "" && x[0] == '.'
    ensures Reads([T_SET] + ([SP] + ([T_A] + ts)), "SET" + (" " + ("a" + x)), [Piece([], T_SET)] + ([Piece([SP], T_A)] + ps))
  {
    hide Reads, Fits, Ends;
    WordFits("a");
    AEnds(x);
    ReadsToken(T_A, ts, x, ps);
    var qs := [Piece([], T_A)] + ps;
    ReadsSpace([T_A] + ts, "a" + x, qs);
    assert qs[1..] == ps;
    WordFits("SET");
    NameEnds(" " + ("a" + x));
    ReadsToken(T_SET, [SP] + ([T_A] + ts), " " + ("a" + x), [Piece([SP], T_A)] + ps);
  }

  lemma {:induction false} HeadIs(v: seq<Piece>)
    ensures [Piece([], T_SET)] + ([Piece([SP], T_A)] + ([Piece([], T_DOT)] + ([Piece([], T_NAME)] + ([Piece([SP], T_EQ)] + v)))) == HEAD + v
  {
    hide T_SET, T_A, T_DOT, T_NAME, T_EQ, SP;
  }

  lemma {:induction false} SpaceFirst(x: string)
    ensures (" " + x)[0] == ' ' && ("." + x)[0] == '.'
  {
  }

  lemma {:induction false} AnyReads(ts: seq<Lexeme>, x: string)
    requires Reads(ts, x, VALUE) && x != "" && x[0] == ' '
    ensures Statement("SET a.password =" + x) == Script(HEAD + VALUE, [])
  {
    hide Reads, VALUE, HEAD, T_SET, T_A, T_DOT, T_NAME, T_EQ, SP, Statement;
    EqualsReads(ts, x);
    SpaceFirst("=" + x);
    NameReads([SP] + ([T_EQ] + ts), " " + ("=" + x), [Piece([SP], T_EQ)] + VALUE);
    SpaceFirst("password" + (" " + ("=" + x)));
    FrontReads([T_DOT] + ([T_NAME] + ([SP] + ([T_EQ] + ts))), "." + ("password" + (" " + ("=" + x))),
               [Piece([], T_DOT)] + ([Piece([], T_NAME)] + ([Piece([SP], T_EQ)] + VALUE)));
    Spelled(x);
    HeadIs(VALUE);
    ReadsBack([T_SET] + ([SP] + ([T_A] + ([T_DOT] + ([T_NAME] + ([SP] + ([T_EQ] + ts)))))), "SET a.password =" + x, HEAD + VALUE);
  }

  lemma {:induction false} SetReads()
    ensures Statement(SET_TEXT) == Script(HEAD + VALUE, [])
  {
    hide Reads, VALUE, HEAD, Statement;
    var ts := ValueReads();
    AnyReads(ts, " $1, $2");
    assert "SET a.password =" + " $1, $2" == SET_TEXT;
  }

  lemma {:induction false} NameEnds(r: string)
    requires r != "" && r[0] == ' '
    ensures Ends(T_NAME, r) && Ends(T_SET, r)
  {
    hide Lower;
  }

  lemma {:induction false} AEnds(r: string)
    requires r != "" && r[0] == '.'
    ensures Ends(T_A, r)
  {
    hide Lower;
  }

  lemma {:induction false} ReadsBack(ts: seq<Lexeme>, text: string, ps: seq<Piece>)
    requires Reads(ts, text, ps)
    ensures Statement(text) == Script(ps, [])
  {
    hide Lex, Chain, Group;
    LexChain(ts, "");
    LexNone();
    assert text + "" == text && ts + [] == ts;
  }

  // Redacting it

  lemma {:induction false} SetContext()
    ensures Next(Next(Next(START, T_SET), T_A), T_DOT).target
  {
    assert Lower("SET") == "set" && Lower("set") == "set";
    assert |Lower("local")| == 5 && |Lower("session")| == 7 && |Lower("a")| == 1;
    assert |Lower(".")| == 1;
  }

  lemma {:induction false} ShortKept(c: Context, ts: seq<Lexeme>)
    requires ts != [] && ts[0].WellFormed() && (ts[0] == T_SET || ts[0] == T_A || ts[0] == T_DOT)
    ensures Decide(c, ts) == Keep
  {
    hide IsSecretName, DecideName, DecideLiteral;
    if IsSecretName("SET") { LongName("SET"); }
    if IsSecretName("a") { LongName("a"); }
  }

  lemma {:induction false} NoSemicolon(vs: seq<Lexeme>)
    requires forall i :: 0 <= i < |vs| ==> vs[i].text != "" && LowerChar(vs[i].text[0]) != ';'
    ensures UpToSemicolon(vs) == |vs|
    decreases |vs|
  {
    if vs != [] {
      assert Lower(";")[0] == ';' && |Lower(";")| == 1;
      NoSemicolon(vs[1..]);
    }
  }

  lemma {:induction false} PasswordSecret()
    ensures IsSecretName("password")
  {
    hide Contains;
    assert Lower("password") == "password";
    ContainsSelf("password");
    assert SECRET_FRAGMENTS[0] == "password";
  }

  lemma {:induction false} ValueEdited(c: Context)
    requires c.target
    ensures var ts := [T_NAME, T_EQ, T_ONE, T_COMMA, T_TWO]; T_NAME.WellFormed() && Decide(c, ts) == Edit(2, 5, REDACTED, false)
  {
    hide Contains, IsSecretName;
    var ts := [T_NAME, T_EQ, T_ONE, T_COMMA, T_TWO];
    PasswordSecret();
    assert ts[2..] == [T_ONE, T_COMMA, T_TWO];
    NoSemicolon(ts[2..]);
  }

  lemma {:induction false} SetWalk()
    ensures WellFormed(HEAD + VALUE) && Walk(START, Script(HEAD + VALUE, [])) == Script(HEAD + [Piece([SP], REDACTED)], [])
  {
    hide Decide, Next, Walk;
    var ps := HEAD + VALUE;
    var c1 := Next(START, T_SET);
    var c2 := Next(c1, T_A);
    SetContext();
    assert Toks(ps)[0] == T_SET && Toks(ps[1..])[0] == T_A && Toks(ps[2..])[0] == T_DOT;
    ShortKept(START, Toks(ps));
    WalkKeep(START, Script(ps, []));
    ShortKept(c1, Toks(ps[1..]));
    WalkKeep(c1, Script(ps[1..], []));
    assert ps[1..][1..] == ps[2..];
    ShortKept(c2, Toks(ps[2..]));
    WalkKeep(c2, Script(ps[2..], []));
    assert ps[2..][1..] == ps[3..] == [Piece([], T_NAME), Piece([SP], T_EQ)] + VALUE;
    ValueWalk(Next(c2, T_DOT));
  }

  lemma {:induction false} ValueWalk(c: Context)
    requires c.target
    ensures var ps := [Piece([], T_NAME), Piece([SP], T_EQ)] + VALUE;
            && WellFormed(ps)
            && Walk(c, Script(ps, [])) == Script([Piece([], T_NAME), Piece([SP], T_EQ), Piece([SP], REDACTED)], [])
  {
    hide Decide, Next, Walk;
    var ps := [Piece([], T_NAME), Piece([SP], T_EQ)] + VALUE;
    assert Toks(ps) == [T_NAME, T_EQ, T_ONE, T_COMMA, T_TWO];
    ValueEdited(c);
    WalkEdit(c, Script(ps, []), Edit(2, 5, REDACTED, false));
    var kept := [Piece([], T_NAME), Piece([SP], T_EQ), Piece([SP], REDACTED)];
    assert ps[..2] + [Piece(ps[2].gap, REDACTED)] == kept && ps[5..] == [];
    WalkNothing(After(c, Toks(kept)));
    assert kept + [] == kept;
  }

  lemma {:induction false} HeadText(r: Script)
    ensures TextOf(Script(HEAD + r.pieces, r.tail)) == "SET a.password =" + TextOf(r)
  {
    hide TextOf, Join;
    var x := TextOf(r);
    JoinNone();
    JoinCons(SP, []);
    assert [SP] + [] == [SP] && " " + "" == " ";
    var p5 := Script([Piece([SP], T_EQ)] + r.pieces, r.tail);
    PieceFirst(Piece([SP], T_EQ), r);
    var p4 := Script([Piece([], T_NAME)] + p5.pieces, r.tail);
    PieceFirst(Piece([], T_NAME), p5);
    var p3 := Script([Piece([], T_DOT)] + p4.pieces, r.tail);
    PieceFirst(Piece([], T_DOT), p4);
    var p2 := Script([Piece([SP], T_A)] + p3.pieces, r.tail);
    PieceFirst(Piece([SP], T_A), p3);
    PieceFirst(Piece([], T_SET), p2);
    assert HEAD + r.pieces == [Piece([], T_SET)] + p2.pieces;
    Spelled(x);
  }

  lemma {:induction false} Spelled(x: string)
    ensures "SET" + (" " + ("a" + ("." + ("password" + (" " + ("=" + x)))))) == "SET a.password =" + x
    ensures "" + ("SET" + (" " + ("a" + ("" + ("." + ("" + ("password" + (" " + ("=" + x))))))))) == "SET a.password =" + x
  {
    assert " " + ("=" + x) == " =" + x;
    assert "" + ("password" + (" =" + x)) == "password =" + x;
    assert "" + ("." + ("password =" + x)) == ".password =" + x;
    assert " " + ("a" + (".password =" + x)) == " a.password =" + x;
    assert "SET" + (" a.password =" + x) == "SET a.password =" + x;
  }

  /** Two parameters of a SET command that go. */
  lemma {:induction false} ParametersLost()
    ensures RedactQuery("SET a.password = $1, $2") == "SET a.password = '********'"
  {
    hide Walk, Statement, RedactQuery, TextOf, HEAD, VALUE;
    GateSound(SET_TEXT);
    SetReads();
    SetWalk();
    var r := Script([Piece([SP], REDACTED)], []);
    HeadText(r);
    ScriptText(Piece([SP], REDACTED));
    JoinNone();
    JoinCons(SP, []);
    assert [SP] + [] == [SP] && " " + "" == " ";
    assert " " + REDACTED.text == " '********'";
    assert "SET a.password =" + " '********'" == "SET a.password = '********'";
    RewrittenText(SET_TEXT);
  }
}
