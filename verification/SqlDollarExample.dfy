/**
 A dollar-quoted constant that comes to hold its own tag: decoding a nested value brings the tag in, and
 the rewritten constant ends early.
 */
module SqlDollarExample {
  import opened Text
  import opened SqlLexer
  import opened SqlBoundary
  import opened SqlChain
  import opened SqlRedact
  import opened SqlGate
  import opened SqlRelex
  import opened SqlConstants
  import opened SqlChanges
  import opened SqlExamples
  import opened ConnStringTags
  import opened ConnStringLaws
  import opened ConnStringEscape
  import ConnString
  import ConnStringExamples

  // The connection string

  const START_TEXT := "password=x y="

  const INNER := START_TEXT + "$t$"

  const INNER_RAW := START_TEXT + ("$" + ("\\t" + ("$" + "'")))

  const BODY := "dbname=" + ("'" + INNER_RAW)

  lemma {:induction false} InnerRead()
    ensures ConnString.QuotedValue(INNER_RAW) == Some(ConnString.Value(|INNER_RAW|, INNER))
  {
    hide ConnString.QuotedValue;
    ConnStringExamples.LastQuote();
    ConnStringExamples.ReadPlain("$", 1, "", "'");
    ConnStringExamples.ReadEscaped('t', 2, "$" + "", "$" + "'");
    assert ['\\', 't'] == "\\t" && ['t'] + ("$" + "") == "t$";
    ConnStringExamples.ReadPlain("$", 4, "t$", "\\t" + ("$" + "'"));
    assert "$" + "t$" == "$t$";
    ConnStringExamples.ReadPlain(START_TEXT, 5, "$t$", "$" + ("\\t" + ("$" + "'")));
    assert |INNER_RAW| == |START_TEXT| + 5;
  }

  const OUTER := ConnString.Param("", "dbname", "", "", "'" + INNER_RAW, INNER)

  lemma {:induction false} BodyParse()
    ensures ConnString.Parse(BODY) == ConnString.Pairs([OUTER], "")
  {
    hide ConnString.QuotedValue, ConnString.ParseOne, INNER, INNER_RAW;
    var p := OUTER;
    InnerRead();
    assert (p.raw + "")[1..] == INNER_RAW && (p.raw + "")[0] == '\'';
    ParseOneIs(p, "");
    ParseSpaces("");
    assert p.Text() + "" == BODY;
    assert ConnString.Parse("") == ConnString.Pairs([], "");
    assert [p] + [] == [p];
  }

  const FIRST := ConnString.Param("", "password", "", "", "x", "x")

  const SECOND := ConnString.Param(" ", "y", "", "", "$t$", "$t$")

  lemma {:induction false} BareIs(x: string, r: string)
    requires All(IsBare, x) && x != "" && x[0] != '\'' && (r == "" || ConnString.IsConnSpace(r[0]))
    ensures ConnString.ScanValue(x + r) == Some(ConnString.Value(|x|, x)) && NoLeadingSpace(x + r)
  {
    hide ConnString.BareValue;
    BareStart(r);
    BarePrefix(x, r);
    assert (x + r)[0] == x[0] && x + "" == x;
  }

  lemma {:induction false} InnerParse()
    ensures ConnString.Parse(INNER) == ConnString.Pairs([FIRST, SECOND], "")
  {
    hide ConnString.ParseOne, ConnString.ScanValue;
    BareIs("$t$", "");
    ParseOneIs(SECOND, "");
    assert SECOND.Text() + "" == " y=$t$";
    BareIs("x", " y=$t$");
    ParseOneIs(FIRST, " y=$t$");
    assert FIRST.Text() + " y=$t$" == INNER;
    ParseSpaces("");
    assert ConnString.Parse("") == ConnString.Pairs([], "");
    assert ConnString.Parse(" y=$t$") == ConnString.Pairs([SECOND] + [], "") == ConnString.Pairs([SECOND], "");
    assert [FIRST] + [SECOND] == [FIRST, SECOND];
  }

  const SHOWN := "password=" + (STARS + (" y=" + "$t$"))

  lemma {:induction false} Raws()
    ensures ConnString.NewRaw(FIRST) == STARS && FIRST.Head() == "password="
    ensures ConnString.NewRaw(SECOND) == "$t$" && SECOND.Head() == " y="
  {
    hide ConnString.RedactPasswords;
    assert Lower("password") == "password";
    assert |Lower("y")| == 1;
  }

  lemma {:induction false} Shapes()
    ensures !ConnString.HasUriPrefix(INNER) && INNER != SHOWN && '\'' !in SHOWN && '\\' !in SHOWN
  {
    assert INNER[1] == 'a';
    StarsAre();
    assert |SHOWN| == 23 && |INNER| == 16;
  }

  lemma {:induction false} InnerRedacted()
    ensures ConnString.RedactPasswords(INNER) == SHOWN != INNER
  {
    hide ConnString.Parse, ConnString.NewRaw, STARS, ConnString.STARS;
    InnerParse();
    Raws();
    Shapes();
    assert [FIRST, SECOND][1..] == [SECOND] && [SECOND][1..] == [];
    assert ConnString.Render([]) == "";
    assert ConnString.Render([SECOND]) == " y=" + "$t$" + "" == " y=" + "$t$";
    assert ConnString.Render([FIRST, SECOND]) == "password=" + STARS + (" y=" + "$t$");
    assert "password=" + STARS + (" y=" + "$t$") + "" == SHOWN;
  }

  lemma {:induction false} OuterNested()
    ensures ConnString.IsNested(OUTER) && OUTER.Head() == "dbname=" && !ConnString.HasUriPrefix(BODY)
  {
    hide INNER_RAW;
    assert |Lower("dbname")| == 6;
    assert INNER[8..9] == "=";
    assert At(INNER, "=", 8);
    assert BODY[0] == 'd';
  }

  const RED := "dbname=" + ("'" + SHOWN + "'")

  lemma {:induction false} BodyRedacted()
    ensures ConnString.RedactPasswords(BODY) == RED
  {
    hide ConnString.Parse, INNER, INNER_RAW, SHOWN, ConnString.IsNested, ConnString.Param.Head, ConnString.RedactPasswords, ConnString.Double, BODY;
    BodyParse();
    InnerRedacted();
    OuterNested();
    Shapes();
    ConnStringExamples.LoneNested(BODY, OUTER);
    EscapePlain(SHOWN);
    DoubleNone(SHOWN, '\\');
  }

  // The statement

  const TAG := "$t$"

  function Quoted(b: string): Lexeme { Lexeme(Dollar, TAG + (b + TAG), 3, 3 + |b|, false, false, true) }

  lemma {:induction false} QuotedFits(b: string, r: string)
    requires Avoids(b, TAG, TAG)
    ensures Fits(Quoted(b), r)
  {
    hide Run, Find, Avoids, TagLen, OpensDollar;
    AvoidsFind(b, TAG, r);
    OpenTag(b + TAG + r);
    var s := Quoted(b).text + r;
    assert s == TAG + (b + TAG + r) && s[0] == '$' && s[1] == 't' && s[1..] == "t$" + (b + TAG + r);
    assert s[3..] == b + TAG + r && s[..3] == TAG;
    assert s[..3 + |b| + 3] == Quoted(b).text;
  }

  lemma {:induction false} OpenTag(r: string)
    ensures TagLen("t$" + r) == 1 && OpensDollar("t$" + r)
  {
    hide Run;
    var s := "t$" + r;
    assert s[0] == 't' && s[1] == '$';
    RunIs(IsTagCont, s, 1);
  }

  /** The tag does not occur in the constant as written, where it is broken by a backslash. */
  lemma {:induction false} BodyAvoidsTag()
    ensures Avoids(BODY, TAG, TAG)
  {
    var s, n := BODY + TAG, |BODY|;
    assert |BODY| == 26 && BODY == "dbname='password=x y=$\\t$'";
    forall i | 0 <= i < n ensures !At(s, TAG, i) {
      assert i + 3 <= |s|;
      assert s[i..i + 3][0] == s[i] && s[i..i + 3][1] == s[i + 1];
      assert s[i] == BODY[i];
      assert BODY[i] == '$' ==> i == 21 || i == 24;
      assert s[22] == '\\' && s[25] == '\'';
    }
  }

  lemma {:induction false} BodyMentions()
    ensures MentionsConnSecret(BODY)
  {
    assert Lower(BODY)[8..16] == "password";
    assert At(Lower(BODY), "password", 8);
  }

  lemma {:induction false} OneToken(t: Lexeme)
    requires Fits(t, "") && t.IsLiteral()
    ensures Statement(t.text) == Script([Piece([], t)], [])
  {
    hide Lex, Fits, Group, Join;
    ChainOne(t, "");
    JoinNone();
    JoinCons(t, []);
    assert [t] + [] == [t] && t.text + "" == t.text;
    LexChain([t], "");
    LexNone();
    GroupToken(t, []);
    GroupNone();
    assert [Piece([], t)] + [] == [Piece([], t)];
  }

  lemma {:induction false} OneRewritten(t: Lexeme, u: Lexeme)
    requires Fits(t, "") && t.IsLiteral() && t.WellFormed() && !IsConstantName(t) && ConnRewrite(t) == Some(Rewrite(u, false))
    ensures RedactQuery(t.text) == u.text
  {
    hide Fits, ConnRewrite, IsConstantName, Decide, Walk, Statement, RedactQuery, TextOf, After;
    OneToken(t);
    OneStep(START, t, u, []);
    var ps := [Piece([], t)];
    assert Toks(ps) == [t] + [] && ps[..0] + [Piece([], u)] == [Piece([], u)] && ps[1..] == [];
    WalkEdit(START, Script(ps, []), Edit(0, 1, u, false));
    WalkNothing(After(START, Toks([Piece([], u)])));
    assert [Piece([], u)] + [] == [Piece([], u)];
    GateSound(t.text);
    ScriptText(Piece([], u));
    JoinNone();
    assert "" + u.text == u.text;
    RewrittenText(t.text);
  }

  lemma {:induction false} BodyRewritten()
    ensures var t := Quoted(BODY);
            t.WellFormed() && !IsConstantName(t) && ConnRewrite(t) == Some(Rewrite(Quoted(RED), false))
  {
    hide MentionsConnSecret, TruncatedInHost, ConnString.RedactPasswords, BODY, RED, TAG;
    var t := Quoted(BODY);
    TagLength();
    assert t.Body() == BODY by { assert t.text[3..3 + |BODY|] == BODY; }
    BodyMentions();
    BodyRedacted();
    Different();
    assert t.text[..3] == TAG;
    assert TAG + RED + TAG == TAG + (RED + TAG);
  }

  lemma {:induction false} TagLength()
    ensures |TAG| == 3
  {
  }

  lemma {:induction false} Different()
    ensures RED != BODY
  {
    StarsAre();
    assert |SHOWN| == 23 && |RED| == 32 && |BODY| == 26;
  }

  const CUT := "dbname='" + ("password=" + (STARS + " y="))

  lemma {:induction false} CutAvoids()
    ensures Avoids(CUT, TAG, TAG) && RED == CUT + (TAG + "'")
  {
    StarsAre();
    var s := CUT + TAG;
    assert '$' !in CUT;
    forall i | 0 <= i < |CUT| ensures !At(s, TAG, i) {
      assert i + 3 <= |s|;
      assert s[i..i + 3][0] == s[i] == CUT[i];
    }
    assert RED == "dbname='" + ("password=" + (STARS + (" y=" + TAG))) + "'";
  }

  /** The statement `$t$dbname='password=x y=$\t$'$t$` is one constant; what is put for it is a shorter
      one, with text left over behind it. */
  lemma {:induction false} TagBroughtIn()
    ensures var q := TAG + (BODY + TAG);
            && Lex(q) == [Quoted(BODY)]
            && RedactQuery(q) == TAG + (RED + TAG)
            && First(RedactQuery(q)) == Quoted(CUT) && |CUT| < |RED|
  {
    hide Avoids, ConnRewrite, IsConstantName, RedactQuery, BODY, RED, CUT, First, Fits, TAG, Lex;
    BodyAvoidsTag();
    QuotedFits(BODY, "");
    BodyRewritten();
    OneRewritten(Quoted(BODY), Quoted(RED));
    LexOne(Quoted(BODY), "");
    LexNone();
    assert Quoted(BODY).text + "" == Quoted(BODY).text && [Quoted(BODY)] + [] == [Quoted(BODY)];
    CutAvoids();
    QuotedFits(CUT, "'" + TAG);
    assert TAG + (RED + TAG) == Quoted(CUT).text + ("'" + TAG);
    FitsFirst(Quoted(CUT), "'" + TAG);
  }

}
