/**
 A statement that is one constant is redacted as its value is, so redaction of statements is not
 idempotent where redaction of connection strings is not.
 */
module SqlExamples {
  import opened Text
  import opened SqlLexer
  import opened SqlBoundary
  import opened SqlChain
  import opened SqlRedact
  import opened SqlGate
  import opened SqlRelex
  import opened SqlValues
  import opened SqlConstants
  import ConnString
  import ConnStringPrint
  import ConnStringLaws
  import ConnStringEscape
  import ConnStringExamples
  import ConnStringGrowth
  import ConnStringClean
  import opened ConnStringRedaction

  /** The value as a plain constant. */
  function Lone(v: string): string { Constant(ConnString.Double(v, '\'')).text }

  lemma {:induction false} LoneStatement(b: string)
    requires PlainBody(b)
    ensures Statement(Constant(b).text) == Script([Piece([], Constant(b))], [])
  {
    hide Lex, Fits, Group, PlainBody, Constant;
    var t := Constant(b);
    AroundConstant([], b, "");
    JoinNone();
    assert Chain([], t.text + "");
    assert "" + (t.text + "") == t.text && Lex("") == [] by { LexNone(); }
    assert [] + ([t] + []) == [t] + [];
    GroupToken(t, []) by { assert Constant(b).kind == Str by { ConstantKind(b); } }
    GroupNone();
  }

  lemma {:induction false} ConstantKind(b: string)
    ensures Constant(b).kind == Str
  {
  }

  lemma {:induction false} GroupNone()
    ensures Group([]) == Script([], [])
  {
  }

  lemma {:induction false} LoneRewrite(v: string)
    requires "password=" <= v && '\\' !in v
    ensures var t := Constant(ConnString.Double(v, '\''));
            && t.WellFormed() && PlainBody(ConnString.Double(v, '\'')) && !IsConstantName(t)
            && ConnRewrite(t) == (if ConnString.RedactPasswords(v) == v then None
                                  else Some(Rewrite(WithBody(t, ConnString.Double(ConnString.RedactPasswords(v), '\'')), false)))
  {
    hide QuoteScan, ConnString.RedactPasswords, TruncatedInHost, MentionsConnSecret, Undouble, ConnString.Double;
    var b := ConnString.Double(v, '\'');
    var t := Constant(b);
    assert t.Body() == b;
    ScanDoubled(v, '\'', "");
    assert b + (['\''] + "") == b + "'" + "";
    ConnStringEscape.DoubleKeeps(v, '\'', '\\');
    UndoubleDouble(v, '\'');
    LoneBody(v);
    assert !IsNameChar(b[8]);
  }

  lemma {:induction false} LoneBody(v: string)
    requires "password=" <= v
    ensures var b := ConnString.Double(v, '\''); |b| > 8 && b[8] == '=' && MentionsConnSecret(b)
  {
    hide Contains, ConnString.Double;
    var rest := v[9..];
    assert v == "password=" + rest;
    ConnStringEscape.DoubleAppend("password=", rest, '\'');
    ConnStringEscape.DoubleNone("password=", '\'');
    var b := ConnString.Double(v, '\'');
    assert b == "password=" + ConnString.Double(rest, '\'');
    LowerStart(b);
    ContainsPrefix(Lower(b), "password");
  }

  lemma {:induction false} LowerStart(b: string)
    requires "password=" <= b
    ensures "password" <= Lower(b)
  {
    assert forall i :: 0 <= i < 9 ==> b[i] == "password="[i];
    assert Lower(b)[..8] == "password";
  }

  /** A constant that starts like a password parameter is redacted as the connection string it holds. */
  lemma {:induction false} LoneConstant(v: string)
    requires "password=" <= v && '\\' !in v
    ensures RedactQuery(Lone(v)) == Lone(ConnString.RedactPasswords(v))
  {
    hide Lex, Group, ConnRewrite, IsConstantName, PlainBody, ConnString.RedactPasswords, ConnString.Double, RedactQuery;
    var b, red := ConnString.Double(v, '\''), ConnString.RedactPasswords(v);
    var t := Constant(b);
    LoneRewrite(v);
    LoneStatement(b);
    GateSound(Lone(v));
    var ps := [Piece([], t)];
    assert ps[1..] == [] && Toks(ps) == [t];
    var u := WithBody(t, ConnString.Double(red, '\''));
    LoneText(b, ConnString.Double(red, '\''));
    if red == v {
      assert Walk(START, Script(ps, [])) == Script(ps, []);
      JoinPiece(t);
    } else {
      assert ps[..0] + [Piece([], u)] == [Piece([], u)];
      assert Walk(START, Script(ps, [])) == Script([Piece([], u)], []);
      JoinPiece(u);
    }
  }

  lemma {:induction false} LoneText(b: string, d: string)
    ensures WithBody(Constant(b), d).text == Constant(d).text
  {
    assert Constant(b).text[..1] == "'";
    assert "'" + d + "'" == "'" + (d + "'");
  }

  lemma {:induction false} JoinPiece(t: Lexeme)
    ensures Join(Ungroup(Script([Piece([], t)], []))) == t.text
  {
    FlattenOne(Piece([], t));
    assert [] + [t] + [] == [t];
    JoinNone();
    JoinCons(t, []);
    assert [t] + [] == [t] && t.text + "" == t.text;
  }

  lemma {:induction false} LoneInjective(v: string, w: string)
    requires Lone(v) == Lone(w)
    ensures v == w
  {
    var a, b := ConnString.Double(v, '\''), ConnString.Double(w, '\'');
    assert Lone(v)[1..|Lone(v)| - 1] == a && Lone(w)[1..|Lone(w)| - 1] == b;
    UndoubleDouble(v, '\'');
    UndoubleDouble(w, '\'');
  }

  /** The source calls `RedactQuery` idempotent; this constant shows that it needs a condition. */
  lemma {:induction false} NotIdempotent()
    ensures var q := Lone(ConnStringExamples.GLUED); RedactQuery(RedactQuery(q)) != RedactQuery(q)
  {
    hide RedactQuery, ConnString.RedactPasswords, Lone;
    var v := ConnStringExamples.GLUED;
    var w := ConnString.RedactPasswords(v);
    GluedTexts();
    LoneConstant(v);
    LoneConstant(w);
    ConnStringExamples.GluedExample();
    if Lone(ConnString.RedactPasswords(w)) == Lone(w) {
      LoneInjective(ConnString.RedactPasswords(w), w);
    }
  }

  lemma {:induction false} GluedTexts()
    ensures var v := ConnStringExamples.GLUED;
            && "password=" <= v && '\\' !in v
            && "password=" <= ConnString.RedactPasswords(v) && '\\' !in ConnString.RedactPasswords(v)
  {
    hide ConnString.Parse, ConnString.NewRaw, ConnStringPrint.Printed;
    var v := ConnStringExamples.GLUED;
    var p, q := ConnStringPrint.Printed("", ("password", "a")), ConnStringPrint.Printed("", ("user", "b"));
    ConnStringExamples.GluedParse();
    GluedText();
    GluedRaws();
    RenderTwo(p, q);
    var x := STARS + ("user=" + "'b'");
    assert "password=" + STARS + ("user=" + "'b'") + "" == "password=" + x;
    PasswordFirst(x);
  }

  lemma {:induction false} PasswordFirst(x: string)
    requires '\\' !in x
    ensures "password=" <= "password=" + x && '\\' !in "password=" + x
  {
    assert ("password=" + x)[..9] == "password=";
  }

  lemma {:induction false} GluedText()
    ensures var v := ConnStringExamples.GLUED; "password=" <= v && '\\' !in v && !ConnString.HasUriPrefix(v)
  {
    var v := ConnStringExamples.GLUED;
    var x := "'" + "a" + ("'" + ConnStringExamples.GLUED_USER);
    assert v == "password=" + x;
    PasswordFirst(x);
    assert v[1] == 'a';
  }

  lemma {:induction false} RenderTwo(p: ConnString.Param, q: ConnString.Param)
    ensures ConnString.Render([p, q]) == p.Head() + ConnString.NewRaw(p) + (q.Head() + ConnString.NewRaw(q))
  {
    hide ConnString.NewRaw, ConnString.Param.Head;
    assert [p, q][1..] == [q] && [q][1..] == [];
    var x := q.Head() + ConnString.NewRaw(q);
    assert ConnString.Render([]) == "" && x + "" == x;
    assert ConnString.Render([q]) == x;
  }

  lemma {:induction false} GluedRaws()
    ensures ConnString.NewRaw(ConnStringPrint.Printed("", ("password", "a"))) == STARS
    ensures ConnString.NewRaw(ConnStringPrint.Printed("", ("user", "b"))) == "'b'"
    ensures ConnStringPrint.Printed("", ("password", "a")).Head() == "password="
    ensures ConnStringPrint.Printed("", ("user", "b")).Head() == "user="
  {
    hide ConnString.RedactPasswords;
    assert Lower("password") == "password";
    assert |Lower("user")| == 4;
    ConnStringEscape.DoubleNone("b", '\\');
  }

  // Constants with a password parameter first

  /** A redacted connection string starts with the same parameter, unless it is given up. */
  lemma {:induction false} StillFirst(v: string)
    requires "password=" <= v
    ensures !ConnString.HasUriPrefix(v)
    ensures ConnString.RedactPasswords(v) == STARS || "password=" <= ConnString.RedactPasswords(v)
  {
    hide ConnString.NewRaw, ConnString.ParseOne;
    assert v[1] == 'a';
    var one := ConnString.ParseOne(v);
    if ConnString.Parse(v).Pairs? {
      FirstParam(v);
      var p, ps := one.param, ConnString.Parse(v).params;
      assert ps[0] == p;
      var x := ConnString.NewRaw(p) + ConnString.Render(ps[1..]) + ConnString.Parse(v).trail;
      assert ConnString.RedactPasswords(v) == "password=" + (p.post + x) by {
        assert p.Head() == "password=" + p.post;
        Regroup("password=", p.post, ConnString.NewRaw(p), ConnString.Render(ps[1..]), ConnString.Parse(v).trail);
      }
      var y := p.post + x;
      assert ("password=" + y)[..9] == "password=";
    }
  }

  lemma {:induction false} Regroup(a: string, b: string, c: string, d: string, e: string)
    ensures a + b + c + d + e == a + (b + (c + d + e))
  {
  }

  lemma {:induction false} FirstParam(v: string)
    requires "password=" <= v
    ensures ConnString.ParseOne(v).Bad? ||
            (ConnString.ParseOne(v).Got? && var p := ConnString.ParseOne(v).param; p.lead == "" && p.key == "password" && p.pre == "")
  {
    hide Run, TakeRun, DropRun, ConnString.ScanValue;
    var x := v[9..];
    assert v == "password" + ("=" + x);
    CutRun(ConnString.IsConnSpace, "", v);
    assert "" + v == v;
    CutRun(ConnString.IsKeyChar, "password", "=" + x);
    CutRun(ConnString.IsConnSpace, "", "=" + x);
    assert "" + ("=" + x) == "=" + x;
  }

  lemma {:induction false} LoneStars()
    ensures RedactQuery(Lone(STARS)) == Lone(STARS)
  {
    hide ConnString.Double, Contains;
    ConnStringEscape.DoubleNone(STARS, '\'');
    var q := Lone(STARS);
    assert q == "'" + (STARS + "'");
    var l := Lower(q);
    assert forall c :: c in l ==> c == '*' || c == '\'';
    forall i | 0 <= i < |TRIGGERS| ensures !Contains(l, TRIGGERS[i]) {
      TriggerStart(i);
      if Contains(l, TRIGGERS[i]) {
        ContainsHead(l, TRIGGERS[i]);
      }
    }
  }

  lemma {:induction false} TriggerStart(i: nat)
    requires i < |TRIGGERS|
    ensures TRIGGERS[i] != "" && TRIGGERS[i][0] != '*' && TRIGGERS[i][0] != '\''
  {
  }

  /** On a statement that is one such constant, redaction is idempotent if and only if the value is settled. */
  lemma {:induction false} LoneIdempotent(v: string)
    requires "password=" <= v && '\\' !in v
    ensures RedactQuery(RedactQuery(Lone(v))) == RedactQuery(Lone(v)) <==> !Unsettled(v)
  {
    hide RedactQuery, ConnString.RedactPasswords, Lone, Unsettled;
    var red := ConnString.RedactPasswords(v);
    LoneConstant(v);
    ConnStringGrowth.RedactedChars(v, '\\');
    StillFirst(v);
    RedactIdempotent(v);
    if red == STARS {
      LoneStars();
      StarsStay();
    } else {
      LoneConstant(red);
      if Lone(ConnString.RedactPasswords(red)) == Lone(red) {
        LoneInjective(ConnString.RedactPasswords(red), red);
      }
    }
  }

  lemma {:induction false} StarsStay()
    ensures ConnString.RedactPasswords(STARS) == STARS
  {
    hide ConnString.Parse;
    ConnStringClean.StarsMalformed();
  }

  // Constants that run together

  predicate IsBare(c: char) { !ConnString.IsConnSpace(c) && c != '\\' }

  lemma {:induction false} BareAll(x: string)
    requires All(IsBare, x)
    ensures ConnString.BareValue(x) == ConnString.Value(|x|, x)
    decreases |x|
  {
    if x != "" {
      BareAll(x[1..]);
      assert x == [x[0]] + x[1..];
    }
  }

  lemma {:induction false} BarePassword(x: string)
    requires All(IsBare, x) && x != "" && x[0] != '\''
    ensures ConnString.RedactPasswords("password=" + x) == "password=" + STARS
  {
    hide ConnString.Parse, ConnString.NewRaw, ConnString.RedactPasswords;
    var p := ConnString.Param("", "password", "", "", x, x);
    BareRead(p, x);
    assert ("password=" + x)[1] == 'a';
    PasswordRaw(p);
    ConnStringExamples.KeywordsParts("password=" + x);
    LoneRender(p);
  }

  lemma {:induction false} LoneRender(p: ConnString.Param)
    requires p.lead == "" && p.key == "password" && p.pre == "" && p.post == ""
    ensures ConnString.Render([p]) + "" == "password=" + ConnString.NewRaw(p)
  {
    hide ConnString.NewRaw;
    var raw := ConnString.NewRaw(p);
    assert [p][1..] == [] && ConnString.Render([]) == "";
    assert p.Head() == "password=";
    assert "password=" + raw + "" + "" == "password=" + raw;
  }

  lemma {:induction false} PasswordRaw(p: ConnString.Param)
    requires p.key == "password"
    ensures ConnString.NewRaw(p) == STARS
  {
    assert Lower("password") == "password";
  }

  lemma {:induction false} BareRead(p: ConnString.Param, x: string)
    requires All(IsBare, x) && x != "" && x[0] != '\'' && p == ConnString.Param("", "password", "", "", x, x)
    ensures ConnString.Parse("password=" + x) == ConnString.Pairs([p], "")
  {
    hide ConnString.ParseOne, ConnString.BareValue;
    BareAll(x);
    assert x + "" == x;
    ConnStringLaws.ParseOneIs(p, "");
    ConnStringLaws.ParseSpaces("");
    assert p.Text() + "" == "password=" + x;
    assert ConnString.Parse("") == ConnString.Pairs([], "");
    assert [p] + [] == [p];
  }

  /** The body of an escape constant without quotes or backslashes. */
  lemma {:induction false} EscapeScan(b: string)
    requires '\'' !in b && '\\' !in b
    ensures QuoteScan(b + "'", '\'', true) == Scan(|b|, true)
    decreases |b|
  {
    if b == "" {
      assert b + "'" == "'";
    } else {
      assert (b + "'")[0] == b[0] && (b + "'")[1..] == b[1..] + "'";
      EscapeScan(b[1..]);
    }
  }

  function Escaped(b: string): Lexeme { Lexeme(Str, "E'" + (b + "'"), 2, 2 + |b|, true, false, true) }

  lemma {:induction false} EscapedFits(b: string)
    requires '\'' !in b && '\\' !in b
    ensures Fits(Escaped(b), "")
  {
    hide QuoteScan, Run, BlockScan, DollarLexeme;
    var s := "E'" + (b + "'");
    assert s + "" == s && s[0] == 'E' && s[1] == '\'' && s[2..] == b + "'";
    EscapeScan(b);
    RunIs(IsIdentCont, s, 1);
    assert s[..1] == "E" && Lower("E") == "e";
    assert s[..|s|] == s;
  }

  const MERGED := Constant("password=x").text + Escaped("password=y").text

  lemma {:induction false} TwoTokens(t: Lexeme, u: Lexeme)
    requires Fits(t, u.text) && Fits(u, "") && t.IsLiteral() && u.IsLiteral()
    ensures Statement(t.text + u.text) == Script([Piece([], t), Piece([], u)], [])
  {
    hide Lex, Fits, Group, Join;
    ChainOne(u, "");
    JoinNone();
    JoinCons(u, []);
    assert [u] + [] == [u] && u.text + "" == u.text;
    JoinCons(t, [u]);
    assert [t] + [u] == [t, u] && [t, u][1..] == [u] && t.text + u.text + "" == t.text + u.text;
    assert Chain([t, u], "");
    LexChain([t, u], "");
    LexNone();
    assert [t, u] + [] == [t, u];
    GroupToken(t, [u]);
    GroupToken(u, []);
    GroupNone();
  }

  lemma {:induction false} OneStep(c: Context, t: Lexeme, t': Lexeme, ts: seq<Lexeme>)
    requires t.WellFormed() && t.IsLiteral() && !IsConstantName(t) && ConnRewrite(t) == Some(Rewrite(t', false))
    ensures Decide(c, [t] + ts) == Edit(0, 1, t', false)
  {
    hide ConnRewrite, IsConstantName;
  }

  lemma {:induction false} TwoRewritten(t: Lexeme, u: Lexeme, t': Lexeme, u': Lexeme)
    requires t.WellFormed() && t.IsLiteral() && !IsConstantName(t) && ConnRewrite(t) == Some(Rewrite(t', false))
    requires u.WellFormed() && u.IsLiteral() && !IsConstantName(u) && ConnRewrite(u) == Some(Rewrite(u', false))
    ensures Walk(START, Script([Piece([], t), Piece([], u)], [])) == Script([Piece([], t'), Piece([], u')], [])
  {
    hide ConnRewrite, IsConstantName, Decide, After;
    var ps, qs := [Piece([], t), Piece([], u)], [Piece([], u)];
    var c := After(START, Toks([Piece([], t')]));
    OneStep(START, t, t', [u]);
    OneStep(c, u, u', []);
    assert Toks(ps) == [t] + [u] && ps[1..] == qs && Toks(qs) == [u] + [] && qs[1..] == [];
    assert ps[..0] + [Piece([], t')] == [Piece([], t')] && qs[..0] + [Piece([], u')] == [Piece([], u')];
    assert Walk(c, Script(qs, [])) == Script([Piece([], u')] + [], []);
    assert [Piece([], t')] + ([Piece([], u')] + []) == [Piece([], t'), Piece([], u')];
  }

  lemma {:induction false} MergedRedacted()
    ensures RedactQuery(MERGED) == Lone("password=" + STARS + "'" + STARS)
  {
    hide Walk, Statement, RedactQuery, ConnRewrite, Constant, Escaped, IsConstantName, Fits, Ungroup, Join, Lone;
    GateSound(MERGED);
    var t, u := Constant("password=x"), Escaped("password=y");
    MergedTokens();
    MergedRewrites();
    TwoTokens(t, u);
    TwoRewritten(t, u, Constant("password=" + STARS), REDACTED);
    JoinTwo(Constant("password=" + STARS), REDACTED);
    MergedText();
  }

  lemma {:induction false} MergedTokens()
    ensures var t, u := Constant("password=x"), Escaped("password=y");
            Fits(t, u.text) && Fits(u, "") && t.IsLiteral() && u.IsLiteral()
  {
    hide Fits, PlainBody, ConnRewrite, IsConstantName, ConnString.Double, ConnString.RedactPasswords, WithBody;
    LoneRewrite("password=x");
    ConnStringEscape.DoubleNone("password=x", '\'');
    EscapedFits("password=y");
    assert Escaped("password=y").text[0] == 'E';
    ConstantFits("password=x", Escaped("password=y").text);
  }

  lemma {:induction false} JoinTwo(t: Lexeme, u: Lexeme)
    ensures Join(Ungroup(Script([Piece([], t), Piece([], u)], []))) == t.text + u.text
  {
    hide Join;
    var ps := [Piece([], t), Piece([], u)];
    FlattenOne(Piece([], u));
    FirstOut(ps);
    assert ps[1..] == [Piece([], u)];
    assert Flatten(ps) + [] == [t] + [u];
    JoinCons(t, [u]);
    JoinCons(u, []);
    JoinNone();
    assert [u] + [] == [u] && u.text + "" == u.text;
  }

  lemma {:induction false} MergedRewrites()
    ensures var t, u := Constant("password=x"), Escaped("password=y");
            && t.WellFormed() && u.WellFormed() && !IsConstantName(t) && !IsConstantName(u)
            && ConnRewrite(t) == Some(Rewrite(Constant("password=" + STARS), false))
            && ConnRewrite(u) == Some(Rewrite(REDACTED, false))
  {
    hide ConnString.RedactPasswords, ConnString.Double, IsConstantName, MentionsConnSecret;
    LoneRewrite("password=x");
    ConnStringEscape.DoubleNone("password=x", '\'');
    BarePassword("x");
    assert "password=" + "x" == "password=x";
    var d := "password=" + STARS;
    ConnStringEscape.DoubleNone(d, '\'');
    LoneText("password=x", d);
    assert |d| != |"password=x"|;
    EscapedMentions();
    NotPlain();
  }

  lemma {:induction false} NotPlain()
    ensures !IsConstantName(Escaped("password=y"))
  {
  }

  lemma {:induction false} EscapedMentions()
    ensures Escaped("password=y").Body() == "password=y" && MentionsConnSecret("password=y")
  {
    hide ConnString.Double;
    LoneBody("password=y");
    ConnStringEscape.DoubleNone("password=y", '\'');
  }

  lemma {:induction false} MergedText()
    ensures Constant("password=" + STARS).text + REDACTED.text == Lone("password=" + STARS + "'" + STARS)
  {
    hide ConnString.Double;
    var d := "password=" + STARS;
    ConnStringEscape.DoubleAppend(d + "'", STARS, '\'');
    ConnStringEscape.DoubleAppend(d, "'", '\'');
    ConnStringEscape.DoubleNone(d, '\'');
    ConnStringEscape.DoubleNone(STARS, '\'');
    ConnStringEscape.DoubleOne('\'');
    Merge(d, STARS);
  }

  lemma {:induction false} Merge(d: string, e: string)
    ensures ("'" + (d + "'")) + ("'" + e + "'") == "'" + (d + "''" + e + "'")
  {
  }

  /** Two constants whose redactions run together: the result is one constant, and it is redacted again. */
  lemma {:induction false} MergedNotIdempotent()
    ensures RedactQuery(RedactQuery(MERGED)) != RedactQuery(MERGED)
  {
    hide RedactQuery, ConnString.RedactPasswords, Lone;
    MergedRedacted();
    var x := STARS + "'" + STARS;
    var w := "password=" + STARS + "'" + STARS;
    assert w == "password=" + x;
    PasswordFirst(x);
    BarePassword(x);
    LoneConstant(w);
    assert |w| != |"password=" + STARS|;
    if Lone("password=" + STARS) == Lone(w) {
      LoneInjective("password=" + STARS, w);
    }
  }
}
