/**
 When a constant that the connection-string rule has rewritten is rewritten again, told from its value.
 */
module SqlSettled {
  import opened Text
  import opened SqlLexer
  import opened SqlBoundary
  import opened SqlRedact
  import opened SqlRelex
  import opened SqlConstants
  import opened SqlIdempotence
  import opened SqlChanges
  import opened SqlVisible
  import ConnString
  import opened ConnStringRedaction
  import ConnStringGrowth
  import opened ConnStringEscape
  import opened ConnStringKept

  /** The constant is replaced as a whole: it is a URI cut off in its host, or cannot be read safely. */
  predicate GivenUp(t: Lexeme) {
    || (!t.terminated && TruncatedInHost(t.Body()))
    || (t.kind == Str && (t.escapes || t.unicode))
    || AmbiguousEscapes(t)
  }

  /** What stays of the constant's value mentions a secret, and is not settled or, where the constant has
      no end, has lost the end of its host. */
  predicate IsRestless(t: Lexeme) {
    var ks := Kept(ValueOf(t));
    !GivenUp(t) && SeenMentions(ks) && (Unsettled(ValueOf(t)) || (!t.terminated && SeenCut(ks)))
  }

  lemma {:induction false} UndoubleKeeps(s: string, q: char, c: char)
    requires c in Undouble(s, q)
    ensures c in s
    decreases |s|
  {
    if s != "" {
      var k := if |s| > 1 && s[0] == q && s[1] == q then 2 else 1;
      if c != s[0] {
        UndoubleKeeps(s[k..], q, c);
      }
    }
  }

  /** Redaction brings no backslash into a constant. */
  lemma {:induction false} NoBackslash(t: Lexeme, red: string)
    requires t.kind == Str ==> '\\' !in t.Body()
    requires red == ConnString.RedactPasswords(ValueOf(t))
    ensures t.kind == Str ==> '\\' !in ConnString.Double(red, '\'')
  {
    hide ConnString.RedactPasswords, Undouble, ConnString.Double;
    DoubleKeeps(red, '\'', '\\');
    ConnStringGrowth.RedactedChars(ValueOf(t), '\\');
    if t.kind == Str && '\\' in Undouble(t.Body(), '\'') {
      UndoubleKeeps(t.Body(), '\'', '\\');
    }
  }

  /** A constant that is given up is replaced by the placeholder. */
  lemma {:induction false} GivenUpPlaceholder(t: Lexeme)
    requires t.WellFormed() && t.IsLiteral() && ConnRewrite(t).Some? && GivenUp(t)
    ensures ConnRewrite(t).value.repl == REDACTED
  {
    hide MentionsConnSecret, TruncatedInHost, Undouble, ConnString.Double, ConnString.RedactPasswords, WithBody;
  }

  /** A constant that is not given up is rebuilt around the redacted value. */
  lemma {:induction false} NotGivenUp(t: Lexeme)
    requires t.WellFormed() && t.IsLiteral() && ConnRewrite(t).Some? && !GivenUp(t)
    ensures var red := ConnString.RedactPasswords(ValueOf(t));
            && red != ValueOf(t)
            && ConnRewrite(t).value == Rewrite(WithBody(t, if t.kind == Dollar then red else ConnString.Double(red, '\'')), false)
  {
    hide MentionsConnSecret, TruncatedInHost, Undouble, ConnString.Double, ConnString.RedactPasswords, WithBody, AmbiguousEscapes;
  }

  /** What the rule makes of a constant with another body. */
  lemma {:induction false} RewriteOf(u: Lexeme, b: string)
    requires u.WellFormed() && u.IsLiteral() && !u.escapes && !u.unicode && u.Body() == b && (u.kind == Str ==> '\\' !in b)
    ensures ConnRewrite(u) == None <==>
            !MentionsConnSecret(b) || ((u.terminated || !TruncatedInHost(b)) && ConnString.RedactPasswords(ValueOf(u)) == ValueOf(u))
  {
    hide MentionsConnSecret, TruncatedInHost, Undouble, ConnString.Double, ConnString.RedactPasswords, WithBody;
  }

  /** A rewritten constant is rewritten again if and only if it is restless. */
  lemma {:induction false} RewrittenAgain(t: Lexeme, r: string)
    requires Fits(t, r) && t.IsLiteral() && t.WellFormed() && ConnRewrite(t).Some?
    ensures var u := ConnRewrite(t).value.repl;
            u.WellFormed() && (ConnRewrite(u) != None <==> IsRestless(t))
  {
    hide Fits, ConnRewrite, MentionsConnSecret, TruncatedInHost, Undouble, ConnString.Double, ConnString.RedactPasswords, Unsettled,
         Kept, SeenMentions, SeenCut, GivenUp, JoinStars, AmbiguousEscapes;
    RewriteWellFormed(t);
    if GivenUp(t) {
      GivenUpPlaceholder(t);
      RedactedQuiet();
    } else {
      RebuiltAgain(t, r);
    }
  }

  lemma {:induction false} RebuiltAgain(t: Lexeme, r: string)
    requires Fits(t, r) && t.IsLiteral() && t.WellFormed() && ConnRewrite(t).Some? && !GivenUp(t)
    ensures var u := ConnRewrite(t).value.repl;
            u.WellFormed() && (ConnRewrite(u) != None <==> IsRestless(t))
  {
    hide Fits, ConnRewrite, MentionsConnSecret, TruncatedInHost, Undouble, ConnString.Double, ConnString.RedactPasswords, Unsettled,
         Kept, SeenMentions, SeenCut, JoinStars;
    NotGivenUp(t);
    OpeningKept(t, r);
    var v := ValueOf(t);
    var red := ConnString.RedactPasswords(v);
    var b := if t.kind == Dollar then red else ConnString.Double(red, '\'');
    var u := WithBody(t, b);
    BodyOf(t, b);
    UndoubleDouble(red, '\'');
    if t.kind == Dollar {
      DollarFlags(t, r);
    }
    NoBackslash(t, red);
    RewriteOf(u, b);
    KeptRedacts(v);
    SeenIs(Kept(v));
    SeenDouble(red);
    ConnStringRedaction.RedactIdempotent(v);
  }

  /** A rewritten constant keeps its place exactly when a dollar-quoted one has not come to hold its tag, and
      one that is given up, and did not start with a quote, does not stand directly behind another
      constant or a U and an ampersand. */
  lemma {:induction false} PlacedExactly(prev: Before, p: Piece, r: string)
    requires var t := p.tok; Fits(t, r) && t.IsLiteral() && t.WellFormed() && ConnRewrite(t).Some?
    ensures var t := p.tok;
            PlacedConstant(prev, p, ConnRewrite(t).value.repl) <==>
            && (GivenUp(t) || t.kind == Str || Holds(t, ConnString.RedactPasswords(t.Body())))
            && !(GivenUp(t) && t.text[0] != '\'' && p.gap == [] && prev.tok.Some? && (prev.tok.value.kind == Str || prev.hot))
  {
    hide Fits, ConnRewrite, ConnString.Double, ConnString.RedactPasswords, Holds, GivenUp, REDACTED;
    var t := p.tok;
    var u := ConnRewrite(t).value.repl;
    RewriteWellFormed(t);
    ConnRewriteFits(t, r);
    OpeningKept(t, r);
    RedactedStart();
    if GivenUp(t) {
      GivenUpPlaceholder(t);
    } else {
      NotGivenUp(t);
      var red := ConnString.RedactPasswords(ValueOf(t));
      WithBodyStart(t, if t.kind == Dollar then red else ConnString.Double(red, '\''));
    }
  }

  lemma {:induction false} RedactedStart()
    ensures REDACTED.text != "" && REDACTED.text[0] == '\'' && REDACTED.kind == Str
  {
  }
}
