/**
 Statements in which the value of a secret is replaced, and one in which it is not.
 */
module SqlSecretExamples {
  import opened Text
  import opened Spelling
  import opened SecretWords
  import opened SqlLexer
  import opened SqlBoundary
  import opened SqlChain
  import opened SqlRedact
  import opened SqlTokens
  import opened SqlDecisions
  import opened SqlSecrets
  import opened SqlSecretTexts
  import SqlGate
  import opened SqlValues
  import SqlRelex
  import SqlHidden

  predicate IsWordText(word: string) {
    word != "" && StartsWord(word[0]) && forall i :: 0 <= i < |word| ==> InWord(word[i])
  }

  lemma {:induction false} WordAlone(word: string, r: string)
    requires IsWordText(word) && (r != "" ==> IsBlank(r[0]))
    ensures Fits(Plain(Ident, word), r)
  {
    hide First, IsQuoted, IsDollar, IsComment, HasTag;
    var s := word + r;
    assert s[..|word|] == word && s[0] == word[0];
    assert forall i :: 0 <= i < |word| ==> s[i] == word[i];
    assert r != "" ==> s[|word|] == r[0];
    WordStarts(word[0]);
    if |s| > 1 {
      assert s[1] == if |word| > 1 then word[1] else r[0];
      NoQuote(s[1]);
    }
    FirstExactly(s, Plain(Ident, word));
  }

  lemma {:induction false} WordStarts(c: char)
    requires StartsWord(c)
    ensures !IsBlank(c) && !InOperator(c) && c !in "'\"$-/"
  {
  }

  lemma {:induction false} NoQuote(c: char)
    requires InWord(c) || IsBlank(c)
    ensures c != '\'' && c != '&'
  {
  }

  lemma {:induction false} FirstWord(word: string)
    requires IsWordText(word)
    ensures Lex("" + word) == Lex("") + [Plain(Ident, word)]
  {
    hide First, Fits;
    WordAlone(word, "");
    assert Chain([Plain(Ident, word)], "") by { ChainOne(Plain(Ident, word), ""); }
    LexChain([Plain(Ident, word)], "");
    SqlRelex.JoinNone();
    SqlRelex.JoinCons(Plain(Ident, word), []);
    assert [Plain(Ident, word)] + [] == [Plain(Ident, word)];
    SqlRelex.LexNone();
    assert "" + word == word + "" == word;
  }

  /** A word behind a word. */
  lemma {:induction false} NextWord(pre: string, word: string, w: string, next: string)
    requires Lex(pre + word) == Lex(pre) + [Plain(Ident, word)] && w != "" && AllBlank(w) && IsWordText(next)
    ensures Lex(pre + (word + w)) == Lex(pre) + [Plain(Ident, word), Plain(Space, w)]
    ensures Lex(pre + (word + w) + next) == Lex(pre + (word + w)) + [Plain(Ident, next)]
  {
    hide Lex, First, Fits, AllBlank, IsWordText, FrontOf, Chain, Join;
    var a := FrontOf(pre, word, w, "", "");
    var u := Plain(Ident, next);
    assert next != "" && !IsBlank(next[0]) by { WordBegins(next); }
    FrontIs(pre, word, w);
    FrontReads(pre, word, w, "", "", next);
    assert w + ("" + "") == w;
    LexChain(a, next);
    FirstWord(next);
    SqlRelex.LexNone();
    assert "" + next == next && [] + [u] == [u];
    SpaceEnds(a, w, next);
    LexChain(a, "");
    assert a + [] == a && Join(a) + "" == Join(a);
  }

  lemma {:induction false} WordBegins(word: string)
    requires IsWordText(word)
    ensures word != "" && !IsBlank(word[0])
  {
    WordStarts(word[0]);
  }

  lemma {:induction false} FrontIs(pre: string, word: string, w: string)
    requires w != "" && AllBlank(w)
    ensures IsJoint(w, "", "")
    ensures FrontOf(pre, word, w, "", "") == Lex(pre) + [Plain(Ident, word), Plain(Space, w)]
  {
    hide Lex, AllBlank;
  }

  /** White space may end a text. */
  lemma {:induction false} SpaceEnds(a: seq<Lexeme>, w: string, r: string)
    requires a != [] && a[|a| - 1] == Plain(Space, w) && Chain(a, r)
    ensures Chain(a, "")
  {
    hide Fits;
    FollowsAny(None, a, true, r, "");
    ChainSwap(None, a, r, "");
  }

  /** Whatever is set for the token is replaced; so it is with any of the other separators, and with a tab. */
  lemma {:induction false} SetToken(w: string, sep: string, w': string, b: string)
    requires IsJoint(w, sep, w') && IsPlainContent(b)
    ensures RedactQuery(Written("SET ", "api_token", w, sep, w', b, "")) == "SET " + ("api_token" + (w + (sep + w'))) + "'********'"
  {
    hide Lex, IsPlainContent, IsJoint, RedactQuery, NamesSecret, TellsSecret, Solid;
    SetWords();
    FirstWord("SET");
    NextWord("", "SET", " ", "api_token");
    assert "" + ("SET" + " ") == "SET ";
    SqlRelex.LexNone();
    var x, y := Plain(Ident, "SET"), Plain(Space, " ");
    assert Lex("SET ") == [x, y] by { assert [] + [x, y] == [x, y]; }
    SolidNone();
    SolidCons(y, []);
    SolidCons(x, [y]);
    assert [y] + [] == [y] && [x] + [y] == [x, y] && [x] + [] == [x];
    SetIdle();
    TokenNamed();
    SecretShown("SET ", "api_token", w, sep, w', b);
  }

  lemma {:induction false} SetWords()
    ensures IsWordText("SET") && IsWordText("api_token") && AllBlank(" ")
  {
  }

  lemma {:induction false} SetIdle()
    ensures !TellsSecret(Plain(Ident, "SET"))
  {
  }

  lemma {:induction false} TokenNamed()
    ensures NamesSecret("api_token")
  {
    assert Spells("api_token"[4..9], "token");
    assert SpellsAt("api_token", "token", 4);
  }

  lemma {:induction false} SetTokenTo(b: string)
    requires IsPlainContent(b)
    ensures RedactQuery("SET api_token TO '" + b + "'") == "SET api_token TO '********'"
  {
    hide IsPlainContent, RedactQuery;
    ToJoint();
    SetToken(" ", "TO", " ", b);
    assert Written("SET ", "api_token", " ", "TO", " ", b, "") == "SET api_token TO '" + b + "'";
  }

  lemma {:induction false} ToJoint()
    ensures IsJoint(" ", "TO", " ") && IsJoint(" ", "=", " ")
  {
  }

  // A name that is replaced as a value itself

  const QUOTED := Lexeme(QuotedIdent, "\"token\"", 1, 6, false, false, true)

  lemma {:induction false} QuotedAlone(r: string)
    requires r != "" && IsBlank(r[0])
    ensures Fits(QUOTED, r)
  {
    hide First, IsDollar, IsComment, HasTag, IsRun;
    var s := QUOTED.text + r;
    assert s[0] == '"' && s[..7] == QUOTED.text && s[7] == r[0];
    var u := s[1..];
    assert u[..5] == "token" && u[5] == '"' && u[6] == r[0];
    assert IsContent("token", '"', false) by { NoQuoteContent("token", '"'); }
    FirstExactly(s, QUOTED);
  }

  lemma {:induction false} NoQuoteContent(b: string, quote: char)
    requires quote !in b
    ensures IsContent(b, quote, false)
  {
    if b != "" {
      NoQuoteContent(b[1..], quote);
    }
  }

  /** The tokens of the example behind the quoted name. */
  lemma {:induction false} BehindQuoted(t: Lexeme, b: string)
    requires IsPlainContent(b) && t.text != "" && Fits(t, " " + Constant(b).text)
    ensures Chain([t] + [Plain(Space, " ")], Constant(b).text)
  {
    hide Fits, IsPlainContent;
    var y, r := Plain(Space, " "), Constant(b).text;
    QuoteNoBlank();
    SpaceFits(" ", r);
    assert Chain([y], r) by { ChainOne(y, r); }
    assert Join([y]) == " " by { SqlRelex.JoinNone(); SqlRelex.JoinCons(y, []); assert [y] + [] == [y]; }
    assert Chain([t], " " + r) by { ChainOne(t, " " + r); }
    ChainSplit([t], [y], r);
  }

  function Example(b: string): string { "token = \"token\" '" + b + "'" }

  const FRONT := [Plain(Ident, "token"), Plain(Space, " "), Plain(Op, "="), Plain(Space, " ")]

  /** A constant alone. */
  lemma {:induction false} ConstantAlone(b: string)
    requires IsPlainContent(b)
    ensures Lex(Constant(b).text) == [Constant(b)]
  {
    hide Lex, Fits, IsPlainContent, Chain;
    var c := Constant(b);
    ContentIs(b);
    SqlRelex.JoinNone();
    NoChain(c.text);
    AroundConstant([], b, "");
    SqlRelex.LexNone();
    assert c.text + "" == c.text && Join([]) + (c.text + "") == c.text;
  }

  /** The tokens from the quoted name on. */
  lemma {:induction false} RestReads(b: string)
    requires IsPlainContent(b)
    ensures Lex(QUOTED.text + (" " + Constant(b).text)) == [QUOTED] + [Plain(Space, " "), Constant(b)]
  {
    hide Lex, Fits, First, IsPlainContent, Chain, Join;
    var y, t, c := Plain(Space, " "), QUOTED, Constant(b);
    QuotedAlone(" " + c.text);
    BehindQuoted(t, b);
    LexChain([t] + [y], c.text);
    SqlRelex.JoinNone();
    SqlRelex.JoinCons(y, []);
    SqlRelex.JoinCons(t, [y]);
    assert [y] + [] == [y] && " " + "" == " ";
    Associate(t.text, " ", c.text);
    ConstantAlone(b);
    assert [t] + [y] + [c] == [t] + [y, c];
  }

  lemma {:induction false} ExampleReads(b: string)
    requires IsPlainContent(b)
    ensures Lex(Example(b)) == FRONT + ([QUOTED] + [Plain(Space, " "), Constant(b)])
  {
    hide Lex, Fits, First, IsPlainContent, Chain, Join, NamesSecret, Example, IsJoint, FrontOf, IsBlank, IsWordText;
    TokenWord();
    FirstWord("token");
    ToJoint();
    var r := QUOTED.text + (" " + Constant(b).text);
    assert r != "" && !IsBlank(r[0]) by { QuotedStarts(" " + Constant(b).text); }
    FrontReads("", "token", " ", "=", " ", r);
    ExampleFront();
    LexChain(FRONT, r);
    RestReads(b);
    assert Join(FRONT) + r == Example(b) by { ExampleParts(b); }
  }

  lemma {:induction false} QuotedStarts(x: string)
    ensures !IsBlank((QUOTED.text + x)[0])
  {
    assert (QUOTED.text + x)[0] == '"';
  }

  lemma {:induction false} ExampleFront()
    ensures FrontOf("", "token", " ", "=", " ") == FRONT
  {
    hide Lex;
    SqlRelex.LexNone();
  }

  lemma {:induction false} ExampleParts(b: string)
    ensures Join(FRONT) + (QUOTED.text + (" " + Constant(b).text)) == Example(b)
  {
    hide Join;
    FrontText();
  }

  lemma {:induction false} NoChain(r: string)
    ensures Chain([], r + "")
  {
  }

  lemma {:induction false} TokenWord()
    ensures IsWordText("token") && NamesSecret("token") && NamesSecret(Undouble("token", '"'))
  {
    assert Spells("token"[0..5], "token");
    assert SpellsAt("token", "token", 0);
    SqlHidden.UndoubleNone("token", '"');
  }

  /** What the walk makes of it: the quoted name is replaced as a value, and what follows it is kept. */
  lemma {:induction false} ExampleWalk(s: Script, b: string)
    requires WellFormed(s.pieces) && Toks(s.pieces) == [Plain(Ident, "token"), Plain(Op, "="), QUOTED, Constant(b)] && !Mentions(b)
    ensures |s.pieces| == 4 && Walk(START, s) == Script(s.pieces[2 := Piece(s.pieces[2].gap, REDACTED_IDENT)], s.tail)
  {
    hide Decide, After, Mentions;
    var ps, ts := s.pieces, Toks(s.pieces);
    assert forall i :: 0 <= i < 4 ==> ps[i].tok == ts[i];
    ExampleStep(ts, b);
    var e := Edit(2, 3, REDACTED_IDENT, false);
    WalkEdit(START, s, e);
    var kept := ps[..2] + [Piece(ps[2].gap, REDACTED_IDENT)];
    var c := After(START, Toks(kept));
    var rest := Script(ps[3..], s.tail);
    assert Toks(rest.pieces) == [Constant(b)];
    ConstantKept(c, b);
    assert rest.pieces == [ps[3]] && rest.pieces[1..] == [];
    assert Walk(c, rest) == Script([ps[3]] + [], s.tail);
    assert kept + ([ps[3]] + []) == ps[2 := Piece(ps[2].gap, REDACTED_IDENT)];
  }

  lemma {:induction false} ExampleStep(ts: seq<Lexeme>, b: string)
    requires ts == [Plain(Ident, "token"), Plain(Op, "="), QUOTED, Constant(b)]
    ensures Decide(START, ts) == Edit(2, 3, REDACTED_IDENT, false)
  {
    hide NamesSecret, IsSecret, SetValue, Literals;
    TokenWord();
    SecretIs(ts[0]);
  }

  lemma {:induction false} ConstantKept(c: Context, b: string)
    requires !Mentions(b)
    ensures Decide(c, [Constant(b)]) == Keep
  {
    hide Mentions, MentionsConnSecret, IsConstantName;
    MentionsIs(b);
    assert Constant(b).Body() == b;
  }

  lemma {:induction false} ExampleSolid(b: string)
    ensures Solid(FRONT + ([QUOTED] + [Plain(Space, " "), Constant(b)])) == [Plain(Ident, "token"), Plain(Op, "="), QUOTED, Constant(b)]
  {
    hide Solid;
    var y, c := Plain(Space, " "), Constant(b);
    SolidNone();
    SolidCons(c, []);
    SolidCons(y, [c]);
    SolidCons(QUOTED, [y, c]);
    SolidCons(y, [QUOTED, y, c]);
    SolidCons(Plain(Op, "="), [y, QUOTED, y, c]);
    SolidCons(y, [Plain(Op, "="), y, QUOTED, y, c]);
    SolidCons(Plain(Ident, "token"), [y, Plain(Op, "="), y, QUOTED, y, c]);
    assert [c] + [] == [c] && [y] + [c] == [y, c] && [QUOTED] + [y, c] == [QUOTED, y, c];
    assert [y] + [QUOTED, y, c] == [y, QUOTED, y, c];
    assert [Plain(Op, "=")] + [y, QUOTED, y, c] == [Plain(Op, "="), y, QUOTED, y, c];
    assert [y] + [Plain(Op, "="), y, QUOTED, y, c] == [y, Plain(Op, "="), y, QUOTED, y, c];
    assert FRONT + ([QUOTED] + [y, c]) == [Plain(Ident, "token")] + [y, Plain(Op, "="), y, QUOTED, y, c];
  }

  /** Behind a quoted name that is itself the value of another, a constant is kept. */
  lemma {:induction false} NameReplaced(b: string)
    requires IsPlainContent(b) && !Mentions(b)
    ensures Gives(Solid(Lex(Example(b))), 2, 3)
    ensures RedactQuery(Example(b)) == "token = \"********\" '" + b + "'"
  {
    hide Lex, IsPlainContent, Mentions, RedactQuery, Walk, Group, Ungroup, Join, Toks, Gives, Solid, NamesSecret;
    var q, y, c := Example(b), Plain(Space, " "), Constant(b);
    ExampleReads(b);
    ExampleSolid(b);
    ExampleGives(b);
    SolidTokens(q);
    var s := Statement(q);
    ExampleWalk(s, b);
    SqlGate.GateSound(q);
    GroupAround(FRONT, QUOTED, REDACTED_IDENT, [y, c]);
    assert Significants(FRONT) == 2;
    var us := FRONT + ([REDACTED_IDENT] + [y, c]);
    SqlGate.UngroupGroup(us);
    ExampleText(b);
  }

  lemma {:induction false} ExampleGives(b: string)
    ensures Gives([Plain(Ident, "token"), Plain(Op, "="), QUOTED, Constant(b)], 2, 3)
  {
    hide NamesSecret, Undouble, Spells;
    TokenWord();
    QuotedBody();
    var ts := [Plain(Ident, "token"), Plain(Op, "="), QUOTED, Constant(b)];
    assert ValueAt(ts, 2, 3) && Continues(ts, 3, 3);
  }

  lemma {:induction false} QuotedBody()
    ensures QUOTED.Body() == "token"
  {
    var t := QUOTED.text;
    assert |t| == 7 && t[1..6] == "token";
  }

  lemma {:induction false} ExampleText(b: string)
    ensures Join(FRONT + ([REDACTED_IDENT] + [Plain(Space, " "), Constant(b)])) == "token = \"********\" '" + b + "'"
  {
    hide Join;
    var y, c, m := Plain(Space, " "), Constant(b), REDACTED_IDENT;
    SqlRelex.JoinNone();
    SqlRelex.JoinCons(c, []);
    SqlRelex.JoinCons(y, [c]);
    SqlRelex.JoinCons(m, [y, c]);
    JoinAppend(FRONT, [m] + [y, c]);
    assert [c] + [] == [c] && [y] + [c] == [y, c];
    assert Join(FRONT) == "token = " by { FrontText(); }
    assert m.text == "\"********\"";
  }

  lemma {:induction false} FrontText()
    ensures Join(FRONT) == "token = "
  {
    assert FRONT[1..][1..][1..][1..] == [];
  }
}
