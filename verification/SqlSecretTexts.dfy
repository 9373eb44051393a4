/**
 The same on texts: whatever a statement gives as the value of a secret's name, its redaction is the same.
 */
module SqlSecretTexts {
  import opened Text
  import opened Spelling
  import opened SecretWords
  import opened SqlLexer
  import opened SqlBoundary
  import opened SqlChain
  import opened SqlRedact
  import opened SqlTokens
  import opened SqlDecisions
  import opened SqlSecrets
  import opened SqlRewriting
  import SqlGate
  import opened SqlValues
  import SqlRelex

  /** What is lost is replaced as a value, or dropped. */
  lemma {:induction false} LostReplaced(s: Script, k: nat, c: Context, n: nat)
    requires WellFormed(s.pieces) && k <= n < |s.pieces| && Agrees(c, Toks(s.pieces), k) && Clear(Toks(s.pieces), k)
    requires Lost(Toks(s.pieces), n)
    ensures WellFormed(s.pieces[k..]) && Replaced(c, Script(s.pieces[k..], s.tail), n - k)
    decreases |s.pieces| - k
  {
    hide Decide, Next, After, Agrees, Clear, Lost, Reaches, RewrittenAt, Toks, Replaced;
    var ps, ts := s.pieces, Toks(s.pieces);
    ToksFrom(ps, k);
    DecideAgrees(c, ts, k);
    var e := Turn(ts, k);
    ClearNext(ts, k);
    NotLost(ts, k);
    if e == Keep {
      AgreesKeep(c, ts, k);
      LostReplaced(s, k + 1, Next(c, ps[k].tok), n);
      ReplacedKeep(s, k, c, n);
    } else {
      ReplacedEdit(s, k, c, n, e);
      if n < k + e.from {
        FrontStays(ts, k, n);
      } else if n >= k + e.to && !e.toEnd {
        AgreesEdit(c, ts, k, e);
        LostReplaced(s, k + e.to, After(c, ts[k..k + e.from] + [e.repl]), n);
      } else {
        EditStarts(ts, k);
      }
    }
  }

  lemma {:induction false} ReplacedKeep(s: Script, k: nat, c: Context, n: nat)
    requires WellFormed(s.pieces) && k < n < |s.pieces| && Decide(c, Toks(s.pieces[k..])) == Keep
    ensures WellFormed(s.pieces[k..]) && WellFormed(s.pieces[k + 1..])
    ensures Replaced(c, Script(s.pieces[k..], s.tail), n - k) <==>
            Replaced(Next(c, s.pieces[k].tok), Script(s.pieces[k + 1..], s.tail), n - k - 1)
  {
    hide Decide, Next, After, Toks;
    assert s.pieces[k..][1..] == s.pieces[k + 1..];
  }

  lemma {:induction false} ReplacedEdit(s: Script, k: nat, c: Context, n: nat, e: Step)
    requires WellFormed(s.pieces) && k <= n < |s.pieces| && Decide(c, Toks(s.pieces[k..])) == e && e.Edit?
    ensures k + e.from < k + e.to <= |s.pieces| && WellFormed(s.pieces[k..]) && WellFormed(s.pieces[k + e.to..])
    ensures Replaced(c, Script(s.pieces[k..], s.tail), n - k) <==>
            if n < k + e.to then 0 < e.from && k + e.from <= n
            else e.toEnd || Replaced(After(c, Toks(s.pieces)[k..k + e.from] + [e.repl]), Script(s.pieces[k + e.to..], s.tail), n - k - e.to)
  {
    hide Decide, Next, After, Toks;
    assert s.pieces[k..][e.to..] == s.pieces[k + e.to..];
    KeptToks(s.pieces, k, e);
  }

  lemma {:induction false} KeptToks(ps: seq<Piece>, k: nat, e: Step)
    requires e.Edit? && k + e.from < |ps|
    ensures Toks(ps[k..][..e.from] + [Piece(ps[k..][e.from].gap, e.repl)]) == Toks(ps)[k..k + e.from] + [e.repl]
  {
  }

  // Texts

  predicate IsSeparation(sep: string) { sep in ["=", "=>", ":="] || Spells(sep, "to") }

  /** White space stands between a name and its value, with a separator in it or none. */
  predicate IsJoint(w: string, sep: string, w': string) {
    && w != "" && AllBlank(w)
    && if sep == "" then w' == "" else IsSeparation(sep) && w' != "" && AllBlank(w')
  }

  function SeparatorToken(sep: string): Lexeme {
    Plain(if sep in ["=", "=>", ":="] then Op else Ident, sep)
  }

  /** The tokens of the joint. */
  function Joint(w: string, sep: string, w': string): seq<Lexeme> {
    if sep == "" then [Plain(Space, w)] else [Plain(Space, w), SeparatorToken(sep), Plain(Space, w')]
  }

  lemma {:induction false} OperatorFits(sep: string, r: string)
    requires sep in ["=", "=>", ":="] && r != "" && IsBlank(r[0])
    ensures Fits(Plain(Op, sep), r)
  {
    hide First, IsQuoted, IsDollar, IsComment, HasTag, StartsWord;
    var s := sep + r;
    assert |sep| <= 2 && sep != "";
    assert s[0] == sep[0] && s[|sep|] == r[0] && s[..|sep|] == sep;
    assert |sep| == 2 ==> s[1] == sep[1];
    assert !StartsWord(s[0]) by { NoWord(s[0]); }
    FirstExactly(s, Plain(Op, sep));
  }

  lemma {:induction false} NoWord(c: char)
    requires c in "=:"
    ensures !StartsWord(c)
  {
  }

  lemma {:induction false} WordFits(word: string, r: string)
    requires Spells(word, "to") && r != "" && IsBlank(r[0])
    ensures Fits(Plain(Ident, word), r)
  {
    hide First, IsQuoted, IsDollar, IsComment, HasTag, IsBlank, Spells;
    var s := word + r;
    ToLetters(word);
    assert s[0] == word[0] && s[1] == word[1] && s[2] == r[0] && s[..2] == word;
    assert !InWord(r[0]) by { BlankNoWord(r[0]); }
    assert !IsBlank(s[0]) by { LetterNoBlank(s[0]); }
    FirstExactly(s, Plain(Ident, word));
  }

  lemma {:induction false} ToLetters(word: string)
    requires Spells(word, "to")
    ensures |word| == 2 && word[0] in "tT" && word[1] in "oO"
  {
    assert SameLetter(word[0], "to"[0]) && SameLetter(word[1], "to"[1]);
  }

  lemma {:induction false} BlankNoWord(c: char)
    requires IsBlank(c)
    ensures !InWord(c) && c != '\'' && c != '&'
  {
  }

  lemma {:induction false} LetterNoBlank(c: char)
    requires c in "tT"
    ensures !IsBlank(c) && StartsWord(c) && !InOperator(c)
  {
  }

  lemma {:induction false} SeparatorFits(sep: string, r: string)
    requires IsSeparation(sep) && r != "" && IsBlank(r[0])
    ensures Fits(SeparatorToken(sep), r)
  {
    hide Fits, Spells, IsBlank;
    if sep in ["=", "=>", ":="] {
      OperatorFits(sep, r);
    } else {
      WordFits(sep, r);
    }
  }

  lemma {:induction false} QuoteNoBlank()
    ensures !IsBlank('\'')
  {
  }

  lemma {:induction false} SeparationStarts(sep: string)
    requires IsSeparation(sep)
    ensures sep != "" && !IsBlank(sep[0])
  {
    hide Spells;
    if Spells(sep, "to") {
      ToLetters(sep);
    }
  }

  /** The joint is read as its tokens. */
  lemma {:induction false} JointReads(w: string, sep: string, w': string, r: string)
    requires IsJoint(w, sep, w') && r != "" && !IsBlank(r[0])
    ensures Chain(Joint(w, sep, w'), r) && Join(Joint(w, sep, w')) == w + (sep + w')
  {
    hide Fits, AllBlank, IsBlank, IsSeparation, SeparatorToken, Join, Chain;
    var x := Plain(Space, w);
    SqlRelex.JoinNone();
    if sep == "" {
      SpaceFits(w, r);
      assert Chain([x], r) by { ChainOne(x, r); }
      SqlRelex.JoinCons(x, []);
      assert [x] + [] == [x] && w + "" == w && "" + "" == "";
    } else {
      var y, z := SeparatorToken(sep), Plain(Space, w');
      SeparationStarts(sep);
      SpaceFits(w', r);
      assert Chain([z], r) by { ChainOne(z, r); }
      assert (w' + r)[0] == w'[0] && IsBlank(w'[0]) by { FirstBlank(w'); }
      SeparatorFits(sep, w' + r);
      assert y.text == sep by { TokenText(sep); }
      ThreeChain(x, y, z, r);
    }
  }

  lemma {:induction false} TokenText(sep: string)
    ensures SeparatorToken(sep).text == sep
  {
  }

  lemma {:induction false} FirstBlank(w: string)
    requires w != "" && AllBlank(w)
    ensures IsBlank(w[0])
  {
  }

  lemma {:induction false} ThreeChain(x: Lexeme, y: Lexeme, z: Lexeme, r: string)
    requires x == Plain(Space, x.text) && x.text != "" && AllBlank(x.text)
    requires Fits(y, z.text + r) && y.text != "" && !IsBlank(y.text[0]) && Chain([z], r)
    ensures Chain([x, y, z], r) && Join([x, y, z]) == x.text + (y.text + z.text)
  {
    hide Fits, AllBlank, IsBlank, Join, Chain;
    SqlRelex.JoinNone();
    SqlRelex.JoinCons(z, []);
    SqlRelex.JoinCons(y, [z]);
    SqlRelex.JoinCons(x, [y, z]);
    assert [z] + [] == [z] && [y] + [z] == [y, z] && [x] + [y, z] == [x, y, z] && z.text + "" == z.text;
    assert Chain([y], z.text + r) by { ChainOne(y, z.text + r); }
    ChainSplit([y], [z], r);
    assert (y.text + z.text + r)[0] == y.text[0];
    SpaceFits(x.text, y.text + z.text + r);
    assert Chain([x], y.text + z.text + r) by { ChainOne(x, y.text + z.text + r); }
    ChainSplit([x], [y, z], r);
  }

  /** The tokens in front of the value. */
  function FrontOf(pre: string, name: string, w: string, sep: string, w': string): seq<Lexeme> {
    Lex(pre) + ([Plain(Ident, name)] + Joint(w, sep, w'))
  }

  /** They are read from their texts, whatever follows. */
  lemma {:induction false} FrontReads(pre: string, name: string, w: string, sep: string, w': string, r: string)
    requires Lex(pre + name) == Lex(pre) + [Plain(Ident, name)]
    requires IsJoint(w, sep, w') && r != "" && !IsBlank(r[0])
    ensures Chain(FrontOf(pre, name, w, sep, w'), r)
    ensures Join(FrontOf(pre, name, w, sep, w')) == pre + (name + (w + (sep + w')))
  {
    hide Lex, Fits, IsJoint, Joint, Join, Chain, Ends, Bridge;
    var a, t, mid := Lex(pre), Plain(Ident, name), Joint(w, sep, w');
    var gap := w + (sep + w');
    JointReads(w, sep, w', r);
    ChainLex(pre + name);
    JointStarts(w, sep, w', r);
    NameBridge(t, gap + r);
    var front := a + [t];
    assert front[|front| - 1] == t;
    FollowsAny(None, front, true, "", gap + r);
    ChainSwap(None, front, "", gap + r);
    ChainSplit(front, mid, r);
    assert front + mid == a + ([t] + mid);
    JoinAppend(a, [t] + mid);
    SqlRelex.JoinCons(t, mid);
    LexCovers(pre);
  }

  lemma {:induction false} JointStarts(w: string, sep: string, w': string, r: string)
    requires IsJoint(w, sep, w')
    ensures w + (sep + w') + r != "" && IsBlank((w + (sep + w') + r)[0])
  {
    hide IsSeparation, IsBlank;
    assert (w + (sep + w') + r)[0] == w[0];
  }

  lemma {:induction false} NameBridge(t: Lexeme, r: string)
    requires t.kind == Ident && r != "" && IsBlank(r[0])
    ensures Bridge(t, true, "", r)
  {
    hide Lower, BlockScan;
    BlankNoWord(r[0]);
    ClassesAre(r[0]);
  }

  /** The content of a constant in plain quotes: its quotes are doubled and it holds no backslash. */
  predicate IsPlainContent(b: string) { IsContent(b, '\'', false) && '\\' !in b }

  lemma {:induction false} ContentIs(b: string)
    requires IsPlainContent(b)
    ensures PlainBody(b)
  {
    hide QuoteScan, IsContent;
    var s := b + "'" + "";
    assert s[..|b|] == b && s[|b|] == '\'' && |s| == |b| + 1;
    ClosesExactly(s, |b|, '\'', false);
  }

  /** The statement, and its tokens that count. */
  function Written(pre: string, name: string, w: string, sep: string, w': string, b: string, post: string): string {
    pre + (name + (w + (sep + w'))) + (("'" + (b + "'")) + post)
  }

  lemma {:induction false} WrittenReads(pre: string, name: string, w: string, sep: string, w': string, b: string, post: string)
    requires Lex(pre + name) == Lex(pre) + [Plain(Ident, name)] && IsJoint(w, sep, w')
    requires IsPlainContent(b) && !("'" <= post)
    ensures var q, a := Written(pre, name, w, sep, w', b, post), FrontOf(pre, name, w, sep, w');
            && q == Join(a) + (Constant(b).text + post) && Chain(a, Constant(b).text + post) && PlainBody(b)
            && Lex(q) == a + ([Constant(b)] + Lex(post))
            && Solid(Lex(q)) == Solid(a) + ([Constant(b)] + Solid(Lex(post)))
  {
    hide Lex, Fits, IsJoint, Joint, Join, Chain, PlainBody, IsPlainContent, Solid, FrontOf;
    var a, r := FrontOf(pre, name, w, sep, w'), Constant(b).text + post;
    QuoteNoBlank();
    assert r[0] == '\'';
    FrontReads(pre, name, w, sep, w', r);
    ContentIs(b);
    AroundConstant(a, b, post);
    SolidAppend(a, [Constant(b)] + Lex(post));
    SolidCons(Constant(b), Lex(post));
  }

  lemma {:induction false} FrontSolid(pre: string, name: string, w: string, sep: string, w': string)
    requires IsJoint(w, sep, w')
    ensures Solid(FrontOf(pre, name, w, sep, w')) ==
            Solid(Lex(pre)) + ([Plain(Ident, name)] + if sep == "" then [] else [SeparatorToken(sep)])
  {
    hide Lex, Solid, AllBlank, IsSeparation;
    var t, mid := Plain(Ident, name), Joint(w, sep, w');
    SolidAppend(Lex(pre), [t] + mid);
    SolidCons(t, mid);
    SolidNone();
    SolidCons(Plain(Space, w), []);
    assert [Plain(Space, w)] + [] == [Plain(Space, w)];
    if sep != "" {
      var y, z := SeparatorToken(sep), Plain(Space, w');
      assert y.kind != Space && y.kind != Comment;
      SolidCons(z, []);
      SolidCons(y, [z]);
      SolidCons(Plain(Space, w), [y, z]);
      assert [z] + [] == [z] && [y] + [z] == [y, z] && [Plain(Space, w)] + [y, z] == mid;
    }
  }

  /** The constant is the value of the name. */
  lemma {:induction false} WrittenGives(us: seq<Lexeme>, name: string, sep: string, b: string, vs: seq<Lexeme>)
    requires NamesSecret(name) && (sep == "" || IsSeparation(sep))
    ensures var mid := if sep == "" then [] else [SeparatorToken(sep)];
            var ts := us + ([Plain(Ident, name)] + mid) + ([Constant(b)] + vs);
            var n := |us| + 1 + |mid|;
            n < |ts| && ts[n] == Constant(b) && Gives(ts, |us|, n) && ts[|us|] == Plain(Ident, name)
  {
    hide NamesSecret, Spells;
    var mid := if sep == "" then [] else [SeparatorToken(sep)];
    var ts := us + ([Plain(Ident, name)] + mid) + ([Constant(b)] + vs);
    var n := |us| + 1 + |mid|;
    assert ts[|us|] == Plain(Ident, name) && ts[n] == Constant(b);
    assert sep != "" ==> ts[|us| + 1] == SeparatorToken(sep);
    assert Continues(ts, n, n);
  }

  /** The value of a name that is an identifier is lost. */
  lemma {:induction false} IdentGives(ts: seq<Lexeme>, i: nat, n: nat)
    requires Gives(ts, i, n) && ts[i].kind == Ident
    ensures Lost(ts, n)
  {
    hide Gives, Lost;
    if !Lost(ts, n) {
      NameTaken(ts, i, n);
      var p :| 0 <= p < i && (QuotedAt(ts, p, i) || Gives(ts, p, i)) && !Lost(ts, p);
      if Gives(ts, p, i) {
        GivenConstant(ts, p, i);
      }
      assert false;
    }
  }

  lemma {:induction false} SignificantsIs(a: seq<Lexeme>)
    ensures Significants(a) == |Solid(a)|
  {
    if a != [] {
      SignificantsIs(a[1..]);
    }
  }

  /** Behind an identifier that tells of a secret, directly or behind a separator, one value is like another: the
      redacted statement is the same for all of them, whatever is in front of the name and behind the value. */
  lemma {:induction false} SecretsAlike(pre: string, name: string, w: string, sep: string, w': string, b: string, b': string, post: string)
    requires Lex(pre + name) == Lex(pre) + [Plain(Ident, name)] && NamesSecret(name) && IsJoint(w, sep, w')
    requires IsPlainContent(b) && IsPlainContent(b') && !("'" <= post)
    ensures RedactQuery(Written(pre, name, w, sep, w', b, post)) == RedactQuery(Written(pre, name, w, sep, w', b', post))
  {
    hide Lex, Fits, Joint, Join, Chain, PlainBody, IsPlainContent, Solid, FrontOf, NamesSecret, IsSeparation, Statement,
      Replaced, RedactQuery, Lost, Gives, AllBlank, Toks, Agrees, Reaches, Significants;
    var a, q := FrontOf(pre, name, w, sep, w'), Written(pre, name, w, sep, w', b, post);
    WrittenReads(pre, name, w, sep, w', b, post);
    WrittenReads(pre, name, w, sep, w', b', post);
    FrontSolid(pre, name, w, sep, w');
    WrittenGives(Solid(Lex(pre)), name, sep, b, Solid(Lex(post)));
    var n := Significants(a);
    SignificantsIs(a);
    IdentGives(Solid(Lex(q)), |Solid(Lex(pre))|, n);
    SolidTokens(q);
    Begin(q);
    LostReplaced(Statement(q), 0, START, n);
    WholeScript(Statement(q));
    ValueIndependent(a, b, b', post);
  }

  lemma {:induction false} WholeScript(s: Script)
    ensures Script(s.pieces[0..], s.tail) == s
  {
  }

  // What is shown

  /** Where only the last constant is a value, and nothing in front of its name is looked at, it alone is replaced. */
  lemma {:induction false} WalkLast(c: Context, s: Script, i: nat)
    requires WellFormed(s.pieces) && i + 1 < |s.pieces| <= i + 3 && IsSecret(s.pieces[i].tok)
    requires |s.pieces| == i + 3 ==> IsSeparator(s.pieces[i + 1].tok)
    requires var t := s.pieces[|s.pieces| - 1].tok; t.kind == Str && !AmbiguousEscapes(t)
    requires forall j :: 0 <= j < i ==> !IsSecret(s.pieces[j].tok) && !s.pieces[j].tok.IsLiteral()
    ensures var n := |s.pieces| - 1;
            Walk(c, s) == Script(s.pieces[n := Piece(s.pieces[n].gap, REDACTED)], s.tail)
    decreases i
  {
    hide IsSecret, AmbiguousEscapes, Next, After, IsSeparator, Walk, Decide;
    var ps, n := s.pieces, |s.pieces| - 1;
    var last := Piece(ps[n].gap, REDACTED);
    if i == 0 {
      LastStep(c, Toks(ps));
      WalkEdit(c, s, Edit(n, n + 1, REDACTED, false));
      WalkNothing(After(c, Toks(ps[..n] + [last])), s.tail);
      assert ps[n + 1..] == [];
      assert ps[..n] + [last] + [] == ps[n := last];
    } else {
      var rest := Script(ps[1..], s.tail);
      WalkLast(Next(c, ps[0].tok), rest, i - 1);
      WalkIdle(c, s);
      assert [ps[0]] + ps[1..][n - 1 := last] == ps[n := last];
    }
  }

  lemma {:induction false} WalkNothing(c: Context, tail: seq<Lexeme>)
    ensures Walk(c, Script([], tail)) == Script([], tail)
  {
  }

  lemma {:induction false} WalkIdle(c: Context, s: Script)
    requires WellFormed(s.pieces) && s.pieces != [] && !IsSecret(s.pieces[0].tok) && !s.pieces[0].tok.IsLiteral()
    ensures WellFormed(s.pieces[1..])
    ensures var r := Walk(Next(c, s.pieces[0].tok), Script(s.pieces[1..], s.tail));
            Walk(c, s) == Script([s.pieces[0]] + r.pieces, r.tail)
  {
    hide IsSecret, Next, After, DecideName, DecideLiteral;
  }

  lemma {:induction false} LastStep(c: Context, ts: seq<Lexeme>)
    requires 1 < |ts| <= 3 && IsSecret(ts[0]) && ts[0].WellFormed() && (|ts| == 3 ==> IsSeparator(ts[1]))
    requires ts[|ts| - 1].kind == Str && !AmbiguousEscapes(ts[|ts| - 1])
    ensures Decide(c, ts) == Edit(|ts| - 1, |ts|, REDACTED, false)
  {
    hide IsSecret, AmbiguousEscapes, SetValue, Spells, Lower;
    var n := |ts| - 1;
    assert ts[n..] == [ts[n]];
    assert [ts[n]][1..] == [];
    assert Literals([]) == 0 && Literals([ts[n]]) == 1;
  }

  /** Behind a text in which no constant and no other secret's name is read, the value is replaced and the rest of
      the statement stays as it is. */
  lemma {:induction false} SecretShown(pre: string, name: string, w: string, sep: string, w': string, b: string)
    requires Lex(pre + name) == Lex(pre) + [Plain(Ident, name)] && NamesSecret(name) && IsJoint(w, sep, w')
    requires forall i :: 0 <= i < |Solid(Lex(pre))| ==> !TellsSecret(Solid(Lex(pre))[i]) && !IsConstant(Solid(Lex(pre))[i])
    requires IsPlainContent(b)
    ensures RedactQuery(Written(pre, name, w, sep, w', b, "")) == pre + (name + (w + (sep + w'))) + "'********'"
  {
    hide Lex, Fits, Joint, Join, Chain, PlainBody, IsPlainContent, Solid, FrontOf, NamesSecret, IsSeparation,
      RedactQuery, AllBlank, Toks, Walk, Group, Ungroup, TellsSecret, IsSecret, AmbiguousEscapes, Significants;
    var a, q := FrontOf(pre, name, w, sep, w'), Written(pre, name, w, sep, w', b, "");
    var t := Constant(b);
    WrittenReads(pre, name, w, sep, w', b, "");
    SqlRelex.LexNone();
    QuoteNoBlank();
    FrontReads(pre, name, w, sep, w', t.text);
    FrontSolid(pre, name, w, sep, w');
    SqlGate.GateSound(q);
    ConstantFits(b, "");
    GroupAround(a, t, REDACTED, []);
    SignificantsIs(a);
    SolidTokens(q);
    SolidNone();
    var s, i := Statement(q), |Solid(Lex(pre))|;
    ShownWalk(s, i, name, sep, b, Solid(Lex(pre)));
    SqlGate.UngroupGroup(a + ([REDACTED] + []));
    assert [REDACTED] + [] == [REDACTED];
    JoinAppend(a, [REDACTED]);
    SqlRelex.JoinNone();
    SqlRelex.JoinCons(REDACTED, []);
    assert REDACTED.text + "" == "'********'";
  }

  lemma {:induction false} ShownWalk(s: Script, i: nat, name: string, sep: string, b: string, us: seq<Lexeme>)
    requires WellFormed(s.pieces) && i == |us| && NamesSecret(name) && (sep == "" || IsSeparation(sep)) && !AmbiguousEscapes(Constant(b))
    requires Toks(s.pieces) == us + ([Plain(Ident, name)] + if sep == "" then [] else [SeparatorToken(sep)]) + ([Constant(b)] + [])
    requires forall j :: 0 <= j < i ==> !TellsSecret(us[j]) && !IsConstant(us[j])
    ensures var n := |s.pieces| - 1;
            n >= 0 && Walk(START, s) == Script(s.pieces[n := Piece(s.pieces[n].gap, REDACTED)], s.tail)
  {
    hide Walk, TellsSecret, IsSecret, AmbiguousEscapes, NamesSecret, Spells, IsSeparator;
    var ps := s.pieces;
    assert forall j :: 0 <= j < |ps| ==> Toks(ps)[j] == ps[j].tok;
    forall j | 0 <= j < i ensures !IsSecret(ps[j].tok) && !ps[j].tok.IsLiteral() {
      assert ps[j].tok == us[j];
      SecretIs(us[j]);
    }
    assert ps[i].tok == Plain(Ident, name);
    SecretIs(ps[i].tok);
    assert TellsSecret(ps[i].tok) by { IdentTells(name); }
    if sep != "" {
      assert ps[i + 1].tok == SeparatorToken(sep);
      SeparatorIs(ps[i + 1].tok);
    }
    WalkLast(START, s, i);
  }

  lemma {:induction false} IdentTells(name: string)
    requires NamesSecret(name)
    ensures TellsSecret(Plain(Ident, name))
  {
    hide NamesSecret;
  }
}
