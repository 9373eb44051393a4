/**
 What one turn of the redaction loop replaces, told in the letters of the tokens.
 */
module SqlDecisions {
  import opened Text
  import opened Spelling
  import opened SecretWords
  import opened SqlLexer
  import opened SqlRedact
  import opened SqlTokens
  import opened SqlTarget
  import ConnString

  // Tokens

  predicate IsConstant(t: Lexeme) { t.kind == Str || t.kind == Dollar }

  /** The token reads =, => or :=, or TO in letters of either case. */
  predicate Separates(t: Lexeme) {
    (t.kind == Op && t.text in ["=", "=>", ":="]) || (t.kind == Ident && Spells(t.text, "to"))
  }

  /** An identifier, quoted or not, that tells of a secret. */
  predicate TellsSecret(t: Lexeme) {
    || (t.kind == Ident && NamesSecret(t.text))
    || (t.kind == QuotedIdent && NamesSecret(Undouble(t.Body(), '"')))
  }

  /** A constant in single quotes without a prefix, all of letters, digits, underscores, dollar signs, dots and bytes
      from 0x80 on. */
  predicate IsNameConstant(t: Lexeme) {
    && t.kind == Str && t.lo == 1 && t.terminated && t.Body() != ""
    && forall i :: 0 <= i < |t.Body()| ==> InWord(t.Body()[i]) || t.Body()[i] == '.'
  }

  predicate IsSign(t: Lexeme, c: char) { t.kind == Other && t.text == [c] }

  /** DEFAULT, or a parameter such as $1. */
  predicate IsHarmless(t: Lexeme) {
    || (t.kind == Ident && Spells(t.text, "default"))
    || (|t.text| > 1 && t.text[0] == '$' && IsDecimal(t.text[1]))
  }

  lemma {:induction false} SeparatorIs(t: Lexeme)
    ensures IsSeparator(t) <==> Separates(t)
  {
    hide EqualFold, Spells;
    FoldSpells(t.text, "to");
  }

  lemma {:induction false} SecretIs(t: Lexeme)
    ensures IsSecret(t) <==> TellsSecret(t)
  {
    hide IsSecretName, NamesSecret, Undouble;
    SecretNames(NameOf(t));
  }

  lemma {:induction false} NameConstantIs(t: Lexeme)
    ensures IsConstantName(t) <==> IsNameConstant(t)
  {
    hide IsIdentCont, InWord, Lexeme.Body;
    forall c ensures IsIdentCont(c) <==> InWord(c) { ClassesAre(c); }
  }

  lemma {:induction false} SignIs(t: Lexeme, c: char)
    requires !(65 <= c as int <= 90) && !(97 <= c as int <= 122)
    ensures t.Is(Other, [c]) <==> IsSign(t, c)
  {
    FoldSpells(t.text, [c]);
  }

  lemma {:induction false} HarmlessIs(t: Lexeme)
    ensures HoldsNoSecret(t) <==> IsHarmless(t)
  {
    hide EqualFold, Spells;
    FoldSpells(t.text, "default");
  }

  // The target of a SET command

  predicate IsWord(t: Lexeme, word: string) { t.kind == Ident && Spells(t.text, word) }

  /** From `j` on, names and dots in turn, a dot last unless `j` is `k`. */
  predicate Dotted(ts: seq<Lexeme>, j: nat, k: nat)
    requires k <= |ts|
    decreases k
  {
    j == k || (j + 2 <= k && IsSign(ts[k - 1], '.') && (ts[k - 2].kind == Ident || ts[k - 2].kind == QuotedIdent) && Dotted(ts, j, k - 2))
  }

  /** SET is in front, alone or with LOCAL or SESSION. */
  predicate BehindSet(ts: seq<Lexeme>, j: nat)
    requires j <= |ts|
  {
    || (j >= 1 && IsWord(ts[j - 1], "set"))
    || (j >= 2 && (IsWord(ts[j - 1], "local") || IsWord(ts[j - 1], "session")) && IsWord(ts[j - 2], "set"))
  }

  lemma {:induction false} WordIs(t: Lexeme, word: string)
    ensures t.Is(Ident, word) <==> IsWord(t, word)
  {
    hide EqualFold, Spells;
    FoldSpells(t.text, word);
  }

  /** The name at `k` is what a SET command assigns to. */
  lemma {:induction false} TargetExactly(ts: seq<Lexeme>, k: nat)
    requires k <= |ts|
    ensures After(START, ts[..k]).target <==> exists j :: 0 <= j <= k && Dotted(ts, j, k) && BehindSet(ts, j)
  {
    hide After, BehindSet, Dotted, LooksBack;
    ContextLooksBack(ts, k);
    LooksBackExactly(ts, k);
  }

  lemma {:induction false} LooksBackExactly(ts: seq<Lexeme>, k: nat)
    requires k <= |ts|
    ensures LooksBack(ts, k) <==> exists j :: 0 <= j <= k && Dotted(ts, j, k) && BehindSet(ts, j)
    decreases k
  {
    hide IsWord, Lexeme.Is, LooksBack;
    if k == 0 {
      NothingBehind(ts);
    } else {
      var t := ts[k - 1];
      LooksBackStep(ts, k);
      SignIs(t, '.');
      WordIs(t, "set");
      WordIs(t, "local");
      WordIs(t, "session");
      if k >= 2 {
        WordIs(ts[k - 2], "set");
      }
      assert "." == ['.'];
      assert Dotted(ts, k, k);
      WordsApart(t);
      if LooksBack(ts, k) && IsSign(t, '.') {
        LooksBackExactly(ts, k - 2);
        var j :| 0 <= j <= k - 2 && Dotted(ts, j, k - 2) && BehindSet(ts, j);
        assert Dotted(ts, j, k);
      } else if LooksBack(ts, k) {
        assert BehindSet(ts, k);
      }
      if j :| 0 <= j <= k && Dotted(ts, j, k) && BehindSet(ts, j) {
        if j < k {
          LooksBackExactly(ts, k - 2);
        }
      }
    }
  }

  lemma {:induction false} WordsApart(t: Lexeme)
    ensures IsWord(t, "set") ==> !IsWord(t, "local") && !IsWord(t, "session") && !IsSign(t, '.')
    ensures IsSign(t, '.') ==> !IsWord(t, "local") && !IsWord(t, "session")
  {
  }

  // Connection strings in constants

  /** The word password or one of the two schemes is in the text. */
  predicate Mentions(body: string) {
    HasPart(body, "password") || HasPart(body, "postgres://") || HasPart(body, "postgresql://")
  }

  predicate FirstPlace(s: string, word: string, i: nat) {
    SpellsAt(s, word, i) && forall j :: 0 <= j < i ==> !SpellsAt(s, word, j)
  }

  /** Behind the scheme there is neither an '@' nor a slash. */
  ghost predicate CutInHost(body: string) {
    if HasPart(body, "postgresql://") then
      exists i: nat :: FirstPlace(body, "postgresql://", i) && '@' !in body[i + 13..] && '/' !in body[i + 13..]
    else
      exists i: nat :: FirstPlace(body, "postgres://", i) && '@' !in body[i + 11..] && '/' !in body[i + 11..]
  }

  lemma {:induction false} PlaceFound(s: string, word: string)
    requires IsSmall(word)
    ensures var i := Find(Lower(s), word); if i < 0 then !HasPart(s, word) else HasPart(s, word) && FirstPlace(s, word, i)
  {
    hide Spells, Lower, Find;
    var i := Find(Lower(s), word);
    PartFound(s, word);
    if i >= 0 {
      assert Contains(Lower(s), word);
      forall j | 0 <= j <= i ensures SpellsAt(s, word, j) <==> j == i {
        assert i + |word| <= |s|;
        LowerPart(s, j, |word|);
        LowerSpells(s[j..j + |word|], word);
        assert At(Lower(s), word, j) <==> j == i;
      }
    }
  }

  lemma {:induction false} CutIs(body: string)
    ensures TruncatedInHost(body) <==> CutInHost(body)
  {
    hide SpellsAt, Find, Lower;
    SchemesSmall();
    PlaceFound(body, "postgresql://");
    PlaceFound(body, "postgres://");
    var lower := Lower(body);
    OneFirst(body, "postgresql://");
    OneFirst(body, "postgres://");
  }

  lemma {:induction false} SchemesSmall()
    ensures IsSmall("postgresql://") && IsSmall("postgres://") && IsSmall("password")
  {
  }

  lemma {:induction false} OneFirst(s: string, word: string)
    ensures forall i: nat, j: nat :: FirstPlace(s, word, i) && FirstPlace(s, word, j) ==> i == j
    ensures forall i: nat :: FirstPlace(s, word, i) ==> HasPart(s, word)
  {
    hide Spells;
  }

  /** A backslash in a constant of which it is not known whether it escapes. */
  predicate Unclear(t: Lexeme) { t.kind == Str && !t.escapes && !t.unicode && '\\' in t.Body() }

  /** With the constant, the rest of the statement goes. */
  ghost predicate DropsRest(t: Lexeme) {
    Mentions(t.Body()) && ((!t.terminated && CutInHost(t.Body())) || Unclear(t))
  }

  /** The constant goes as a whole. */
  ghost predicate GivenUp(t: Lexeme) {
    DropsRest(t) || (Mentions(t.Body()) && t.kind == Str && (t.escapes || t.unicode))
  }

  function ValueOf(t: Lexeme): string { if t.kind == Str then Undouble(t.Body(), '\'') else t.Body() }

  /** The constant is put in its place otherwise than it was. */
  ghost predicate Rewrites(t: Lexeme) {
    GivenUp(t) || (Mentions(t.Body()) && ConnString.RedactPasswords(ValueOf(t)) != ValueOf(t))
  }

  lemma {:induction false} MentionsIs(body: string)
    ensures MentionsConnSecret(body) <==> Mentions(body)
  {
    hide HasPart, Contains, Lower;
    SchemesSmall();
    PartFound(body, "password");
    PartFound(body, "postgres://");
    PartFound(body, "postgresql://");
  }

  /** What becomes of a constant for the connection string it may hold. */
  lemma {:induction false} ConnExactly(t: Lexeme)
    requires t.WellFormed() && IsConstant(t)
    ensures ConnRewrite(t).Some? <==> Rewrites(t)
    ensures ConnRewrite(t).Some? && ConnRewrite(t).value.toEnd <==> DropsRest(t)
    ensures GivenUp(t) ==> ConnRewrite(t).value.repl.text == "'********'"
    ensures Rewrites(t) && !GivenUp(t) ==>
              var red := ConnString.RedactPasswords(ValueOf(t));
              ConnRewrite(t).value.repl == WithBody(t, if t.kind == Str then ConnString.Double(red, '\'') else red)
  {
    hide MentionsConnSecret, Mentions, TruncatedInHost, CutInHost, Undouble, ConnString.RedactPasswords, ConnString.Double, WithBody;
    MentionsIs(t.Body());
    CutIs(t.Body());
    assert REDACTED.text == "'********'";
  }

  /** A constant that is put otherwise keeps its quotes. */
  lemma {:induction false} QuotesKept(s: string, t: Lexeme, body: string)
    requires s != "" && Reads(s, t) && IsConstant(t)
    ensures t.WellFormed() && WithBody(t, body).text == t.text[..t.lo] + body + t.text[t.hi..]
  {
    hide IsRun, IsComment, IsTag, HasTag, IsQuoted, IsDollar;
    var o := Opening(s);
    if t.kind == Str {
      assert IsQuoted(s, t, Str, o, '\'', s[0] in "eE", s[0] in "uU") by { StrQuoted(s, t); }
      QuoteKept(s, t, o, s[0] in "eE", s[0] in "uU", body);
    } else {
      assert IsDollar(s, t) by { DollarQuoted(s, t); }
      TagKept(s, t, body);
    }
  }

  lemma {:induction false} StrQuoted(s: string, t: Lexeme)
    requires s != "" && Reads(s, t) && t.kind == Str
    ensures Opening(s) <= |s| && IsQuoted(s, t, Str, Opening(s), '\'', s[0] in "eE", s[0] in "uU")
  {
    hide IsRun, IsComment, IsTag, HasTag, ClosesAt;
  }

  lemma {:induction false} DollarQuoted(s: string, t: Lexeme)
    requires s != "" && Reads(s, t) && t.kind == Dollar
    ensures IsDollar(s, t)
  {
    hide IsRun, IsComment, IsTag, HasTag, ClosesAt;
  }

  lemma {:induction false} QuoteKept(s: string, t: Lexeme, o: nat, esc: bool, uni: bool, body: string)
    requires o <= |s| && s != "" && t.text <= s && IsQuoted(s, t, Str, o, '\'', esc, uni)
    ensures t.WellFormed() && WithBody(t, body).text == t.text[..t.lo] + body + t.text[t.hi..]
  {
    hide IsContent;
    assert t.text == s[..|t.text|];
    if t.terminated {
      assert s[t.lo..][t.hi - t.lo] == s[t.hi];
      assert t.text[t.hi..] == [s[t.hi]] == "'";
    } else {
      assert t.text[t.hi..] == "";
    }
  }

  lemma {:induction false} TagKept(s: string, t: Lexeme, body: string)
    requires t.text <= s && IsDollar(s, t)
    ensures t.WellFormed() && WithBody(t, body).text == t.text[..t.lo] + body + t.text[t.hi..]
  {
    hide IsTag;
    assert t.text == s[..|t.text|];
    if t.terminated {
      assert t.text[t.hi..] == s[t.hi..t.hi + t.lo] == s[..t.lo] == t.text[..t.lo];
    } else {
      assert t.text[t.hi..] == "";
    }
  }

  // One turn of the loop

  /** The constant at `m` is the value of the name at `i`: directly behind it, or behind one separator. */
  predicate ValueAt(ts: seq<Lexeme>, i: nat, m: nat) {
    i < m < |ts| && TellsSecret(ts[i]) && IsConstant(ts[m]) && (m == i + 1 || (m == i + 2 && Separates(ts[i + 1])))
  }

  /** The constant at `m` is the next argument behind the name, which is given as a constant. */
  predicate ArgumentAt(ts: seq<Lexeme>, i: nat, m: nat) {
    m == i + 2 < |ts| && IsNameConstant(ts[i]) && NamesSecret(ts[i].Body()) && IsSign(ts[i + 1], ',') && IsConstant(ts[m])
  }

  /** The quoted identifier at `m` is given as the value of the name at `i`. */
  predicate QuotedAt(ts: seq<Lexeme>, i: nat, m: nat) {
    m == i + 2 < |ts| && TellsSecret(ts[i]) && Separates(ts[i + 1]) && ts[m].kind == QuotedIdent
  }

  /** From `m` to `j` there are constants alone. */
  predicate Continues(ts: seq<Lexeme>, m: nat, j: nat) {
    m <= j < |ts| && forall n :: m <= n <= j ==> IsConstant(ts[n])
  }

  /** The token at `j` is part of what is assigned to the name at `i`, up to the semicolon, when that is neither a
      constant nor a quoted identifier to start with, nor DEFAULT or a parameter alone. */
  predicate AssignedAt(ts: seq<Lexeme>, i: nat, j: nat) {
    && i + 2 <= j < |ts| && TellsSecret(ts[i]) && Separates(ts[i + 1])
    && !IsConstant(ts[i + 2]) && ts[i + 2].kind != QuotedIdent
    && !(IsHarmless(ts[i + 2]) && (i + 3 == |ts| || IsSign(ts[i + 3], ';')))
    && forall n :: i + 2 <= n <= j ==> !IsSign(ts[n], ';')
  }

  ghost predicate RewrittenAt(ts: seq<Lexeme>, i: nat) {
    && i < |ts| && IsConstant(ts[i]) && Rewrites(ts[i])
    && !ArgumentAt(ts, i, i + 2) && !(IsNameConstant(ts[i]) && NamesNoSecret(ts[i].Body()))
  }

  predicate Edited(e: Step, j: nat) { e.Edit? && e.from <= j < e.to }

  lemma {:induction false} RunExactly(ts: seq<Lexeme>, m: nat, j: nat)
    requires m < |ts|
    ensures m <= j < m + Literals(ts[m..]) <==> Continues(ts, m, j)
  {
    hide Literals;
    var n := m + Literals(ts[m..]);
    assert forall i :: m <= i < n ==> ts[m..][i - m] == ts[i] && IsConstant(ts[i]);
    assert n < |ts| ==> ts[m..][n - m] == ts[n];
  }

  lemma {:induction false} AssignedIs(ts: seq<Lexeme>, j: nat)
    requires |ts| > 2 && TellsSecret(ts[0]) && Separates(ts[1]) && !IsConstant(ts[2]) && ts[2].kind != QuotedIdent
    ensures 2 <= j < 2 + SetValue(ts[2..]) <==> AssignedAt(ts, 0, j)
  {
    hide UpToSemicolon, TellsSecret, Separates, HoldsNoSecret, IsHarmless, Lexeme.Is;
    var vs, n := ts[2..], UpToSemicolon(ts[2..]);
    forall t: Lexeme ensures t.Is(Other, ";") <==> IsSign(t, ';') { SignIs(t, ';'); assert ";" == [';']; }
    HarmlessIs(ts[2]);
    assert forall i :: 0 <= i < |vs| ==> vs[i] == ts[i + 2];
    assert forall i :: 2 <= i < 2 + n ==> !IsSign(ts[i], ';') by {
      forall i | 2 <= i < 2 + n ensures !IsSign(ts[i], ';') { assert vs[i - 2] == ts[i]; }
    }
  }

  lemma {:induction false} NameExactly(c: Context, ts: seq<Lexeme>, j: nat)
    requires ts != [] && TellsSecret(ts[0])
    ensures Edited(DecideName(c, ts), j) <==>
            || (ValueAt(ts, 0, 1) && Continues(ts, 1, j)) || (ValueAt(ts, 0, 2) && Continues(ts, 2, j))
            || QuotedAt(ts, 0, j) || (c.target && AssignedAt(ts, 0, j))
  {
    hide TellsSecret, Separates, IsSeparator, SetValue, Literals, AmbiguousEscapes, Continues, AssignedAt;
    if |ts| > 1 {
      SeparatorIs(ts[1]);
      SeparatorNoConstant(ts[1]);
      RunExactly(ts, 1, j);
    }
    if |ts| > 2 {
      RunExactly(ts, 2, j);
      if Separates(ts[1]) && !IsConstant(ts[2]) && ts[2].kind != QuotedIdent {
        AssignedIs(ts, j);
      }
    }
    AssignedNeeds(ts, j);
  }

  lemma {:induction false} AssignedNeeds(ts: seq<Lexeme>, j: nat)
    ensures AssignedAt(ts, 0, j) ==> |ts| > 2 && Separates(ts[1]) && !IsConstant(ts[2]) && ts[2].kind != QuotedIdent
  {
    hide Separates, TellsSecret;
  }

  lemma {:induction false} SeparatorNoConstant(t: Lexeme)
    ensures Separates(t) ==> !IsConstant(t)
  {
  }

  lemma {:induction false} LiteralExactly(ts: seq<Lexeme>, j: nat)
    requires ts != [] && ts[0].WellFormed() && IsConstant(ts[0])
    ensures Edited(DecideLiteral(ts), j) <==>
            (ArgumentAt(ts, 0, 2) && Continues(ts, 2, j)) || (j == 0 && RewrittenAt(ts, 0))
  {
    hide IsConstantName, IsNameConstant, NamesSecret, NamesNoSecret, Lower, Rewrites, ConnRewrite, Literals, Continues, Lexeme.Is;
    NameConstantIs(ts[0]);
    SecretNames(ts[0].Body());
    NoSecretsAre(ts[0].Body());
    ConnExactly(ts[0]);
    if |ts| > 2 {
      SignIs(ts[1], ',');
      assert "," == [','];
      RunExactly(ts, 2, j);
    }
  }

  /** A turn of the loop replaces a token if and only if it is one of these. */
  lemma {:induction false} StepExactly(c: Context, ts: seq<Lexeme>, j: nat)
    requires ts != [] && ts[0].WellFormed()
    ensures Edited(Decide(c, ts), j) <==>
            || (ValueAt(ts, 0, 1) && Continues(ts, 1, j)) || (ValueAt(ts, 0, 2) && Continues(ts, 2, j))
            || (ArgumentAt(ts, 0, 2) && Continues(ts, 2, j))
            || QuotedAt(ts, 0, j) || (c.target && AssignedAt(ts, 0, j)) || (j == 0 && RewrittenAt(ts, 0))
  {
    hide DecideName, DecideLiteral, NamesSecret, Undouble, IsSecret, Separates, Continues, Rewrites;
    SecretIs(ts[0]);
    if TellsSecret(ts[0]) {
      NameExactly(c, ts, j);
    } else if IsConstant(ts[0]) {
      LiteralExactly(ts, j);
    }
  }

  /** And the placeholder is put for it, or the rest of the statement dropped, as follows. */
  lemma {:induction false} StepPuts(c: Context, ts: seq<Lexeme>)
    requires ts != [] && ts[0].WellFormed() && Decide(c, ts).Edit?
    ensures var e := Decide(c, ts);
            && (e.from > 0 && ts[e.from].kind != QuotedIdent ==> e.repl.text == "'********'")
            && (e.from > 0 && ts[e.from].kind == QuotedIdent ==> e.repl.text == "\"********\"")
            && (e.from == 0 ==> e.to == 1 && RewrittenAt(ts, 0) && Some(Rewrite(e.repl, e.toEnd)) == ConnRewrite(ts[0]))
            && (e.from > 0 ==> (e.toEnd <==> Unclear(ts[e.from])))
            && (e.from > 0 && ts[e.from].kind == QuotedIdent ==> e.to == e.from + 1)
  {
    hide IsSeparator, Separates, SetValue, Literals, NamesSecret, IsSecretName, Rewrites, ConnRewrite, Lexeme.Is;
    StepExactly(c, ts, 0);
    assert REDACTED.text == "'********'";
    assert REDACTED_IDENT.text == "\"********\"";
  }
}
