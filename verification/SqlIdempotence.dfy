/**
 Redacting a redacted statement.
 */
module SqlIdempotence {
  import opened Text
  import opened SqlLexer
  import opened SqlRedact
  import opened SqlRelex
  import opened SqlConstants
  import ConnString
  import ConnStringLaws
  import opened ConnStringEscape

  // What the walk leaves at the front

  /** The same token, or constants in both places. */
  predicate Same(was: Lexeme, now: Lexeme) {
    if was.IsLiteral() then now.IsLiteral() else now == was
  }

  lemma {:induction false} EditHead(c: Context, ts: seq<Lexeme>)
    requires ts != [] && ts[0].WellFormed() && Decide(c, ts).Edit? && Decide(c, ts).from == 0
    ensures ts[0].IsLiteral() && Decide(c, ts).repl.IsLiteral()
  {
    hide Decide, ConnRewrite, IsSecret, IsSeparator;
    EditShape(c, ts);
    RewriteKinds(ts[0]);
  }

  lemma {:induction false} WalkHead(c: Context, s: Script)
    requires WellFormed(s.pieces)
    ensures var w := Walk(c, s).pieces;
            (s.pieces == [] <==> w == []) && (w != [] ==> Same(s.pieces[0].tok, w[0].tok))
  {
    hide Decide, Next, After;
    var ps := s.pieces;
    if ps != [] {
      match Decide(c, Toks(ps))
      case Keep =>
      case Edit(from, to, repl, toEnd) =>
        if from == 0 {
          EditHead(c, Toks(ps));
        } else {
          var kept := ps[..from] + [Piece(ps[from].gap, repl)];
          assert kept[0] == ps[0];
        }
    }
  }

  predicate Plainly(t: Lexeme) { !IsSecret(t) && !t.IsLiteral() }

  lemma {:induction false} SeparatorPlainly(t: Lexeme)
    requires IsSeparator(t)
    ensures Plainly(t)
  {
    hide Contains;
    if t.kind == Ident && IsSecretName(t.text) {
      assert |Lower(t.text)| == |Lower("to")| == 2;
      LongName(t.text);
    }
  }

  lemma {:induction false} LongName(name: string)
    requires IsSecretName(name)
    ensures |name| > 4
  {
    var n := Lower(name);
    if n !in WHOLE_VALUE_SETTINGS {
      var i :| 0 <= i < |SECRET_FRAGMENTS| && Contains(n, SECRET_FRAGMENTS[i]);
      assert |SECRET_FRAGMENTS[i]| > 4;
    }
  }

  /** The walk keeps a token that is neither a secret's name nor a constant, and goes on. */
  lemma {:induction false} WalkPlainly(c: Context, s: Script)
    requires WellFormed(s.pieces) && s.pieces != [] && Plainly(s.pieces[0].tok)
    ensures var r := Walk(Next(c, s.pieces[0].tok), Script(s.pieces[1..], s.tail));
            Walk(c, s) == Script([s.pieces[0]] + r.pieces, r.tail)
  {
    hide IsSecret, Next, After, DecideName, DecideLiteral;
  }

  /** The first tokens of a statement and of what the walk makes of it. */
  lemma {:induction false} WalkSecond(c: Context, s: Script)
    requires WellFormed(s.pieces) && s.pieces != [] && Plainly(s.pieces[0].tok)
    ensures var w := Walk(c, s).pieces;
            && w != [] && w[0].tok == s.pieces[0].tok
            && (|s.pieces| == 1 <==> |w| == 1)
            && (|s.pieces| > 1 ==> Same(s.pieces[1].tok, w[1].tok))
  {
    hide Walk, Next;
    WalkPlainly(c, s);
    var rest := Script(s.pieces[1..], s.tail);
    WalkHead(Next(c, s.pieces[0].tok), rest);
  }

  /** A name that nothing is done about is followed by the same tokens, as far as that matters. */
  lemma {:induction false} WalkIdle(c: Context, s: Script)
    requires WellFormed(s.pieces) && s.pieces != [] && !s.pieces[0].tok.IsLiteral()
    requires |s.pieces| == 1 || s.pieces[1].tok.Is(Other, ";")
    ensures var w := Walk(c, s).pieces;
            && w != [] && w[0].tok == s.pieces[0].tok
            && (|s.pieces| == 1 <==> |w| == 1)
            && (|s.pieces| > 1 ==> w[1].tok == s.pieces[1].tok)
  {
    hide IsSecretName, Next, After, Lexeme.Is, ConnRewrite;
    var ps := s.pieces;
    assert Decide(c, Toks(ps)) == Keep by { SemicolonStops(c, Toks(ps)); }
    WalkHead(Next(c, ps[0].tok), Script(ps[1..], s.tail));
    assert |ps| > 1 ==> ps[1].tok.kind == Other by { IsOther(ps); }
  }

  lemma {:induction false} IsOther(ps: seq<Piece>)
    ensures |ps| > 1 && ps[1].tok.Is(Other, ";") ==> ps[1].tok.kind == Other
  {
  }

  lemma {:induction false} SemicolonStops(c: Context, ts: seq<Lexeme>)
    requires ts != [] && ts[0].WellFormed() && !ts[0].IsLiteral() && (|ts| == 1 || ts[1].Is(Other, ";"))
    ensures Decide(c, ts) == Keep
  {
    hide IsSecretName, SetValue, Literals;
  }

  // A token kept once is kept again

  /** As far as keeping the first token goes, `us` has the tokens of `ts`. */
  predicate Alike(ts: seq<Lexeme>, us: seq<Lexeme>) {
    && ts != [] && us != [] && us[0] == ts[0]
    && (|ts| == 1 <==> |us| == 1)
    && (|ts| > 1 ==> Same(ts[1], us[1]))
    && (|ts| > 1 && Plainly(ts[1]) ==>
          && (|ts| == 2 <==> |us| == 2)
          && (|ts| > 2 ==> Same(ts[2], us[2]))
          && (|ts| > 2 && !ts[2].IsLiteral() && (|ts| == 3 || ts[3].Is(Other, ";")) ==>
                (|ts| == 3 <==> |us| == 3) && (|ts| > 3 ==> us[3] == ts[3])))
  }

  lemma {:induction false} KeepAlike(c: Context, s: Script)
    requires WellFormed(s.pieces) && s.pieces != []
    ensures var rest := Walk(Next(c, s.pieces[0].tok), Script(s.pieces[1..], s.tail));
            Alike(Toks(s.pieces), Toks([s.pieces[0]] + rest.pieces))
  {
    hide Walk, Next, IsSecret, Lexeme.Is;
    var ps := s.pieces;
    var c1, s1 := Next(c, ps[0].tok), Script(ps[1..], s.tail);
    WalkHead(c1, s1);
    if |ps| > 1 && Plainly(ps[1].tok) {
      WalkSecond(c1, s1);
      WalkPlainly(c1, s1);
      if |ps| > 2 && !ps[2].tok.IsLiteral() && (|ps| == 3 || ps[3].tok.Is(Other, ";")) {
        WalkIdle(Next(c1, ps[1].tok), Script(ps[2..], s.tail));
        assert ps[1..][1..] == ps[2..];
      }
    }
  }

  lemma {:induction false} KeepAgain(c: Context, ts: seq<Lexeme>, us: seq<Lexeme>)
    requires Alike(ts, us) && ts[0].WellFormed() && Decide(c, ts) == Keep
    ensures Decide(c, us) == Keep
  {
    hide IsSecretName, NameOf, Lexeme.Is, ConnRewrite, IsConstantName, SetValue, DecideName, DecideLiteral;
    if IsSecret(ts[0]) {
      NameKeptAgain(c, ts, us);
    } else if ts[0].IsLiteral() {
      LiteralKeptAgain(ts, us);
    }
  }

  lemma {:induction false} NameKeptAgain(c: Context, ts: seq<Lexeme>, us: seq<Lexeme>)
    requires Alike(ts, us) && DecideName(c, ts) == Keep
    ensures DecideName(c, us) == Keep
  {
    hide IsSecret, Lexeme.Is, SetValue;
    if |ts| > 1 && IsSeparator(ts[1]) {
      SeparatorPlainly(ts[1]);
      if |ts| > 2 && c.target {
        NoValueAgain(ts[2..], us[2..]);
      }
    } else if |ts| > 1 {
      assert !IsSeparator(us[1]);
    }
  }

  lemma {:induction false} NoValueAgain(ts: seq<Lexeme>, us: seq<Lexeme>)
    requires ts != [] && us != [] && !ts[0].IsLiteral() && us[0] == ts[0] && SetValue(ts) == 0
    requires |ts| == 1 || ts[1].Is(Other, ";") ==> (|ts| == 1 <==> |us| == 1) && (|ts| > 1 ==> us[1] == ts[1])
    ensures SetValue(us) == 0
  {
    hide Lexeme.Is, HoldsNoSecret;
    var n := UpToSemicolon(ts);
    assert n == 1 && |ts| > 1 ==> ts[1].Is(Other, ";");
    assert n == 1 && |us| > 1 ==> UpToSemicolon(us[1..]) == 0;
    assert n == 1 && |us| == 1 ==> us[1..] == [];
  }

  lemma {:induction false} LiteralKeptAgain(ts: seq<Lexeme>, us: seq<Lexeme>)
    requires Alike(ts, us) && ts[0].WellFormed() && DecideLiteral(ts) == Keep
    ensures DecideLiteral(us) == Keep
  {
    hide IsSecretName, ConnRewrite, IsConstantName, Literals;
    assert |us| > 1 && us[1].Is(Other, ",") ==> ts[1] == us[1];
  }

  // An edit made once is made again

  lemma {:induction false} ValueAgain(c: Context, ts: seq<Lexeme>, us: seq<Lexeme>, e: Step)
    requires ts != [] && ts[0].WellFormed() && Decide(c, ts) == e && e.Edit? && e.from > 0
    requires us != [] && us[0] == ts[0] && |us| > e.from && us[e.from] == e.repl
    requires e.from == 2 ==> us[1] == ts[1]
    requires |us| > e.from + 1 ==> !e.toEnd && e.to < |ts| && Same(ts[e.to], us[e.from + 1])
    ensures Decide(c, us) == Edit(e.from, e.from + 1, e.repl, false)
  {
    hide IsSecretName, NameOf, Lexeme.Is, ConnRewrite, IsConstantName, IsSeparator;
    EditShape(c, ts);
    RedactedPlain();
    if e.repl == REDACTED {
      OneLiteral(us, e.from);
    }
  }

  lemma {:induction false} RedactedPlain()
    ensures !AmbiguousEscapes(REDACTED) && !IsSeparator(REDACTED) && !IsSeparator(REDACTED_IDENT)
    ensures REDACTED.WellFormed() && REDACTED_IDENT.WellFormed()
  {
    assert REDACTED.Body() == STARS;
  }

  lemma {:induction false} OneLiteral(us: seq<Lexeme>, m: nat)
    requires m < |us| && us[m].IsLiteral() && (|us| > m + 1 ==> !us[m + 1].IsLiteral())
    ensures Literals(us[m..]) == 1
  {
    var vs := us[m..];
    assert vs[0] == us[m] && (|vs| > 1 ==> vs[1] == us[m + 1]);
  }

  lemma {:induction false} ConstantAgain(c: Context, us: seq<Lexeme>)
    requires us != [] && us[0].WellFormed() && us[0].IsLiteral() && !IsConstantName(us[0])
    ensures Decide(c, us) == match ConnRewrite(us[0]) case None => Keep case Some(r) => Edit(0, 1, r.repl, r.toEnd)
  {
    hide ConnRewrite, IsConstantName;
  }

  // The walk

  /** What the connection-string rule puts for a constant is a token. */
  lemma {:induction false} RewriteWellFormed(t: Lexeme)
    requires t.WellFormed() && ConnRewrite(t).Some?
    ensures ConnRewrite(t).value.repl.WellFormed()
  {
    hide ConnString.RedactPasswords, TruncatedInHost, Undouble, ConnString.Double, AmbiguousEscapes, MentionsConnSecret;
    RedactedQuiet();
    if ConnRewrite(t).value.repl != REDACTED {
      var v := ValueOf(t);
      var red := ConnString.RedactPasswords(v);
      RedactedNoName(v);
      var c :| c in red && !IsNameChar(c) && c != '\'';
      DoubleKeeps(red, '\'', c);
    }
  }

  lemma {:induction false} WalkWellFormed(c: Context, s: Script)
    requires WellFormed(s.pieces)
    ensures WellFormed(Walk(c, s).pieces)
    decreases |s.pieces|
  {
    hide Decide, Next, After, ConnRewrite, IsSecret, IsSeparator, Lexeme.WellFormed;
    var ps := s.pieces;
    if ps != [] {
      match Decide(c, Toks(ps))
      case Keep =>
        WalkWellFormed(Next(c, ps[0].tok), Script(ps[1..], s.tail));
      case Edit(from, to, repl, toEnd) =>
        EditWellFormed(c, Toks(ps));
        var kept := ps[..from] + [Piece(ps[from].gap, repl)];
        if !toEnd {
          WalkWellFormed(After(c, Toks(kept)), Script(ps[to..], s.tail));
        }
    }
  }

  lemma {:induction false} EditWellFormed(c: Context, ts: seq<Lexeme>)
    requires ts != [] && ts[0].WellFormed() && Decide(c, ts).Edit?
    ensures Decide(c, ts).repl.WellFormed()
  {
    hide Decide, ConnRewrite, IsSecret, IsSeparator, Lexeme.Is;
    EditShape(c, ts);
    RedactedPlain();
    if Decide(c, ts).from == 0 {
      RewriteWellFormed(ts[0]);
    }
  }

  /** Every constant that the connection-string rule rewrites on the way is one it would leave alone. */
  predicate Stays(c: Context, s: Script)
    requires WellFormed(s.pieces)
    decreases |s.pieces|
  {
    var ps := s.pieces;
    ps == [] ||
    match Decide(c, Toks(ps))
    case Keep => Stays(Next(c, ps[0].tok), Script(ps[1..], s.tail))
    case Edit(from, to, repl, toEnd) =>
      && (from == 0 ==> repl.WellFormed() && ConnRewrite(repl) == None)
      && (toEnd || Stays(After(c, Toks(ps[..from] + [Piece(ps[from].gap, repl)])), Script(ps[to..], s.tail)))
  }

  /** Walking over what a walk has made changes nothing if and only if what was rewritten stays. */
  lemma {:induction false} WalkAgain(c: Context, s: Script)
    requires WellFormed(s.pieces)
    ensures WellFormed(Walk(c, s).pieces) && (Walk(c, Walk(c, s)) == Walk(c, s) <==> Stays(c, s))
    decreases |s.pieces|
  {
    hide Decide, Next, After, Alike, ConnRewrite;
    WalkWellFormed(c, s);
    var ps, w := s.pieces, Walk(c, s);
    if ps != [] {
      match Decide(c, Toks(ps))
      case Keep =>
        var c1, rest := Next(c, ps[0].tok), Script(ps[1..], s.tail);
        WalkAgain(c1, rest);
        KeepAlike(c, s);
        KeepAgain(c, Toks(ps), Toks(w.pieces));
        assert w.pieces[1..] == Walk(c1, rest).pieces;
        SamePieces([ps[0]], Walk(c1, Walk(c1, rest)), Walk(c1, rest));
      case Edit(from, to, repl, toEnd) =>
        var kept := ps[..from] + [Piece(ps[from].gap, repl)];
        var r := Script([], []);
        if !toEnd {
          WalkAgain(After(c, Toks(kept)), Script(ps[to..], s.tail));
          r := Walk(After(c, Toks(kept)), Script(ps[to..], s.tail));
        }
        assert kept + [] == kept;
        assert w == Script(kept + r.pieces, r.tail);
        EditAgain(c, s, kept, r);
    }
  }

  lemma {:induction false} SamePieces(a: seq<Piece>, x: Script, y: Script)
    ensures Script(a + x.pieces, x.tail) == Script(a + y.pieces, y.tail) <==> x == y
  {
    if a + x.pieces == a + y.pieces {
      assert x.pieces == (a + x.pieces)[|a|..] && y.pieces == (a + y.pieces)[|a|..];
    }
  }

  lemma {:induction false} EditAgain(c: Context, s: Script, kept: seq<Piece>, r: Script)
    requires WellFormed(s.pieces) && s.pieces != []
    requires var e := Decide(c, Toks(s.pieces));
             && e.Edit? && kept == s.pieces[..e.from] + [Piece(s.pieces[e.from].gap, e.repl)]
             && r == (if e.toEnd then Script([], []) else Walk(After(c, Toks(kept)), Script(s.pieces[e.to..], s.tail)))
    requires WellFormed(r.pieces) && WellFormed(kept + r.pieces)
    ensures var w := Script(kept + r.pieces, r.tail); var e := Decide(c, Toks(s.pieces));
            && e.repl.WellFormed()
            && (Walk(c, w) == w <==> (e.from == 0 ==> ConnRewrite(e.repl) == None) && Walk(After(c, Toks(kept)), r) == r)
  {
    hide Next, After, ConnRewrite;
    EditWellFormed(c, Toks(s.pieces));
    var ps, e, w := s.pieces, Decide(c, Toks(s.pieces)), kept + r.pieces;
    if e.from == 0 {
      EditConstantAgain(c, s, kept, r);
    } else {
      EditValueAgain(c, s, kept, r, e);
      assert w[..e.from] == ps[..e.from] && w[e.from] == Piece(ps[e.from].gap, e.repl);
      assert w[..e.from] + [Piece(w[e.from].gap, e.repl)] == kept;
      assert w[e.from + 1..] == r.pieces;
      SamePieces(kept, Walk(After(c, Toks(kept)), r), r);
    }
  }

  lemma {:induction false} EditValueAgain(c: Context, s: Script, kept: seq<Piece>, r: Script, e: Step)
    requires WellFormed(s.pieces) && s.pieces != [] && Decide(c, Toks(s.pieces)) == e && e.Edit? && e.from > 0
    requires kept == s.pieces[..e.from] + [Piece(s.pieces[e.from].gap, e.repl)]
    requires r == (if e.toEnd then Script([], []) else Walk(After(c, Toks(kept)), Script(s.pieces[e.to..], s.tail)))
    requires WellFormed(kept + r.pieces)
    ensures Decide(c, Toks(kept + r.pieces)) == Edit(e.from, e.from + 1, e.repl, false)
  {
    hide Next, After, Decide, Walk;
    var ps, w := s.pieces, kept + r.pieces;
    if !e.toEnd {
      WalkHead(After(c, Toks(kept)), Script(ps[e.to..], s.tail));
    }
    FromIsShort(c, Toks(ps));
    assert w[0] == ps[0] && w[e.from].tok == e.repl && (e.from == 2 ==> w[1] == ps[1]);
    assert |w| > e.from + 1 ==> w[e.from + 1] == r.pieces[0];
    ValueAgain(c, Toks(ps), Toks(w), e);
  }

  lemma {:induction false} FromIsShort(c: Context, ts: seq<Lexeme>)
    requires ts != [] && ts[0].WellFormed() && Decide(c, ts).Edit?
    ensures Decide(c, ts).from <= 2
  {
    hide Decide, ConnRewrite;
    EditShape(c, ts);
  }

  lemma {:induction false} EditConstantAgain(c: Context, s: Script, kept: seq<Piece>, r: Script)
    requires WellFormed(s.pieces) && s.pieces != []
    requires var e := Decide(c, Toks(s.pieces));
             e.Edit? && e.from == 0 && kept == [Piece(s.pieces[0].gap, e.repl)]
    requires WellFormed(r.pieces) && WellFormed(kept + r.pieces)
    ensures var w := Script(kept + r.pieces, r.tail); var u := Decide(c, Toks(s.pieces)).repl;
            && u.WellFormed()
            && (Walk(c, w) == w <==> ConnRewrite(u) == None && Walk(After(c, Toks(kept)), r) == r)
  {
    hide Next, Decide, ConnRewrite, IsConstantName;
    EditWellFormed(c, Toks(s.pieces));
    var e, w := Decide(c, Toks(s.pieces)), kept + r.pieces;
    var u := e.repl;
    EditHead(c, Toks(s.pieces));
    RewrittenNoName(c, Toks(s.pieces));
    ConstantAgain(c, Toks(w));
    assert w[1..] == r.pieces && w[0] == kept[0];
    assert Toks(kept)[1..] == [];
    if ConnRewrite(u) == None {
      SamePieces(kept, Walk(After(c, Toks(kept)), r), r);
    } else {
      RewriteDiffers(u);
      var u2 := ConnRewrite(u).value.repl;
      assert w[..0] == [];
      assert Walk(c, Script(w, r.tail)).pieces[0] == Piece(w[0].gap, u2);
    }
  }

  /** What the connection-string rule puts for a constant is another constant. */
  lemma {:induction false} RewriteDiffers(u: Lexeme)
    requires u.WellFormed() && ConnRewrite(u).Some?
    ensures ConnRewrite(u).value.repl != u
  {
    hide ConnString.RedactPasswords, TruncatedInHost, Undouble, ConnString.Double, AmbiguousEscapes, MentionsConnSecret, WithBody;
    RedactedQuiet();
    if u != REDACTED && ConnRewrite(u).value.repl == u {
      var red := ConnString.RedactPasswords(if u.kind == Dollar then u.Body() else Undouble(u.Body(), '\''));
      UndoubleDouble(red, '\'');
      WithBodySame(u, if u.kind == Dollar then red else ConnString.Double(red, '\''));
    }
  }

  lemma {:induction false} WithBodySame(u: Lexeme, b: string)
    requires u.WellFormed() && WithBody(u, b) == u
    ensures b == u.Body()
  {
    assert WithBody(u, b).text[u.lo..u.lo + |b|] == b;
  }

  // Names

  /** A redacted connection string is no name. */
  lemma {:induction false} RedactedNoName(v: string)
    requires ConnString.RedactPasswords(v) != v
    ensures exists c :: c in ConnString.RedactPasswords(v) && !IsNameChar(c) && c != '\''
  {
    hide ConnString.Parse, ConnString.NewRaw, ConnString.RedactUri;
    var red := ConnString.RedactPasswords(v);
    if ConnString.HasUriPrefix(v) {
      UriColon(v);
      assert ':' in red && !IsNameChar(':');
    } else if ConnString.Parse(v).Malformed? {
      assert red[0] == '*' && !IsNameChar('*');
    } else {
      var ps, trail := ConnString.Parse(v).params, ConnString.Parse(v).trail;
      ConnStringLaws.ParseCut(v);
      assert ps != [];
      assert '=' in ps[0].Head();
      assert '=' in red && !IsNameChar('=');
    }
  }

  lemma {:induction false} UriColon(v: string)
    requires ConnString.HasUriPrefix(v)
    ensures ':' in ConnString.RedactUri(v)
  {
    hide ConnString.RedactAuthority;
    var n := ConnString.UriPrefixLen(v);
    assert v[n - 3] == ':' && n - 3 < |v[..n]| && v[..n][n - 3] == ':';
  }

  lemma {:induction false} DoubledNoName(red: string, c: char)
    requires c in red && !IsNameChar(c) && c != '\''
    ensures !All(IsNameChar, red) && !All(IsNameChar, ConnString.Double(red, '\''))
  {
    DoubleKeeps(red, '\'', c);
  }

  lemma {:induction false} RedactedQuiet()
    ensures REDACTED.WellFormed() && ConnRewrite(REDACTED) == None && !IsConstantName(REDACTED)
  {
    hide Contains, Lower;
    assert REDACTED.Body() == STARS;
    StarsLack("password");
    StarsLack("postgres://");
    StarsLack("postgresql://");
    assert STARS[0] == '*';
    assert !IsNameChar('*');
  }

  lemma {:induction false} StarsLack(f: string)
    requires f != "" && f[0] != '*'
    ensures !Contains(Lower(STARS), f)
  {
    hide Contains;
    var l := Lower(STARS);
    assert forall i :: 0 <= i < |l| ==> l[i] == '*';
    if Contains(l, f) {
      ContainsHead(l, f);
    }
  }

  /** What the connection-string rule puts for a constant is no name. */
  lemma {:induction false} NoName(t: Lexeme)
    requires t.WellFormed() && ConnRewrite(t).Some?
    ensures !IsConstantName(ConnRewrite(t).value.repl)
  {
    hide ConnString.RedactPasswords, TruncatedInHost, Undouble, ConnString.Double, AmbiguousEscapes, MentionsConnSecret;
    var u := ConnRewrite(t).value.repl;
    RedactedQuiet();
    if u != REDACTED && t.lo == 1 {
      var v := if t.kind == Dollar then t.Body() else Undouble(t.Body(), '\'');
      var red := ConnString.RedactPasswords(v);
      RedactedNoName(v);
      var c :| c in red && !IsNameChar(c) && c != '\'';
      DoubledNoName(red, c);
      BodyOf(t, if t.kind == Dollar then red else ConnString.Double(red, '\''));
    }
  }

  lemma {:induction false} RewrittenNoName(c: Context, ts: seq<Lexeme>)
    requires ts != [] && ts[0].WellFormed() && Decide(c, ts).Edit? && Decide(c, ts).from == 0
    ensures !IsConstantName(Decide(c, ts).repl)
  {
    hide Decide, ConnRewrite, IsSecret, IsSeparator, IsConstantName;
    EditShape(c, ts);
    NoName(ts[0]);
  }

  /** The connection-string rule rewrites no constant on the way. */
  predicate NoneRewritten(c: Context, s: Script)
    requires WellFormed(s.pieces)
    decreases |s.pieces|
  {
    var ps := s.pieces;
    ps == [] ||
    match Decide(c, Toks(ps))
    case Keep => NoneRewritten(Next(c, ps[0].tok), Script(ps[1..], s.tail))
    case Edit(from, to, repl, toEnd) =>
      && from > 0
      && (toEnd || NoneRewritten(After(c, Toks(ps[..from] + [Piece(ps[from].gap, repl)])), Script(ps[to..], s.tail)))
  }

  lemma {:induction false} NoneRewrittenStays(prev: Before, c: Context, s: Script)
    requires WellFormed(s.pieces) && NoneRewritten(c, s)
    ensures Apart(prev, c, s) && Stays(c, s)
    decreases |s.pieces|
  {
    hide Decide, Next, After;
    var ps := s.pieces;
    if ps != [] {
      match Decide(c, Toks(ps))
      case Keep =>
        NoneRewrittenStays(Behind(prev, ps[0]), Next(c, ps[0].tok), Script(ps[1..], s.tail));
      case Edit(from, to, repl, toEnd) =>
        if !toEnd {
          var kept := ps[..from] + [Piece(ps[from].gap, repl)];
          NoneRewrittenStays(Before(Some(repl), false), After(c, Toks(kept)), Script(ps[to..], s.tail));
        }
    }
  }
}
