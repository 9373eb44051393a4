/**
 What redaction is for: in what the walk makes, no value stands behind the name of a secret.
 */
module SqlHidden {
  import opened Text
  import opened SqlLexer
  import opened SqlRedact
  import opened SqlRelex
  import opened SqlIdempotence

  /** The placeholder stands at `m`, and no constant continues it. */
  predicate MaskedAt(us: seq<Lexeme>, m: nat)
    requires m < |us|
  {
    us[m] == REDACTED && (m + 1 < |us| ==> !us[m + 1].IsLiteral())
  }

  /** What follows a secret's name shows none of its value: a constant or, after a separator, a quoted
      identifier is the placeholder; what a SET command assigns is the placeholder, DEFAULT or a parameter. */
  predicate NameGuarded(c: Context, us: seq<Lexeme>)
    requires us != []
  {
    var separated := |us| > 1 && IsSeparator(us[1]);
    var m := if separated then 2 else 1;
    m < |us| ==>
      && (us[m].IsLiteral() ==> MaskedAt(us, m))
      && (separated && us[m].kind == QuotedIdent ==> us[m] == REDACTED_IDENT)
      && (separated && c.target && !us[m].IsLiteral() && us[m].kind != QuotedIdent ==> SetValue(us[m..]) == 0)
  }

  /** The same for a name given as a constant, with the value as the next argument. */
  predicate ConstantGuarded(us: seq<Lexeme>)
    requires us != []
  {
    IsSecretName(us[0].Body()) && |us| > 2 && us[1].Is(Other, ",") && us[2].IsLiteral() ==> MaskedAt(us, 2)
  }

  predicate Guarded(c: Context, us: seq<Lexeme>)
    requires us != []
  {
    (IsSecret(us[0]) ==> NameGuarded(c, us)) && (IsConstantName(us[0]) ==> ConstantGuarded(us))
  }

  /** Every name among the tokens is guarded. */
  predicate AllGuarded(c: Context, us: seq<Lexeme>)
    decreases |us|
  {
    us == [] || (Guarded(c, us) && AllGuarded(Next(c, us[0]), us[1..]))
  }

  lemma {:induction false} GuardedAt(c: Context, us: seq<Lexeme>, k: nat)
    requires k < |us| && AllGuarded(c, us)
    ensures Guarded(After(c, us[..k]), us[k..])
    decreases k
  {
    hide Guarded, Next;
    if k == 0 {
      assert us[..0] == [] && us[0..] == us;
    } else {
      GuardedAt(Next(c, us[0]), us[1..], k - 1);
      assert us[1..][k - 1..] == us[k..] && us[..k][1..] == us[1..][..k - 1] && us[..k][0] == us[0];
    }
  }

  // One step of the walk

  predicate Inert(t: Lexeme) { !IsSecret(t) && !IsConstantName(t) }

  lemma {:induction false} InertFront(c: Context, a: seq<Lexeme>, b: seq<Lexeme>)
    requires (forall i :: 0 <= i < |a| ==> Inert(a[i])) && AllGuarded(After(c, a), b)
    ensures AllGuarded(c, a + b)
    decreases |a|
  {
    hide Next, IsSecret, IsConstantName, NameGuarded, ConstantGuarded;
    if a == [] {
      assert a + b == b;
    } else {
      assert (a + b)[1..] == a[1..] + b && (a + b)[0] == a[0];
      InertFront(Next(c, a[0]), a[1..], b);
    }
  }

  lemma {:induction false} PlaceholderInert()
    ensures Inert(REDACTED) && Inert(REDACTED_IDENT)
  {
    hide IsSecretName, Undouble;
    RedactedQuiet();
    assert REDACTED_IDENT.Body() == STARS;
    StarsPlain();
    StarsNoSecret();
  }

  lemma {:induction false} StarsNoSecret()
    ensures !IsSecretName(STARS)
  {
    hide Contains, Lower;
    forall i | 0 <= i < |SECRET_FRAGMENTS| ensures !Contains(Lower(STARS), SECRET_FRAGMENTS[i]) {
      FragmentStart(i);
      StarsLack(SECRET_FRAGMENTS[i]);
    }
    StarsStart();
    forall i | 0 <= i < |WHOLE_VALUE_SETTINGS| ensures WHOLE_VALUE_SETTINGS[i] != Lower(STARS) {
      SettingStart(i);
    }
  }

  lemma {:induction false} StarsStart()
    ensures |Lower(STARS)| == 8 && Lower(STARS)[0] == '*'
  {
    assert STARS[0] == '*';
  }

  lemma {:induction false} FragmentStart(i: nat)
    requires i < |SECRET_FRAGMENTS|
    ensures SECRET_FRAGMENTS[i] != "" && SECRET_FRAGMENTS[i][0] != '*'
  {
  }

  lemma {:induction false} SettingStart(i: nat)
    requires i < |WHOLE_VALUE_SETTINGS|
    ensures WHOLE_VALUE_SETTINGS[i] != "" && WHOLE_VALUE_SETTINGS[i][0] != '*'
  {
  }

  lemma {:induction false} StarsPlain()
    ensures Undouble(STARS, '"') == STARS
  {
    assert forall i :: 0 <= i < |STARS| ==> STARS[i] == '*';
    UndoubleNone(STARS, '"');
  }

  lemma {:induction false} UndoubleNone(s: string, q: char)
    requires q !in s
    ensures Undouble(s, q) == s
    decreases |s|
  {
    if s != "" {
      UndoubleNone(s[1..], q);
      assert s == [s[0]] + s[1..];
    }
  }

  /** A token that is kept, here and when it is looked at again, is guarded. */
  lemma {:induction false} KeptGuarded(c: Context, us: seq<Lexeme>)
    requires us != [] && us[0].WellFormed() && Decide(c, us) == Keep
    ensures Guarded(c, us)
  {
    hide IsSecretName, NameOf, Lexeme.Is, ConnRewrite, SetValue, IsSeparator, Literals, AmbiguousEscapes;
    if us[0].IsLiteral() {
      assert !IsSecret(us[0]);
    }
  }

  /** A name whose value has been replaced is guarded. */
  lemma {:induction false} EditGuarded(c: Context, us: seq<Lexeme>, e: Step)
    requires us != [] && us[0].WellFormed() && Decide(c, us) == e && e.Edit? && 0 < e.from < |us| && e.to == e.from + 1
    requires us[e.from] == e.repl && (e.repl == REDACTED || e.repl == REDACTED_IDENT)
    ensures Guarded(c, us)
  {
    hide IsSecretName, NameOf, Lexeme.Is, ConnRewrite, SetValue, IsSeparator, AmbiguousEscapes;
    if us[e.from].IsLiteral() {
      var vs := us[e.from..];
      assert Literals(vs) >= 1;
      assert e.from + 1 < |us| ==> vs[1] == us[e.from + 1];
    }
  }

  /** The tokens in front of a value are a name or a constant, and a separator or a comma. */
  lemma {:induction false} FrontInert(c: Context, ts: seq<Lexeme>, e: Step)
    requires ts != [] && ts[0].WellFormed() && Decide(c, ts) == e && e.Edit? && e.from == 2
    ensures Inert(ts[1]) && (e.repl == REDACTED || e.repl == REDACTED_IDENT)
  {
    hide Decide, ConnRewrite, IsSecretName, NameOf;
    EditShape(c, ts);
    if IsSeparator(ts[1]) {
      SeparatorPlainly(ts[1]);
    }
  }

  // The walk

  lemma {:induction false} WalkGuarded(c: Context, s: Script)
    requires WellFormed(s.pieces)
    ensures AllGuarded(c, Toks(Walk(c, s).pieces))
    decreases |s.pieces|
  {
    hide Decide, Next, After, Alike, Guarded;
    WalkWellFormed(c, s);
    var ps, w := s.pieces, Walk(c, s);
    if ps == [] {
      assert Toks(w.pieces) == [];
    } else {
      match Decide(c, Toks(ps))
      case Keep =>
        var c1, rest := Next(c, ps[0].tok), Script(ps[1..], s.tail);
        WalkGuarded(c1, rest);
        KeepAlike(c, s);
        KeepAgain(c, Toks(ps), Toks(w.pieces));
        KeptGuarded(c, Toks(w.pieces));
        assert Toks(w.pieces)[1..] == Toks(Walk(c1, rest).pieces);
      case Edit(from, to, repl, toEnd) =>
        var kept := ps[..from] + [Piece(ps[from].gap, repl)];
        var r := Script([], []);
        if !toEnd {
          WalkGuarded(After(c, Toks(kept)), Script(ps[to..], s.tail));
          r := Walk(After(c, Toks(kept)), Script(ps[to..], s.tail));
        } else {
          assert Toks(r.pieces) == [];
        }
        assert kept + [] == kept;
        assert w == Script(kept + r.pieces, r.tail);
        EditStepGuarded(c, s, kept, r);
    }
  }

  lemma {:induction false} EditStepGuarded(c: Context, s: Script, kept: seq<Piece>, r: Script)
    requires WellFormed(s.pieces) && s.pieces != []
    requires var e := Decide(c, Toks(s.pieces));
             && e.Edit? && kept == s.pieces[..e.from] + [Piece(s.pieces[e.from].gap, e.repl)]
             && r == (if e.toEnd then Script([], []) else Walk(After(c, Toks(kept)), Script(s.pieces[e.to..], s.tail)))
    requires WellFormed(kept + r.pieces) && AllGuarded(After(c, Toks(kept)), Toks(r.pieces))
    ensures AllGuarded(c, Toks(kept + r.pieces))
  {
    hide Decide, Next, After, Walk, Inert, Guarded, AllGuarded;
    var ts, e := Toks(s.pieces), Decide(c, Toks(s.pieces));
    assert Toks(kept + r.pieces) == Toks(kept) + Toks(r.pieces);
    assert Toks(kept) == ts[..e.from] + [e.repl];
    if e.from == 0 {
      RewrittenInert(c, ts);
      InertFront(c, Toks(kept), Toks(r.pieces));
    } else {
      EditValueAgain(c, s, kept, r, e);
      ValueGuarded(c, ts, e, Toks(r.pieces));
    }
  }

  lemma {:induction false} ValueGuarded(c: Context, ts: seq<Lexeme>, e: Step, rest: seq<Lexeme>)
    requires ts != [] && ts[0].WellFormed() && Decide(c, ts) == e && e.Edit? && e.from > 0
    requires var us := ts[..e.from] + [e.repl] + rest;
             Decide(c, us) == Edit(e.from, e.from + 1, e.repl, false) && AllGuarded(After(c, ts[..e.from] + [e.repl]), rest)
    ensures AllGuarded(c, ts[..e.from] + [e.repl] + rest)
  {
    hide Decide, Next, Inert, Guarded;
    var front := ts[..e.from] + [e.repl];
    var us := front + rest;
    PlaceholderInert();
    FromIsShort(c, ts);
    ValueRepl(c, ts);
    EditGuarded(c, us, Edit(e.from, e.from + 1, e.repl, false));
    if e.from == 2 {
      FrontInert(c, ts, e);
    }
    assert front[1..] == if e.from == 2 then [ts[1], e.repl] else [e.repl];
    InertFront(Next(c, us[0]), front[1..], rest);
    assert us[1..] == front[1..] + rest && us[0] == ts[0];
  }

  lemma {:induction false} ValueRepl(c: Context, ts: seq<Lexeme>)
    requires ts != [] && ts[0].WellFormed() && Decide(c, ts).Edit? && Decide(c, ts).from > 0
    ensures Decide(c, ts).repl == REDACTED || Decide(c, ts).repl == REDACTED_IDENT
  {
    hide Decide, ConnRewrite;
    EditShape(c, ts);
  }

  lemma {:induction false} RewrittenInert(c: Context, ts: seq<Lexeme>)
    requires ts != [] && ts[0].WellFormed() && Decide(c, ts).Edit? && Decide(c, ts).from == 0
    ensures Inert(Decide(c, ts).repl)
  {
    hide Decide, IsConstantName, IsSecretName;
    EditHead(c, ts);
    RewrittenNoName(c, ts);
  }
}
