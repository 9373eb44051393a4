/**
 Exactly where a name in a redacted statement, read again, has a value other than the plain placeholder.
 */
module SqlExposed {
  import opened Text
  import opened SqlLexer
  import opened SqlBoundary
  import opened SqlChain
  import opened SqlRedact
  import opened SqlGate
  import opened SqlRelex
  import opened SqlTarget
  import opened SqlIdempotence
  import opened SqlApart
  import opened SqlFused
  import opened SqlHidden
  import opened SqlChanges
  import ConnString

  // In the statement

  /** The constant is replaced by the placeholder, which starts otherwise than it does. */
  predicate IsGivenUp(p: Piece) {
    && p.gap == [] && p.tok.WellFormed() && p.tok.IsLiteral() && p.tok.text[0] != '\''
    && ConnRewrite(p.tok).Some? && ConnRewrite(p.tok).value.repl == REDACTED
  }

  /** A U, an ampersand and a constant that is given up, one directly behind the other. */
  predicate Unites(ps: seq<Piece>) { |ps| > 2 && IsU(ps[0].tok) && IsAmp(ps[1]) && IsGivenUp(ps[2]) }

  /** Where the value of a name starts. */
  function ValueAt(ps: seq<Piece>): nat { if |ps| > 1 && IsSeparator(ps[1].tok) then 2 else 1 }

  /** A secret's name, as an identifier or as a constant with a comma, stands directly in front of these. */
  predicate NameBefore(ps: seq<Piece>) {
    && ps != []
    && (|| (IsSecret(ps[0].tok) && ValueAt(ps) <= |ps| && Unites(ps[ValueAt(ps)..]))
        || (IsConstantName(ps[0].tok) && IsSecretName(ps[0].tok.Body()) && |ps| > 1 && ps[1].tok.Is(Other, ",") && Unites(ps[2..])))
  }

  /** A name that nothing is done about stands directly in front of a U, an ampersand and a constant that is
      given up, or such a run directly follows a value that is replaced. */
  predicate Exposes(c: Context, s: Script)
    requires WellFormed(s.pieces)
    decreases |s.pieces|
  {
    var ps := s.pieces;
    ps != [] &&
    match Decide(c, Toks(ps))
    case Keep => NameBefore(ps) || Exposes(Next(c, ps[0].tok), Script(ps[1..], s.tail))
    case Edit(from, to, repl, toEnd) =>
      && !toEnd
      && (|| (from > 0 && repl == REDACTED && Unites(ps[to..]))
          || Exposes(After(c, Toks(ps[..from] + [Piece(ps[from].gap, repl)])), Script(ps[to..], s.tail)))
  }

  // In what the walk makes

  predicate UniteAt(ps: seq<Piece>) { |ps| > 2 && IsU(ps[0].tok) && IsAmp(ps[1]) && OpensPlain(ps[2]) }

  predicate Reaches(ps: seq<Piece>, m: nat) {
    m <= |ps| && (UniteAt(ps[m..]) || (m < |ps| && ps[m].tok == REDACTED && UniteAt(ps[m + 1..])))
  }

  predicate BareHere(ps: seq<Piece>) {
    && ps != []
    && (|| (IsSecret(ps[0].tok) && Reaches(ps, ValueAt(ps)))
        || (IsConstantName(ps[0].tok) && IsSecretName(ps[0].tok.Body()) && |ps| > 1 && ps[1].tok.Is(Other, ",") && Reaches(ps, 2)))
  }

  predicate Bare(ps: seq<Piece>) { ps != [] && (BareHere(ps) || Bare(ps[1..])) }

  // What stands where after fusing

  lemma {:induction false} FuseSame(p: Piece, ps: seq<Piece>)
    requires p.tok.kind != Str && !IsU(p.tok)
    ensures Fuse([p] + ps) == [p] + Fuse(ps)
  {
    assert ([p] + ps)[1..] == ps;
  }

  lemma {:induction false} ValueFuses(qs: seq<Piece>)
    requires qs != [] && WellFormed(qs)
    ensures Fuse(qs) != [] && (Fuse(qs)[0].tok.IsLiteral() <==> qs[0].tok.IsLiteral() || UniteAt(qs))
    ensures !qs[0].tok.IsLiteral() && !UniteAt(qs) ==> Fuse(qs) == [qs[0]] + Fuse(qs[1..])
    ensures UniteAt(qs) ==> Fuse(qs)[0].tok != REDACTED
    ensures qs[0].tok.IsLiteral() && (|qs| > 1 ==> !qs[1].tok.IsLiteral()) ==> Fuse(qs) == [qs[0]] + Fuse(qs[1..])
  {
    hide Lower, Fuse;
    FuseStep(qs);
    var fs := Fuse(qs[1..]);
    if |qs| > 1 {
      FuseHead(qs[1..]);
      if |qs| > 2 && IsAmp(qs[1]) {
        AmpPlain(qs[1]);
        FuseSame(qs[1], qs[2..]);
        assert qs[1..] == [qs[1]] + qs[2..];
        FuseHead(qs[2..]);
      }
      AmpBehind(qs[1..]);
    } else {
      FuseNone(qs[1..]);
    }
    if IsU(qs[0].tok) {
      UText(qs[0].tok);
    }
  }

  lemma {:induction false} FuseStep(ps: seq<Piece>)
    requires ps != []
    ensures Fuse(ps) == FuseOn(ps[0], Fuse(ps[1..]))
  {
  }

  lemma {:induction false} FuseNone(ps: seq<Piece>)
    requires ps == []
    ensures Fuse(ps) == []
  {
  }

  lemma {:induction false} AmpPlain(p: Piece)
    requires IsAmp(p)
    ensures p.tok.kind != Str && !IsU(p.tok)
  {
  }

  /** An ampersand among the fused pieces was one before. */
  lemma {:induction false} AmpBehind(qs: seq<Piece>)
    requires qs != []
    ensures Fuse(qs) != [] && (IsAmp(Fuse(qs)[0]) ==> Fuse(qs)[0] == qs[0] && Fuse(qs) == [qs[0]] + Fuse(qs[1..]))
    ensures |Fuse(qs)| > 1 && IsAmp(Fuse(qs)[0]) ==> |qs| > 1
  {
    if |qs| == 1 {
      assert qs[1..] == [];
    }
  }

  // Guarded names

  /** A SET command that assigns nothing still does when what follows is fused. */
  lemma {:induction false} NoValueFuses(qs: seq<Piece>)
    requires qs != [] && WellFormed(qs) && !qs[0].tok.IsLiteral() && !UniteAt(qs) && SetValue(Toks(qs)) == 0
    ensures SetValue(Toks(Fuse(qs))) == 0
  {
    hide Fuse, HoldsNoSecret, Lexeme.Is, UniteAt, IsU;
    var ts, us, fs := Toks(qs), Toks(Fuse(qs)), Fuse(qs[1..]);
    ValueFuses(qs);
    assert us[0] == ts[0];
    if UpToSemicolon(ts) == 1 {
      if |qs| == 1 {
        FuseNone(qs[1..]);
        assert us == ts;
      } else {
        assert ts[1].Is(Other, ";");
        SemicolonPlain(qs[1]);
        FuseSame(qs[1], qs[2..]);
        assert qs[1..] == [qs[1]] + qs[2..];
        assert us[1] == ts[1];
        assert us[1..][0] == us[1];
      }
    }
  }

  lemma {:induction false} SemicolonPlain(p: Piece)
    requires p.tok.Is(Other, ";") || p.tok.Is(Other, ",")
    ensures p.tok.kind != Str && !IsU(p.tok)
  {
    hide Lower;
  }

  lemma {:induction false} SeparatorPlain(p: Piece)
    requires IsSeparator(p.tok)
    ensures p.tok.kind != Str && !IsU(p.tok)
  {
    if p.tok.kind == Ident {
      assert |Lower(p.tok.text)| == |Lower("to")| == 2 && |Lower("u")| == 1;
    }
  }

  /** The value of a name, before and after fusing. */
  lemma {:induction false} ValueMasked(ts: seq<Lexeme>, us: seq<Lexeme>, qs: seq<Piece>, m: nat)
    requires qs != [] && WellFormed(qs) && m < |ts| && ts[m..] == Toks(qs) && m < |us| && us[m..] == Toks(Fuse(qs))
    requires ts[m].IsLiteral() ==> MaskedAt(ts, m)
    ensures (us[m].IsLiteral() ==> MaskedAt(us, m)) <==> !UniteAt(qs) && !(qs[0].tok == REDACTED && UniteAt(qs[1..]))
    ensures !us[m].IsLiteral() ==> us[m] == ts[m] && !UniteAt(qs)
  {
    hide Fuse, UniteAt;
    var gs := Fuse(qs);
    ValueFuses(qs);
    assert ts[m] == qs[0].tok && us[m] == gs[0].tok;
    assert |qs| > 1 ==> ts[m + 1] == ts[m..][1] == qs[1].tok;
    assert |gs| > 1 ==> us[m + 1] == us[m..][1] == gs[1].tok;
    assert |us| == m + |gs| && |ts| == m + |qs|;
    NoUnite(qs);
    if qs[0].tok.IsLiteral() {
      if |qs| > 1 {
        ValueFuses(qs[1..]);
        assert gs[1] == Fuse(qs[1..])[0];
      } else {
        FuseNone(qs[1..]);
        NoUnite(qs[1..]);
      }
    } else {
      RedactedLiteral();
    }
  }

  lemma {:induction false} RedactedLiteral()
    ensures REDACTED.IsLiteral()
  {
  }

  lemma {:induction false} NoUnite(qs: seq<Piece>)
    ensures UniteAt(qs) ==> qs != [] && !qs[0].tok.IsLiteral()
  {
    hide Lower;
  }

  /** The tokens from the value on. */
  lemma {:induction false} FusedBehind(ps: seq<Piece>, m: nat)
    requires 1 <= m <= 2 && m <= |ps|
    requires m == 2 ==> ps[1].tok.kind != Str && !IsU(ps[1].tok)
    ensures var us := [ps[0].tok] + Toks(Fuse(ps[1..]));
            m <= |us| && (m < |ps| ==> m < |us|) && us[m..] == Toks(Fuse(ps[m..])) && (m == 2 ==> us[1] == ps[1].tok) && Toks(ps)[m..] == Toks(ps[m..])
  {
    hide Fuse, IsU;
    if m == 2 {
      FuseSame(ps[1], ps[2..]);
      assert ps[1..] == [ps[1]] + ps[2..];
    }
    if m < |ps| {
      FuseStep(ps[m..]);
    }
  }

  /** Fusing brings in no separator or comma. */
  lemma {:induction false} SecondFuses(ps: seq<Piece>)
    requires ps != [] && WellFormed(ps)
    ensures var us := [ps[0].tok] + Toks(Fuse(ps[1..]));
            && (|us| > 1 <==> |ps| > 1)
            && (|us| > 1 ==> (IsSeparator(us[1]) <==> IsSeparator(ps[1].tok)) && (us[1].Is(Other, ",") <==> ps[1].tok.Is(Other, ",")))
  {
    hide Fuse, Lower, UniteAt;
    if |ps| > 1 {
      ValueFuses(ps[1..]);
      NoUnite(ps[1..]);
      if UniteAt(ps[1..]) {
        UniteSecond(ps[1..]);
      }
      assert WellFormed(ps[1..]);
    } else {
      FuseNone(ps[1..]);
    }
  }

  lemma {:induction false} UniteSecond(qs: seq<Piece>)
    requires UniteAt(qs)
    ensures !IsSeparator(qs[0].tok) && !qs[0].tok.Is(Other, ",")
  {
    if IsSeparator(qs[0].tok) {
      SeparatorPlain(qs[0]);
    }
  }

  /** A guarded name stays guarded if and only if no fused constant has come into its reach. */
  lemma {:induction false} NameFuses(c: Context, ps: seq<Piece>)
    requires ps != [] && WellFormed(ps) && IsSecret(ps[0].tok) && NameGuarded(c, Toks(ps))
    ensures NameGuarded(c, [ps[0].tok] + Toks(Fuse(ps[1..]))) <==> !Reaches(ps, ValueAt(ps))
  {
    hide Fuse, UniteAt, IsSecret, SetValue, Lexeme.Is, IsSeparator, MaskedAt;
    var us, ts := [ps[0].tok] + Toks(Fuse(ps[1..])), Toks(ps);
    SecondFuses(ps);
    var m := ValueAt(ps);
    if m <= |ps| {
      if m == 2 {
        SeparatorPlain(ps[1]);
      }
      FusedBehind(ps, m);
      var qs := ps[m..];
      assert WellFormed(qs);
      if qs == [] {
        FuseNone(qs);
        NoUnite(qs);
      } else {
        ValueMasked(ts, us, qs, m);
        assert qs[1..] == ps[m + 1..] && qs[0] == ps[m];
        if SetValue(Toks(qs)) == 0 && !qs[0].tok.IsLiteral() && !UniteAt(qs) {
          NoValueFuses(qs);
        }
      }
    }
  }

  lemma {:induction false} ConstantFuses(ps: seq<Piece>)
    requires ps != [] && WellFormed(ps) && ConstantGuarded(Toks(ps)) && IsSecretName(ps[0].tok.Body())
    ensures ConstantGuarded([ps[0].tok] + Toks(Fuse(ps[1..]))) <==> !(|ps| > 1 && ps[1].tok.Is(Other, ",") && Reaches(ps, 2))
  {
    hide Fuse, UniteAt, Lexeme.Is, IsSeparator, MaskedAt;
    var us, ts := [ps[0].tok] + Toks(Fuse(ps[1..])), Toks(ps);
    SecondFuses(ps);
    if |ps| > 1 && ps[1].tok.Is(Other, ",") {
      SemicolonPlain(ps[1]);
      FusedBehind(ps, 2);
      var qs := ps[2..];
      if qs == [] {
        FuseNone(qs);
        NoUnite(qs);
      } else {
        ValueMasked(ts, us, qs, 2);
        assert qs[1..] == ps[3..] && qs[0] == ps[2];
      }
    }
  }

  /** A token whose body, if it is a string, is behind a quote, and in front of one if it is closed. */
  predicate Solid(t: Lexeme) {
    t.WellFormed() && (t.kind == Str ==> 0 < t.lo && (t.terminated ==> t.hi + 1 == |t.text| && t.text[t.hi] == '\''))
  }

  predicate AllSolid(ps: seq<Piece>) { forall i :: 0 <= i < |ps| ==> Solid(ps[i].tok) }

  /** What is fused is no name. */
  lemma {:induction false} JoinedInert(t: Lexeme, u: Lexeme)
    requires Solid(t) && t.kind == Str && Solid(u) && u.kind == Str && "'" <= u.text
    ensures Inert(Joined(t, u)) && Solid(Joined(t, u))
  {
    hide IsSecretName;
    var m := Joined(t, u);
    assert m.text[|t.text|] == '\'';
    if t.lo == 1 {
      assert m.Body()[|t.text| - 1] == '\'';
    }
  }

  lemma {:induction false} UnifiedInert(u: Lexeme, a: Lexeme, t: Lexeme)
    requires IsU(u) && a.text == "&" && Solid(t) && t.kind == Str
    ensures Inert(Unified(u, a, t)) && Solid(Unified(u, a, t))
  {
    hide IsSecretName, IsU;
    UText(u);
  }

  lemma {:induction false} FusedInert(p: Piece, fs: seq<Piece>)
    requires Solid(p.tok) && AllSolid(fs)
    ensures FuseOn(p, fs) != [p] + fs ==> Inert(FuseOn(p, fs)[0].tok)
    ensures Solid(FuseOn(p, fs)[0].tok) && AllSolid(FuseOn(p, fs))
  {
    hide Solid, Inert, IsU, Joined, Unified;
    var gs := FuseOn(p, fs);
    if fs != [] && p.tok.kind == Str && OpensPlain(fs[0]) {
      JoinedInert(p.tok, fs[0].tok);
      assert gs == [gs[0]] + fs[1..];
    } else if |fs| > 1 && IsU(p.tok) && IsAmp(fs[0]) && OpensPlain(fs[1]) {
      UnifiedInert(p.tok, fs[0].tok, fs[1].tok);
      assert gs == [gs[0]] + fs[2..];
    }
  }

  lemma {:induction false} FuseSolid(ps: seq<Piece>)
    requires AllSolid(ps)
    ensures AllSolid(Fuse(ps))
    decreases |ps|
  {
    hide Solid, FuseOn;
    if ps != [] {
      FuseSolid(ps[1..]);
      FusedInert(ps[0], Fuse(ps[1..]));
    }
  }

  /** Plain constants directly behind a string, or an ampersand behind a U, are starry. */
  predicate Glued(prev: Before, ps: seq<Piece>)
    decreases |ps|
  {
    ps == [] ||
    (&& (prev.tok.Some? && (prev.tok.value.kind == Str || prev.hot) && OpensPlain(ps[0]) ==>
           Starry(ps[0].tok) && (prev.tok.value.kind == Str ==> prev.tok.value.terminated))
     && Glued(Behind(prev, ps[0]), ps[1..]))
  }

  lemma {:induction false} StarryInert(t: Lexeme)
    requires Starry(t)
    ensures Inert(t)
  {
    hide IsSecretName;
    assert t.Body() != "" ==> t.Body()[0] == t.text[1];
  }

  lemma {:induction false} FusedStarry(ps: seq<Piece>)
    requires ps != [] && AllSolid(ps) && Starry(ps[0].tok)
    ensures Fuse(ps) != [] && Inert(Fuse(ps)[0].tok) && Fuse(ps)[0].tok.IsLiteral()
  {
    hide Fuse, Solid, Inert, Starry, IsU, Joined;
    FuseStep(ps);
    assert AllSolid(ps[1..]);
    FuseSolid(ps[1..]);
    FusedInert(ps[0], Fuse(ps[1..]));
    StarryInert(ps[0].tok);
    StarryIs(ps[0].tok);
    ValueFuses(ps) by { assert WellFormed(ps) by { SolidFormed(ps); } }
  }

  lemma {:induction false} SolidFormed(ps: seq<Piece>)
    requires AllSolid(ps)
    ensures WellFormed(ps)
  {
  }

  /** An inert constant in front. */
  lemma {:induction false} InertFirst(c: Context, t: Lexeme, us: seq<Lexeme>)
    requires Inert(t)
    ensures AllGuarded(c, [t] + us) <==> AllGuarded(Next(c, t), us)
    ensures t.IsLiteral() ==> Next(c, t) == START
  {
    hide Next, IsSecret, IsConstantName, NameGuarded, ConstantGuarded;
    assert ([t] + us)[1..] == us;
    if t.IsLiteral() {
      AfterLiteral(c, t);
    }
  }

  /** In what is guarded, the names stay guarded if and only if no fused constant is in reach of one. */
  lemma {:induction false} GuardedFused(prev: Before, c: Context, ps: seq<Piece>)
    requires AllSolid(ps) && Glued(prev, ps) && AllGuarded(c, Toks(ps))
    ensures AllGuarded(c, Toks(Fuse(ps))) <==> !Bare(ps)
    decreases |ps|
  {
    hide Solid, Inert, FuseOn, IsU, Next, Guarded, BareHere, OpensPlain, Starry, IsAmp;
    if ps == [] {
      assert Toks(Fuse(ps)) == [];
    } else {
      var p, rest := ps[0], ps[1..];
      var fs := Fuse(rest);
      assert Toks(ps)[1..] == Toks(rest) && Toks(ps)[0] == p.tok;
      GuardedFused(Behind(prev, p), Next(c, p.tok), rest);
      FuseSolid(rest);
      SolidFormed(ps);
      if FuseOn(p, fs) == [p] + fs {
        assert Toks(Fuse(ps)) == [p.tok] + Toks(fs);
        assert ([p.tok] + Toks(fs))[1..] == Toks(fs);
        HereFuses(c, ps);
      } else {
        FusesInert(prev, c, ps);
      }
    }
  }

  lemma {:induction false} HereFuses(c: Context, ps: seq<Piece>)
    requires ps != [] && WellFormed(ps) && Guarded(c, Toks(ps))
    ensures Guarded(c, [ps[0].tok] + Toks(Fuse(ps[1..]))) <==> !BareHere(ps)
  {
    hide IsSecretName, NameOf, Fuse, NameGuarded, ConstantGuarded, Reaches, Lexeme.Is;
    if IsSecret(ps[0].tok) {
      NameFuses(c, ps);
    } else if IsConstantName(ps[0].tok) {
      if IsSecretName(ps[0].tok.Body()) {
        ConstantFuses(ps);
      } else {
        NoSecretConstant([ps[0].tok] + Toks(Fuse(ps[1..])));
      }
    }
  }

  lemma {:induction false} NoSecretConstant(us: seq<Lexeme>)
    requires us != [] && !IsSecretName(us[0].Body())
    ensures ConstantGuarded(us)
  {
  }

  /** A piece that is fused with what follows, and that, are no names. */
  lemma {:induction false} FusesInert(prev: Before, c: Context, ps: seq<Piece>)
    requires ps != [] && AllSolid(ps) && Glued(prev, ps) && FuseOn(ps[0], Fuse(ps[1..])) != [ps[0]] + Fuse(ps[1..])
    ensures AllGuarded(c, Toks(Fuse(ps))) <==> AllGuarded(Next(c, ps[0].tok), Toks(Fuse(ps[1..])))
    ensures !BareHere(ps)
  {
    hide Solid, Inert, IsU, Next, Guarded, AllGuarded, OpensPlain, Starry, Joined, Unified, Fuse, IsAmp;
    var p, rest := ps[0], ps[1..];
    var fs, gs := Fuse(rest), FuseOn(p, Fuse(rest));
    FuseStep(ps);
    SolidFormed(ps);
    FuseSolid(rest);
    FusedInert(p, fs);
    assert rest != [] by { if rest == [] { FuseNone(rest); } }
    FusedFront(prev, ps);
    var k := |fs| + 1 - |gs|;
    assert Toks(gs) == [gs[0].tok] + Toks(fs[k..]);
    InertFirst(c, gs[0].tok, Toks(fs[k..]));
    InertRun(Next(c, p.tok), Toks(fs), k);
    assert Toks(fs)[k..] == Toks(fs[k..]);
  }

  lemma {:induction false} FusedFront(prev: Before, ps: seq<Piece>)
    requires ps != [] && AllSolid(ps) && Glued(prev, ps) && FuseOn(ps[0], Fuse(ps[1..])) != [ps[0]] + Fuse(ps[1..])
    ensures var fs, gs := Fuse(ps[1..]), FuseOn(ps[0], Fuse(ps[1..]));
            var k := |fs| + 1 - |gs|;
            && 1 <= k <= 2 && k <= |fs| && gs == [gs[0]] + fs[k..] && gs[0].tok.IsLiteral()
            && fs[k - 1].tok.IsLiteral() && forall i :: 0 <= i < k ==> Inert(fs[i].tok)
    ensures !BareHere(ps)
  {
    hide Solid, Inert, IsU, Starry, Fuse, Reaches, IsSecretName;
    var p, rest := ps[0], ps[1..];
    var fs := Fuse(rest);
    SolidFormed(ps);
    SolidFormed(rest);
    if fs != [] && p.tok.kind == Str && OpensPlain(fs[0]) {
      assert rest != [] by { if rest == [] { FuseNone(rest); } }
      FuseHead(rest);
      assert Starry(rest[0].tok);
      FusedStarry(rest);
      StringKind(p, rest[0]);
    } else {
      UFront(prev, ps);
    }
  }

  lemma {:induction false} StringKind(p: Piece, q: Piece)
    requires p.tok.kind == Str && q.tok.kind == Str
    ensures !IsSecret(p.tok) && !q.tok.Is(Other, ",")
  {
  }

  lemma {:induction false} UFront(prev: Before, ps: seq<Piece>)
    requires ps != [] && AllSolid(ps) && Glued(prev, ps) && IsU(ps[0].tok)
    requires var fs := Fuse(ps[1..]); |fs| > 1 && IsAmp(fs[0]) && OpensPlain(fs[1])
    ensures var fs := Fuse(ps[1..]); Inert(fs[0].tok) && Inert(fs[1].tok) && fs[1].tok.IsLiteral() && !BareHere(ps)
  {
    hide Solid, Inert, Starry, Fuse, Reaches, Lower, IsSecretName;
    var p, rest := ps[0], ps[1..];
    var fs := Fuse(rest);
    assert rest != [] by { if rest == [] { FuseNone(rest); } }
    AmpBehind(rest);
    assert fs[1..] == Fuse(rest[1..]);
    SolidFormed(ps);
    assert rest[1] == ps[2];
    FuseHead(rest[1..]);
    HotHere(prev, p, rest[0]);
    assert Glued(Behind(prev, p), rest) && Glued(Behind(Behind(prev, p), rest[0]), rest[1..]);
    assert Starry(rest[1..][0].tok);
    FusedStarry(rest[1..]);
    AmpInert(fs[0]);
    UNoName(p.tok);
  }

  lemma {:induction false} HotHere(prev: Before, p: Piece, q: Piece)
    requires IsU(p.tok) && IsAmp(q)
    ensures Behind(Behind(prev, p), q).hot
  {
    hide Lower;
  }

  lemma {:induction false} AmpInert(p: Piece)
    requires IsAmp(p)
    ensures Inert(p.tok)
  {
  }

  lemma {:induction false} UNoName(u: Lexeme)
    requires IsU(u)
    ensures !IsSecret(u) && !IsConstantName(u)
  {
    hide IsSecretName;
    UText(u);
    if IsSecretName(u.text) {
      LongName(u.text);
    }
  }

  /** Inert tokens of which the last is a constant. */
  lemma {:induction false} InertRun(c: Context, us: seq<Lexeme>, k: nat)
    requires 1 <= k <= 2 && k <= |us| && us[k - 1].IsLiteral() && forall i :: 0 <= i < k ==> Inert(us[i])
    ensures AllGuarded(c, us) <==> AllGuarded(START, us[k..])
  {
    hide Inert, AllGuarded, Next;
    assert us == [us[0]] + us[1..];
    InertFirst(c, us[0], us[1..]);
    if k == 2 {
      assert us[1..] == [us[1]] + us[2..];
      InertFirst(Next(c, us[0]), us[1], us[2..]);
    }
  }

  // What the walk makes

  /** The first piece that the walk makes. */
  lemma {:induction false} WalkFirst(c: Context, s: Script)
    requires WellFormed(s.pieces) && s.pieces != []
    ensures var w, p := Walk(c, s).pieces, s.pieces[0];
            && w != [] && w[0].gap == p.gap
            && (|| w[0].tok == p.tok
                || (p.tok.IsLiteral() && ConnRewrite(p.tok).Some? && w[0].tok == ConnRewrite(p.tok).value.repl))
  {
    hide Decide, Next, After, ConnRewrite;
    var ps := s.pieces;
    match Decide(c, Toks(ps))
    case Keep =>
    case Edit(from, to, repl, toEnd) =>
      EditShape(c, Toks(ps));
      var kept := ps[..from] + [Piece(ps[from].gap, repl)];
      assert kept[0] == if from == 0 then Piece(ps[0].gap, repl) else ps[0];
  }

  /** A statement behind a token that may be followed by it. */
  predicate Stands(prev: Before, s: Script) {
    && Sound(s)
    && (prev.tok.Some? ==> Ends(prev.tok.value, Join(Ungroup(s))))
    && (prev.hot ==> !("'" <= Join(Ungroup(s))))
  }

  lemma {:induction false} StandsBehind(prev: Before, s: Script)
    requires Stands(prev, s) && s.pieces != []
    ensures Stands(Behind(prev, s.pieces[0]), Script(s.pieces[1..], s.tail))
  {
    hide Fits, Chain, Ends, Ungroup, Lower;
    var p, rest := s.pieces[0], Script(s.pieces[1..], s.tail);
    SoundRest(s, 1);
    Behead(s);
    FitsEnds(p.tok, Join(Ungroup(rest)));
    if Behind(prev, p).hot {
      HotIs(prev, s);
      HeadText(s);
      NoFusedU(prev.tok.value, Join(Ungroup(s)), Join(Ungroup(rest)));
    }
  }

  /** No plain constant stands where it would be read together with what is in front. */
  lemma {:induction false} NotOpen(prev: Before, s: Script)
    requires Stands(prev, s) && s.pieces != [] && prev.tok.Some? && (prev.tok.value.kind == Str || prev.hot)
    ensures !(s.pieces[0].gap == [] && "'" <= s.pieces[0].tok.text)
  {
    hide Fits, Chain, Ungroup, Lower, BlockScan, OpensDollar;
    HeadText(s);
  }

  /** The constants that the walk rewrites open as they did, or are the placeholder. */
  lemma {:induction false} RewriteOpens(s: Script, rw: Rewrite)
    requires Sound(s) && s.pieces != [] && s.pieces[0].tok.IsLiteral() && ConnRewrite(s.pieces[0].tok) == Some(rw)
    ensures Solid(rw.repl) && (rw.repl == REDACTED || rw.repl.text[0] == s.pieces[0].tok.text[0])
    ensures Solid(s.pieces[0].tok)
  {
    hide Fits, Chain, Flatten, ConnRewrite, REDACTED;
    var t := s.pieces[0].tok;
    SoundFirst(s);
    OpeningKept(t, Join(Flatten(s.pieces[1..]) + s.tail));
    RewriteKinds(t);
    RewriteWellFormed(t);
    RewriteClosed(t);
    RedactedSolid();
    TokenSolid(s);
  }

  lemma {:induction false} RedactedSolid()
    ensures Solid(REDACTED) && Solid(REDACTED_IDENT)
  {
  }

  lemma {:induction false} RewriteClosed(t: Lexeme)
    requires t.WellFormed() && t.IsLiteral() && ConnRewrite(t).Some?
    ensures var u := ConnRewrite(t).value.repl;
            u == REDACTED || (u.lo == t.lo && (u.kind == Str && u.terminated ==> u.hi + 1 == |u.text| && u.text[u.hi] == '\''))
  {
    hide MentionsConnSecret, TruncatedInHost, ConnString.RedactPasswords, Undouble, ConnString.Double, AmbiguousEscapes, REDACTED;
  }

  lemma {:induction false} TokenSolid(s: Script)
    requires Sound(s) && s.pieces != []
    ensures Solid(s.pieces[0].tok)
  {
    hide Fits, Chain, Flatten;
    SoundFirst(s);
    var t, r := s.pieces[0].tok, Join(Flatten(s.pieces[1..]) + s.tail);
    if t.kind == Str {
      OpeningKept(t, r);
      if t.terminated {
        StringCloses(t, r);
      }
    }
  }

  lemma {:induction false} StringCloses(t: Lexeme, r: string)
    requires Fits(t, r) && t.kind == Str && t.terminated && t.WellFormed() && 0 < t.lo
    ensures t.hi + 1 == |t.text| && t.text[t.hi] == '\''
  {
    hide First, Fits;
    ClosedString(t, r);
    assert |t.text| == t.lo + |t.Body()| + 1;
  }

  lemma {:induction false} AllTokensSolid(s: Script)
    requires Sound(s)
    ensures AllSolid(s.pieces)
    decreases |s.pieces|
  {
    hide Sound, Solid;
    if s.pieces != [] {
      TokenSolid(s);
      SoundRest(s, 1);
      AllTokensSolid(Script(s.pieces[1..], s.tail));
      assert forall i :: 0 < i < |s.pieces| ==> s.pieces[i] == s.pieces[1..][i - 1];
    }
  }

  /** What the walk makes is solid, and glued to nothing but placeholders. */
  lemma {:induction false} WalkGlued(prev: Before, c: Context, s: Script)
    requires Stands(prev, s)
    ensures Glued(prev, Walk(c, s).pieces) && AllSolid(Walk(c, s).pieces)
    decreases |s.pieces|, 1
  {
    hide Decide, Next, After, Stands, Glued, Solid, ConnRewrite, Behind;
    var ps := s.pieces;
    StandsSound(prev, s);
    if ps == [] {
      GluedNothing(prev, Walk(c, s).pieces);
    } else {
      match Decide(c, Toks(ps))
      case Keep =>
        var c1, rest := Next(c, ps[0].tok), Script(ps[1..], s.tail);
        StandsBehind(prev, s);
        WalkGlued(Behind(prev, ps[0]), c1, rest);
        TokenSolid(s);
        GluedKept(prev, s, Walk(c1, rest).pieces);
      case Edit(from, to, repl, toEnd) =>
        EditGlued(prev, c, s);
    }
  }

  lemma {:induction false} StandsSound(prev: Before, s: Script)
    requires Stands(prev, s)
    ensures Sound(s)
  {
  }

  lemma {:induction false} GluedNothing(prev: Before, ps: seq<Piece>)
    requires ps == []
    ensures Glued(prev, ps)
  {
  }

  lemma {:induction false} GluedKept(prev: Before, s: Script, w: seq<Piece>)
    requires Stands(prev, s) && s.pieces != [] && Glued(Behind(prev, s.pieces[0]), w)
    ensures Glued(prev, [s.pieces[0]] + w)
  {
    hide Stands, Behind, Starry;
    var p := s.pieces[0];
    assert ([p] + w)[1..] == w;
    if prev.tok.Some? && (prev.tok.value.kind == Str || prev.hot) {
      NotOpen(prev, s);
    }
  }

  /** Behind a replacement. */
  lemma {:induction false} StandsAfter(prev: Before, c: Context, s: Script)
    requires Stands(prev, s) && s.pieces != []
    requires var e := Decide(c, Toks(s.pieces)); e.Edit? && !e.toEnd
    ensures var e := Decide(c, Toks(s.pieces)); Stands(Before(Some(e.repl), false), Script(s.pieces[e.to..], s.tail))
  {
    hide Decide, Fits, Ends, Chain, Flatten, ConnRewrite, IsSecret, IsSeparator, Lexeme.Is;
    var ps, e := s.pieces, Decide(c, Toks(s.pieces));
    SoundRest(s, e.to);
    EditShape(c, Toks(ps));
    if e.from > 0 {
      ValueEdits(c, Toks(ps));
      ValueEnds(ps, e.from, e.to, e.repl, s.tail);
    } else {
      SoundFirst(s);
      RewriteEnds(ps[0].tok, Rewrite(e.repl, e.toEnd), Join(Flatten(ps[1..]) + s.tail));
    }
  }

  lemma {:induction false} ValueEdits(c: Context, ts: seq<Lexeme>)
    requires ts != [] && ts[0].WellFormed() && Decide(c, ts).Edit? && Decide(c, ts).from > 0
    ensures var e := Decide(c, ts); ValueEdit(ts, e.from, e.to, e.repl) && e.from <= 2
    ensures var e := Decide(c, ts); e.from == 2 ==> ts[1].kind != Str && Inert(ts[1]) && !IsU(ts[1])
    ensures Decide(c, ts).from == 1 ==> ts[0].kind != Str
    ensures Decide(c, ts).repl == REDACTED || Decide(c, ts).repl == REDACTED_IDENT
  {
    hide Decide, ConnRewrite, IsSecretName, Lexeme.Is, Inert, IsU;
    var e := Decide(c, ts);
    EditShape(c, ts);
    if e.from == 2 {
      FrontInert(c, ts, e);
      if IsSeparator(ts[1]) {
        SeparatorPlain(Piece([], ts[1]));
      } else {
        SemicolonPlain(Piece([], ts[1]));
      }
    }
  }

  lemma {:induction false} EditGlued(prev: Before, c: Context, s: Script)
    requires Stands(prev, s) && s.pieces != [] && Decide(c, Toks(s.pieces)).Edit?
    ensures Glued(prev, Walk(c, s).pieces) && AllSolid(Walk(c, s).pieces)
    decreases |s.pieces|, 0
  {
    hide Decide, Next, After, Stands, Glued, AllSolid, Walk, Sound;
    StandsSound(prev, s);
    SoundPieces(s);
    var ps, e := s.pieces, Decide(c, Toks(s.pieces));
    var kept := ps[..e.from] + [Piece(ps[e.from].gap, e.repl)];
    WalkEdit(c, s, Decide(c, Toks(s.pieces)));
    if e.toEnd {
      GluedNothing(Before(Some(e.repl), false), []);
      SolidNothing();
      GluedEdit(prev, c, s, []);
      assert kept + [] == kept;
    } else {
      var rest := Script(ps[e.to..], s.tail);
      StandsAfter(prev, c, s);
      WalkGlued(Before(Some(e.repl), false), After(c, Toks(kept)), rest);
      GluedEdit(prev, c, s, Walk(After(c, Toks(kept)), rest).pieces);
    }
  }

  lemma {:induction false} SoundPieces(s: Script)
    requires Sound(s)
    ensures WellFormed(s.pieces)
  {
  }

  lemma {:induction false} SolidNothing()
    ensures AllSolid([])
  {
  }

  lemma {:induction false} GluedEdit(prev: Before, c: Context, s: Script, r: seq<Piece>)
    requires Stands(prev, s) && s.pieces != [] && Decide(c, Toks(s.pieces)).Edit?
    requires Glued(Before(Some(Decide(c, Toks(s.pieces)).repl), false), r) && AllSolid(r)
    ensures var e := Decide(c, Toks(s.pieces)); var w := s.pieces[..e.from] + [Piece(s.pieces[e.from].gap, e.repl)] + r;
            Glued(prev, w) && AllSolid(w)
  {
    hide Decide, Stands, Glued, Solid, ConnRewrite, Sound;
    StandsSound(prev, s);
    SoundPieces(s);
    var ps, e := s.pieces, Decide(c, Toks(s.pieces));
    AllTokensSolid(s);
    if e.from == 0 {
      EditShape(c, Toks(ps));
      RewriteOpens(s, Rewrite(e.repl, e.toEnd));
      GluedRewritten(prev, s, Rewrite(e.repl, e.toEnd), r);
      assert ps[..0] + [Piece(ps[0].gap, e.repl)] == [Piece(ps[0].gap, e.repl)];
    } else {
      ValueEdits(c, Toks(ps));
      RedactedSolid();
      GluedValue(prev, s, e.from, Piece(ps[e.from].gap, e.repl), r);
    }
  }

  lemma {:induction false} GluedRewritten(prev: Before, s: Script, rw: Rewrite, r: seq<Piece>)
    requires Stands(prev, s) && s.pieces != [] && s.pieces[0].tok.IsLiteral() && ConnRewrite(s.pieces[0].tok) == Some(rw)
    requires Glued(Before(Some(rw.repl), false), r)
    ensures Glued(prev, [Piece(s.pieces[0].gap, rw.repl)] + r)
  {
    hide Stands, Starry, ConnRewrite, REDACTED;
    var q := Piece(s.pieces[0].gap, rw.repl);
    assert ([q] + r)[1..] == r;
    StandsSound(prev, s);
    RewriteOpens(s, rw);
    RedactedStarry();
    NotAmp(s, rw);
    StandsClosed(prev, s);
    assert Behind(prev, q) == Before(Some(rw.repl), false);
    if prev.tok.Some? && (prev.tok.value.kind == Str || prev.hot) {
      NotOpen(prev, s);
      TokenSolid(s);
    }
  }

  lemma {:induction false} StandsClosed(prev: Before, s: Script)
    requires Stands(prev, s) && s.pieces != []
    ensures prev.tok.Some? && prev.tok.value.kind == Str ==> prev.tok.value.terminated
  {
    hide Sound, Lower, BlockScan, OpensDollar, Ungroup;
    FirstNotEmpty(s);
  }

  lemma {:induction false} NotAmp(s: Script, rw: Rewrite)
    requires Sound(s) && s.pieces != [] && s.pieces[0].tok.IsLiteral() && ConnRewrite(s.pieces[0].tok) == Some(rw)
    ensures rw.repl.text != "&"
  {
    hide Fits, Chain, Flatten, ConnRewrite;
    SoundFirst(s);
    FirstChar(s.pieces[0].tok, Join(Flatten(s.pieces[1..]) + s.tail));
    RewriteOpens(s, rw);
    assert REDACTED.text[0] == '\'';
  }

  lemma {:induction false} GluedValue(prev: Before, s: Script, from: nat, q: Piece, r: seq<Piece>)
    requires Stands(prev, s) && 1 <= from <= 2 && from <= |s.pieces| && s.pieces[from - 1].tok.kind != Str
    requires q.tok == REDACTED || q.tok == REDACTED_IDENT
    requires Glued(Before(Some(q.tok), false), r)
    ensures Glued(prev, s.pieces[..from] + [q] + r)
  {
    hide Stands, Starry, Glued;
    var ps := s.pieces;
    var b := Behind(prev, ps[0]);
    RedactedStarry();
    if from == 1 {
      GluedQuote(b, q, r);
      GluedKept(prev, s, [q] + r);
      assert ps[..1] + [q] + r == [ps[0]] + ([q] + r);
    } else {
      var b2 := Behind(b, ps[1]);
      GluedQuote(b2, q, r);
      GluedPlain(b, ps[1], [q] + r);
      GluedKept(prev, s, [ps[1]] + ([q] + r));
      assert ps[..2] + [q] + r == [ps[0]] + ([ps[1]] + ([q] + r));
    }
  }

  lemma {:induction false} GluedQuote(prev: Before, q: Piece, r: seq<Piece>)
    requires prev.tok.Some? && prev.tok.value.kind != Str
    requires (q.tok == REDACTED || q.tok == REDACTED_IDENT) && Glued(Before(Some(q.tok), false), r)
    ensures Glued(prev, [q] + r)
  {
    hide Starry;
    assert ([q] + r)[1..] == r;
    RedactedStarry();
    assert q.tok.text[0] != '&';
  }

  lemma {:induction false} GluedPlain(prev: Before, p: Piece, r: seq<Piece>)
    requires p.tok.kind != Str && Glued(Behind(prev, p), r)
    ensures Glued(prev, [p] + r)
  {
    hide Starry, Behind;
    assert ([p] + r)[1..] == r;
  }

  // Seen from the statement

  /** Behind a string, or a U and an ampersand, the walk puts a plain constant for what it gives up. */
  lemma {:induction false} OpensWhen(prev: Before, c: Context, s: Script)
    requires Stands(prev, s) && s.pieces != [] && prev.tok.Some? && (prev.tok.value.kind == Str || prev.hot)
    ensures Walk(c, s).pieces != [] && (OpensPlain(Walk(c, s).pieces[0]) <==> IsGivenUp(s.pieces[0]))
  {
    hide Stands, Walk, ConnRewrite, REDACTED, IsConstantName, Decide, Starry;
    var p := s.pieces[0];
    StandsSound(prev, s);
    WalkFirst(c, s);
    NotOpen(prev, s);
    TokenSolid(s);
    RedactedStarry();
    StarryOpens(REDACTED);
    if p.tok.IsLiteral() && ConnRewrite(p.tok).Some? {
      RewriteOpens(s, ConnRewrite(p.tok).value);
      if IsGivenUp(p) {
        GivenUpFirst(c, s);
      }
    }
  }

  lemma {:induction false} StarryOpens(t: Lexeme)
    requires Starry(t)
    ensures t.kind == Str && "'" <= t.text
  {
  }

  lemma {:induction false} GivenUpFirst(c: Context, s: Script)
    requires Sound(s) && s.pieces != [] && IsGivenUp(s.pieces[0])
    ensures Walk(c, s).pieces != [] && Walk(c, s).pieces[0].tok == REDACTED
  {
    hide Fits, Chain, Flatten, ConnRewrite, REDACTED, Decide, After, Next;
    var p := s.pieces[0];
    SoundFirst(s);
    OpeningKept(p.tok, Join(Flatten(s.pieces[1..]) + s.tail));
    ConstantAgain(c, Toks(s.pieces));
    WalkEdit(c, s, Decide(c, Toks(s.pieces)));
  }

  lemma {:induction false} UniteWalk(prev: Before, c: Context, s: Script)
    requires Stands(prev, s)
    ensures UniteAt(Walk(c, s).pieces) <==> Unites(s.pieces)
  {
    hide Stands, Walk, ConnRewrite, REDACTED, Next, Behind, IsGivenUp, Lower;
    var ps := s.pieces;
    StandsSound(prev, s);
    WalkHead(c, s);
    if ps != [] {
      WalkFirst(c, s);
      RewriteNoIdent(ps[0].tok);
      if IsU(ps[0].tok) {
        var c1, s1, b1 := Next(c, ps[0].tok), Script(ps[1..], s.tail), Behind(prev, ps[0]);
        UNoName(ps[0].tok);
        WalkPlainly(c, s);
        StandsBehind(prev, s);
        assert Walk(c, s).pieces[1..] == Walk(c1, s1).pieces;
        WalkHead(c1, s1);
        if |ps| > 1 {
          AmpWalk(prev, ps[0], c1, s1);
        }
      }
    }
  }

  lemma {:induction false} RewriteNoIdent(t: Lexeme)
    requires t.WellFormed()
    ensures t.IsLiteral() && ConnRewrite(t).Some? ==> ConnRewrite(t).value.repl.IsLiteral()
  {
    hide ConnRewrite;
    if t.IsLiteral() && ConnRewrite(t).Some? {
      RewriteKinds(t);
    }
  }

  lemma {:induction false} AmpWalk(prev: Before, u: Piece, c: Context, s: Script)
    requires IsU(u.tok) && Stands(Behind(prev, u), s) && s.pieces != []
    ensures var w, ps := Walk(c, s).pieces, s.pieces;
            |w| > 1 && IsAmp(w[0]) && OpensPlain(w[1]) <==> |ps| > 1 && IsAmp(ps[0]) && IsGivenUp(ps[1])
  {
    hide Stands, Walk, ConnRewrite, REDACTED, Next, Behind, IsGivenUp, IsU, OpensPlain;
    var ps, b := s.pieces, Behind(prev, u);
    StandsSound(b, s);
    WalkHead(c, s);
    WalkFirst(c, s);
    RewriteNoIdent(ps[0].tok);
    if IsAmp(ps[0]) {
      var c1, s1 := Next(c, ps[0].tok), Script(ps[1..], s.tail);
      AmpInert(ps[0]);
      WalkPlainly(c, s);
      StandsBehind(b, s);
      HotHere(prev, u, ps[0]);
      assert Walk(c, s).pieces[1..] == Walk(c1, s1).pieces;
      BehindTok(b, ps[0]);
      WalkHead(c1, s1);
      if |ps| > 1 {
        OpensWhen(Behind(b, ps[0]), c1, s1);
      }
    }
  }

  lemma {:induction false} BehindTok(prev: Before, p: Piece)
    ensures Behind(prev, p).tok == Some(p.tok)
  {
  }

  /** The value of a name that nothing is done about. */
  lemma {:induction false} ReachKept(prev: Before, c: Context, s: Script, w: seq<Piece>, m: nat)
    requires Stands(prev, s) && s.pieces != [] && 1 <= m <= 2 && m <= |s.pieces| && (m < |s.pieces| ==> !s.pieces[m].tok.IsLiteral())
    requires m == 2 ==> Plainly(s.pieces[1].tok)
    requires w == [s.pieces[0]] + Walk(Next(c, s.pieces[0].tok), Script(s.pieces[1..], s.tail)).pieces
    ensures Reaches(w, m) <==> Unites(s.pieces[m..])
  {
    hide Stands, Walk, Next, Behind, UniteAt, Unites, Plainly, REDACTED;
    var ps := s.pieces;
    var b1, c1, s1 := Behind(prev, ps[0]), Next(c, ps[0].tok), Script(ps[1..], s.tail);
    StandsBehind(prev, s);
    StandsSound(b1, s1);
    RedactedLiteral();
    assert w[1..] == Walk(c1, s1).pieces;
    if m == 1 {
      UniteWalk(b1, c1, s1);
      HeadLiteral(c1, s1);
      assert 1 < |w| ==> w[1] == w[1..][0];
    } else {
      var b2, c2, s2 := Behind(b1, ps[1]), Next(c1, ps[1].tok), Script(ps[2..], s.tail);
      assert s1.pieces[1..] == s2.pieces;
      WalkPlainly(c1, s1);
      StandsBehind(b1, s1);
      StandsSound(b2, s2);
      assert w[2..] == Walk(c2, s2).pieces;
      UniteWalk(b2, c2, s2);
      HeadLiteral(c2, s2);
      assert 2 < |w| ==> w[2] == w[2..][0];
    }
  }

  lemma {:induction false} HeadLiteral(c: Context, s: Script)
    requires WellFormed(s.pieces)
    ensures var w := Walk(c, s).pieces;
            (w == [] <==> s.pieces == []) && (w != [] ==> (w[0].tok.IsLiteral() <==> s.pieces[0].tok.IsLiteral()))
  {
    hide Walk;
    WalkHead(c, s);
  }

  lemma {:induction false} KeptBare(prev: Before, c: Context, s: Script, w: seq<Piece>)
    requires Stands(prev, s) && WellFormed(s.pieces) && s.pieces != [] && Decide(c, Toks(s.pieces)) == Keep
    requires w == [s.pieces[0]] + Walk(Next(c, s.pieces[0].tok), Script(s.pieces[1..], s.tail)).pieces
    ensures BareHere(w) <==> NameBefore(s.pieces)
  {
    hide Stands, Walk, Next, Unites, Reaches, IsSecretName, NameOf, SetValue, Literals, ConnRewrite, AmbiguousEscapes, IsSeparator, Lexeme.Is;
    var ps := s.pieces;
    SecondSame(c, s, w);
    if IsSecret(ps[0].tok) {
      var m := ValueAt(ps);
      if m == 2 {
        SeparatorPlainly(ps[1].tok);
      }
      ReachKept(prev, c, s, w, m);
      NameNoConstant(ps[0].tok);
    } else if IsConstantName(ps[0].tok) && IsSecretName(ps[0].tok.Body()) && |ps| > 1 && ps[1].tok.Is(Other, ",") {
      CommaPlainly(ps[1].tok);
      ReachKept(prev, c, s, w, 2);
    }
  }

  lemma {:induction false} NameNoConstant(t: Lexeme)
    requires IsSecret(t)
    ensures !IsConstantName(t)
  {
  }

  lemma {:induction false} CommaPlainly(t: Lexeme)
    requires t.Is(Other, ",")
    ensures Plainly(t)
  {
  }

  /** The second token is a separator or a comma if and only if it was. */
  lemma {:induction false} SecondSame(c: Context, s: Script, w: seq<Piece>)
    requires WellFormed(s.pieces) && s.pieces != []
    requires w == [s.pieces[0]] + Walk(Next(c, s.pieces[0].tok), Script(s.pieces[1..], s.tail)).pieces
    ensures |w| > 1 <==> |s.pieces| > 1
    ensures |w| > 1 ==> (IsSeparator(w[1].tok) <==> IsSeparator(s.pieces[1].tok)) && (w[1].tok.Is(Other, ",") <==> s.pieces[1].tok.Is(Other, ","))
  {
    hide Walk, Next, EqualFold;
    WalkHead(Next(c, s.pieces[0].tok), Script(s.pieces[1..], s.tail));
  }

  /** What the walk has made of a value is in reach of a fused constant if one follows it. */
  lemma {:induction false} EditBare(c: Context, s: Script, r: seq<Piece>)
    requires WellFormed(s.pieces) && s.pieces != [] && Decide(c, Toks(s.pieces)).Edit? && Decide(c, Toks(s.pieces)).from > 0
    ensures var e := Decide(c, Toks(s.pieces));
            var w := s.pieces[..e.from] + [Piece(s.pieces[e.from].gap, e.repl)] + r;
            Bare(w) <==> (e.repl == REDACTED && UniteAt(r)) || Bare(r)
  {
    hide Decide, UniteAt, BareHere, Inert, REDACTED, REDACTED_IDENT, ValueEdit, IsU;
    var ps, e := s.pieces, Decide(c, Toks(s.pieces));
    var q := Piece(ps[e.from].gap, e.repl);
    var w := ps[..e.from] + [q] + r;
    ValueEdits(c, Toks(ps));
    PlaceholderInert();
    EditReach(c, s, r);
    assert ([q] + r)[1..] == r;
    InertBare([q] + r);
    assert Bare([q] + r) <==> Bare(r);
    if e.from == 1 {
      assert w[1..] == [q] + r;
    } else {
      var x := [ps[1]] + ([q] + r);
      assert w[1..] == x && x[1..] == [q] + r;
      InertBare(x);
      assert Bare(x) <==> Bare(r);
    }
  }

  lemma {:induction false} InertBare(w: seq<Piece>)
    requires w != [] && Inert(w[0].tok)
    ensures !BareHere(w)
  {
    hide IsSecret, IsConstantName;
  }

  lemma {:induction false} EditReach(c: Context, s: Script, r: seq<Piece>)
    requires WellFormed(s.pieces) && s.pieces != [] && Decide(c, Toks(s.pieces)).Edit? && Decide(c, Toks(s.pieces)).from > 0
    ensures var e := Decide(c, Toks(s.pieces));
            var w := s.pieces[..e.from] + [Piece(s.pieces[e.from].gap, e.repl)] + r;
            BareHere(w) <==> e.repl == REDACTED && UniteAt(r)
  {
    hide UniteAt, IsSecretName, NameOf, SetValue, Literals, ConnRewrite, AmbiguousEscapes, Lexeme.Is, IsSeparator, REDACTED, REDACTED_IDENT;
    var ps, e := s.pieces, Decide(c, Toks(s.pieces));
    var q := Piece(ps[e.from].gap, e.repl);
    var w := ps[..e.from] + [q] + r;
    assert e.from <= 2 && w[e.from] == q && w[0] == ps[0] && (e.from == 2 ==> w[1] == ps[1]);
    assert w[e.from + 1..] == r && w[e.from..][0] == q;
    RedactedKinds();
    NoUniteQuote(w[e.from..]);
    if IsSecret(ps[0].tok) {
      NameNoConstant(ps[0].tok);
    }
  }

  lemma {:induction false} RedactedKinds()
    ensures REDACTED.kind == Str && REDACTED_IDENT.kind == QuotedIdent && !IsSeparator(REDACTED) && !IsSeparator(REDACTED_IDENT)
    ensures !REDACTED.Is(Other, ",") && !REDACTED_IDENT.Is(Other, ",")
  {
  }

  lemma {:induction false} NoUniteQuote(w: seq<Piece>)
    requires w != [] && (w[0].tok.kind == Str || w[0].tok.kind == QuotedIdent)
    ensures !UniteAt(w)
  {
    hide Lower;
  }

  lemma {:induction false} BareWalk(prev: Before, c: Context, s: Script)
    requires Stands(prev, s)
    ensures WellFormed(s.pieces) && (Bare(Walk(c, s).pieces) <==> Exposes(c, s))
    decreases |s.pieces|
  {
    hide Decide, Next, After, Stands, Behind, BareHere, NameBefore, UniteAt, Unites, REDACTED, Bare;
    StandsSound(prev, s);
    var ps := s.pieces;
    BareStep(Walk(c, s).pieces);
    if ps != [] {
      match Decide(c, Toks(ps))
      case Keep =>
        var c1, rest := Next(c, ps[0].tok), Script(ps[1..], s.tail);
        StandsBehind(prev, s);
        BareWalk(Behind(prev, ps[0]), c1, rest);
        var w := [ps[0]] + Walk(c1, rest).pieces;
        assert w[1..] == Walk(c1, rest).pieces;
        KeptBare(prev, c, s, w);
      case Edit(from, to, repl, toEnd) =>
        var kept := ps[..from] + [Piece(ps[from].gap, repl)];
        var r := Script([], []);
        if !toEnd {
          var c1, rest := After(c, Toks(kept)), Script(ps[to..], s.tail);
          StandsAfter(prev, c, s);
          BareWalk(Before(Some(repl), false), c1, rest);
          UniteWalk(Before(Some(repl), false), c1, rest);
          r := Walk(c1, rest);
        }
        NothingBare();
        assert kept + [] == kept;
        assert Walk(c, s).pieces == kept + r.pieces;
        if from > 0 {
          EditBare(c, s, r.pieces);
        } else {
          RewrittenInert(c, Toks(ps));
          InertBare(kept + r.pieces);
          assert (kept + r.pieces)[1..] == r.pieces;
        }
    }
  }

  lemma {:induction false} BareStep(w: seq<Piece>)
    ensures Bare(w) <==> w != [] && (BareHere(w) || Bare(w[1..]))
  {
  }

  lemma {:induction false} NothingBare()
    ensures !Bare([]) && !UniteAt([])
  {
  }

  // The redacted statement

  lemma {:induction false} StatementStands(query: string)
    ensures Stands(NOTHING, Statement(query))
  {
    hide Sound, Statement;
    StatementSound(query);
  }

  /** In a redacted statement, read again, every secret's name is followed by the plain placeholder, or by
      nothing that could be its value, if and only if no U, ampersand and constant that is given up come
      directly behind a name or a replaced value. */
  lemma {:induction false} GuardedExactly(query: string)
    requires TagsAvoided(START, Statement(query))
    ensures AllGuarded(START, Toks(Statement(RedactQuery(query)).pieces)) <==> !Exposes(START, Statement(query))
  {
    hide Walk, RedactQuery, Statement, TagsAvoided, Exposes, AllGuarded, Stands, Bare, Glued, Fuse;
    GateSound(query);
    FusedReading(query);
    StatementStands(query);
    StandsSound(NOTHING, Statement(query));
    var w := Walk(START, Statement(query));
    WalkGuarded(START, Statement(query));
    WalkGlued(NOTHING, START, Statement(query));
    GuardedFused(NOTHING, START, w.pieces);
    BareWalk(NOTHING, START, Statement(query));
  }

  /** The same for one token: as a name with or without a separator, as the target of a SET command, and as
      a constant argument. */
  lemma {:induction false} SecretsHidden(query: string, k: nat)
    requires TagsAvoided(START, Statement(query)) && !Exposes(START, Statement(query))
    requires k < |Statement(RedactQuery(query)).pieces|
    ensures var ts := Toks(Statement(RedactQuery(query)).pieces);
            var c := After(START, ts[..k]);
            Guarded(c, ts[k..]) && c.target == LooksBack(ts, k)
  {
    hide RedactQuery, Statement, Guarded, LooksBack, AllGuarded, TagsAvoided, Exposes;
    GuardedExactly(query);
    var ts := Toks(Statement(RedactQuery(query)).pieces);
    GuardedAt(START, ts, k);
    ContextLooksBack(ts, k);
  }

  /** Both hold where no rewritten constants run together. */
  lemma {:induction false} ApartHides(query: string)
    requires Apart(NOTHING, START, Statement(query))
    ensures TagsAvoided(START, Statement(query)) && !Exposes(START, Statement(query))
  {
    hide Walk, Apart, RedactQuery, Statement, TagsAvoided, Exposes, AllGuarded, Fuse, Chain, Ungroup, Lex, Group, Sound;
    var w := Walk(START, Statement(query));
    GateSound(query);
    StatementSound(query);
    SoundPieces(Statement(query));
    Relex(query);
    WalkChain(NOTHING, START, Statement(query));
    ChainFused(w);
    FusedExactly(query);
    GuardedExactly(query);
    WalkGuarded(START, Statement(query));
  }

  /** Tokens that fit are not fused. */
  lemma {:induction false} ChainFused(w: Script)
    requires Chain(Ungroup(w), "")
    ensures Fused(w) == w
    decreases |w.pieces|
  {
    hide Chain, Ungroup, FuseOn, Fits;
    if w.pieces != [] {
      var r := Script(w.pieces[1..], w.tail);
      Behead(w);
      ChainFused(r);
      FitsApart(w.pieces[0], r);
      assert [w.pieces[0]] + r.pieces == w.pieces;
    }
  }
}
