/**
 What redaction does to a redacted statement, read again with its placeholders fused.
 */
module SqlCalm {
  import opened Text
  import opened SqlLexer
  import opened SqlChain
  import opened SqlRedact
  import opened SqlRelex
  import SqlTarget
  import opened SqlIdempotence
  import opened SqlFused
  import opened SqlHidden
  import opened SqlExposed
  import opened SqlMoves
  import ConnStringGrowth

  // Walking over what the walk has made

  /** Every step keeps its token, rewrites a constant or puts the placeholder for itself. */
  predicate Calm(c: Context, ps: seq<Piece>)
    requires WellFormed(ps)
    decreases |ps|
  {
    ps == [] ||
    var e := Decide(c, Toks(ps));
    if e == Keep || e.from == 0 then Calm(Next(c, ps[0].tok), ps[1..])
    else Trivial(e, ps) && Calm(After(c, Toks(ps[..e.to])), ps[e.to..])
  }

  lemma {:induction false} WalkCalm(c: Context, s: Script)
    requires WellFormed(s.pieces)
    ensures WellFormed(Walk(c, s).pieces) && Calm(c, Walk(c, s).pieces)
    decreases |s.pieces|
  {
    hide Decide, Next, After, Alike, ConnRewrite;
    WalkWellFormed(c, s);
    var ps, w := s.pieces, Walk(c, s).pieces;
    if ps != [] {
      match Decide(c, Toks(ps))
      case Keep =>
        var c1, rest := Next(c, ps[0].tok), Script(ps[1..], s.tail);
        WalkCalm(c1, rest);
        KeepAlike(c, s);
        KeepAgain(c, Toks(ps), Toks(w));
        assert w[1..] == Walk(c1, rest).pieces;
      case Edit(from, to, repl, toEnd) =>
        var kept := ps[..from] + [Piece(ps[from].gap, repl)];
        var r := Script([], []);
        if !toEnd {
          WalkCalm(After(c, Toks(kept)), Script(ps[to..], s.tail));
          r := Walk(After(c, Toks(kept)), Script(ps[to..], s.tail));
        }
        assert kept + [] == kept;
        assert w == kept + r.pieces;
        CalmNothing(After(c, Toks(kept)));
        EditCalm(c, s, kept, r);
    }
  }

  lemma {:induction false} CalmNothing(c: Context)
    ensures WellFormed([]) && Calm(c, [])
  {
  }

  lemma {:induction false} EditCalm(c: Context, s: Script, kept: seq<Piece>, r: Script)
    requires WellFormed(s.pieces) && s.pieces != []
    requires var e := Decide(c, Toks(s.pieces));
             && e.Edit? && kept == s.pieces[..e.from] + [Piece(s.pieces[e.from].gap, e.repl)]
             && r == (if e.toEnd then Script([], []) else Walk(After(c, Toks(kept)), Script(s.pieces[e.to..], s.tail)))
    requires WellFormed(r.pieces) && WellFormed(kept + r.pieces) && Calm(After(c, Toks(kept)), r.pieces)
    ensures Calm(c, kept + r.pieces)
  {
    hide Decide, Next, After, ConnRewrite, Walk;
    var e, w := Decide(c, Toks(s.pieces)), kept + r.pieces;
    if e.from == 0 {
      EditHead(c, Toks(s.pieces));
      RewrittenNoName(c, Toks(s.pieces));
      assert w[0] == kept[0] && w[1..] == r.pieces && Toks(kept) == [kept[0].tok];
      ConstantAgain(c, Toks(w));
      After1(c, kept[0].tok);
    } else {
      EditValueAgain(c, s, kept, r, e);
      assert w[e.from] == kept[e.from] && w[..e.from + 1] == kept && w[e.from + 1..] == r.pieces;
    }
  }

  // Constants without a mention

  lemma {:induction false} ContainsBefore(b: string, x: string, f: string)
    requires f != "" && All(ConnStringGrowth.Added, x) && !ConnStringGrowth.Added(f[|f| - 1])
    ensures Contains(b + x, f) ==> Contains(b, f)
  {
    if Contains(b + x, f) {
      var i :| 0 <= i <= |b + x| && At(b + x, f, i);
      var s := b + x;
      assert s[i + |f| - 1] == s[i..i + |f|][|f| - 1] == f[|f| - 1];
      assert i + |f| <= |b|;
      assert b[i..i + |f|] == s[i..i + |f|];
      assert At(b, f, i);
    }
  }

  lemma {:induction false} ContainsLonger(b: string, x: string, f: string)
    ensures Contains(b, f) ==> Contains(b + x, f)
  {
    if Contains(b, f) {
      var i :| 0 <= i <= |b| && At(b, f, i);
      assert (b + x)[i..i + |f|] == b[i..i + |f|];
      assert At(b + x, f, i);
    }
  }

  lemma {:induction false} LowerMask(b: string, x: string)
    requires All(ConnStringGrowth.Added, x)
    ensures Lower(b + x) == Lower(b) + x
  {
    assert forall i :: 0 <= i < |x| ==> LowerChar(x[i]) == x[i];
  }

  /** A mask behind a body brings in and takes away no mention of a secret. */
  lemma {:induction false} MentionsBefore(b: string, x: string)
    requires All(ConnStringGrowth.Added, x)
    ensures MentionsConnSecret(b + x) <==> MentionsConnSecret(b)
  {
    hide Contains, Lower;
    LowerMask(b, x);
    ContainsBefore(Lower(b), x, "password");
    ContainsBefore(Lower(b), x, "postgres://");
    ContainsBefore(Lower(b), x, "postgresql://");
    ContainsLonger(Lower(b), x, "password");
    ContainsLonger(Lower(b), x, "postgres://");
    ContainsLonger(Lower(b), x, "postgresql://");
  }

  lemma {:induction false} MaskQuiet(x: string)
    requires All(ConnStringGrowth.Added, x)
    ensures !MentionsConnSecret(x)
  {
    hide MentionsConnSecret;
    MentionsBefore("", x);
    assert "" + x == x;
    NothingMentioned();
  }

  lemma {:induction false} NothingMentioned()
    ensures !MentionsConnSecret("")
  {
    assert Lower("") == "";
  }

  lemma {:induction false} StarryQuiet(t: Lexeme)
    requires Starry(t) && t.WellFormed()
    ensures ConnRewrite(t) == None && Silent(t)
  {
    hide MentionsConnSecret;
    MaskQuiet(t.Body());
  }

  /** The body of a joined constant. */
  lemma {:induction false} JoinedBody(t: Lexeme, u: Lexeme)
    requires Solid(t) && t.kind == Str && t.hi + 1 == |t.text| && t.text[t.hi] == '\'' && Starry(u)
    ensures Joined(t, u).Body() == t.Body() + ("''" + u.Body())
  {
    var m := Joined(t, u);
    assert t.text == t.text[..t.lo] + t.Body() + "'";
    assert u.text[..u.hi] == "'" + u.Body();
    assert m.text[..m.hi] == t.text[..t.lo] + t.Body() + "'" + ("'" + u.Body());
  }

  lemma {:induction false} UnifiedQuiet(u: Lexeme, a: Lexeme, t: Lexeme)
    requires IsU(u) && a.text == "&" && Starry(t)
    ensures Unified(u, a, t).WellFormed() && ConnRewrite(Unified(u, a, t)) == None && Silent(Unified(u, a, t)) && IsUni(Unified(u, a, t))
  {
    hide MentionsConnSecret, IsU;
    UText(u);
    var m := Unified(u, a, t);
    assert m.text == u.text + "&" + t.text;
    assert m.Body() == t.text[1..t.hi];
    MaskQuiet(m.Body());
  }

  // Fused placeholders

  /** Placeholders fused with those behind them are starry. */
  lemma {:induction false} StarryFuse(prev: Before, ps: seq<Piece>)
    requires ps != [] && AllSolid(ps) && Glued(prev, ps) && Starry(ps[0].tok)
    ensures Fuse(ps) != [] && Starry(Fuse(ps)[0].tok) && Fuse(ps)[0].tok.WellFormed()
    decreases |ps|
  {
    hide Fuse, Solid, Starry, IsU, Joined;
    FuseStep(ps);
    StarryIs(ps[0].tok);
    var fs := Fuse(ps[1..]);
    if fs != [] && OpensPlain(fs[0]) {
      assert ps[1..] != [] by { if ps[1..] == [] { FuseNone(ps[1..]); } }
      SolidFormed(ps);
      FuseHead(ps[1..]);
      StarryFuse(Behind(prev, ps[0]), ps[1..]);
      JoinedStarry(ps[0].tok, fs[0].tok);
    } else {
      UKind(ps[0].tok);
    }
    FuseSolid(ps);
    SolidFormed(Fuse(ps));
  }

  lemma {:induction false} UKind(t: Lexeme)
    ensures IsU(t) ==> t.kind == Ident
  {
  }

  /** Glued from some token on. */
  lemma {:induction false} GluedRest(prev: Before, ps: seq<Piece>, k: nat) returns (b: Before)
    requires Glued(prev, ps) && k <= |ps|
    ensures Glued(b, ps[k..])
    decreases k
  {
    hide Starry, Behind;
    b := prev;
    if k == 0 {
      assert ps[0..] == ps;
    } else {
      b := GluedRest(Behind(prev, ps[0]), ps[1..], k - 1);
      assert ps[1..][k - 1..] == ps[k..];
    }
  }

  lemma {:induction false} SolidRest(ps: seq<Piece>, k: nat)
    requires AllSolid(ps) && k <= |ps|
    ensures AllSolid(ps[k..])
  {
    hide Solid;
  }

  /** A U, an ampersand and a placeholder. */
  lemma {:induction false} UniFuses(prev: Before, qs: seq<Piece>)
    requires UniteAt(qs) && Glued(prev, qs) && AllSolid(qs)
    ensures Fuse(qs) != [] && IsUni(Fuse(qs)[0].tok) && ConnRewriteFree(Fuse(qs)[0].tok)
  {
    hide Fuse, Solid, Starry, Lower, IsUni, ConnRewriteFree;
    var u, a, r := qs[0], qs[1], qs[2..];
    SolidFormed(qs);
    HotHere(prev, u, a);
    assert qs[1..][1..] == r && qs[1..][0] == a && r[0] == qs[2];
    assert Glued(Behind(prev, u), qs[1..]) && Glued(Behind(Behind(prev, u), a), r);
    BehindTok(Behind(prev, u), a);
    assert Starry(r[0].tok);
    SolidRest(qs, 2);
    StarryFuse(Behind(Behind(prev, u), a), r);
    AmpPlain(a);
    FuseSame(a, r);
    assert qs[1..] == [a] + r;
    FuseStep(qs);
    FuseHead(r);
    UnifiedFree(u.tok, a.tok, Fuse(r)[0].tok);
  }

  predicate ConnRewriteFree(t: Lexeme) { t.WellFormed() && ConnRewrite(t) == None && Silent(t) && !AmbiguousEscapes(t) }

  lemma {:induction false} UnifiedFree(u: Lexeme, a: Lexeme, t: Lexeme)
    requires IsU(u) && a.text == "&" && Starry(t)
    ensures IsUni(Unified(u, a, t)) && ConnRewriteFree(Unified(u, a, t))
  {
    hide IsU, Starry, IsUni, ConnRewrite, Silent;
    UnifiedQuiet(u, a, t);
  }

  // Silent constants

  lemma {:induction false} JoinedQuiet(t: Lexeme, u: Lexeme)
    requires Solid(t) && t.kind == Str && t.terminated && Starry(u)
    ensures MentionsConnSecret(Joined(t, u).Body()) <==> MentionsConnSecret(t.Body())
    ensures Silent(t) ==> Silent(Joined(t, u))
  {
    hide MentionsConnSecret;
    JoinedBody(t, u);
    var x := "''" + u.Body();
    assert All(ConnStringGrowth.Added, u.Body());
    assert All(ConnStringGrowth.Added, x);
    MentionsBefore(t.Body(), x);
  }

  lemma {:induction false} QuietFuse(prev: Before, ps: seq<Piece>)
    requires AllSolid(ps) && Glued(prev, ps) && AllSilent(ps)
    ensures AllSilent(Fuse(ps))
    decreases |ps|
  {
    hide Solid, Starry, Silent, IsU, FuseOn;
    if ps != [] {
      var p, rest := ps[0], ps[1..];
      var fs := Fuse(rest);
      QuietFuse(Behind(prev, p), rest);
      if FuseOn(p, fs) != [p] + fs {
        FusedQuiet(prev, ps);
      } else {
        assert forall i :: 0 <= i < |[p] + fs| ==> ([p] + fs)[i] == if i == 0 then p else fs[i - 1];
      }
    }
  }

  lemma {:induction false} FusedQuiet(prev: Before, ps: seq<Piece>)
    requires ps != [] && AllSolid(ps) && Glued(prev, ps) && Silent(ps[0].tok) && AllSilent(Fuse(ps[1..]))
    requires FuseOn(ps[0], Fuse(ps[1..])) != [ps[0]] + Fuse(ps[1..])
    ensures AllSilent(FuseOn(ps[0], Fuse(ps[1..])))
  {
    hide Solid, Starry, Silent, IsU, Fuse, Joined, Unified;
    var p, rest := ps[0], ps[1..];
    var fs := Fuse(rest);
    var gs := FuseOn(p, fs);
    if p.tok.kind == Str && fs != [] && OpensPlain(fs[0]) {
      JoinedFront(prev, ps);
      JoinedQuiet(p.tok, fs[0].tok);
      QuietRest(fs, 1);
      assert forall i :: 0 <= i < |gs| ==> gs[i] == if i == 0 then gs[0] else fs[1..][i - 1];
    } else {
      UniteFront(ps);
      UniFuses(prev, ps);
      FuseStep(ps);
      QuietRest(fs, 2);
      assert forall i :: 0 <= i < |gs| ==> gs[i] == if i == 0 then gs[0] else fs[2..][i - 1];
    }
  }

  /** A string in front of a fused placeholder. */
  lemma {:induction false} JoinedFront(prev: Before, ps: seq<Piece>)
    requires ps != [] && AllSolid(ps) && Glued(prev, ps) && ps[0].tok.kind == Str
    requires var fs := Fuse(ps[1..]); fs != [] && OpensPlain(fs[0])
    ensures Starry(Fuse(ps[1..])[0].tok) && ps[0].tok.terminated && ps[1..] != [] && ps[1].tok.kind == Str
  {
    hide Solid, Starry, Fuse;
    var rest := ps[1..];
    assert rest != [] by { if rest == [] { FuseNone(rest); } }
    SolidFormed(ps);
    FuseHead(rest);
    SolidRest(ps, 1);
    StarryFuse(Behind(prev, ps[0]), rest);
  }

  /** What is fused and does not start with a string starts with a U. */
  lemma {:induction false} UniteFront(ps: seq<Piece>)
    requires ps != [] && AllSolid(ps) && IsU(ps[0].tok)
    requires var fs := Fuse(ps[1..]); |fs| > 1 && IsAmp(fs[0]) && OpensPlain(fs[1])
    ensures UniteAt(ps)
  {
    hide Solid, Fuse, IsU;
    var rest := ps[1..];
    assert rest != [] by { if rest == [] { FuseNone(rest); } }
    AmpBehind(rest);
    SolidFormed(ps);
    assert rest[1] == ps[2] && rest[0] == ps[1];
    assert Fuse(rest)[1..] == Fuse(rest[1..]);
    FuseHead(rest[1..]);
  }

  // The same decision

  /** A replaced value is replaced again, by itself. */
  lemma {:induction false} ValueSame(ts: seq<Lexeme>, us: seq<Lexeme>, qs: seq<Piece>, m: nat)
    requires qs != [] && WellFormed(qs) && m < |ts| && ts[m..] == Toks(qs) && m < |us| && us[m..] == Toks(Fuse(qs))
    requires ts[m] == REDACTED && Literals(ts[m..]) == 1 && !UniteAt(qs[1..])
    ensures us[m] == REDACTED && Literals(us[m..]) == 1
  {
    hide Fuse, UniteAt, REDACTED, Literals;
    var gs := Fuse(qs);
    RedactedLiteral();
    OneLiteralIs(ts[m..]);
    assert |qs| > 1 ==> ts[m..][1] == qs[1].tok;
    ValueFuses(qs);
    assert us[m] == us[m..][0] == gs[0].tok;
    if |qs| > 1 {
      ValueFuses(qs[1..]);
      assert us[m + 1] == us[m..][1] == gs[1].tok == Fuse(qs[1..])[0].tok;
    } else {
      FuseNone(qs[1..]);
    }
    OneLiteral(us, m);
  }

  lemma {:induction false} OneLiteralIs(ts: seq<Lexeme>)
    requires Literals(ts) == 1
    ensures ts != [] && ts[0].IsLiteral() && (|ts| > 1 ==> !ts[1].IsLiteral())
  {
  }

  /** A name decides as it did. */
  lemma {:induction false} NameSame(c: Context, w: seq<Piece>)
    requires w != [] && WellFormed(w) && IsSecret(w[0].tok) && !Reaches(w, ValueAt(w))
    requires var e := DecideName(c, Toks(w)); e.Edit? ==> Trivial(e, w)
    ensures DecideName(c, [w[0].tok] + Toks(Fuse(w[1..]))) == DecideName(c, Toks(w))
  {
    hide Fuse, UniteAt, IsSecret, SetValue, Lexeme.Is, IsSeparator, REDACTED, REDACTED_IDENT, AmbiguousEscapes, Literals;
    var us, ts, m := [w[0].tok] + Toks(Fuse(w[1..])), Toks(w), ValueAt(w);
    SecondFuses(w);
    if m <= |w| {
      if m == 2 {
        SeparatorPlain(w[1]);
      }
      FusedBehind(w, m);
      var qs := w[m..];
      assert WellFormed(qs);
      if qs == [] {
        FuseNone(qs);
      } else {
        assert qs[1..] == w[m + 1..] && qs[0] == w[m] && ts[m] == qs[0].tok;
        RedactedLiteral();
        if ts[m].IsLiteral() {
          ValueSame(ts, us, qs, m);
        } else {
          ValueFuses(qs);
          assert us[m] == us[m..][0] == qs[0].tok;
          if m == 2 && c.target && ts[m].kind != QuotedIdent {
            assert SetValue(ts[m..]) == 0;
            NoValueFuses(qs);
          }
        }
      }
    }
  }

  lemma {:induction false} ConstantSame(w: seq<Piece>)
    requires w != [] && WellFormed(w) && w[0].tok.IsLiteral()
    requires !(IsConstantName(w[0].tok) && IsSecretName(w[0].tok.Body()) && |w| > 1 && w[1].tok.Is(Other, ",") && Reaches(w, 2))
    requires var e := DecideLiteral(Toks(w)); e.Edit? && e.from > 0 ==> Trivial(e, w)
    ensures DecideLiteral([w[0].tok] + Toks(Fuse(w[1..]))) == DecideLiteral(Toks(w))
  {
    hide Fuse, UniteAt, Lexeme.Is, IsSeparator, REDACTED, AmbiguousEscapes, Literals, ConnRewrite, IsConstantName, IsSecretName;
    var us, ts := [w[0].tok] + Toks(Fuse(w[1..])), Toks(w);
    SecondFuses(w);
    if IsConstantName(w[0].tok) && IsSecretName(w[0].tok.Body()) && |w| > 1 && w[1].tok.Is(Other, ",") {
      SemicolonPlain(w[1]);
      FusedBehind(w, 2);
      var qs := w[2..];
      assert WellFormed(qs);
      if qs == [] {
        FuseNone(qs);
      } else {
        assert qs[1..] == w[3..] && qs[0] == w[2] && ts[2] == qs[0].tok;
        if ts[2].IsLiteral() {
          ValueSame(ts, us, qs, 2);
        } else {
          ValueFuses(qs);
          assert us[2] == us[2..][0] == qs[0].tok;
        }
      }
    }
  }

  lemma {:induction false} SameDecision(c: Context, w: seq<Piece>)
    requires w != [] && WellFormed(w) && !BareHere(w)
    requires var e := Decide(c, Toks(w)); e.Edit? && e.from > 0 ==> Trivial(e, w)
    ensures Decide(c, [w[0].tok] + Toks(Fuse(w[1..]))) == Decide(c, Toks(w))
  {
    hide Fuse, IsSecretName, NameOf, Lexeme.Is, DecideName, DecideLiteral, Reaches, IsConstantName, Trivial;
    if IsSecret(w[0].tok) {
      NameEdits(c, Toks(w));
      NameSame(c, w);
    } else if w[0].tok.IsLiteral() {
      ConstantSame(w);
    }
  }

  lemma {:induction false} NameEdits(c: Context, ts: seq<Lexeme>)
    requires ts != []
    ensures DecideName(c, ts).Edit? ==> DecideName(c, ts).from > 0
  {
  }

  // The other decision

  lemma {:induction false} ShowsUni(fs: seq<Piece>, m: nat)
    requires 1 <= m < |fs| && IsUni(fs[m].tok)
    ensures var e := RedactValue(Toks(fs), m); Uncovers(e, fs) && !Trivial(e, fs) && fs[m].tok.IsLiteral()
  {
    hide REDACTED, Literals, IsUni;
    UniLiterals(Toks(fs), m);
  }

  lemma {:induction false} ShowsBehind(fs: seq<Piece>, m: nat)
    requires 1 <= m && m + 1 < |fs| && fs[m].tok == REDACTED && IsUni(fs[m + 1].tok)
    ensures var e := RedactValue(Toks(fs), m); Uncovers(e, fs) && !Trivial(e, fs) && fs[m].tok.IsLiteral()
  {
    hide REDACTED, Literals, IsUni, AmbiguousEscapes;
    RedactedLiteral();
    RedactedPlain();
    TwoLiterals(Toks(fs), m);
  }

  /** A value in reach of a fused constant. */
  lemma {:induction false} ReachedAt(prev: Before, w: seq<Piece>, m: nat)
    requires 1 <= m <= 2 && AllSolid(w) && Glued(prev, w) && Reaches(w, m) && (m == 2 ==> w[1].tok.kind != Str && !IsU(w[1].tok))
    requires m < |w| && w[m].tok.IsLiteral() ==> MaskedAt(Toks(w), m)
    ensures var us := Toks([w[0]] + Fuse(w[1..]));
            && m < |us| && us[m].IsLiteral()
            && Uncovers(RedactValue(us, m), [w[0]] + Fuse(w[1..])) && !Trivial(RedactValue(us, m), [w[0]] + Fuse(w[1..]))
  {
    hide Fuse, AllSolid, IsU, Glued, REDACTED, UniteAt, IsUni, Uncovers, Trivial, RedactValue, ConnRewriteFree;
    var fs, qs := [w[0]] + Fuse(w[1..]), w[m..];
    assert Toks(fs) == [w[0].tok] + Toks(Fuse(w[1..]));
    FusedBehind(w, m);
    SolidRest(w, m);
    SolidFormed(qs);
    NoUnite(qs);
    RedactedLiteral();
    if UniteAt(qs) {
      var b := GluedRest(prev, w, m);
      UniFuses(b, qs);
      assert Toks(fs)[m] == Toks(fs)[m..][0] == Fuse(qs)[0].tok;
      ShowsUni(fs, m);
    } else {
      ReachedBehind(prev, w, m, fs);
    }
  }

  lemma {:induction false} ReachedBehind(prev: Before, w: seq<Piece>, m: nat, fs: seq<Piece>)
    requires 1 <= m < |w| && AllSolid(w) && Glued(prev, w) && w[m].tok == REDACTED && UniteAt(w[m + 1..]) && MaskedAt(Toks(w), m)
    requires m < |fs| && Toks(fs)[m..] == Toks(Fuse(w[m..]))
    ensures var e := RedactValue(Toks(fs), m); Uncovers(e, fs) && !Trivial(e, fs) && fs[m].tok.IsLiteral()
  {
    hide Fuse, AllSolid, Glued, REDACTED, UniteAt, IsUni, Uncovers, Trivial, RedactValue, ConnRewriteFree;
    var qs, us := w[m..], Toks(fs);
    SolidRest(w, m);
    SolidFormed(qs);
    SolidRest(w, m + 1);
    var b := GluedRest(prev, w, m + 1);
    assert qs[1..] == w[m + 1..] && qs[0] == w[m];
    assert |qs| > 1 ==> Toks(w)[m + 1] == qs[1].tok;
    RedactedLiteral();
    UniFuses(b, qs[1..]);
    ValueFuses(qs);
    assert us[m] == us[m..][0] == Fuse(qs)[0].tok && us[m + 1] == us[m..][1] == Fuse(qs[1..])[0].tok;
    ShowsBehind(fs, m);
  }

  lemma {:induction false} UniLiterals(us: seq<Lexeme>, m: nat)
    requires m < |us| && IsUni(us[m])
    ensures us[m] != REDACTED && us[m].IsLiteral() && !AmbiguousEscapes(us[m])
    ensures var n := Literals(us[m..]); n >= 1 && (m + n < |us| ==> !us[m + n].IsLiteral())
  {
    assert us[m..][0] == us[m];
    var n := Literals(us[m..]);
    assert m + n < |us| ==> us[m..][n] == us[m + n];
  }

  lemma {:induction false} TwoLiterals(us: seq<Lexeme>, m: nat)
    requires m + 1 < |us| && us[m].IsLiteral() && IsUni(us[m + 1])
    ensures var n := Literals(us[m..]); n >= 2 && (m + n < |us| ==> !us[m + n].IsLiteral())
  {
    var vs := us[m..];
    assert vs[0] == us[m] && vs[1] == us[m + 1] && vs[1..][0] == us[m + 1];
    var n := Literals(vs);
    assert m + n < |us| ==> vs[n] == us[m + n];
  }

  /** A name in reach of a fused constant puts the placeholder for it. */
  lemma {:induction false} BareDecision(prev: Before, c: Context, w: seq<Piece>)
    requires w != [] && AllSolid(w) && Glued(prev, w) && BareHere(w) && Guarded(c, Toks(w))
    ensures var fs := [w[0]] + Fuse(w[1..]);
            fs[0].tok.WellFormed() && Uncovers(Decide(c, Toks(fs)), fs) && !Trivial(Decide(c, Toks(fs)), fs)
  {
    hide Fuse, Solid, IsU, Glued, REDACTED, Literals, UniteAt, IsSecretName, NameOf, Lexeme.Is, IsSeparator, MaskedAt, Reaches, Uncovers, Trivial, RedactValue;
    var fs := [w[0]] + Fuse(w[1..]);
    var us := Toks(fs);
    assert us == [w[0].tok] + Toks(Fuse(w[1..]));
    SolidFormed(w);
    SecondFuses(w);
    if IsSecret(w[0].tok) && Reaches(w, ValueAt(w)) {
      var m := ValueAt(w);
      if m == 2 {
        SeparatorPlain(w[1]);
      }
      ReachedAt(prev, w, m);
    } else {
      SemicolonPlain(w[1]);
      ReachedAt(prev, w, 2);
      NotSecret(w[0].tok);
      assert us[1].Is(Other, ",");
    }
  }

  lemma {:induction false} NotSecret(t: Lexeme)
    requires IsConstantName(t)
    ensures !IsSecret(t) && t.IsLiteral()
  {
  }

  // All steps

  /** No constant is rewritten, once it is fused with what follows. */
  predicate Rests(c: Context, w: seq<Piece>)
    requires WellFormed(w)
    decreases |w|
  {
    w == [] ||
    var gs := FuseOn(w[0], Fuse(w[1..]));
    if gs != [w[0]] + Fuse(w[1..]) then Leaves(gs[0].tok) && Rests(Next(c, w[0].tok), w[1..])
    else
      var e := Decide(c, Toks(w));
      if e == Keep then Rests(Next(c, w[0].tok), w[1..])
      else e.from > 0 && Rests(After(c, Toks(w[..e.to])), w[e.to..])
  }

  /** The connection-string rule leaves the constant alone. */
  predicate Leaves(t: Lexeme) { t.WellFormed() && ConnRewrite(t) == None }

  /** A token that is no name, and is kept if it is no constant or one that is left alone. */
  lemma {:induction false} InertStep(c: Context, p: Piece, ps: seq<Piece>)
    requires Inert(p.tok) && p.tok.WellFormed() && WellFormed(ps)
    ensures WellFormed([p] + ps)
    ensures !p.tok.IsLiteral() || Leaves(p.tok) ==>
              && (Idle(c, [p] + ps) <==> Idle(Next(c, p.tok), ps)) && (Tame(c, [p] + ps) <==> Tame(Next(c, p.tok), ps))
    ensures p.tok.IsLiteral() && !Leaves(p.tok) ==> !Idle(c, [p] + ps) && Tame(c, [p] + ps)
  {
    hide Next, IsSecret, IsConstantName, ConnRewrite, DecideName, DecideLiteral;
    assert ([p] + ps)[1..] == ps && Toks([p] + ps)[0] == p.tok;
    if p.tok.IsLiteral() {
      ConstantAgain(c, Toks([p] + ps));
    }
  }

  lemma {:induction false} SkipInert(c: Context, fs: seq<Piece>, k: nat)
    requires WellFormed(fs) && 1 <= k <= 2 && k <= |fs| && fs[k - 1].tok.IsLiteral() && Leaves(fs[k - 1].tok)
    requires forall i :: 0 <= i < k ==> Inert(fs[i].tok)
    requires k == 2 ==> !fs[0].tok.IsLiteral()
    ensures WellFormed(fs[k..])
    ensures (Idle(c, fs) <==> Idle(START, fs[k..])) && (Tame(c, fs) <==> Tame(START, fs[k..]))
  {
    hide Inert, Next, Idle, Tame, Leaves;
    assert fs == [fs[0]] + fs[1..];
    assert forall i :: 0 <= i < |fs[1..]| ==> fs[1..][i] == fs[i + 1];
    InertStep(c, fs[0], fs[1..]);
    SqlTarget.AfterLiteral(Next(c, fs[0].tok), fs[k - 1].tok);
    SqlTarget.AfterLiteral(c, fs[k - 1].tok);
    if k == 2 {
      assert fs[1..] == [fs[1]] + fs[2..];
      assert forall i :: 0 <= i < |fs[2..]| ==> fs[2..][i] == fs[i + 2];
      InertStep(Next(c, fs[0].tok), fs[1], fs[2..]);
    }
  }

  /** The pieces that a fused one has taken in are kept. */
  lemma {:induction false} TakenIn(prev: Before, w: seq<Piece>)
    requires w != [] && AllSolid(w) && Glued(prev, w) && FuseOn(w[0], Fuse(w[1..])) != [w[0]] + Fuse(w[1..])
    ensures var fs := Fuse(w[1..]); var k := |fs| + 1 - |FuseOn(w[0], fs)|;
            1 <= k <= 2 && k <= |fs| && Leaves(fs[k - 1].tok) && (k == 2 ==> !fs[0].tok.IsLiteral())
    ensures forall c: Context :: var e := Decide(c, Toks(w)); e == Keep || e.from == 0
  {
    hide Solid, IsU, Fuse, Starry, Joined, Unified, ConnRewrite, IsSecretName;
    var fs := Fuse(w[1..]);
    SolidFormed(w);
    FusedFront(prev, w);
    if fs != [] && w[0].tok.kind == Str && OpensPlain(fs[0]) {
      JoinedFront(prev, w);
      StarryIs(fs[0].tok);
      FuseSolid(w[1..]);
      SolidFormed(fs);
      StarryQuiet(fs[0].tok);
      forall c: Context ensures var e := Decide(c, Toks(w)); e == Keep || e.from == 0 {
        StringSteps(c, Toks(w));
      }
    } else {
      UniteFront(w);
      TakenUnite(prev, w);
      UNoName(w[0].tok);
      UKind(w[0].tok);
    }
  }

  lemma {:induction false} StringSteps(c: Context, ts: seq<Lexeme>)
    requires |ts| > 1 && ts[0].WellFormed() && ts[0].kind == Str && ts[1].kind == Str
    ensures var e := Decide(c, ts); e == Keep || e.from == 0
  {
    hide ConnRewrite, IsConstantName, IsSecretName;
  }

  lemma {:induction false} TakenUnite(prev: Before, w: seq<Piece>)
    requires AllSolid(w) && Glued(prev, w) && UniteAt(w)
    ensures var fs := Fuse(w[1..]); |fs| > 1 && IsAmp(fs[0]) && Leaves(fs[1].tok) && OpensPlain(fs[1])
  {
    hide Solid, Fuse, Starry, Lower, ConnRewrite;
    var u, a, r := w[0], w[1], w[2..];
    HotHere(prev, u, a);
    assert w[1..][1..] == r && w[1..][0] == a && r[0] == w[2];
    assert Glued(Behind(prev, u), w[1..]) && Glued(Behind(Behind(prev, u), a), r);
    BehindTok(Behind(prev, u), a);
    SolidRest(w, 2);
    StarryFuse(Behind(Behind(prev, u), a), r);
    StarryQuiet(Fuse(r)[0].tok);
    AmpPlain(a);
    FuseSame(a, r);
    assert w[1..] == [a] + r;
    SolidFormed(r);
    FuseHead(r);
  }

  /** A piece that is fused with what follows. */
  lemma {:induction false} FusedStep(prev: Before, c: Context, w: seq<Piece>)
    requires w != [] && AllSolid(w) && Glued(prev, w) && WellFormed(w) && WellFormed(w[1..]) && WellFormed(Fuse(w[1..])) && WellFormed(Fuse(w))
    requires FuseOn(w[0], Fuse(w[1..])) != [w[0]] + Fuse(w[1..])
    requires var fs, c1 := Fuse(w[1..]), Next(c, w[0].tok);
             Tame(c1, fs) && (Idle(c1, fs) <==> !Bare(w[1..]) && Rests(c1, w[1..]))
    ensures Tame(c, Fuse(w)) && (Idle(c, Fuse(w)) <==> !Bare(w) && Rests(c, w))
  {
    hide Solid, IsU, FuseOn, Glued, Starry, Inert, Idle, Tame, Leaves, BareHere, Next, IsAmp, OpensPlain, Decide;
    var fs, gs := Fuse(w[1..]), FuseOn(w[0], Fuse(w[1..]));
    FusedFront(prev, w);
    TakenIn(prev, w);
    var k := |fs| + 1 - |gs|;
    SkipInert(Next(c, w[0].tok), fs, k);
    SolidRest(w, 1);
    FuseSolid(w[1..]);
    FusedInert(w[0], fs);
    SolidFormed(gs);
    InertStep(c, gs[0], fs[k..]);
    SqlTarget.AfterLiteral(c, gs[0].tok);
  }

  lemma {:induction false} GuardedRest(c: Context, us: seq<Lexeme>, k: nat)
    requires AllGuarded(c, us) && k <= |us|
    ensures AllGuarded(After(c, us[..k]), us[k..])
    decreases k
  {
    hide Guarded, Next;
    if k == 0 {
      assert us[..0] == [] && us[0..] == us;
    } else {
      GuardedRest(Next(c, us[0]), us[1..], k - 1);
      assert us[1..][k - 1..] == us[k..] && us[..k][1..] == us[1..][..k - 1] && us[..k][0] == us[0];
    }
  }

  /** A value that is replaced by itself, and what follows it. */
  lemma {:induction false} TrivialFuses(c: Context, w: seq<Piece>)
    requires w != [] && WellFormed(w)
    requires var e := Decide(c, Toks(w)); e.Edit? && e.from > 0 && Trivial(e, w)
    ensures var e, fs := Decide(c, Toks(w)), [w[0]] + Fuse(w[1..]);
            && e.to <= |fs| && fs[..e.to] == w[..e.to] && fs[e.to..] == Fuse(w[e.to..]) && Trivial(e, fs)
    ensures !BareHere(w) ==> (Bare(w) <==> Bare(w[Decide(c, Toks(w)).to..]))
  {
    hide Decide, Fuse, REDACTED, REDACTED_IDENT, IsU, Inert, BareHere, ValueEdit;
    var e := Decide(c, Toks(w));
    ValueEdits(c, Toks(w));
    TrivialOne(c, Toks(w));
    var m, fs := e.from, [w[0]] + Fuse(w[1..]);
    if m == 2 {
      FuseSame(w[1], w[2..]);
      assert w[1..] == [w[1]] + w[2..];
    }
    assert fs[m..] == Fuse(w[m..]);
    ValueAlone(w[m..]);
    assert w[m..][1..] == w[m + 1..] && w[m..][0] == w[m];
    SplitAt(fs, w, m, Fuse(w[m + 1..]));
    if !BareHere(w) {
      TrivialBare(w, m);
    }
  }

  lemma {:induction false} SplitAt(fs: seq<Piece>, w: seq<Piece>, m: nat, r: seq<Piece>)
    requires m <= |fs| && m < |w| && fs[..m] == w[..m] && fs[m..] == [w[m]] + r
    ensures m < |fs| && fs[m] == w[m] && fs[..m + 1] == w[..m + 1] && fs[m + 1..] == r
  {
    assert fs[m] == fs[m..][0];
    assert fs[m + 1..] == fs[m..][1..];
    assert fs[..m + 1] == fs[..m] + [fs[m]] && w[..m + 1] == w[..m] + [w[m]];
  }

  /** The value that is replaced by itself stands alone. */
  lemma {:induction false} TrivialOne(c: Context, ts: seq<Lexeme>)
    requires ts != [] && ts[0].WellFormed()
    requires var e := Decide(c, ts); e.Edit? && e.from > 0 && e.to == e.from + 1 && ts[e.from] == e.repl
    ensures var e := Decide(c, ts); e.repl == REDACTED && e.to < |ts| ==> !ts[e.to].IsLiteral()
  {
    hide Decide, ConnRewrite, IsSecret, IsSeparator, Lexeme.Is;
    EditShape(c, ts);
  }

  lemma {:induction false} ValueAlone(qs: seq<Piece>)
    requires qs != [] && WellFormed(qs) && (qs[0].tok == REDACTED || qs[0].tok == REDACTED_IDENT)
    requires qs[0].tok == REDACTED && |qs| > 1 ==> !qs[1].tok.IsLiteral()
    ensures Fuse(qs) == [qs[0]] + Fuse(qs[1..])
  {
    hide Fuse, Lower;
    ValueFuses(qs);
    NoUniteQuote(qs);
    if qs[0].tok == REDACTED_IDENT {
      FuseSame(qs[0], qs[1..]);
      assert qs == [qs[0]] + qs[1..];
    }
  }

  lemma {:induction false} TrivialBare(w: seq<Piece>, m: nat)
    requires 1 <= m <= 2 && m < |w| && !BareHere(w) && (w[m].tok == REDACTED || w[m].tok == REDACTED_IDENT) && (m == 2 ==> Inert(w[1].tok))
    ensures Bare(w) <==> Bare(w[m + 1..])
  {
    hide BareHere, Inert, REDACTED, REDACTED_IDENT;
    PlaceholderInert();
    BareStep(w);
    BareStep(w[1..]);
    if m == 1 {
      InertBare(w[1..]);
      assert w[1..][1..] == w[2..];
    } else {
      InertBare(w[1..]);
      assert w[1..][1..] == w[2..];
      BareStep(w[2..]);
      InertBare(w[2..]);
      assert w[2..][1..] == w[3..];
    }
  }

  /** Redacting what the walk has made, read again with its placeholders fused, is idle if and only if no name is
      in reach of a fused constant and no constant is rewritten. */
  lemma {:induction false} FusedIdle(prev: Before, c: Context, w: seq<Piece>)
    requires AllSolid(w) && Glued(prev, w) && WellFormed(w) && Calm(c, w) && AllGuarded(c, Toks(w))
    ensures WellFormed(Fuse(w)) && Tame(c, Fuse(w)) && (Idle(c, Fuse(w)) <==> !Bare(w) && Rests(c, w))
    decreases |w|
  {
    hide AllSolid, FuseOn, Glued, Guarded, Next, After, Decide, BareHere, Leaves, Uncovers, Trivial, Bare;
    FuseSolid(w);
    SolidFormed(Fuse(w));
    if w != [] {
      var fs, e := Fuse(w[1..]), Decide(c, Toks(w));
      SolidRest(w, 1);
      FuseSolid(w[1..]);
      SolidFormed(w[1..]);
      BareStep(w);
      assert Toks(w)[1..] == Toks(w[1..]) && Toks(w)[0] == w[0].tok;
      if FuseOn(w[0], fs) != [w[0]] + fs {
        TakenIn(prev, w);
        var b := GluedRest(prev, w, 1);
        FusedIdle(b, Next(c, w[0].tok), w[1..]);
        FusedStep(prev, c, w);
      } else {
        assert Toks([w[0]] + fs) == [w[0].tok] + Toks(fs);
        if BareHere(w) {
          BareDecision(prev, c, w);
          UncoversEdits(Decide(c, Toks([w[0]] + fs)), [w[0]] + fs);
        } else {
          PlainSteps(c, w);
          SameDecision(c, w);
          if e == Keep {
            var b := GluedRest(prev, w, 1);
            FusedIdle(b, Next(c, w[0].tok), w[1..]);
            assert ([w[0]] + fs)[1..] == fs;
          } else if e.from > 0 {
            TrivialFuses(c, w);
            var b := GluedRest(prev, w, e.to);
            SolidRest(w, e.to);
            SolidFormed(w[e.to..]);
            GuardedRest(c, Toks(w), e.to);
            assert Toks(w)[..e.to] == Toks(w[..e.to]) && Toks(w)[e.to..] == Toks(w[e.to..]);
            FusedIdle(b, After(c, Toks(w[..e.to])), w[e.to..]);
          } else {
            FromNothing(e, [w[0]] + fs);
          }
        }
      }
    } else {
      NothingBare();
    }
  }

  lemma {:induction false} PlainSteps(c: Context, w: seq<Piece>)
    requires w != [] && WellFormed(w) && Calm(c, w)
    ensures var e := Decide(c, Toks(w));
            if e == Keep || e.from == 0 then WellFormed(w[1..]) && Calm(Next(c, w[0].tok), w[1..])
            else Trivial(e, w) && WellFormed(w[e.to..]) && Calm(After(c, Toks(w[..e.to])), w[e.to..])
  {
    hide Decide, Next, After, Trivial;
  }

  lemma {:induction false} UncoversEdits(e: Step, fs: seq<Piece>)
    requires Uncovers(e, fs)
    ensures e != Keep && e.from > 0
  {
  }

  lemma {:induction false} FromNothing(e: Step, fs: seq<Piece>)
    requires e.Edit? && e.from == 0
    ensures !Trivial(e, fs)
  {
  }
}
