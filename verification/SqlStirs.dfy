/**
 Exactly when redaction of a statement is idempotent, told from the statement.
 */
module SqlStirs {
  import opened Text
  import opened SqlLexer
  import opened SqlBoundary
  import opened SqlChain
  import opened SqlRedact
  import opened SqlGate
  import opened SqlRelex
  import SqlTarget
  import opened SqlConstants
  import opened SqlIdempotence
  import opened SqlApart
  import opened SqlFused
  import opened SqlHidden
  import opened SqlExposed
  import opened SqlChanges
  import opened SqlMoves
  import opened SqlCalm
  import opened SqlVisible
  import opened SqlSettled
  import ConnString
  import ConnStringGrowth
  import opened ConnStringEscape
  import opened ConnStringClean
  import opened ConnStringKept

  // In the statement

  /** The number of constants at the front that are given up, one directly behind the other. */
  function Followers(ps: seq<Piece>): nat {
    if ps == [] || !IsGivenUp(ps[0]) then 0
    else if ConnRewrite(ps[0].tok).value.toEnd then 1
    else 1 + Followers(ps[1..])
  }

  /** What `k` placeholders add to the value of a string they are read together with. */
  function Masks(k: nat): string { if k == 0 then "" else "'" + (STARS + Masks(k - 1)) }

  /** The value of a string that stays mentions a secret, and shows one together with `k` placeholders. */
  predicate IsShaken(t: Lexeme, k: nat) { MentionsConnSecret(t.Body()) && !Clean(ValueOf(t) + Masks(k)) }

  /** The same for a string that is rewritten. */
  predicate IsStirred(t: Lexeme, k: nat) {
    var ks := Kept(ValueOf(t));
    !GivenUp(t) && SeenMentions(ks) && !Clean(JoinStars(ks) + Masks(k))
  }

  /** Some constant, read together with the placeholders directly behind it, is rewritten again. */
  predicate Stirs(c: Context, s: Script)
    requires WellFormed(s.pieces)
    decreases |s.pieces|
  {
    var ps := s.pieces;
    ps != [] &&
    match Decide(c, Toks(ps))
    case Keep =>
      || (ps[0].tok.kind == Str && Followers(ps[1..]) > 0 && IsShaken(ps[0].tok, Followers(ps[1..])))
      || Stirs(Next(c, ps[0].tok), Script(ps[1..], s.tail))
    case Edit(from, to, repl, toEnd) =>
      || (from == 0 &&
          var k := if toEnd || repl.kind != Str then 0 else Followers(ps[1..]);
          if k > 0 then IsStirred(ps[0].tok, k) else IsRestless(ps[0].tok))
      || (!toEnd && Stirs(After(c, Toks(ps[..from] + [Piece(ps[from].gap, repl)])), Script(ps[to..], s.tail)))
  }

  // Placeholders in a row

  /** `k` placeholders, read as one constant. */
  function MaskToken(k: nat): Lexeme
    requires k > 0
  {
    if k == 1 then REDACTED else Joined(REDACTED, MaskToken(k - 1))
  }

  lemma {:induction false} MaskStarry(k: nat)
    requires k > 0
    ensures Starry(MaskToken(k))
    decreases k
  {
    hide Starry;
    RedactedStarry();
    if k > 1 {
      MaskStarry(k - 1);
      JoinedStarry(REDACTED, MaskToken(k - 1));
    }
  }

  lemma {:induction false} MaskBody(k: nat)
    requires k > 0
    ensures ConnString.Double(Masks(k), '\'') == "''" + MaskToken(k).Body()
    decreases k
  {
    hide Starry, ConnString.Double, STARS;
    MaskStarry(k);
    DoubleAppend("'", STARS + Masks(k - 1), '\'');
    DoubleAppend(STARS, Masks(k - 1), '\'');
    DoubleOne('\'');
    StarsDouble();
    if k == 1 {
      DoubleNone("", '\'');
      RedactedBody();
    } else {
      MaskBody(k - 1);
      MaskStarry(k - 1);
      RedactedBody();
      RedactedSolid();
      JoinedBody(REDACTED, MaskToken(k - 1));
    }
  }

  lemma {:induction false} StarsDouble()
    ensures ConnString.Double(STARS, '\'') == STARS
  {
    DoubleNone(STARS, '\'');
  }

  lemma {:induction false} RedactedBody()
    ensures REDACTED.Body() == STARS && REDACTED.hi + 1 == |REDACTED.text| && REDACTED.text[REDACTED.hi] == '\''
  {
  }

  /** The constant that is fused from what the walk makes of constants that are given up. */
  lemma {:induction false} FollowFuse(prev: Before, c: Context, s: Script)
    requires Stands(prev, s) && prev.tok.Some? && prev.tok.value.kind == Str
    ensures WellFormed(s.pieces)
    ensures var fs, k := Fuse(Walk(c, s).pieces), Followers(s.pieces);
            if k > 0 then fs != [] && fs[0] == Piece([], MaskToken(k)) else fs == [] || !OpensPlain(fs[0])
    decreases |s.pieces|
  {
    hide Stands, Walk, ConnRewrite, REDACTED, Decide, Fuse, FuseOn, OpensPlain, After, Next;
    StandsSound(prev, s);
    SoundPieces(s);
    var ps := s.pieces;
    WalkHead(c, s);
    if ps == [] {
      FuseNone(Walk(c, s).pieces);
    } else {
      OpensWhen(prev, c, s);
      WalkWellFormed(c, s);
      FuseHead(Walk(c, s).pieces);
      if IsGivenUp(ps[0]) {
        FollowStep(prev, c, s);
      }
    }
  }

  lemma {:induction false} FollowStep(prev: Before, c: Context, s: Script)
    requires Stands(prev, s) && prev.tok.Some? && prev.tok.value.kind == Str && s.pieces != [] && IsGivenUp(s.pieces[0])
    ensures WellFormed(s.pieces)
    ensures var fs, k := Fuse(Walk(c, s).pieces), Followers(s.pieces); fs != [] && fs[0] == Piece([], MaskToken(k))
    decreases |s.pieces|, 0
  {
    hide Stands, Walk, ConnRewrite, REDACTED, Decide, Fuse, OpensPlain, After, Next, Lower;
    StandsSound(prev, s);
    SoundPieces(s);
    var ps, rw := s.pieces, ConnRewrite(s.pieces[0].tok).value;
    GivenUpStep(c, s);
    var q := Piece(ps[0].gap, REDACTED);
    var kept := ps[..0] + [q];
    assert kept == [q];
    WalkEdit(c, s, Decide(c, Toks(s.pieces)));
    RedactedString();
    assert kept + [] == kept;
    if rw.toEnd {
      FuseStep([q]);
      FuseNone([q][1..]);
    } else {
      var c1, rest := After(c, Toks(kept)), Script(ps[1..], s.tail);
      var r := Walk(c1, rest);
      StandsAfter(prev, c, s);
      FollowFuse(Before(Some(REDACTED), false), c1, rest);
      FuseStep(kept + r.pieces);
      assert (kept + r.pieces)[1..] == r.pieces && (kept + r.pieces)[0] == q;
      if Followers(rest.pieces) > 0 {
        MaskStarry(Followers(rest.pieces));
        PlaceholderOpens(Piece([], MaskToken(Followers(rest.pieces))));
      }
    }
  }

  lemma {:induction false} RedactedString()
    ensures REDACTED.kind == Str && !IsU(REDACTED)
  {
  }

  lemma {:induction false} GivenUpStep(c: Context, s: Script)
    requires Sound(s) && s.pieces != [] && IsGivenUp(s.pieces[0])
    ensures Decide(c, Toks(s.pieces)) == Edit(0, 1, REDACTED, ConnRewrite(s.pieces[0].tok).value.toEnd)
  {
    hide Fits, Chain, Flatten, ConnRewrite, REDACTED, Decide;
    var p := s.pieces[0];
    SoundFirst(s);
    OpeningKept(p.tok, Join(Flatten(s.pieces[1..]) + s.tail));
    LoPlain(p.tok);
    ConstantAgain(c, Toks(s.pieces));
  }

  // A string read together with placeholders

  /** A string in which quotes are doubled, and which is not ambiguous. */
  predicate Readable(t: Lexeme) {
    && t.kind == Str && t.terminated && Solid(t) && Silent(t)
    && (!t.escapes && !t.unicode ==>
          ConnString.Double(ValueOf(t), '\'') == t.Body() && (MentionsConnSecret(t.Body()) ==> '\\' !in t.Body()))
  }

  lemma {:induction false} JoinedValue(t: Lexeme, k: nat)
    requires k > 0 && t.kind == Str && t.terminated && Solid(t) && ConnString.Double(ValueOf(t), '\'') == t.Body()
    ensures var m := Joined(t, MaskToken(k));
            ValueOf(m) == ValueOf(t) + Masks(k) && m.Body() == t.Body() + ("''" + MaskToken(k).Body())
  {
    hide Undouble, ConnString.Double, Starry, Masks;
    MaskStarry(k);
    MaskBody(k);
    JoinedBody(t, MaskToken(k));
    DoubleAppend(ValueOf(t), Masks(k), '\'');
    UndoubleDouble(ValueOf(t) + Masks(k), '\'');
  }

  lemma {:induction false} JoinedLeaves(t: Lexeme, k: nat)
    requires k > 0 && Readable(t)
    ensures Leaves(Joined(t, MaskToken(k))) <==> !IsShaken(t, k)
  {
    hide MentionsConnSecret, ConnRewrite, ConnString.Double, Undouble, Starry, Clean, Joined, Masks, ConnString.RedactPasswords;
    var u, m := MaskToken(k), Joined(t, MaskToken(k));
    MaskStarry(k);
    StarryOpens(u);
    StarrySolid(u);
    JoinedInert(t, u);
    JoinedQuiet(t, u);
    JoinedFlags(t, u);
    if !MentionsConnSecret(t.Body()) {
      NotMentioned(m);
    } else {
      JoinedValue(t, k);
      StarryBackslash(u);
      RewriteOf(m, m.Body());
      FixedExactly(ValueOf(m));
    }
  }

  lemma {:induction false} NotMentioned(t: Lexeme)
    requires t.WellFormed() && !MentionsConnSecret(t.Body())
    ensures Leaves(t)
  {
  }

  lemma {:induction false} StarrySolid(t: Lexeme)
    requires Starry(t)
    ensures Solid(t)
  {
  }

  lemma {:induction false} StarryBackslash(t: Lexeme)
    requires Starry(t)
    ensures '\\' !in t.Body()
  {
  }

  lemma {:induction false} JoinedFlags(t: Lexeme, u: Lexeme)
    requires Starry(u)
    ensures var m := Joined(t, u); m.kind == t.kind && m.escapes == t.escapes && m.unicode == t.unicode && m.terminated
  {
  }

  /** A string that is kept and followed by something. */
  lemma {:induction false} KeptReadable(c: Context, s: Script)
    requires Sound(s) && |s.pieces| > 1 && s.pieces[0].tok.kind == Str && Decide(c, Toks(s.pieces)) == Keep
    ensures Readable(s.pieces[0].tok)
  {
    hide Fits, Chain, Flatten, MentionsConnSecret, ConnString.Double, Undouble, Decide, ConnRewrite, IsConstantName;
    var t, r := s.pieces[0].tok, Join(Flatten(s.pieces[1..]) + s.tail);
    TokenSolid(s);
    Closed(s);
    SoundFirst(s);
    if !t.escapes {
      BodyRestored(t, r);
    }
    KeptQuiet(c, s);
    if IsConstantName(t) {
      NameNoBackslash(t);
    } else {
      ConstantAgain(c, Toks(s.pieces));
      LeftPlain(t);
    }
  }

  lemma {:induction false} NameNoBackslash(t: Lexeme)
    requires IsConstantName(t)
    ensures '\\' !in t.Body()
  {
    assert !IsNameChar('\\');
  }

  lemma {:induction false} LeftPlain(t: Lexeme)
    requires t.WellFormed() && t.kind == Str && ConnRewrite(t) == None
    ensures !t.escapes && !t.unicode && t.terminated && MentionsConnSecret(t.Body()) ==> '\\' !in t.Body()
    ensures Silent(t)
  {
    hide MentionsConnSecret, TruncatedInHost, ConnString.RedactPasswords, Undouble, ConnString.Double, WithBody;
  }

  /** A constant that is kept is quiet. */
  lemma {:induction false} KeptQuiet(c: Context, s: Script)
    requires Sound(s) && s.pieces != [] && Decide(c, Toks(s.pieces)) == Keep
    ensures Silent(s.pieces[0].tok)
  {
    hide Fits, Chain, Flatten, MentionsConnSecret, Decide, ConnRewrite, IsConstantName;
    var t, r := s.pieces[0].tok, Join(Flatten(s.pieces[1..]) + s.tail);
    SoundFirst(s);
    if t.kind == Dollar {
      DollarFlags(t, r);
    } else if t.kind == Str {
      if IsConstantName(t) {
        ConstantQuiet(t, r);
      } else {
        ConstantAgain(c, Toks(s.pieces));
        LeftPlain(t);
      }
    }
  }

  lemma {:induction false} ConstantQuiet(t: Lexeme, r: string)
    requires Fits(t, r) && IsConstantName(t)
    ensures Silent(t)
  {
    hide Fits, MentionsConnSecret;
    OpeningKept(t, r);
    PlainFlags(t, r);
  }

  /** A constant that is rewritten. */
  lemma {:induction false} StirredIs(t: Lexeme, r: string, k: nat)
    requires Fits(t, r) && t.IsLiteral() && t.WellFormed() && ConnRewrite(t).Some? && ConnRewrite(t).value.repl.kind == Str
    ensures var u := ConnRewrite(t).value.repl;
            && !u.escapes && !u.unicode && u.WellFormed() && '\\' !in u.Body() && ConnString.Double(ValueOf(u), '\'') == u.Body()
            && (IsShaken(u, k) <==> IsStirred(t, k))
  {
    hide Fits, ConnRewrite, MentionsConnSecret, TruncatedInHost, Undouble, ConnString.Double, ConnString.RedactPasswords, Kept, SeenMentions, SeenCut,
         GivenUp, JoinStars, AmbiguousEscapes, Clean, Masks, REDACTED, WithBody;
    var u, v := ConnRewrite(t).value.repl, ValueOf(t);
    var red := ConnString.RedactPasswords(v);
    KeptRedacts(v);
    SeenIs(Kept(v));
    if GivenUp(t) {
      GivenUpPlaceholder(t);
      RedactedShaken(k);
    } else {
      NotGivenUp(t);
      BodyFlags(t, if t.kind == Dollar then red else ConnString.Double(red, '\''));
      RebuiltString(t, r);
      SeenDouble(red);
    }
  }

  lemma {:induction false} RedactedShaken(k: nat)
    ensures !IsShaken(REDACTED, k) && !REDACTED.escapes && !REDACTED.unicode && REDACTED.WellFormed() && '\\' !in REDACTED.Body()
    ensures ConnString.Double(ValueOf(REDACTED), '\'') == REDACTED.Body()
  {
    hide Undouble, MentionsConnSecret, STARS, REDACTED, Clean, ConnString.Double;
    RedactedBody();
    RedactedFlags();
    StarsMask();
    MaskQuiet(STARS);
    UndoubleNone(STARS, '\'');
    StarsDouble();
  }

  lemma {:induction false} RedactedFlags()
    ensures REDACTED.kind == Str && !REDACTED.escapes && !REDACTED.unicode && REDACTED.WellFormed()
  {
  }

  lemma {:induction false} StarsMask()
    ensures All(ConnStringGrowth.Added, STARS) && '\'' !in STARS && '\\' !in STARS
  {
  }

  /** A string that is rebuilt around its redacted value. */
  lemma {:induction false} RebuiltString(t: Lexeme, r: string)
    requires Fits(t, r) && t.kind == Str && t.WellFormed() && ConnRewrite(t).Some? && !GivenUp(t)
    ensures var u, red := ConnRewrite(t).value.repl, ConnString.RedactPasswords(ValueOf(t));
            && u.WellFormed() && !u.escapes && !u.unicode && u.Body() == ConnString.Double(red, '\'') && ValueOf(u) == red && '\\' !in u.Body()
  {
    hide Fits, ConnRewrite, MentionsConnSecret, TruncatedInHost, Undouble, ConnString.Double, ConnString.RedactPasswords, WithBody;
    var red := ConnString.RedactPasswords(ValueOf(t));
    NotGivenUp(t);
    RewriteWellFormed(t);
    OpeningKept(t, r);
    BodyOf(t, ConnString.Double(red, '\''));
    UndoubleDouble(red, '\'');
    NoBackslash(t, red);
    BodyFlags(t, ConnString.Double(red, '\''));
  }

  lemma {:induction false} BodyFlags(t: Lexeme, b: string)
    requires t.lo <= |t.text|
    ensures var u := WithBody(t, b); u.kind == t.kind && u.escapes == t.escapes && u.unicode == t.unicode
  {
  }

  // What the walk makes

  lemma {:induction false} WalkQuiet(c: Context, s: Script)
    requires Sound(s)
    ensures AllSilent(Walk(c, s).pieces)
    decreases |s.pieces|
  {
    hide Decide, Next, After, Silent, ConnRewrite, Chain, Sorted, AllGap;
    var ps := s.pieces;
    if ps != [] {
      match Decide(c, Toks(ps))
      case Keep =>
        var c1, rest := Next(c, ps[0].tok), Script(ps[1..], s.tail);
        SoundRest(s, 1);
        WalkQuiet(c1, rest);
        KeptQuiet(c, s);
        QuietBoth([ps[0]], Walk(c1, rest).pieces);
      case Edit(from, to, repl, toEnd) =>
        var kept := ps[..from] + [Piece(ps[from].gap, repl)];
        KeptPartQuiet(c, s, kept);
        if !toEnd {
          SoundRest(s, to);
          WalkQuiet(After(c, Toks(kept)), Script(ps[to..], s.tail));
          QuietBoth(kept, Walk(After(c, Toks(kept)), Script(ps[to..], s.tail)).pieces);
        }
    }
  }

  lemma {:induction false} QuietBoth(a: seq<Piece>, b: seq<Piece>)
    requires AllSilent(a) && AllSilent(b)
    ensures AllSilent(a + b)
  {
    hide Silent;
  }

  lemma {:induction false} KeptPartQuiet(c: Context, s: Script, kept: seq<Piece>)
    requires Sound(s) && s.pieces != [] && Decide(c, Toks(s.pieces)).Edit?
    requires var e := Decide(c, Toks(s.pieces)); kept == s.pieces[..e.from] + [Piece(s.pieces[e.from].gap, e.repl)]
    ensures AllSilent(kept)
  {
    hide Decide, Sound, Silent;
    SoundPieces(s);
    var ps, e := s.pieces, Decide(c, Toks(s.pieces));
    RedactedKept();
    if e.from == 0 {
      RewrittenSilent(c, s);
      assert kept == [Piece(ps[0].gap, e.repl)];
    } else {
      ValueSilent(c, s);
    }
  }

  lemma {:induction false} RewrittenSilent(c: Context, s: Script)
    requires Sound(s) && s.pieces != [] && Decide(c, Toks(s.pieces)).Edit? && Decide(c, Toks(s.pieces)).from == 0
    ensures Silent(Decide(c, Toks(s.pieces)).repl)
  {
    hide Decide, Fits, Chain, Flatten, ConnRewrite, MentionsConnSecret, REDACTED;
    var ps, e := s.pieces, Decide(c, Toks(s.pieces));
    RedactedKept();
    SoundFirst(s);
    FromIsValue(c, Toks(ps));
    if e.repl != REDACTED {
      RewrittenFlags(ps[0].tok, Join(Flatten(ps[1..]) + s.tail));
    }
  }

  lemma {:induction false} ValueSilent(c: Context, s: Script)
    requires Sound(s) && s.pieces != [] && Decide(c, Toks(s.pieces)).Edit? && Decide(c, Toks(s.pieces)).from > 0
    ensures var e := Decide(c, Toks(s.pieces)); e.from <= 2 && Silent(s.pieces[0].tok) && Silent(e.repl) && (e.from == 2 ==> Silent(s.pieces[1].tok))
  {
    hide Decide, Fits, Chain, Flatten, ConnRewrite, MentionsConnSecret, REDACTED, REDACTED_IDENT, ValueEdit, IsConstantName, Inert, IsU;
    var ps, e := s.pieces, Decide(c, Toks(s.pieces));
    RedactedKept();
    SoundFirst(s);
    ValueEdits(c, Toks(ps));
    NameOrConstant(c, Toks(ps));
    if IsConstantName(ps[0].tok) {
      ConstantQuiet(ps[0].tok, Join(Flatten(ps[1..]) + s.tail));
    }
    if e.from == 2 {
      SeparatorQuiet(c, Toks(ps));
    }
  }

  lemma {:induction false} RedactedKept()
    ensures Silent(REDACTED) && Silent(REDACTED_IDENT)
  {
  }

  lemma {:induction false} FromIsValue(c: Context, ts: seq<Lexeme>)
    requires ts != [] && ts[0].WellFormed() && Decide(c, ts).Edit? && Decide(c, ts).from == 0
    ensures var e := Decide(c, ts); ts[0].IsLiteral() && ConnRewrite(ts[0]) == Some(Rewrite(e.repl, e.toEnd))
  {
    hide Decide, ConnRewrite;
    EditShape(c, ts);
  }

  lemma {:induction false} NameOrConstant(c: Context, ts: seq<Lexeme>)
    requires ts != [] && ts[0].WellFormed() && Decide(c, ts).Edit? && Decide(c, ts).from > 0
    ensures IsConstantName(ts[0]) || !ts[0].IsLiteral()
  {
    hide IsSecretName, IsConstantName, ConnRewrite, SetValue, Literals;
  }

  lemma {:induction false} SeparatorQuiet(c: Context, ts: seq<Lexeme>)
    requires ts != [] && ts[0].WellFormed() && Decide(c, ts).Edit? && Decide(c, ts).from == 2
    ensures !ts[1].IsLiteral()
  {
    hide Decide, ConnRewrite, IsSecret;
    EditShape(c, ts);
    if IsSeparator(ts[1]) {
      SeparatorPlainly(ts[1]);
    }
  }

  /** A piece that the walk leaves or puts, in front of what it makes of the rest: it is fused with that if it is a
      string and constants that are given up follow, or a U. */
  lemma {:induction false} FusesWhen(prev: Before, c: Context, q: Piece, s: Script)
    requires Stands(prev, s) && prev.tok == Some(q.tok) && q.tok.kind == Str
    ensures WellFormed(s.pieces)
    ensures var fs, k := Fuse(Walk(c, s).pieces), Followers(s.pieces);
            if k > 0 then FuseOn(q, fs) != [q] + fs && FuseOn(q, fs)[0].tok == Joined(q.tok, MaskToken(k)) else FuseOn(q, fs) == [q] + fs
  {
    hide Stands, Walk, Fuse, Starry, Joined, Lower;
    FollowFuse(prev, c, s);
    var fs, k := Fuse(Walk(c, s).pieces), Followers(s.pieces);
    if k > 0 {
      MaskStarry(k);
      PlaceholderOpens(fs[0]);
      var gs := FuseOn(q, fs);
      assert |gs| == |fs| && |[q] + fs| == |fs| + 1;
    }
  }

  /** The first step over what the walk makes when it keeps a token. */
  lemma {:induction false} KeptRests(prev: Before, c: Context, s: Script, w: seq<Piece>)
    requires Stands(prev, s) && WellFormed(s.pieces) && s.pieces != [] && Decide(c, Toks(s.pieces)) == Keep && WellFormed(w)
    requires w == [s.pieces[0]] + Walk(Next(c, s.pieces[0].tok), Script(s.pieces[1..], s.tail)).pieces && AllSolid(w) && Glued(prev, w)
    ensures var ps, k := s.pieces, Followers(s.pieces[1..]);
            Rests(c, w) <==> !(ps[0].tok.kind == Str && k > 0 && IsShaken(ps[0].tok, k)) && Rests(Next(c, ps[0].tok), w[1..])
  {
    hide Stands, Walk, FuseOn, Fuse, Starry, Joined, Decide, Next, After, AllSolid, Glued, Leaves, IsShaken, Alike, Behind, Rests, Readable;
    var p, rest := s.pieces[0], Script(s.pieces[1..], s.tail);
    StandsSound(prev, s);
    StandsBehind(prev, s);
    KeepAlike(c, s);
    KeepAgain(c, Toks(s.pieces), Toks(w));
    assert w[1..] == Walk(Next(c, p.tok), rest).pieces && w[0] == p;
    RestsStep(c, w);
    BehindTok(prev, p);
    if p.tok.kind == Str {
      var k := Followers(rest.pieces);
      FusesWhen(Behind(prev, p), Next(c, p.tok), p, rest);
      if k > 0 {
        KeptReadable(c, s);
        JoinedLeaves(p.tok, k);
      }
    } else if FuseOn(p, Fuse(w[1..])) != [p] + Fuse(w[1..]) {
      UnifiedRests(prev, w);
    }
  }

  lemma {:induction false} RestsStep(c: Context, w: seq<Piece>)
    requires w != [] && WellFormed(w)
    ensures WellFormed(w[1..])
    ensures var gs := FuseOn(w[0], Fuse(w[1..]));
            Rests(c, w) <==>
            if gs != [w[0]] + Fuse(w[1..]) then Leaves(gs[0].tok) && Rests(Next(c, w[0].tok), w[1..])
            else
              var e := Decide(c, Toks(w));
              if e == Keep then Rests(Next(c, w[0].tok), w[1..])
              else e.from > 0 && Rests(After(c, Toks(w[..e.to])), w[e.to..])
  {
    hide FuseOn, Fuse, Leaves, Decide, Next, After;
  }

  lemma {:induction false} UnifiedRests(prev: Before, w: seq<Piece>)
    requires w != [] && AllSolid(w) && Glued(prev, w) && w[0].tok.kind != Str && FuseOn(w[0], Fuse(w[1..])) != [w[0]] + Fuse(w[1..])
    ensures Leaves(FuseOn(w[0], Fuse(w[1..]))[0].tok)
  {
    hide Fuse, Solid, Starry, IsU, IsUni, Glued, Unified;
    UniteFront(w);
    UniFuses(prev, w);
    FuseStep(w);
  }

  /** The first step over what the walk makes when it rewrites a constant. */
  lemma {:induction false} RewrittenRests(prev: Before, c: Context, s: Script, r: seq<Piece>)
    requires Stands(prev, s) && WellFormed(s.pieces) && s.pieces != [] && WellFormed(r)
    requires var e := Decide(c, Toks(s.pieces));
             && e.Edit? && e.from == 0
             && r == (if e.toEnd then [] else Walk(After(c, [e.repl]), Script(s.pieces[1..], s.tail)).pieces)
    ensures var e := Decide(c, Toks(s.pieces)); var w := [Piece(s.pieces[0].gap, e.repl)] + r;
            var k := if e.toEnd || e.repl.kind != Str then 0 else Followers(s.pieces[1..]);
            && WellFormed(w)
            && (Rests(c, w) <==> !(if k > 0 then IsStirred(s.pieces[0].tok, k) else IsRestless(s.pieces[0].tok)) && Rests(START, r))
  {
    hide Stands, Walk, FuseOn, Fuse, Starry, Joined, Decide, Next, After, Leaves, IsShaken, Behind, Rests, Readable, IsStirred, IsRestless, ConnRewrite, Fits;
    var ps, e := s.pieces, Decide(c, Toks(s.pieces));
    var t, q, x := ps[0].tok, Piece(ps[0].gap, e.repl), TextOf(Script(ps[1..], s.tail));
    var w := [q] + r;
    StandsSound(prev, s);
    FromIsValue(c, Toks(ps));
    EditIsOne(c, Toks(ps));
    FirstTexts(s);
    RewriteWellFormed(t);
    EditHead(c, Toks(ps));
    RewrittenNoName(c, Toks(ps));
    assert w[0] == q && w[1..] == r && Toks(w)[0] == e.repl;
    SqlTarget.AfterLiteral(c, e.repl);
    After1(c, e.repl);
    ConstantAgain(c, Toks(w));
    RewrittenAgain(t, x);
    RestsStep(c, w);
    if e.toEnd {
      FuseNone(r);
      FuseOne(q);
    } else {
      StandsAfter(prev, c, s);
      RewrittenFuses(c, s, q, r);
    }
  }

  lemma {:induction false} FuseOne(q: Piece)
    ensures FuseOn(q, []) == [q] + []
  {
  }

  lemma {:induction false} RewrittenFuses(c: Context, s: Script, q: Piece, r: seq<Piece>)
    requires Sound(s) && s.pieces != [] && s.pieces[0].tok.IsLiteral() && ConnRewrite(s.pieces[0].tok).Some?
    requires q.tok == ConnRewrite(s.pieces[0].tok).value.repl && !ConnRewrite(s.pieces[0].tok).value.toEnd
    requires Stands(Before(Some(q.tok), false), Script(s.pieces[1..], s.tail)) && WellFormed(s.pieces[1..])
    requires r == Walk(After(c, [q.tok]), Script(s.pieces[1..], s.tail)).pieces
    ensures var k := if q.tok.kind != Str then 0 else Followers(s.pieces[1..]);
            if k > 0 then FuseOn(q, Fuse(r)) != [q] + Fuse(r) && (Leaves(FuseOn(q, Fuse(r))[0].tok) <==> !IsStirred(s.pieces[0].tok, k))
            else FuseOn(q, Fuse(r)) == [q] + Fuse(r)
  {
    hide Stands, Walk, Fuse, FuseOn, Starry, Joined, After, Leaves, IsShaken, IsStirred, ConnRewrite, Fits, MentionsConnSecret, Undouble, ConnString.Double;
    var t, rest := s.pieces[0].tok, Script(s.pieces[1..], s.tail);
    if q.tok.kind == Str {
      var k := Followers(rest.pieces);
      FusesWhen(Before(Some(q.tok), false), After(c, [q.tok]), q, rest);
      if k > 0 {
        FirstTexts(s);
        StirredIs(t, TextOf(rest), k);
        RewriteOpens(s, ConnRewrite(t).value);
        FollowersSome(rest.pieces);
        StandsClosed(Before(Some(q.tok), false), rest);
        JoinedLeaves(q.tok, k);
      }
    } else {
      RewriteKinds(t);
      DollarAlone(q, Fuse(r));
    }
  }

  lemma {:induction false} FollowersSome(ps: seq<Piece>)
    requires Followers(ps) > 0
    ensures ps != []
  {
  }

  lemma {:induction false} DollarAlone(q: Piece, fs: seq<Piece>)
    requires q.tok.kind == Dollar
    ensures FuseOn(q, fs) == [q] + fs
  {
    hide Lower;
  }

  /** And when it replaces a value. */
  lemma {:induction false} ValueRests(c: Context, s: Script, kept: seq<Piece>, r: Script)
    requires WellFormed(s.pieces) && s.pieces != [] && Decide(c, Toks(s.pieces)).Edit? && Decide(c, Toks(s.pieces)).from > 0
    requires var e := Decide(c, Toks(s.pieces));
             && kept == s.pieces[..e.from] + [Piece(s.pieces[e.from].gap, e.repl)]
             && r == (if e.toEnd then Script([], []) else Walk(After(c, Toks(kept)), Script(s.pieces[e.to..], s.tail)))
    requires WellFormed(kept + r.pieces) && WellFormed(r.pieces)
    ensures Rests(c, kept + r.pieces) <==> Rests(After(c, Toks(kept)), r.pieces)
  {
    hide FuseOn, Decide, Next, After, Rests, Fuse, Walk, ValueEdit, IsU, Inert;
    var e, w := Decide(c, Toks(s.pieces)), kept + r.pieces;
    EditValueAgain(c, s, kept, r, e);
    assert w[e.from] == kept[e.from] && w[..e.from + 1] == kept && w[e.from + 1..] == r.pieces && w[0] == s.pieces[0];
    assert e.from == 2 ==> w[1] == s.pieces[1];
    RestsStep(c, w);
    ValueEdits(c, Toks(s.pieces));
    NameOrConstant(c, Toks(s.pieces));
    NamesAlone(c, s, w);
  }

  lemma {:induction false} NamesAlone(c: Context, s: Script, w: seq<Piece>)
    requires WellFormed(s.pieces) && s.pieces != [] && Decide(c, Toks(s.pieces)).Edit? && Decide(c, Toks(s.pieces)).from > 0
    requires w != [] && WellFormed(w) && w[0] == s.pieces[0] && (Decide(c, Toks(s.pieces)).from == 2 ==> |w| > 1 && w[1] == s.pieces[1])
    ensures FuseOn(w[0], Fuse(w[1..])) == [w[0]] + Fuse(w[1..])
  {
    hide Decide, Fuse, IsU, Inert, ValueEdit;
    ValueEdits(c, Toks(s.pieces));
    SecretOrConstant(c, Toks(s.pieces));
    if w[0].tok.kind == Str {
      SolidComma(w);
    } else {
      FuseSame(w[0], w[1..]);
      assert [w[0]] + w[1..] == w;
      FuseStep(w);
    }
  }

  lemma {:induction false} SecretOrConstant(c: Context, ts: seq<Lexeme>)
    requires ts != [] && ts[0].WellFormed() && Decide(c, ts).Edit? && Decide(c, ts).from > 0
    ensures ts[0].kind != Str ==> IsSecret(ts[0]) && !IsU(ts[0])
    ensures ts[0].kind == Str ==> Decide(c, ts).from == 2
  {
    hide IsSecretName, ConnRewrite, SetValue, Literals, NameOf;
    if ts[0].kind != Str && IsU(ts[0]) {
      UNoName(ts[0]);
    }
  }

  lemma {:induction false} SolidComma(w: seq<Piece>)
    requires |w| > 1 && WellFormed(w) && w[0].tok.kind == Str && w[1].tok.kind != Str
    ensures FuseOn(w[0], Fuse(w[1..])) == [w[0]] + Fuse(w[1..])
  {
    hide Fuse, Lower;
    FuseHead(w[1..]);
  }

  /** No constant is rewritten again, once it is fused, if and only if none stirs. */
  lemma {:induction false} RestsWalk(prev: Before, c: Context, s: Script)
    requires Stands(prev, s)
    ensures WellFormed(s.pieces) && WellFormed(Walk(c, s).pieces) && (Rests(c, Walk(c, s).pieces) <==> !Stirs(c, s))
    decreases |s.pieces|
  {
    hide Decide, Next, After, Stands, Behind, Rests, IsShaken, IsStirred, IsRestless, Followers, AllSolid, Glued;
    StandsSound(prev, s);
    SoundPieces(s);
    WalkWellFormed(c, s);
    var ps := s.pieces;
    if ps == [] {
      RestsNothing(c, Walk(c, s).pieces);
    } else {
      WalkGlued(prev, c, s);
      match Decide(c, Toks(ps))
      case Keep =>
        var c1, rest := Next(c, ps[0].tok), Script(ps[1..], s.tail);
        StandsBehind(prev, s);
        RestsWalk(Behind(prev, ps[0]), c1, rest);
        assert Walk(c, s).pieces[1..] == Walk(c1, rest).pieces;
        KeptRests(prev, c, s, Walk(c, s).pieces);
      case Edit(from, to, repl, toEnd) =>
        EditRests(prev, c, s);
    }
  }

  lemma {:induction false} RestsNothing(c: Context, w: seq<Piece>)
    requires w == []
    ensures Rests(c, w)
  {
  }

  lemma {:induction false} EditRests(prev: Before, c: Context, s: Script)
    requires Stands(prev, s) && WellFormed(s.pieces) && s.pieces != [] && Decide(c, Toks(s.pieces)).Edit?
    ensures WellFormed(Walk(c, s).pieces) && (Rests(c, Walk(c, s).pieces) <==> !Stirs(c, s))
    decreases |s.pieces|, 0
  {
    hide Decide, Next, After, Stands, Behind, Rests, IsShaken, IsStirred, IsRestless, Followers, Walk, Stirs;
    var ps, e := s.pieces, Decide(c, Toks(s.pieces));
    var kept := ps[..e.from] + [Piece(ps[e.from].gap, e.repl)];
    var c1, rest := After(c, Toks(kept)), Script(ps[e.to..], s.tail);
    WalkWellFormed(c, s);
    WalkEdit(c, s, Decide(c, Toks(s.pieces)));
    var r := if e.toEnd then Script([], []) else Walk(c1, rest);
    assert kept + [] == kept;
    if e.toEnd {
      RestsNothing(c1, []);
    } else {
      StandsAfter(prev, c, s);
      RestsWalk(Before(Some(e.repl), false), c1, rest);
    }
    StirsEdit(c, s, kept);
    if e.from == 0 {
      assert kept == [Piece(ps[0].gap, e.repl)] && Toks(kept) == [e.repl];
      EditIsOne(c, Toks(ps));
      EditHead(c, Toks(ps));
      After1(c, e.repl);
      SqlTarget.AfterLiteral(c, e.repl);
      RewrittenRests(prev, c, s, r.pieces);
    } else {
      ValueRests(c, s, kept, r);
    }
  }

  lemma {:induction false} StirsEdit(c: Context, s: Script, kept: seq<Piece>)
    requires WellFormed(s.pieces) && s.pieces != [] && Decide(c, Toks(s.pieces)).Edit?
    requires var e := Decide(c, Toks(s.pieces)); kept == s.pieces[..e.from] + [Piece(s.pieces[e.from].gap, e.repl)]
    ensures var e := Decide(c, Toks(s.pieces)); var ps := s.pieces;
            Stirs(c, s) <==>
            || (e.from == 0 &&
                var k := if e.toEnd || e.repl.kind != Str then 0 else Followers(ps[1..]);
                if k > 0 then IsStirred(ps[0].tok, k) else IsRestless(ps[0].tok))
            || (!e.toEnd && Stirs(After(c, Toks(kept)), Script(ps[e.to..], s.tail)))
  {
    hide Decide, Next, After, IsShaken, IsStirred, IsRestless, Followers;
  }

  /** Where every rewritten dollar-quoted constant avoids its tag, redaction is idempotent if and only if no
      fused constant comes into reach of a name and no constant is rewritten again, read together with the
      placeholders directly behind it. */
  lemma {:induction false} RedactIdempotent(query: string)
    requires TagsAvoided(START, Statement(query))
    ensures RedactQuery(RedactQuery(query)) == RedactQuery(query) <==>
            !Exposes(START, Statement(query)) && !Stirs(START, Statement(query))
  {
    hide Walk, RedactQuery, Statement, TagsAvoided, Exposes, AllGuarded, Stands, Bare, Glued, Fuse, Stirs, Rests, Calm, Idle, Tame, AllSilent, AllSolid, Sound, TextOf;
    var s := Statement(query);
    var w := Walk(START, s);
    GateSound(query);
    GateSound(Rewritten(query));
    RewrittenText(query);
    RewrittenText(Rewritten(query));
    FusedReading(query);
    StatementStands(query);
    StandsSound(NOTHING, s);
    SoundPieces(s);
    WalkGuarded(START, s);
    WalkGlued(NOTHING, START, s);
    SolidFormed(w.pieces);
    WalkCalm(START, s);
    FusedIdle(NOTHING, START, w.pieces);
    BareWalk(NOTHING, START, s);
    RestsWalk(NOTHING, START, s);
    WalkQuiet(START, s);
    QuietFuse(NOTHING, w.pieces);
    StatementSound(Rewritten(query));
    TextMoves(START, Fused(w));
    FusedText(w);
  }

  lemma {:induction false} FusedText(w: Script)
    ensures TextOf(Fused(w)) == TextOf(w)
  {
    JoinFuse(w.pieces, w.tail);
  }
}
