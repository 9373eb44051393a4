/**
 A redacted statement, read again, where placeholders run together with the text before them: a placeholder
 directly behind a string is one string with it, and one directly behind a U and an ampersand is one
 constant with Unicode escapes.
 */
module SqlFused {
  import opened Text
  import opened SqlLexer
  import opened SqlBoundary
  import opened SqlChain
  import opened SqlRedact
  import opened SqlGate
  import opened SqlRelex
  import opened SqlConstants
  import opened SqlIdempotence
  import opened SqlApart
  import ConnString

  // The fused reading

  /** A plain constant with nothing in front of it. */
  predicate OpensPlain(p: Piece) { p.gap == [] && p.tok.kind == Str && "'" <= p.tok.text }

  /** A string and the plain constant directly behind it. */
  function Joined(t: Lexeme, u: Lexeme): Lexeme {
    t.(text := t.text + u.text, hi := |t.text| + u.hi, terminated := u.terminated)
  }

  /** A U, an ampersand and the plain constant directly behind them. */
  function Unified(u: Lexeme, a: Lexeme, t: Lexeme): Lexeme {
    var n := |u.text| + |a.text|;
    Lexeme(Str, u.text + a.text + t.text, n + 1, n + t.hi, false, true, t.terminated)
  }

  predicate IsAmp(p: Piece) { p.gap == [] && p.tok.kind == Other && p.tok.text == "&" }

  /** A piece in front of pieces that are fused already. */
  function FuseOn(p: Piece, fs: seq<Piece>): (gs: seq<Piece>)
    ensures gs != []
  {
    if fs != [] && p.tok.kind == Str && OpensPlain(fs[0]) then [Piece(p.gap, Joined(p.tok, fs[0].tok))] + fs[1..]
    else if |fs| > 1 && IsU(p.tok) && IsAmp(fs[0]) && OpensPlain(fs[1]) then
      [Piece(p.gap, Unified(p.tok, fs[0].tok, fs[1].tok))] + fs[2..]
    else [p] + fs
  }

  function Fuse(ps: seq<Piece>): seq<Piece> {
    if ps == [] then [] else FuseOn(ps[0], Fuse(ps[1..]))
  }

  function Fused(s: Script): Script { Script(Fuse(s.pieces), s.tail) }

  /** Every dollar-quoted constant that is rewritten on the way avoids its tag. */
  predicate TagsAvoided(c: Context, s: Script)
    requires WellFormed(s.pieces)
    decreases |s.pieces|
  {
    var ps := s.pieces;
    ps == [] ||
    match Decide(c, Toks(ps))
    case Keep => TagsAvoided(Next(c, ps[0].tok), Script(ps[1..], s.tail))
    case Edit(from, to, repl, toEnd) =>
      && (from == 0 && ps[0].tok.kind == Dollar && repl != REDACTED ==> Holds(ps[0].tok, ConnString.RedactPasswords(ps[0].tok.Body())))
      && (toEnd || TagsAvoided(After(c, Toks(ps[..from] + [Piece(ps[from].gap, repl)])), Script(ps[to..], s.tail)))
  }

  // Reading a fused constant

  /** A doubled quote does not end a body. */
  lemma {:induction false} ScanOver(b: string, q: char, esc: bool, x: string)
    requires QuoteScan(b + [q] + "", q, esc) == Scan(|b|, true)
    ensures QuoteScan(b + [q, q] + x, q, esc) == Shift(|b| + 2, QuoteScan(x, q, esc))
    decreases |b|
  {
    var s, s' := b + [q] + "", b + [q, q] + x;
    if b == "" {
      assert s'[2..] == x;
    } else {
      var k := if b[0] == q || (esc && b[0] == '\\') then 2 else 1;
      assert |b| >= k;
      assert s[k..] == b[k..] + [q] + "";
      assert s'[k..] == b[k..] + [q, q] + x;
      ScanOver(b[k..], q, esc, x);
    }
  }

  lemma {:induction false} ScanNoEscapes(b: string, q: char, esc: bool, r: string)
    requires '\\' !in b && QuoteScan(b + [q] + r, q, false) == Scan(|b|, true)
    ensures QuoteScan(b + [q] + r, q, esc) == Scan(|b|, true)
    decreases |b|
  {
    var s := b + [q] + r;
    if b != "" {
      var k := if b[0] == q then 2 else 1;
      assert |b| >= k;
      assert s[k..] == b[k..] + [q] + r;
      ScanNoEscapes(b[k..], q, esc, r);
    }
  }

  /** A constant of asterisks and quotes. */
  predicate Starry(t: Lexeme) {
    && t.kind == Str && t.lo == 1 && t.hi + 1 == |t.text| && !t.escapes && !t.unicode && t.terminated && "'" <= t.text && |t.text| >= 10 && t.text[t.hi] == '\''
    && forall i :: 0 <= i < |t.text| ==> t.text[i] == '*' || t.text[i] == '\''
  }

  predicate IsPlaceholder(p: Piece) { p.gap == [] && Starry(p.tok) }

  lemma {:induction false} RedactedStarry()
    ensures Starry(REDACTED)
  {
  }

  /** How a starry constant is read. */
  lemma {:induction false} StarryRead(t: Lexeme, r: string, esc: bool)
    requires Starry(t) && Fits(t, r)
    ensures t.text == "'" + t.Body() + ['\''] && QuoteScan(t.Body() + ['\''] + r, '\'', esc) == Scan(|t.Body()|, true)
  {
    hide QuoteScan, Run, BlockScan, DollarLexeme, WordLexeme;
    assert (t.text + r)[0] == '\'';
    QuotedShape(Str, t, 0, '\'', false, false, r);
    ScanNoEscapes(t.Body(), '\'', esc, r);
  }

  lemma {:induction false} StringRead(t: Lexeme)
    requires Fits(t, "") && t.kind == Str && t.terminated && t.WellFormed()
    ensures 0 < t.lo && t.text == t.text[..t.lo] + (t.Body() + ['\''])
    ensures QuoteScan(t.Body() + ['\''] + "", '\'', t.escapes) == Scan(|t.Body()|, true)
  {
    hide QuoteScan, First, Fits, Quoted;
    assert t.text[..t.lo] <= t.text + "";
    OpeningRead(t, "", t.text + "");
    FitsFirst(t, "");
    QuotedShape(Str, t, t.lo - 1, '\'', t.escapes, t.unicode, "");
  }

  lemma {:induction false} JoinedScan(b: string, v: string, esc: bool, r: string)
    requires QuoteScan(b + ['\''] + "", '\'', esc) == Scan(|b|, true) && QuoteScan(v + ['\''] + r, '\'', esc) == Scan(|v|, true)
    ensures var d := b + ['\'', '\''] + v; QuoteScan(d + ['\''] + r, '\'', esc) == Scan(|d|, true)
  {
    hide QuoteScan;
    ScanOver(b, '\'', esc, v + ['\''] + r);
    var d := b + ['\'', '\''] + v;
    assert b + ['\'', '\''] + (v + ['\''] + r) == d + ['\''] + r;
  }

  lemma {:induction false} JoinedText(o: string, b: string, v: string)
    ensures (o + (b + ['\''])) + ("'" + v + ['\'']) == o + ((b + ['\'', '\''] + v) + ['\''])
  {
  }

  lemma {:induction false} JoinedFits(t: Lexeme, u: Lexeme, r: string)
    requires Fits(t, "") && t.kind == Str && t.terminated && t.WellFormed() && Starry(u) && Fits(u, r)
    ensures Fits(Joined(t, u), r) && Joined(t, u).WellFormed()
  {
    hide QuoteScan, First, Fits, Quoted;
    var m := Joined(t, u);
    StringRead(t);
    StarryRead(u, r, t.escapes);
    var o, b, v := t.text[..t.lo], t.Body(), u.Body();
    JoinedScan(b, v, t.escapes, r);
    QuotedClosed(Str, o, b + ['\'', '\''] + v, '\'', t.escapes, t.unicode, r);
    JoinedText(o, b, v);
    assert m.text == o + ((b + ['\'', '\''] + v) + ['\'']);
    OpeningIn(o, m.text, r);
    OpeningRead(t, "", m.text + r);
    FirstFits(m, r);
  }

  lemma {:induction false} OpeningIn(o: string, s: string, r: string)
    requires o <= s
    ensures o <= s + r
  {
  }

  lemma {:induction false} FirstFits(t: Lexeme, r: string)
    requires t.text != "" && First(t.text + r) == t
    ensures Fits(t, r)
  {
  }

  lemma {:induction false} UText(u: Lexeme)
    requires IsU(u)
    ensures |u.text| == 1 && (u.text == "u" || u.text == "U")
  {
    assert |Lower(u.text)| == 1 && Lower(u.text)[0] == LowerChar(u.text[0]) == 'u';
  }

  /** The constant that starts with a U, an ampersand and a quote. */
  lemma {:induction false} UnicodeFirst(s: string)
    requires |s| > 2 && (s[0] == 'u' || s[0] == 'U') && s[1] == '&' && s[2] == '\''
    ensures First(s) == Quoted(Str, s, 2, '\'', false, true)
  {
    hide Quoted, Run, BlockScan, DollarLexeme;
    RunIs(IsIdentCont, s, 1);
    assert Lower(s[..1]) == "u";
  }

  lemma {:induction false} UnifiedFits(u: Lexeme, a: Lexeme, t: Lexeme, r: string)
    requires IsU(u) && a.text == "&" && Starry(t) && Fits(t, r)
    ensures Fits(Unified(u, a, t), r) && Unified(u, a, t).WellFormed()
  {
    hide QuoteScan, Quoted, First, Fits, IsU;
    var m, o := Unified(u, a, t), u.text + "&'";
    UText(u);
    StarryRead(t, r, false);
    QuotedClosed(Str, o, t.Body(), '\'', false, true, r);
    assert m.text == o + (t.Body() + ['\'']);
    UnicodeFirst(m.text + r);
    FirstFits(m, r);
  }

  // In front of a fused constant

  /** A token that stood in front of a U may stand in front of a U, an ampersand and a quote. */
  lemma {:induction false} BeforeU(t: Lexeme, u: Lexeme, w: string)
    requires IsU(u) && Ends(t, u.text)
    ensures Bridge(t, true, u.text, u.text + "&'" + w)
  {
    hide Lower, BlockScan, IsU;
    UText(u);
    var r := u.text + "&'" + w;
    assert r[0] == u.text[0] && r[1] == '&';
    if t.kind == Other && t.text == "$" {
      RunIs(IsTagCont, r, 1);
    }
  }

  /** A token that stood in front of a string may stand in front of any other with its opening. */
  lemma {:induction false} BeforeString(t: Lexeme, s: Lexeme, r: string, w: string)
    requires Fits(s, r) && s.kind == Str && Ends(t, s.text)
    ensures Bridge(t, true, s.text, s.text + w)
  {
    hide Fits, Ends, Bridge;
    OpeningKept(s, r);
    var z, b := s.text[..s.lo], s.text[s.lo..];
    assert s.text == z + b && s.text + w == z + (b + w);
    EndsOpening(t, z, b, b + w);
  }

  /** Replacing the last of some tokens by one that goes on where it ends. */
  lemma {:induction false} Regrow(prev: Before, was: string, gap: seq<Lexeme>, t: Lexeme, m: Lexeme, x: seq<Lexeme>)
    requires Chain(gap + [t], "") && Chain(x, "") && Fits(m, Join(x)) && t.text != "" && t.text <= m.text
    requires forall k: Lexeme :: Ends(k, t.text) ==> Bridge(k, true, t.text, m.text + Join(x))
    requires Bridged(prev, was, Join(gap + [t]))
    ensures Chain(gap + ([m] + x), "") && Bridged(prev, was, Join(gap + ([m] + x)))
  {
    hide Fits, Ends, Chain, Join;
    var r, r' := t.text, m.text + Join(x);
    JoinCons(t, []);
    JoinNone();
    assert [t] + [] == [t] && r + "" == r;
    JoinCons(m, x);
    ChainSplit(gap, [t], "");
    if gap != [] {
      LastEnds(gap, r);
      BridgeAny(gap[|gap| - 1], IsHot(None, gap), r, r');
    }
    ReplaceRun(None, gap, [t], m, x);
    JoinAppend(gap, [t]);
    JoinAppend(gap, [m] + x);
    BridgedOn(prev, was, gap, r, r');
  }

  lemma {:induction false} BridgeAny(t: Lexeme, hot: bool, r: string, r': string)
    requires Bridge(t, true, r, r')
    ensures Bridge(t, hot, r, r')
  {
    hide Ends;
  }

  lemma {:induction false} BridgedOn(prev: Before, was: string, gap: seq<Lexeme>, r: string, r': string)
    requires Chain(gap, r) && r != "" && r' != "" && r[0] == r'[0]
    requires forall k: Lexeme :: Ends(k, r) ==> Bridge(k, true, r, r')
    requires Bridged(prev, was, Join(gap) + r)
    ensures Bridged(prev, was, Join(gap) + r')
  {
    hide Ends, Chain;
    if prev.tok.Some? && Ends(prev.tok.value, was) {
      var t := prev.tok.value;
      if gap == [] {
        JoinNone();
        assert Join(gap) + r == r && Join(gap) + r' == r';
        BridgeAny(t, prev.hot, r, r');
      } else {
        LastEnds(gap, r);
        BridgeAny(gap[|gap| - 1], IsHot(Some(t), gap), r, r');
        BridgeOver(t, prev.hot, gap, r, r');
      }
    }
  }

  // No fusion where tokens fit

  /** Tokens that fit one behind another are not fused. */
  lemma {:induction false} FitsApart(p: Piece, f: Script)
    requires Chain(p.gap + ([p.tok] + Ungroup(f)), "")
    ensures FuseOn(p, f.pieces) == [p] + f.pieces
  {
    hide Fits, Chain, Flatten, BlockScan, OpensDollar, IsU, REDACTED;
    var fs, x := f.pieces, Ungroup(f);
    ChainSplit(p.gap, [p.tok] + x, "");
    ChainAt([p.tok] + x, "", 0);
    assert ([p.tok] + x)[1..] == x && Join(x) + "" == Join(x);
    FitsEnds(p.tok, Join(x));
    if fs != [] {
      HeadText(f);
      if |fs| > 1 && IsU(p.tok) && IsAmp(fs[0]) && OpensPlain(fs[1]) {
        var g := Script(fs[1..], f.tail);
        HeadText(g);
        NoFusedU(p.tok, Join(x), Join(Ungroup(g)));
      }
    }
  }

  lemma {:induction false} NoFusedU(u: Lexeme, r: string, r': string)
    requires IsU(u) && Ends(u, r) && r == "&" + r'
    ensures !("'" <= r')
  {
    hide Lower, BlockScan;
    assert r != "" && r[0] == '&';
    assert |r'| > 0 ==> r[1] == r'[0];
  }

  /** The text of a statement whose first piece has nothing in front of it. */
  lemma {:induction false} HeadText(f: Script)
    requires f.pieces != []
    ensures f.pieces[0].gap == [] ==> Join(Ungroup(f)) == f.pieces[0].tok.text + Join(Ungroup(Script(f.pieces[1..], f.tail)))
  {
    hide Flatten, Join;
    FirstOut(f.pieces);
    if f.pieces[0].gap == [] {
      var t, x := f.pieces[0].tok, Ungroup(Script(f.pieces[1..], f.tail));
      assert Ungroup(f) == [t] + x;
      JoinCons(t, x);
    }
  }

  // One step of the walk

  /** The token in front is fused with what follows. */
  predicate Meets(prev: Before, f: Script) {
    && prev.tok.Some? && f.pieces != []
    && (|| ((prev.tok.value.kind == Str || prev.hot) && IsPlaceholder(f.pieces[0]))
        || (IsU(prev.tok.value) && |f.pieces| > 1 && IsAmp(f.pieces[0]) && IsPlaceholder(f.pieces[1])))
  }

  /** What follows a token has become `f`: it still fits there, or is fused with it. */
  predicate Behaves(prev: Before, was: string, f: Script) {
    Bridged(prev, was, Join(Ungroup(f))) || Meets(prev, f)
  }

  lemma {:induction false} UngroupFirst(p: Piece, ps: seq<Piece>, tail: seq<Lexeme>)
    ensures Ungroup(Script([p] + ps, tail)) == p.gap + ([p.tok] + Ungroup(Script(ps, tail)))
  {
    hide Flatten;
    FirstOut([p] + ps);
    assert ([p] + ps)[1..] == ps;
  }

  lemma {:induction false} Behead(f: Script)
    requires f.pieces != []
    ensures Ungroup(f) == f.pieces[0].gap + ([f.pieces[0].tok] + Ungroup(Script(f.pieces[1..], f.tail)))
    ensures Chain(Ungroup(f), "") ==>
              var g := Script(f.pieces[1..], f.tail); Chain(Ungroup(g), "") && Fits(f.pieces[0].tok, Join(Ungroup(g)))
  {
    hide Fits, Chain, Ungroup;
    var p, g := f.pieces[0], Script(f.pieces[1..], f.tail);
    UngroupFirst(p, g.pieces, f.tail);
    assert f.pieces == [p] + g.pieces;
    if Chain(Ungroup(f), "") {
      var x := [p.tok] + Ungroup(g);
      ChainSplit(p.gap, x, "");
      ChainAt(x, "", 0);
      assert x[1..] == Ungroup(g) && Join(Ungroup(g)) + "" == Join(Ungroup(g));
      ChainSplit([p.tok], Ungroup(g), "");
    }
  }

  /** The first piece alone. */
  lemma {:induction false} Alone(prev: Before, s: Script)
    requires Sound(s) && s.pieces != []
    ensures var p := s.pieces[0]; Chain(p.gap + [p.tok], "") && Bridged(prev, Join(Ungroup(s)), Join(p.gap + [p.tok]))
    ensures Fits(s.pieces[0].tok, "")
  {
    hide Fits, Chain, Flatten, Sound, Ends;
    var p, e := s.pieces[0], Script([], []);
    EmptyScript();
    BridgedNothing(Behind(prev, p), Join(Ungroup(Script(s.pieces[1..], s.tail))));
    KeepStep(prev, s, e);
    UngroupFirst(p, [], []);
    assert [p.tok] + [] == [p.tok];
    ChainSplit(p.gap, [p.tok], "");
    ChainAt([p.tok], "", 0);
    assert [p.tok][1..] == [];
    JoinNone();
  }

  lemma {:induction false} BridgedNothing(prev: Before, r: string)
    ensures Bridged(prev, r, Join(Ungroup(Script([], []))))
  {
    EmptyScript();
  }

  /** A string in front of a placeholder. */
  lemma {:induction false} JoinStep(prev: Before, was: string, gap: seq<Lexeme>, t: Lexeme, f: Script)
    requires Chain(gap + [t], "") && Bridged(prev, was, Join(gap + [t])) && Fits(t, "")
    requires t.kind == Str && t.terminated && t.WellFormed()
    requires Chain(Ungroup(f), "") && f.pieces != [] && IsPlaceholder(f.pieces[0])
    ensures var g := Script([Piece(gap, Joined(t, f.pieces[0].tok))] + f.pieces[1..], f.tail);
            Chain(Ungroup(g), "") && Bridged(prev, was, Join(Ungroup(g))) && Joined(t, f.pieces[0].tok).WellFormed()
  {
    hide Fits, Chain, Ungroup, Ends, Bridge, Bridged, Join, Starry, Lexeme.WellFormed;
    var u, r := f.pieces[0].tok, Script(f.pieces[1..], f.tail);
    Behead(f);
    var x, m := Ungroup(r), Joined(t, u);
    JoinedFits(t, u, Join(x));
    FitsText(t, "");
    Associate(t.text, u.text, Join(x));
    forall k: Lexeme | Ends(k, t.text) ensures Bridge(k, true, t.text, m.text + Join(x)) {
      BeforeString(k, t, "", u.text + Join(x));
    }
    Regrow(prev, was, gap, t, m, x);
    UngroupFirst(Piece(gap, m), r.pieces, f.tail);
  }

  /** A U in front of an ampersand and a placeholder. */
  lemma {:induction false} UnifyStep(prev: Before, was: string, gap: seq<Lexeme>, u: Lexeme, f: Script)
    requires Chain(gap + [u], "") && Bridged(prev, was, Join(gap + [u])) && IsU(u)
    requires Chain(Ungroup(f), "") && |f.pieces| > 1 && IsAmp(f.pieces[0]) && IsPlaceholder(f.pieces[1])
    ensures var m := Unified(u, f.pieces[0].tok, f.pieces[1].tok);
            var g := Script([Piece(gap, m)] + f.pieces[2..], f.tail);
            Chain(Ungroup(g), "") && Bridged(prev, was, Join(Ungroup(g))) && m.WellFormed()
  {
    hide Fits, Chain, Ungroup, Ends, Bridge, Bridged, Join, Starry, Lexeme.WellFormed, IsU;
    var a, t := f.pieces[0].tok, f.pieces[1].tok;
    Behead(f);
    var f1 := Script(f.pieces[1..], f.tail);
    Behead(f1);
    var r := Script(f.pieces[2..], f.tail);
    assert f1.pieces[1..] == r.pieces;
    var x, m := Ungroup(r), Unified(u, a, t);
    UnifiedFits(u, a, t, Join(x));
    UText(u);
    var w := StarryText(t) + Join(x);
    assert m.text + Join(x) == u.text + "&'" + w;
    forall k: Lexeme | Ends(k, u.text) ensures Bridge(k, true, u.text, m.text + Join(x)) {
      BeforeU(k, u, w);
    }
    Regrow(prev, was, gap, u, m, x);
    UngroupFirst(Piece(gap, m), r.pieces, f.tail);
  }

  /** What follows the opening quote. */
  function StarryText(t: Lexeme): (w: string)
    requires Starry(t)
    ensures t.text == "'" + w
  {
    t.text[1..]
  }

  /** A token that is kept. */
  lemma {:induction false} KeepFused(prev: Before, s: Script, f: Script)
    requires Sound(s) && s.pieces != [] && Chain(Ungroup(f), "") && (f.pieces != [] ==> |s.pieces| > 1)
    requires Behaves(Behind(prev, s.pieces[0]), Join(Ungroup(Script(s.pieces[1..], s.tail))), f)
    ensures var g := Script(FuseOn(s.pieces[0], f.pieces), f.tail);
            Chain(Ungroup(g), "") && Behaves(prev, Join(Ungroup(s)), g)
  {
    hide Fits, Chain, Ungroup, Ends, Bridge, Bridged, Join, Starry, Lexeme.WellFormed, IsU, Sorted, AllGap, WellFormed;
    var p, rest := s.pieces[0], Script(s.pieces[1..], s.tail);
    if Bridged(Behind(prev, p), Join(Ungroup(rest)), Join(Ungroup(f))) {
      KeepStep(prev, s, f);
      UngroupFirst(p, f.pieces, f.tail);
      FitsApart(p, f);
    } else if p.tok.kind == Str && IsPlaceholder(f.pieces[0]) {
      Alone(prev, s);
      Closed(s);
      PlaceholderOpens(f.pieces[0]);
      JoinStep(prev, Join(Ungroup(s)), p.gap, p.tok, f);
    } else {
      KeepU(prev, s, f);
    }
  }

  /** A string that is followed by something is closed. */
  lemma {:induction false} Closed(s: Script)
    requires Sound(s) && |s.pieces| > 1 && s.pieces[0].tok.IsLiteral()
    ensures s.pieces[0].tok.terminated && s.pieces[0].tok.WellFormed()
  {
    hide Fits, Chain, Flatten;
    var rest := Script(s.pieces[1..], s.tail);
    SoundFirst(s);
    SoundRest(s, 1);
    FirstNotEmpty(rest);
    FitsEnds(s.pieces[0].tok, Join(Flatten(s.pieces[1..]) + s.tail));
  }

  lemma {:induction false} FirstNotEmpty(s: Script)
    requires Sound(s) && s.pieces != []
    ensures Join(Ungroup(s)) != ""
  {
    hide Fits, Chain, Flatten;
    FirstOut(s.pieces);
    var ts := Ungroup(s);
    assert ts != [];
    ChainAt(ts, "", 0);
    FitsText(ts[0], Join(ts[1..]) + "");
  }

  lemma {:induction false} KeepU(prev: Before, s: Script, f: Script)
    requires Sound(s) && s.pieces != [] && Chain(Ungroup(f), "")
    requires Meets(Behind(prev, s.pieces[0]), f) && !(s.pieces[0].tok.kind == Str && IsPlaceholder(f.pieces[0]))
    ensures var g := Script(FuseOn(s.pieces[0], f.pieces), f.tail);
            Chain(Ungroup(g), "") && Behaves(prev, Join(Ungroup(s)), g)
  {
    hide Fits, Chain, Ungroup, Ends, Bridge, Bridged, Join, Lexeme.WellFormed, Sorted, AllGap, WellFormed;
    var p := s.pieces[0];
    if IsU(p.tok) && |f.pieces| > 1 && IsAmp(f.pieces[0]) && IsPlaceholder(f.pieces[1]) {
      Alone(prev, s);
      UnifyStep(prev, Join(Ungroup(s)), p.gap, p.tok, f);
      AmpIsNoString(f);
    } else {
      HotIs(prev, s);
      AmpStep(p.tok, f);
      UngroupFirst(p, f.pieces, f.tail);
      assert [] + ([p.tok] + Ungroup(f)) == [p.tok] + Ungroup(f);
      assert ([p] + f.pieces)[1] == f.pieces[0];
    }
  }

  lemma {:induction false} AmpIsNoString(f: Script)
    requires f.pieces != [] && IsAmp(f.pieces[0])
    ensures !OpensPlain(f.pieces[0])
  {
    assert f.pieces[0].tok.text[0] == '&';
  }

  lemma {:induction false} PlaceholderOpens(p: Piece)
    requires IsPlaceholder(p)
    ensures OpensPlain(p)
  {
  }

  /** An ampersand directly behind a U. */
  lemma {:induction false} HotIs(prev: Before, s: Script)
    requires Sound(s) && s.pieces != [] && Behind(prev, s.pieces[0]).hot
    ensures IsAmp(s.pieces[0]) && prev.tok.Some? && IsU(prev.tok.value) && Fits(s.pieces[0].tok, "")
    ensures s.pieces[0].tok.kind == Other
  {
    hide Fits, Chain, Flatten, Bridge, Bridged;
    var p := s.pieces[0];
    Alone(prev, s);
    FirstChar(p.tok, "");
  }

  lemma {:induction false} AmpStep(a: Lexeme, f: Script)
    requires a.kind == Other && a.text == "&" && Fits(a, "") && Chain(Ungroup(f), "")
    ensures Chain([a] + Ungroup(f), "")
  {
    hide Fits, Ungroup;
    Refit(a, "", Join(Ungroup(f)));
    var x := [a] + Ungroup(f);
    assert x[1..] == Ungroup(f) && Join(Ungroup(f)) + "" == Join(Ungroup(f));
  }

  /** A value that is replaced. */
  lemma {:induction false} ValueFused(prev: Before, c: Context, s: Script, f: Script)
    requires Sound(s) && s.pieces != [] && Decide(c, Toks(s.pieces)).Edit? && Decide(c, Toks(s.pieces)).from > 0
    requires var e := Decide(c, Toks(s.pieces)); var rest := Script(s.pieces[e.to..], s.tail);
             && Chain(Ungroup(f), "")
             && (if e.toEnd then f == Script([], []) else Behaves(Before(Some(e.repl), false), Join(Ungroup(rest)), f))
             && (f.pieces != [] ==> rest.pieces != [] && (OpensPlain(f.pieces[0]) ==> rest.pieces[0].tok.IsLiteral()))
    ensures var e := Decide(c, Toks(s.pieces));
            var kept := s.pieces[..e.from] + [Piece(s.pieces[e.from].gap, e.repl)];
            var g := Script(kept + f.pieces, f.tail);
            Chain(Ungroup(g), "") && Bridged(prev, Join(Ungroup(s)), Join(Ungroup(g)))
  {
    hide Fits, Chain, Ends, Bridge, Bridged, Join, Decide, Flatten, ConnRewrite, IsSecret, IsSeparator, Lexeme.Is, REDACTED, REDACTED_IDENT, IsU;
    var e, ps := Decide(c, Toks(s.pieces)), s.pieces;
    EditShape(c, Toks(ps));
    EmptyScript();
    NoMeet(c, s, f);
    ValueStep(prev, ps, s.tail, e.from, e.to, e.repl, Ungroup(f));
    KeptSplit(ps, e.from, e.repl, f);
  }

  lemma {:induction false} NoMeet(c: Context, s: Script, f: Script)
    requires s.pieces != [] && s.pieces[0].tok.WellFormed() && Decide(c, Toks(s.pieces)).Edit? && Decide(c, Toks(s.pieces)).from > 0
    requires var e := Decide(c, Toks(s.pieces)); var rest := Script(s.pieces[e.to..], s.tail);
             f.pieces != [] ==> rest.pieces != [] && (OpensPlain(f.pieces[0]) ==> rest.pieces[0].tok.IsLiteral())
    ensures !Meets(Before(Some(Decide(c, Toks(s.pieces)).repl), false), f)
  {
    hide Decide, ConnRewrite, IsSecret, IsSeparator, Lexeme.Is;
    EditShape(c, Toks(s.pieces));
  }

  /** A constant that is rewritten. */
  lemma {:induction false} ConnFused(prev: Before, s: Script, rw: Rewrite, f: Script)
    requires Sound(s) && s.pieces != [] && s.pieces[0].tok.IsLiteral() && ConnRewrite(s.pieces[0].tok) == Some(rw)
    requires rw.repl.WellFormed() && Fits(rw.repl, "") && Chain(Ungroup(f), "")
    requires var rest := Script(s.pieces[1..], s.tail);
             && (if rw.toEnd then f == Script([], []) else Behaves(Before(Some(rw.repl), false), Join(Ungroup(rest)), f))
             && (f.pieces != [] ==> |s.pieces| > 1)
    ensures var g := Script(FuseOn(Piece(s.pieces[0].gap, rw.repl), f.pieces), f.tail);
            Chain(Ungroup(g), "") && Behaves(prev, Join(Ungroup(s)), g)
  {
    hide Fits, Chain, Ends, Bridge, Bridged, Join, Flatten, ConnRewrite, Starry, REDACTED, IsU;
    var p, was := s.pieces[0], Join(Ungroup(s));
    var q, rest := Piece(p.gap, rw.repl), Script(s.pieces[1..], s.tail);
    RewriteKinds(p.tok);
    EmptyScript();
    if !Meets(Before(Some(rw.repl), false), f) {
      ConnStep(NOTHING, s.pieces, s.tail, rw, Ungroup(f));
      UngroupFirst(q, f.pieces, f.tail);
      FitsApart(q, f);
      if !Collides(prev, p, rw.repl) {
        ConnStep(prev, s.pieces, s.tail, rw, Ungroup(f));
      } else {
        CollidesMeets(prev, s, rw, [q] + f.pieces, f.tail);
      }
    } else {
      ConnMeets(prev, s, rw, f);
    }
  }

  lemma {:induction false} ConnMeets(prev: Before, s: Script, rw: Rewrite, f: Script)
    requires Sound(s) && |s.pieces| > 1 && s.pieces[0].tok.IsLiteral() && ConnRewrite(s.pieces[0].tok) == Some(rw)
    requires rw.repl.WellFormed() && Fits(rw.repl, "") && Chain(Ungroup(f), "") && Meets(Before(Some(rw.repl), false), f)
    ensures var g := Script(FuseOn(Piece(s.pieces[0].gap, rw.repl), f.pieces), f.tail);
            Chain(Ungroup(g), "") && Behaves(prev, Join(Ungroup(s)), g)
  {
    hide Fits, Chain, Ends, Bridge, Bridged, Join, Flatten, ConnRewrite, Starry, REDACTED;
    var p, was := s.pieces[0], Join(Ungroup(s));
    RewriteKinds(p.tok);
    Closed(s);
    RedactedStarry();
    StarryIs(REDACTED);
    EmptyScript();
    PlaceholderOpens(f.pieces[0]);
    var x := [rw.repl] + [];
    assert x == [rw.repl];
    ConnStep(NOTHING, s.pieces, s.tail, rw, []);
    BridgedFree(was, Join(p.gap + [rw.repl]));
    JoinStep(NOTHING, was, p.gap, rw.repl, f);
    if Collides(prev, p, rw.repl) {
      CollidesMeets(prev, s, rw, [Piece(p.gap, rw.repl)], []);
      JoinedStarry(REDACTED, f.pieces[0].tok);
      CollideRedacted(prev, s, rw);
    } else {
      ConnStep(prev, s.pieces, s.tail, rw, []);
      JoinStep(prev, was, p.gap, rw.repl, f);
    }
  }

  lemma {:induction false} BridgedFree(r: string, r': string)
    ensures Bridged(NOTHING, r, r')
  {
  }

  lemma {:induction false} StarryIs(t: Lexeme)
    requires Starry(t)
    ensures t.kind == Str && t.terminated
  {
  }

  lemma {:induction false} JoinedStarry(t: Lexeme, u: Lexeme)
    requires Starry(t) && Starry(u)
    ensures Starry(Joined(t, u))
  {
  }

  /** Only the placeholder collides. */
  lemma {:induction false} CollideRedacted(prev: Before, s: Script, rw: Rewrite)
    requires Sound(s) && s.pieces != [] && s.pieces[0].tok.IsLiteral() && ConnRewrite(s.pieces[0].tok) == Some(rw)
    requires Collides(prev, s.pieces[0], rw.repl)
    ensures rw.repl == REDACTED && s.pieces[0].gap == [] && prev.tok.Some? && (prev.tok.value.kind == Str || prev.hot)
  {
    hide Fits, Chain, Flatten, ConnRewrite, REDACTED;
    var t := s.pieces[0].tok;
    SoundFirst(s);
    OpeningKept(t, Join(Flatten(s.pieces[1..]) + s.tail));
    RewriteKinds(t);
  }

  lemma {:induction false} CollidesMeets(prev: Before, s: Script, rw: Rewrite, gs: seq<Piece>, tail: seq<Lexeme>)
    requires Sound(s) && s.pieces != [] && s.pieces[0].tok.IsLiteral() && ConnRewrite(s.pieces[0].tok) == Some(rw)
    requires Collides(prev, s.pieces[0], rw.repl)
    requires gs != [] && gs[0] == Piece(s.pieces[0].gap, rw.repl)
    ensures Meets(prev, Script(gs, tail))
  {
    hide Sound, ConnRewrite, Collides;
    CollideRedacted(prev, s, rw);
    RedactedStarry();
  }

  // The walk

  lemma {:induction false} FuseHead(ps: seq<Piece>)
    requires ps != [] && ps[0].tok.text != ""
    ensures Fuse(ps) != [] && Fuse(ps)[0].gap == ps[0].gap && (OpensPlain(Fuse(ps)[0]) <==> OpensPlain(ps[0]))
  {
    hide IsU;
    var p, f := ps[0], Fuse(ps)[0];
    if IsU(p.tok) {
      UText(p.tok);
    }
    assert f.tok.text[0] == p.tok.text[0];
  }

  lemma {:induction false} FusedHead(c: Context, s: Script)
    requires WellFormed(s.pieces)
    ensures var f := Fused(Walk(c, s));
            (f.pieces != [] <==> s.pieces != []) && (f.pieces != [] && OpensPlain(f.pieces[0]) ==> s.pieces[0].tok.IsLiteral())
  {
    hide Walk, FuseOn;
    WalkHead(c, s);
    WalkWellFormed(c, s);
    if s.pieces != [] {
      FuseHead(Walk(c, s).pieces);
    }
  }

  lemma {:induction false} FuseKept(kept: seq<Piece>, ps: seq<Piece>, tail: seq<Lexeme>)
    requires Chain(Ungroup(Script(kept + Fuse(ps), tail)), "")
    ensures Fuse(kept + ps) == kept + Fuse(ps)
    decreases |kept|
  {
    hide Chain, Ungroup, FuseOn, Fits;
    if kept == [] {
      assert kept + ps == ps && kept + Fuse(ps) == Fuse(ps);
    } else {
      var f := Script(kept + Fuse(ps), tail);
      Behead(f);
      assert f.pieces[1..] == kept[1..] + Fuse(ps);
      FuseKept(kept[1..], ps, tail);
      FitsApart(kept[0], Script(f.pieces[1..], tail));
      assert (kept + ps)[1..] == kept[1..] + ps;
      assert [kept[0]] + (kept[1..] + Fuse(ps)) == kept + Fuse(ps);
    }
  }

  /** What holds of a statement whose first step is an edit. */
  lemma {:induction false} EditUnfolds(c: Context, s: Script, kept: seq<Piece>)
    requires WellFormed(s.pieces) && s.pieces != [] && Decide(c, Toks(s.pieces)).Edit? && TagsAvoided(c, s)
    requires var e := Decide(c, Toks(s.pieces)); kept == s.pieces[..e.from] + [Piece(s.pieces[e.from].gap, e.repl)]
    ensures var e := Decide(c, Toks(s.pieces)); var rest := Script(s.pieces[e.to..], s.tail);
            && (e.from == 0 && s.pieces[0].tok.kind == Dollar && e.repl != REDACTED ==>
                  Holds(s.pieces[0].tok, ConnString.RedactPasswords(s.pieces[0].tok.Body())))
            && (!e.toEnd ==> TagsAvoided(After(c, Toks(kept)), rest))
            && Walk(c, s) == (if e.toEnd then Script(kept, []) else
                                var r := Walk(After(c, Toks(kept)), rest); Script(kept + r.pieces, r.tail))
  {
    hide Decide, After, Next, Holds;
  }

  /** A rewritten constant whose tag is avoided reads back. */
  lemma {:induction false} RewriteHeld(s: Script, rw: Rewrite)
    requires Sound(s) && s.pieces != [] && s.pieces[0].tok.IsLiteral() && ConnRewrite(s.pieces[0].tok) == Some(rw)
    requires s.pieces[0].tok.kind == Dollar && rw.repl != REDACTED ==>
               Holds(s.pieces[0].tok, ConnString.RedactPasswords(s.pieces[0].tok.Body()))
    ensures rw.repl.WellFormed() && Fits(rw.repl, "")
  {
    hide Fits, Chain, Flatten, ConnRewrite, REDACTED, Holds;
    SoundFirst(s);
    RewriteWellFormed(s.pieces[0].tok);
    ConnRewriteFits(s.pieces[0].tok, Join(Flatten(s.pieces[1..]) + s.tail));
  }

  /** What the walk makes, with placeholders fused, is read as it is. */
  lemma {:induction false} WalkFused(prev: Before, c: Context, s: Script)
    requires Sound(s) && TagsAvoided(c, s)
    ensures var f := Fused(Walk(c, s));
            Chain(Ungroup(f), "") && Behaves(prev, Join(Ungroup(s)), f)
    decreases |s.pieces|, 1
  {
    hide Fits, Ends, Bridge, Flatten, Decide, Next, After, Chain, Bridged, Toks, Meets, FuseOn, Holds;
    var ps := s.pieces;
    if ps == [] {
      BridgedSame(prev, Join(Ungroup(s)));
      assert Fused(Walk(c, s)) == s;
    } else {
      match Decide(c, Toks(ps))
      case Keep =>
        var c1, rest := Next(c, ps[0].tok), Script(ps[1..], s.tail);
        SoundRest(s, 1);
        WalkFused(Behind(prev, ps[0]), c1, rest);
        FusedHead(c1, rest);
        assert Walk(c, s).pieces[1..] == Walk(c1, rest).pieces;
        KeepFused(prev, s, Fused(Walk(c1, rest)));
      case Edit(from, to, repl, toEnd) =>
        EditFused(prev, c, s);
    }
  }

  lemma {:induction false} EditFused(prev: Before, c: Context, s: Script)
    requires Sound(s) && TagsAvoided(c, s) && s.pieces != [] && Decide(c, Toks(s.pieces)).Edit?
    ensures var f := Fused(Walk(c, s));
            Chain(Ungroup(f), "") && Behaves(prev, Join(Ungroup(s)), f)
    decreases |s.pieces|, 0
  {
    hide Fits, Ends, Bridge, Flatten, Decide, Next, After, Chain, Bridged, Meets, FuseOn, Holds, Walk, TagsAvoided, Ungroup, ConnRewrite;
    var ps, e := s.pieces, Decide(c, Toks(s.pieces));
    var kept := ps[..e.from] + [Piece(ps[e.from].gap, e.repl)];
    EditUnfolds(c, s, kept);
    var c1, rest := After(c, Toks(kept)), Script(ps[e.to..], s.tail);
    var r := if e.toEnd then Script([], []) else Walk(c1, rest);
    assert kept + [] == kept;
    EmptyScript();
    if !e.toEnd {
      SoundRest(s, e.to);
      WalkFused(Before(Some(e.repl), false), c1, rest);
      FusedHead(c1, rest);
    }
    var f := Fused(r);
    if e.from > 0 {
      ValueFused(prev, c, s, f);
      FuseKept(kept, r.pieces, r.tail);
    } else {
      EditShape(c, Toks(ps));
      var rw := Rewrite(e.repl, e.toEnd);
      RewriteHeld(s, rw);
      ConnFused(prev, s, rw, f);
      assert kept == [Piece(ps[0].gap, e.repl)] && (kept + r.pieces)[1..] == r.pieces;
    }
  }

  lemma {:induction false} JoinFuse(ps: seq<Piece>, tail: seq<Lexeme>)
    ensures Join(Ungroup(Script(Fuse(ps), tail))) == Join(Ungroup(Script(ps, tail)))
    decreases |ps|
  {
    hide Join, Ungroup, FuseOn;
    if ps != [] {
      var fs := Fuse(ps[1..]);
      JoinFuse(ps[1..], tail);
      JoinFuseOn(ps[0], fs, tail);
      assert ps == [ps[0]] + ps[1..];
      JoinPiece(ps[0], fs, tail);
      JoinPiece(ps[0], ps[1..], tail);
    }
  }

  lemma {:induction false} JoinPiece(p: Piece, ps: seq<Piece>, tail: seq<Lexeme>)
    ensures Join(Ungroup(Script([p] + ps, tail))) == Join(p.gap) + (p.tok.text + Join(Ungroup(Script(ps, tail))))
  {
    hide Join, Ungroup;
    var x := Ungroup(Script(ps, tail));
    UngroupFirst(p, ps, tail);
    JoinAppend(p.gap, [p.tok] + x);
    JoinCons(p.tok, x);
  }

  lemma {:induction false} JoinFuseOn(p: Piece, fs: seq<Piece>, tail: seq<Lexeme>)
    ensures Join(Ungroup(Script(FuseOn(p, fs), tail))) == Join(Ungroup(Script([p] + fs, tail)))
  {
    hide Join, Ungroup, IsU;
    var gs := FuseOn(p, fs);
    JoinPiece(p, fs, tail);
    JoinNone();
    if gs != [p] + fs {
      assert gs == [gs[0]] + gs[1..] && fs == [fs[0]] + fs[1..];
      JoinPiece(gs[0], gs[1..], tail);
      JoinPiece(fs[0], fs[1..], tail);
      var x := Join(Ungroup(Script(fs[1..], tail)));
      assert "" + (fs[0].tok.text + x) == fs[0].tok.text + x;
      if p.tok.kind == Str && OpensPlain(fs[0]) {
        Associate(p.tok.text, fs[0].tok.text, x);
      } else {
        var y := Join(Ungroup(Script(fs[2..], tail)));
        assert fs[1..] == [fs[1]] + fs[2..];
        JoinPiece(fs[1], fs[2..], tail);
        assert "" + (fs[1].tok.text + y) == fs[1].tok.text + y;
        Associate(p.tok.text + fs[0].tok.text, fs[1].tok.text, y);
        Associate(p.tok.text, fs[0].tok.text, fs[1].tok.text + y);
      }
    }
  }

  lemma {:induction false} FuseSorted(ps: seq<Piece>)
    requires Sorted(ps)
    ensures Sorted(Fuse(ps))
    decreases |ps|
  {
    hide AllGap, IsU;
    if ps != [] {
      FuseSorted(ps[1..]);
    }
  }

  /** Where every rewritten dollar-quoted constant avoids its tag, a redacted statement reads back as the
      tokens the walk makes, with placeholders fused. */
  lemma {:induction false} FusedReading(query: string)
    requires TagsAvoided(START, Statement(query))
    ensures Statement(Rewritten(query)) == Fused(Walk(START, Statement(query)))
  {
    hide Walk, Group, Chain, TagsAvoided, Lex, Fuse, Ungroup, Behaves;
    var w := Walk(START, Statement(query));
    var f := Fused(w);
    StatementSound(query);
    WalkFused(NOTHING, START, Statement(query));
    WalkSorted(START, Statement(query));
    FuseSorted(w.pieces);
    JoinFuse(w.pieces, w.tail);
    LexChain(Ungroup(f), "");
    assert Join(Ungroup(f)) + "" == Join(Ungroup(f));
    LexNone();
    assert Ungroup(f) + [] == Ungroup(f);
    GroupUngroup(f);
  }

  // The other way round

  predicate DollarsFit(ps: seq<Piece>) { forall i :: 0 <= i < |ps| && ps[i].tok.kind == Dollar ==> Fits(ps[i].tok, "") }

  lemma {:induction false} ChainDollars(f: Script)
    requires Chain(Ungroup(f), "")
    ensures DollarsFit(f.pieces)
    decreases |f.pieces|
  {
    hide Fits, Chain, Ungroup, Ends;
    if f.pieces != [] {
      var g := Script(f.pieces[1..], f.tail);
      Behead(f);
      ChainDollars(g);
      EndsNothing(f.pieces[0].tok);
      Refit(f.pieces[0].tok, Join(Ungroup(g)), "");
      forall i | 0 <= i < |f.pieces| && f.pieces[i].tok.kind == Dollar ensures Fits(f.pieces[i].tok, "") {
        assert i > 0 ==> f.pieces[i] == g.pieces[i - 1];
      }
    }
  }

  /** Fusing leaves dollar-quoted constants alone. */
  lemma {:induction false} DollarsKept(ps: seq<Piece>)
    requires DollarsFit(Fuse(ps))
    ensures DollarsFit(ps)
    decreases |ps|
  {
    hide Fits, FuseOn;
    if ps != [] {
      DollarsOn(ps[0], Fuse(ps[1..]));
      DollarsKept(ps[1..]);
      assert forall i :: 0 <= i < |ps| ==> ps[i] == if i == 0 then ps[0] else ps[1..][i - 1];
    }
  }

  lemma {:induction false} DollarsOn(p: Piece, fs: seq<Piece>)
    requires DollarsFit(FuseOn(p, fs))
    ensures DollarsFit(fs) && (p.tok.kind == Dollar ==> Fits(p.tok, ""))
  {
    hide Fits, Lower;
    var gs := FuseOn(p, fs);
    if gs == [p] + fs {
      DollarsRest([p], fs);
      assert gs[0] == p;
    } else {
      var k := |fs| + 1 - |gs|;
      DollarsRest([gs[0]], fs[k..]);
      assert gs == [gs[0]] + fs[k..];
      assert forall i :: 0 <= i < k ==> fs[i].tok.kind != Dollar;
      assert forall i :: k <= i < |fs| ==> fs[i] == fs[k..][i - k];
    }
  }

  lemma {:induction false} DollarsAvoid(c: Context, s: Script)
    requires Sound(s) && DollarsFit(Walk(c, s).pieces)
    ensures TagsAvoided(c, s)
    decreases |s.pieces|
  {
    hide Fits, Decide, Next, After, Chain, Flatten, ConnRewrite, Holds, DollarsFit;
    var ps := s.pieces;
    if ps != [] {
      match Decide(c, Toks(ps))
      case Keep =>
        SoundRest(s, 1);
        DollarsRest([ps[0]], Walk(Next(c, ps[0].tok), Script(ps[1..], s.tail)).pieces);
        DollarsAvoid(Next(c, ps[0].tok), Script(ps[1..], s.tail));
      case Edit(from, to, repl, toEnd) =>
        var kept := ps[..from] + [Piece(ps[from].gap, repl)];
        if from == 0 {
          EditShape(c, Toks(ps));
          assert Walk(c, s).pieces[0].tok == repl;
          TagHeld(s, Rewrite(repl, toEnd), Walk(c, s).pieces);
        }
        if !toEnd {
          SoundRest(s, to);
          DollarsRest(kept, Walk(After(c, Toks(kept)), Script(ps[to..], s.tail)).pieces);
          DollarsAvoid(After(c, Toks(kept)), Script(ps[to..], s.tail));
        }
    }
  }

  lemma {:induction false} DollarsRest(a: seq<Piece>, b: seq<Piece>)
    requires DollarsFit(a + b)
    ensures DollarsFit(b)
  {
    hide Fits;
    assert forall i :: 0 <= i < |b| ==> b[i] == (a + b)[|a| + i];
  }

  lemma {:induction false} TagHeld(s: Script, rw: Rewrite, ws: seq<Piece>)
    requires Sound(s) && s.pieces != [] && s.pieces[0].tok.IsLiteral() && ConnRewrite(s.pieces[0].tok) == Some(rw)
    requires DollarsFit(ws) && ws != [] && ws[0].tok == rw.repl
    ensures s.pieces[0].tok.kind == Dollar && rw.repl != REDACTED ==>
              Holds(s.pieces[0].tok, ConnString.RedactPasswords(s.pieces[0].tok.Body()))
  {
    hide Fits, Chain, Flatten, ConnRewrite, REDACTED, Holds;
    SoundFirst(s);
    RewriteKinds(s.pieces[0].tok);
    ConnRewriteFits(s.pieces[0].tok, Join(Flatten(s.pieces[1..]) + s.tail));
  }

  /** And only there. */
  lemma {:induction false} FusedExactly(query: string)
    ensures Statement(Rewritten(query)) == Fused(Walk(START, Statement(query))) <==> TagsAvoided(START, Statement(query))
  {
    hide Walk, Group, Chain, TagsAvoided, Lex, Fuse, Ungroup, Sound, DollarsFit;
    if TagsAvoided(START, Statement(query)) {
      FusedReading(query);
    }
    if Statement(Rewritten(query)) == Fused(Walk(START, Statement(query))) {
      StatementSound(query);
      ChainLex(Rewritten(query));
      UngroupGroup(Lex(Rewritten(query)));
      ChainDollars(Fused(Walk(START, Statement(query))));
      DollarsKept(Walk(START, Statement(query)).pieces);
      DollarsAvoid(START, Statement(query));
    }
  }
}
