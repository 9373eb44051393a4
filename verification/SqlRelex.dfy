/**
 Reading a redacted statement again: it has the tokens of the original, with each redacted run
 replaced by one constant or quoted identifier.
 */
module SqlRelex {
  import opened Text
  import opened SqlLexer
  import opened SqlBoundary
  import opened SqlChain
  import opened SqlRedact
  import opened SqlGate

  // When the connection-string rule leaves constants where they are

  predicate SameStart(a: string, b: string) { a != "" && b != "" && a[0] == b[0] }

  /** The token directly in front, if there is one, and whether it is an ampersand directly behind a U. */
  datatype Before = Before(tok: Option<Lexeme>, hot: bool)

  const NOTHING := Before(None, false)

  function Behind(prev: Before, p: Piece): Before { Before(Some(p.tok), IsHot(prev.tok, p.gap + [p.tok])) }

  /** The constant of `p`, rewritten to `repl`, would run together with what stands directly before it:
      another constant, or a U and an ampersand. */
  predicate Collides(prev: Before, p: Piece, repl: Lexeme) {
    && p.gap == [] && prev.tok.Some? && !SameStart(p.tok.text, repl.text)
    && (prev.tok.value.kind == Str || prev.hot)
  }

  /** A rewritten constant reads back as itself and does not run together with the token before it. */
  predicate PlacedConstant(prev: Before, p: Piece, repl: Lexeme) {
    repl.WellFormed() && Fits(repl, "") && !Collides(prev, p, repl)
  }

  /** Every constant that the connection-string rule rewrites on the way keeps its place. */
  predicate Apart(prev: Before, c: Context, s: Script)
    requires WellFormed(s.pieces)
    decreases |s.pieces|
  {
    var ps := s.pieces;
    ps == [] ||
    match Decide(c, Toks(ps))
    case Keep => Apart(Behind(prev, ps[0]), Next(c, ps[0].tok), Script(ps[1..], s.tail))
    case Edit(from, to, repl, toEnd) =>
      && (from == 0 ==> PlacedConstant(prev, ps[0], repl))
      && (toEnd || Apart(Before(Some(repl), false), After(c, Toks(ps[..from] + [Piece(ps[from].gap, repl)])), Script(ps[to..], s.tail)))
  }

  // The first character of a token

  lemma {:induction false} FirstChar(t: Lexeme, r: string)
    requires Fits(t, r)
    ensures t.Significant() <==> !IsSpace(t.text[0]) && t.kind != Comment
    ensures t.kind == Comment ==> t.text[0] == '-' || t.text[0] == '/'
    ensures t.text[0] == '\'' ==> t.kind == Str
    ensures t.text[0] == '&' ==> t.kind == Other
    ensures t.kind == Space ==> IsSpace(t.text[0])
  {
    hide Run, BlockScan, Quoted, DollarLexeme, WordLexeme;
    assert (t.text + r)[0] == t.text[0];
    WordKind(t, r);
  }

  lemma {:induction false} WordKind(t: Lexeme, r: string)
    requires Fits(t, r)
    ensures IsIdentStart(t.text[0]) ==> t.kind == Ident || t.kind == Str
  {
    hide Run, BlockScan, Quoted, DollarLexeme, Lower;
    assert (t.text + r)[0] == t.text[0];
  }

  // The shape of an edit

  /** What stands before a replaced run, and what it is replaced by. */
  predicate ValueEdit(ts: seq<Lexeme>, from: nat, to: nat, repl: Lexeme) {
    && 1 <= from < to <= |ts|
    && (ts[0].IsName() || ts[0].IsLiteral())
    && (|| (from == 1 && IsSecret(ts[0]) && repl == REDACTED)
        || (from == 2 && (IsSeparator(ts[1]) || (ts[1].Is(Other, ",") && repl == REDACTED))))
    && (|| (repl == REDACTED && (to < |ts| ==> !ts[to].IsLiteral()))
        || (repl == REDACTED_IDENT && to == from + 1 && ts[from].kind == QuotedIdent))
  }

  lemma {:induction false} EditShape(c: Context, ts: seq<Lexeme>)
    requires ts != [] && ts[0].WellFormed() && Decide(c, ts).Edit?
    ensures var e := Decide(c, ts);
            || ValueEdit(ts, e.from, e.to, e.repl)
            || (e.from == 0 && e.to == 1 && ts[0].IsLiteral() && ConnRewrite(ts[0]) == Some(Rewrite(e.repl, e.toEnd)))
  {
    hide IsSecretName, ConnRewrite, IsConstantName, AmbiguousEscapes, Lexeme.Is, NameOf, Literals, UpToSemicolon;
    var e := Decide(c, ts);
    if IsSecret(ts[0]) {
      SemicolonEnds(ts, e.from);
      assert e.to < |ts| && ts[e.from].IsLiteral() ==> !ts[e.from..][e.to - e.from].IsLiteral();
    } else if e.from == 2 {
      assert e.to < |ts| ==> !ts[2..][e.to - 2].IsLiteral();
    }
  }

  lemma {:induction false} SemicolonEnds(ts: seq<Lexeme>, m: nat)
    requires m <= |ts|
    ensures var n := m + SetValue(ts[m..]); m < n < |ts| ==> !ts[n].IsLiteral()
  {
    hide UpToSemicolon, HoldsNoSecret;
    var n := m + SetValue(ts[m..]);
    if m < n < |ts| {
      assert ts[m..][n - m] == ts[n];
    }
  }

  // The placeholders

  lemma {:induction false} RedactedFits()
    ensures Fits(REDACTED, "") && Fits(REDACTED_IDENT, "")
  {
    hide Run, BlockScan, DollarLexeme, WordLexeme, QuoteScan;
    StarsScan('\'');
    StarsScan('"');
    QuotedClosed(Str, "'", STARS, '\'', false, false, "");
    QuotedClosed(QuotedIdent, "\"", STARS, '"', false, false, "");
    assert REDACTED.text + "" == "'" + (STARS + "'") + "";
    assert REDACTED_IDENT.text + "" == "\"" + (STARS + "\"") + "";
  }

  lemma {:induction false} StarsScan(q: char)
    requires q == '\'' || q == '"'
    ensures QuoteScan(STARS + [q] + "", q, false) == Scan(|STARS|, true)
  {
    PlainScan(STARS, q);
  }

  lemma {:induction false} PlainScan(b: string, q: char)
    requires q !in b
    ensures QuoteScan(b + [q] + "", q, false) == Scan(|b|, true)
  {
    var s := b + [q] + "";
    if b != "" {
      assert s[1..] == b[1..] + [q] + "";
      PlainScan(b[1..], q);
    }
  }

  // Lists of tokens around an edit

  lemma {:induction false} ChainAt(a: seq<Lexeme>, r: string, i: nat)
    requires Chain(a, r) && i < |a|
    ensures Fits(a[i], Join(a[i + 1..]) + r)
  {
    hide Fits;
    if i > 0 {
      ChainAt(a[1..], r, i - 1);
      assert a[1..][i - 1] == a[i] && a[1..][i..] == a[i + 1..];
    }
  }

  /** The last token of a chain is followed by what its kind allows. */
  lemma {:induction false} LastEnds(a: seq<Lexeme>, r: string)
    requires a != [] && Chain(a, r)
    ensures Fits(a[|a| - 1], r) && Ends(a[|a| - 1], r)
  {
    hide Fits, Ends;
    ChainAt(a, r, |a| - 1);
    assert Join(a[|a|..]) + r == r;
    FitsEnds(a[|a| - 1], r);
  }

  /** Replacing what follows the tokens `a`, seen from a token in front of them. */
  lemma {:induction false} BridgeOver(t: Lexeme, hot: bool, a: seq<Lexeme>, r: string, r': string)
    requires a != [] && Chain(a, r) && Follows(Some(t), a, r, r') && Ends(t, Join(a) + r)
    ensures Bridge(t, hot, Join(a) + r, Join(a) + r')
  {
    hide Fits, Ends;
    EndsSwap(t, a, r, r');
    ChainAt(a, r, 0);
    FitsText(a[0], Join(a[1..]) + r);
    assert (Join(a) + r)[0] == a[0].text[0] == (Join(a) + r')[0];
  }

  lemma {:induction false} FitsText(t: Lexeme, r: string)
    requires Fits(t, r)
    ensures t.text != ""
  {
  }

  // The token in front of an edit

  lemma {:induction false} LowerFirst(s: string, w: string)
    requires EqualFold(s, w) && w != "" && LowerChar(w[0]) == w[0] && !('a' <= w[0] <= 'z')
    ensures s != "" && s[0] == w[0]
  {
    assert Lower(s)[0] == LowerChar(s[0]) && Lower(w)[0] == w[0];
  }

  /** A name that names a secret is no prefix of a constant. */
  lemma {:induction false} SecretIsNoPrefix(name: string)
    requires IsSecretName(name)
    ensures |name| > 1
  {
    var n := Lower(name);
    if n in WHOLE_VALUE_SETTINGS {
    } else {
      var i :| 0 <= i < |SECRET_FRAGMENTS| && Contains(n, SECRET_FRAGMENTS[i]);
      assert |SECRET_FRAGMENTS[i]| > 1;
    }
  }

  /** A name, separator or comma may be followed by the opening quote of a placeholder. */
  lemma {:induction false} BeforeValue(ts: seq<Lexeme>, from: nat, to: nat, repl: Lexeme, r: string, r': string)
    requires ValueEdit(ts, from, to, repl)
    requires r != "" && r' != "" && r'[0] == repl.text[0] && Fits(ts[from - 1], r)
    ensures Bridge(ts[from - 1], ts[from - 1].text == "&", r, r')
  {
    hide IsSecretName, Lower, BlockScan, First, Contains;
    var t := ts[from - 1];
    FitsEnds(t, r);
    FirstChar(t, r);
    if from == 1 {
      if t.kind == Ident { SecretIsNoPrefix(t.text); assert |Lower(t.text)| > 1; }
    } else if t.kind == Other {
      LowerFirst(t.text, ",");
    } else if t.kind == Ident {
      assert |Lower(t.text)| == |Lower("to")| == 2;
    }
  }

  /** A space or comment in front of a token may stand in front of a placeholder or a like token. */
  lemma {:induction false} BeforeGap(g: Lexeme, t: Lexeme, r: string, r': string)
    requires !g.Significant() && t.Significant()
    requires Fits(g, t.text + r) && Fits(t, r) && r' != "" && !IsSpace(r'[0])
    ensures Bridge(g, g.text == "&", t.text + r, r')
  {
    hide BlockScan, First, Lower;
    FitsEnds(g, t.text + r);
    FirstChar(g, t.text + r);
    FirstChar(t, r);
    assert (t.text + r)[0] == t.text[0];
  }

  // The pieces of a statement

  predicate Sorted(ps: seq<Piece>) {
    forall i :: 0 <= i < |ps| ==> ps[i].tok.Significant() && AllGap(ps[i].gap)
  }

  predicate AllGap(ts: seq<Lexeme>) {
    forall i :: 0 <= i < |ts| ==> !ts[i].Significant()
  }

  /** A statement's pieces: tokens that read back as themselves, each with its gap. */
  predicate Sound(s: Script) {
    WellFormed(s.pieces) && Sorted(s.pieces) && AllGap(s.tail) && Chain(Ungroup(s), "")
  }

  lemma {:induction false} FlattenAppend(a: seq<Piece>, b: seq<Piece>)
    ensures Flatten(a + b) == Flatten(a) + Flatten(b)
  {
    if a == [] {
      assert a + b == b;
    } else {
      assert (a + b)[1..] == a[1..] + b;
      FlattenAppend(a[1..], b);
    }
  }

  lemma {:induction false} FlattenOne(p: Piece)
    ensures Flatten([p]) == p.gap + [p.tok]
  {
    assert [p][1..] == [];
  }

  /** The tokens in front of the token of `ps[from]`. */
  function Front(ps: seq<Piece>, from: nat): seq<Lexeme>
    requires from < |ps|
  {
    Flatten(ps[..from]) + ps[from].gap
  }

  lemma {:induction false} FrontSplit(ps: seq<Piece>, from: nat, to: nat, tail: seq<Lexeme>)
    requires from < to <= |ps|
    ensures Flatten(ps) + tail == Front(ps, from) + ([ps[from].tok] + (Flatten(ps[from + 1..to]) + (Flatten(ps[to..]) + tail)))
  {
    hide Flatten;
    CutPieces(ps, from, to);
    FlattenAppend(ps[..from], [ps[from]] + (ps[from + 1..to] + ps[to..]));
    FlattenAppend([ps[from]], ps[from + 1..to] + ps[to..]);
    FlattenAppend(ps[from + 1..to], ps[to..]);
    FlattenOne(ps[from]);
    Regroup(Flatten(ps[..from]), ps[from].gap, [ps[from].tok], Flatten(ps[from + 1..to]), Flatten(ps[to..]), tail);
  }

  lemma {:induction false} CutPieces(ps: seq<Piece>, from: nat, to: nat)
    requires from < to <= |ps|
    ensures ps == ps[..from] + ([ps[from]] + (ps[from + 1..to] + ps[to..]))
  {
  }

  lemma {:induction false} Regroup(a: seq<Lexeme>, g: seq<Lexeme>, t: seq<Lexeme>, m: seq<Lexeme>, b: seq<Lexeme>, tail: seq<Lexeme>)
    ensures (a + ((g + t) + (m + b))) + tail == (a + g) + (t + (m + (b + tail)))
  {
  }

  lemma {:induction false} KeptSplit(ps: seq<Piece>, from: nat, repl: Lexeme, r: Script)
    requires from < |ps|
    ensures var kept := ps[..from] + [Piece(ps[from].gap, repl)];
            Ungroup(Script(kept + r.pieces, r.tail)) == Front(ps, from) + ([repl] + Ungroup(r))
  {
    var p := Piece(ps[from].gap, repl);
    var kept := ps[..from] + [p];
    FlattenAppend(kept, r.pieces);
    FlattenAppend(ps[..from], [p]);
    FlattenOne(p);
  }

  // The walk

  /** Replacing a run of tokens: the chain goes on if the placeholder fits at both ends. */
  lemma {:induction false} ReplaceRun(front: Option<Lexeme>, a: seq<Lexeme>, was: seq<Lexeme>, repl: Lexeme, rest: seq<Lexeme>)
    requires Chain(a + was, "") && Chain(rest, "") && Fits(repl, Join(rest))
    requires Follows(front, a, Join(was), repl.text + Join(rest))
    ensures Chain(a + ([repl] + rest), "") && Chain(a, Join(was))
  {
    hide Fits, Bridge;
    ChainSplit(a, was, "");
    assert Join(was) + "" == Join(was);
    var now := [repl] + rest;
    assert now[1..] == rest && Join(rest) + "" == Join(rest);
    assert Join(now) == repl.text + Join(rest);
    assert Chain(now, "");
    ChainSwap(front, a, Join(was), Join(now));
    assert Join(now) + "" == Join(now);
    ChainSplit(a, now, "");
  }

  predicate Bridged(prev: Before, r: string, r': string) {
    prev.tok.Some? && Ends(prev.tok.value, r) ==> Bridge(prev.tok.value, prev.hot, r, r')
  }

  lemma {:induction false} KeepChain(prev: Before, a: seq<Lexeme>, was: seq<Lexeme>, rest: seq<Lexeme>)
    requires a != [] && Chain(a + was, "") && Chain(rest, "")
    requires Bridged(Before(Some(a[|a| - 1]), IsHot(prev.tok, a)), Join(was), Join(rest))
    ensures Chain(a + rest, "") && Bridged(prev, Join(a + was), Join(a + rest))
  {
    hide Fits, Bridge, Ends;
    ChainSplit(a, was, "");
    assert Join(was) + "" == Join(was) && Join(rest) + "" == Join(rest);
    LastEnds(a, Join(was));
    ChainSwap(prev.tok, a, Join(was), Join(rest));
    ChainSplit(a, rest, "");
    JoinAppend(a, was);
    JoinAppend(a, rest);
    if prev.tok.Some? && Ends(prev.tok.value, Join(a) + Join(was)) {
      BridgeOver(prev.tok.value, prev.hot, a, Join(was), Join(rest));
    }
  }

  // One edit

  lemma {:induction false} TailChain(ps: seq<Piece>, to: nat, tail: seq<Lexeme>)
    requires to <= |ps| && Chain(Flatten(ps) + tail, "")
    ensures Chain(Flatten(ps[to..]) + tail, "")
  {
    hide Fits, Flatten, Join;
    assert ps == ps[..to] + ps[to..];
    FlattenAppend(ps[..to], ps[to..]);
    var b := Flatten(ps[to..]) + tail;
    assert Flatten(ps) + tail == Flatten(ps[..to]) + b;
    ChainSplit(Flatten(ps[..to]), b, "");
  }

  /** A significant token and what follows it. */
  lemma {:induction false} TokenThen(ps: seq<Piece>, from: nat, tail: seq<Lexeme>)
    requires from < |ps| && Chain(Flatten(ps) + tail, "")
    ensures Fits(ps[from].tok, Join(Flatten(ps[from + 1..]) + tail))
    ensures Chain(Front(ps, from), Join([ps[from].tok] + (Flatten(ps[from + 1..]) + tail)))
  {
    hide Fits, Flatten;
    var a, t, b := Front(ps, from), ps[from].tok, Flatten(ps[from + 1..]) + tail;
    FrontSplit(ps, from, from + 1, tail);
    assert Flatten(ps[from + 1..from + 1]) == [] by { assert ps[from + 1..from + 1] == []; FlattenNone(); }
    assert [] + b == b;
    ChainSplit(a, [t] + b, "");
    assert Join([t] + b) + "" == Join([t] + b) && Join(b) + "" == Join(b);
    assert ([t] + b)[1..] == b;
  }

  lemma {:induction false} FlattenNone()
    ensures Flatten([]) == []
  {
  }

  /** A placeholder may be followed by what follows the run it replaces. */
  lemma {:induction false} ValueEnds(ps: seq<Piece>, from: nat, to: nat, repl: Lexeme, tail: seq<Lexeme>)
    requires ValueEdit(Toks(ps), from, to, repl) && Sorted(ps) && AllGap(tail)
    requires Chain(Flatten(ps) + tail, "")
    ensures Ends(repl, Join(Flatten(ps[to..]) + tail))
  {
    hide Fits, Flatten, Join, IsSecret, IsSeparator, Lexeme.Is, BlockScan, OpensDollar, Lower;
    if repl == REDACTED_IDENT {
      TokenThen(ps, from, tail);
      FitsEnds(ps[from].tok, Join(Flatten(ps[to..]) + tail));
    } else {
      TailChain(ps, to, tail);
      RestStart(ps[to..], tail);
    }
  }

  /** What follows a constant and those continuing it does not start with a quote. */
  lemma {:induction false} RestStart(ps: seq<Piece>, tail: seq<Lexeme>)
    requires (ps != [] ==> !ps[0].tok.IsLiteral()) && Sorted(ps) && AllGap(tail)
    requires Chain(Flatten(ps) + tail, "")
    ensures Ends(REDACTED, Join(Flatten(ps) + tail))
  {
    hide First, Lexeme.WellFormed;
    var b := Flatten(ps) + tail;
    if b != [] {
      assert Join(b)[0] == b[0].text[0];
      FirstChar(b[0], Join(b[1..]) + "");
      assert b[0].kind != Str;
    }
  }

  /** The tokens in front of a replaced value may be followed by its placeholder. */
  lemma {:induction false} ValueStarts(ps: seq<Piece>, from: nat, to: nat, repl: Lexeme, tail: seq<Lexeme>, r': string)
    requires ValueEdit(Toks(ps), from, to, repl) && Sorted(ps) && AllGap(tail)
    requires Chain(Flatten(ps) + tail, "") && r' != "" && r'[0] == repl.text[0]
    ensures Follows(None, Front(ps, from), Join([ps[from].tok] + (Flatten(ps[from + 1..]) + tail)), r')
  {
    hide Fits, IsSecret, IsSeparator, Lexeme.Is, Bridge, Flatten, Follows, Chain;
    var a, t, b := Front(ps, from), ps[from].tok, Flatten(ps[from + 1..]) + tail;
    var r := Join([t] + b);
    TokenThen(ps, from, tail);
    assert r == t.text + Join(b) by { assert ([t] + b)[1..] == b; }
    FitsText(t, Join(b));
    if ps[from].gap != [] {
      assert a[|a| - 1] == ps[from].gap[|ps[from].gap| - 1];
      GapStarts(None, a, t, Join(b), r');
    } else {
      var p := ps[from - 1].tok;
      assert a == Front(ps, from - 1) + [p] by { FrontNext(ps, from); }
      LastEnds(a, r);
      BeforeValue(Toks(ps), from, to, repl, r, r');
      FollowsAny(None, a, p.text == "&", r, r');
    }
  }

  lemma {:induction false} FrontNext(ps: seq<Piece>, from: nat)
    requires 0 < from < |ps| && ps[from].gap == []
    ensures Front(ps, from) == Front(ps, from - 1) + [ps[from - 1].tok]
  {
    hide Flatten;
    assert ps[..from] == ps[..from - 1] + [ps[from - 1]];
    FlattenAppend(ps[..from - 1], [ps[from - 1]]);
    FlattenOne(ps[from - 1]);
  }

  lemma {:induction false} GapStarts(front: Option<Lexeme>, a: seq<Lexeme>, t: Lexeme, r: string, r': string)
    requires a != [] && !a[|a| - 1].Significant() && t.Significant()
    requires Chain(a, t.text + r) && Fits(t, r) && r' != "" && !IsSpace(r'[0])
    ensures Follows(front, a, t.text + r, r')
  {
    hide Fits, Bridge, Chain;
    LastEnds(a, t.text + r);
    BeforeGap(a[|a| - 1], t, r, r');
    FollowsAny(front, a, a[|a| - 1].text == "&", t.text + r, r');
  }

  // A rewritten constant

  /** A constant rewritten by the connection-string rule is still a constant, and is closed if the old one was. */
  lemma {:induction false} RewriteKinds(t: Lexeme)
    requires t.WellFormed() && t.IsLiteral() && ConnRewrite(t).Some?
    ensures var rw := ConnRewrite(t).value;
            || (rw.repl == REDACTED && (t.kind == Dollar ==> rw.toEnd))
            || (rw.repl.kind == t.kind && rw.repl.terminated == t.terminated && t.text[..t.lo] <= rw.repl.text)
  {
    hide MentionsConnSecret, TruncatedInHost, ConnString.RedactPasswords, Undouble, ConnString.Double;
    var rw := ConnRewrite(t).value;
    if rw.repl != REDACTED {
      var body := rw.repl.text[t.lo..];
      assert rw.repl.text == t.text[..t.lo] + body;
    }
  }

  lemma {:induction false} OpeningKept(t: Lexeme, r: string)
    requires Fits(t, r) && t.IsLiteral()
    ensures 0 < t.lo <= |t.text| && (t.text[t.lo - 1] == '\'' || t.text[t.lo - 1] == '$')
    ensures t.lo == 1 ==> t.text[0] == '\''
  {
    hide Fits, First;
    if t.kind == Dollar {
      DollarStart(t, r);
    } else {
      StringOpening(t, r);
    }
  }

  lemma {:induction false} DollarStart(t: Lexeme, r: string)
    requires Fits(t, r) && t.kind == Dollar
    ensures 1 < t.lo <= |t.text| && t.text[t.lo - 1] == '$'
  {
    hide Run, BlockScan, QuoteScan, Lower, Find, TagLen;
    assert (t.text + r)[0] == t.text[0];
    DollarShape(t, r);
  }

  lemma {:induction false} StringOpening(t: Lexeme, r: string)
    requires Fits(t, r) && t.kind == Str
    ensures 0 < t.lo <= |t.text| && t.text[t.lo - 1] == '\'' && (t.lo == 1 ==> t.text[0] == '\'')
  {
    hide Run, BlockScan, QuoteScan, Lower, DollarLexeme;
    assert (t.text + r)[0] == t.text[0];
    assert (t.text + r)[t.lo - 1] == t.text[t.lo - 1];
  }

  /** In front of a constant, only the text up to its opening quote matters. */
  lemma {:induction false} EndsOpening(t: Lexeme, z: string, w: string, w': string)
    requires z != "" && (z[|z| - 1] == '\'' || z[|z| - 1] == '$') && (|z| == 1 ==> z == "'")
    requires Ends(t, z + w)
    ensures Bridge(t, true, z + w, z + w')
  {
    hide Lower, BlockScan, OpensDollar;
    assert (z + w)[0] == z[0] == (z + w')[0];
    assert |z| > 1 ==> (z + w)[1] == z[1] == (z + w')[1];
    if t.kind == Other && t.text == "$" && OpensDollar(z + w') {
      OpeningStops(z, w');
      OpensWithin(z, w', w);
    }
  }

  lemma {:induction false} OpeningStops(z: string, w: string)
    requires z != "" && !IsTagCont(z[|z| - 1])
    ensures TagLen(z + w) < |z|
  {
    hide Run;
    assert (z + w)[|z| - 1] == z[|z| - 1];
  }

  /** In front of a placeholder that starts otherwise than the constant it replaces. */
  lemma {:induction false} BeforeRedacted(prev: Lexeme, t: Lexeme, r: string, r': string)
    requires Fits(t, r) && t.IsLiteral() && t.text[0] != '\'' && Ends(prev, t.text + r)
    requires prev.kind != Str && "'" <= r'
    ensures Bridge(prev, false, t.text + r, r')
  {
    hide BlockScan, First, Lower;
    FirstChar(t, r);
    LiteralStart(t, r);
    assert (t.text + r)[0] == t.text[0];
  }

  lemma {:induction false} LiteralStart(t: Lexeme, r: string)
    requires Fits(t, r) && t.IsLiteral()
    ensures t.text[0] == '\'' || t.text[0] == '$' || IsIdentStart(t.text[0])
  {
    hide Run, BlockScan, Quoted, Lower, DollarLexeme, WordLexeme;
    assert (t.text + r)[0] == t.text[0];
  }

  /** A token directly in front of a rewritten constant. */
  lemma {:induction false} CutPrefix(s: string, n: nat, r: string)
    requires n <= |s|
    ensures s + r == s[..n] + (s[n..] + r)
  {
  }

  lemma {:induction false} BeforeRewritten(prev: Lexeme, hot: bool, t: Lexeme, r: string, repl: Lexeme, r': string)
    requires Fits(t, r) && t.IsLiteral() && t.WellFormed() && Ends(prev, t.text + r)
    requires repl == REDACTED || t.text[..t.lo] <= repl.text
    requires !SameStart(t.text, repl.text) ==> prev.kind != Str && !hot
    ensures Bridge(prev, hot, t.text + r, repl.text + r')
  {
    hide Fits, Ends;
    FitsText(t, r);
    OpeningKept(t, r);
    if t.text[..t.lo] <= repl.text {
      var z := t.text[..t.lo];
      CutPrefix(t.text, t.lo, r);
      CutPrefix(repl.text, t.lo, r');
      assert repl.text[..t.lo] == z;
      EndsOpening(prev, z, t.text[t.lo..] + r, repl.text[t.lo..] + r');
    } else if t.text[0] == '\'' {
      CutPrefix(t.text, 1, r);
      CutPrefix(repl.text, 1, r');
      assert t.text[..1] == "'" == repl.text[..1];
      EndsOpening(prev, "'", t.text[1..] + r, repl.text[1..] + r');
    } else {
      BeforeRedacted(prev, t, r, repl.text + r');
    }
  }

  // One step of the walk

  lemma {:induction false} PrevBridge(prev: Before, a: seq<Lexeme>, x: seq<Lexeme>, y: seq<Lexeme>)
    requires a != [] && Chain(a + x, "") && Chain(a + y, "") && a[|a| - 1].text != "&"
    ensures Bridged(prev, Join(a + x), Join(a + y))
  {
    hide Fits, Ends, Join;
    ChainSplit(a, x, "");
    ChainSplit(a, y, "");
    assert Join(x) + "" == Join(x) && Join(y) + "" == Join(y);
    LastEnds(a, Join(y));
    JoinAppend(a, x);
    JoinAppend(a, y);
    if prev.tok.Some? && Ends(prev.tok.value, Join(a) + Join(x)) {
      BridgeOver(prev.tok.value, prev.hot, a, Join(x), Join(y));
    }
  }

  lemma {:induction false} PlaceholderFits(repl: Lexeme, b: string, b': string)
    requires Fits(repl, "") && Ends(repl, b)
    requires b' == "" || Bridged(Before(Some(repl), false), b, b')
    ensures Fits(repl, b')
  {
    hide Fits;
    Refit(repl, "", b');
  }

  lemma {:induction false} ValueStep(prev: Before, ps: seq<Piece>, tail: seq<Lexeme>, from: nat, to: nat, repl: Lexeme, rest: seq<Lexeme>)
    requires ValueEdit(Toks(ps), from, to, repl) && Sorted(ps) && AllGap(tail) && Chain(Flatten(ps) + tail, "")
    requires Chain(rest, "") && (rest == [] || Bridged(Before(Some(repl), false), Join(Flatten(ps[to..]) + tail), Join(rest)))
    ensures var now := Front(ps, from) + ([repl] + rest);
            Chain(now, "") && Bridged(prev, Join(Flatten(ps) + tail), Join(now))
  {
    hide Fits, Ends, Bridge, Flatten, Bridged, IsSecret, IsSeparator, Lexeme.Is, Front;
    var a := Front(ps, from);
    var now := a + ([repl] + rest);
    RedactedFits();
    ValueEnds(ps, from, to, repl, tail);
    assert Join(rest) == "" || rest != [];
    PlaceholderFits(repl, Join(Flatten(ps[to..]) + tail), Join(rest));
    assert (repl.text + Join(rest))[0] == repl.text[0];
    ValueStarts(ps, from, to, repl, tail, repl.text + Join(rest));
    FrontSplit(ps, from, from + 1, tail);
    assert ps[from + 1..from + 1] == [];
    FlattenNone();
    var x := Flatten(ps[from + 1..]) + tail;
    assert [] + x == x;
    ReplaceRun(None, a, [ps[from].tok] + x, repl, rest);
    FirstPiece(ps, tail, from, [repl] + rest, prev);
  }

  /** Seen from in front, an edit behind the first token changes nothing. */
  lemma {:induction false} FirstPiece(ps: seq<Piece>, tail: seq<Lexeme>, from: nat, rest: seq<Lexeme>, prev: Before)
    requires 0 < from < |ps| && Chain(Flatten(ps) + tail, "") && Chain(Front(ps, from) + rest, "")
    requires ps[0].tok.IsName() || ps[0].tok.IsLiteral()
    ensures Bridged(prev, Join(Flatten(ps) + tail), Join(Front(ps, from) + rest))
  {
    hide Fits, Bridged, Flatten;
    var a := ps[0].gap + [ps[0].tok];
    var x := Flatten(ps[1..]) + tail;
    FirstOut(ps);
    FirstOut(ps[..from]);
    assert ps[..from][1..] == ps[1..from];
    var y := Flatten(ps[1..from]) + ps[from].gap + rest;
    assert Flatten(ps) + tail == a + x && Front(ps, from) + rest == a + y;
    TokenThen(ps, 0, tail);
    FirstChar(ps[0].tok, Join(x));
    PrevBridge(prev, a, x, y);
  }

  lemma {:induction false} FirstOut(ps: seq<Piece>)
    requires ps != []
    ensures Flatten(ps) == ps[0].gap + [ps[0].tok] + Flatten(ps[1..])
  {
  }

  /** A rewritten constant may be followed by what follows the old one. */
  lemma {:induction false} RewriteEnds(t: Lexeme, rw: Rewrite, r: string)
    requires t.WellFormed() && t.IsLiteral() && ConnRewrite(t) == Some(rw) && Fits(t, r) && !rw.toEnd
    ensures Ends(rw.repl, r)
  {
    hide ConnRewrite, Fits;
    RewriteKinds(t);
    FitsEnds(t, r);
  }

  lemma {:induction false} ConnStep(prev: Before, ps: seq<Piece>, tail: seq<Lexeme>, rw: Rewrite, rest: seq<Lexeme>)
    requires ps != [] && Sorted(ps) && AllGap(tail) && Chain(Flatten(ps) + tail, "")
    requires ps[0].tok.WellFormed() && ps[0].tok.IsLiteral() && ConnRewrite(ps[0].tok) == Some(rw)
    requires PlacedConstant(prev, ps[0], rw.repl)
    requires Chain(rest, "")
    requires rest == [] || (!rw.toEnd && Bridged(Before(Some(rw.repl), false), Join(Flatten(ps[1..]) + tail), Join(rest)))
    ensures var now := ps[0].gap + ([rw.repl] + rest);
            Chain(now, "") && Bridged(prev, Join(Flatten(ps) + tail), Join(now))
  {
    hide Fits, Ends, Bridge, Flatten, Bridged, ConnRewrite, IsConstantName, Collides, Join;
    var t, x := ps[0].tok, Flatten(ps[1..]) + tail;
    TokenThen(ps, 0, tail);
    FrontNone(ps);
    JoinCons(t, x);
    assert Chain(ps[0].gap, t.text + Join(x));
    FirstOut(ps);
    assert Flatten(ps) + tail == ps[0].gap + ([t] + x);
    JoinNone();
    RewriteFits(t, rw, Join(x), Join(rest));
    RewriteKinds(t);
    ConnSplice(prev, ps[0], x, rw.repl, rest);
  }

  lemma {:induction false} JoinNone()
    ensures Join([]) == ""
  {
  }

  lemma {:induction false} JoinCons(t: Lexeme, x: seq<Lexeme>)
    ensures Join([t] + x) == t.text + Join(x)
  {
    assert ([t] + x)[1..] == x;
  }

  lemma {:induction false} FrontNone(ps: seq<Piece>)
    requires ps != []
    ensures Front(ps, 0) == ps[0].gap
  {
    assert ps[..0] == [];
  }

  /** A constant's replacement between its gap and what follows. */
  lemma {:induction false} ConnSplice(prev: Before, p: Piece, x: seq<Lexeme>, repl: Lexeme, rest: seq<Lexeme>)
    requires Chain(p.gap + ([p.tok] + x), "") && Chain(rest, "") && Chain(p.gap, p.tok.text + Join(x))
    requires p.tok.IsLiteral() && p.tok.WellFormed() && AllGap(p.gap) && Fits(p.tok, Join(x))
    requires repl.IsLiteral() && Fits(repl, "") && Fits(repl, Join(rest)) && !Collides(prev, p, repl)
    requires repl == REDACTED || p.tok.text[..p.tok.lo] <= repl.text
    ensures var now := p.gap + ([repl] + rest);
            Chain(now, "") && Bridged(prev, Join(p.gap + ([p.tok] + x)), Join(now))
  {
    hide Fits, Ends, Bridge, Bridged, Collides, Join, Chain;
    var gap, t, was, now := p.gap, p.tok, [p.tok] + x, [repl] + rest;
    JoinCons(t, x);
    JoinCons(repl, rest);
    FirstChar(repl, "");
    FitsText(repl, "");
    if gap != [] {
      GapStarts(None, gap, t, Join(x), repl.text + Join(rest));
      ReplaceRun(None, gap, was, repl, rest);
      GapNoAmpersand(gap, t.text + Join(x));
      PrevBridge(prev, gap, was, now);
    } else {
      ReplaceRun(None, gap, was, repl, rest);
      assert gap + was == was && gap + now == now;
      PrevRewritten(prev, p, Join(x), repl, Join(rest));
    }
  }

  lemma {:induction false} RewriteFits(t: Lexeme, rw: Rewrite, r: string, r': string)
    requires t.WellFormed() && t.IsLiteral() && ConnRewrite(t) == Some(rw) && Fits(t, r) && Fits(rw.repl, "")
    requires r' == "" || (!rw.toEnd && Bridged(Before(Some(rw.repl), false), r, r'))
    ensures Fits(rw.repl, r')
  {
    hide Fits, ConnRewrite, Ends;
    if r' == "" {
    } else {
      RewriteEnds(t, rw, r);
      PlaceholderFits(rw.repl, r, r');
    }
  }

  lemma {:induction false} GapNoAmpersand(gap: seq<Lexeme>, r: string)
    requires gap != [] && AllGap(gap) && Chain(gap, r)
    ensures gap[|gap| - 1].text != "&"
  {
    hide Fits, Chain, Ends;
    LastEnds(gap, r);
    FirstChar(gap[|gap| - 1], r);
  }

  lemma {:induction false} PrevRewritten(prev: Before, p: Piece, r: string, repl: Lexeme, r': string)
    requires Fits(p.tok, r) && p.tok.IsLiteral() && p.tok.WellFormed() && p.gap == []
    requires repl == REDACTED || p.tok.text[..p.tok.lo] <= repl.text
    requires !Collides(prev, p, repl)
    ensures Bridged(prev, p.tok.text + r, repl.text + r')
  {
    hide Fits, Ends, Bridge;
    if prev.tok.Some? && Ends(prev.tok.value, p.tok.text + r) {
      BeforeRewritten(prev.tok.value, prev.hot, p.tok, r, repl, r');
    }
  }

  // The whole walk

  lemma {:induction false} SoundRest(s: Script, to: nat)
    requires Sound(s) && to <= |s.pieces|
    ensures Sound(Script(s.pieces[to..], s.tail))
  {
    hide Chain, Flatten;
    TailChain(s.pieces, to, s.tail);
  }

  /** The walk turns a sound statement into a sound text. */
  lemma {:induction false} WalkChain(prev: Before, c: Context, s: Script)
    requires Sound(s) && Apart(prev, c, s)
    ensures Chain(Ungroup(Walk(c, s)), "")
    ensures Bridged(prev, Join(Ungroup(s)), Join(Ungroup(Walk(c, s))))
    decreases |s.pieces|
  {
    hide Fits, Ends, Bridge, Flatten, Decide, Next, After, PlacedConstant, Chain, Bridged, Toks, ValueEdit;
    var ps := s.pieces;
    if ps == [] {
      BridgedSame(prev, Join(Ungroup(s)));
    } else {
      match Decide(c, Toks(ps))
      case Keep =>
        var rest := Script(ps[1..], s.tail);
        SoundRest(s, 1);
        WalkChain(Behind(prev, ps[0]), Next(c, ps[0].tok), rest);
        KeepStep(prev, s, Walk(Next(c, ps[0].tok), rest));
      case Edit(from, to, repl, toEnd) =>
        var kept := ps[..from] + [Piece(ps[from].gap, repl)];
        var r := Script([], []);
        EmptyScript();
        if !toEnd {
          var rest := Script(ps[to..], s.tail);
          SoundRest(s, to);
          WalkChain(Before(Some(repl), false), After(c, Toks(kept)), rest);
          r := Walk(After(c, Toks(kept)), rest);
        }
        assert Walk(c, s) == Script(kept + r.pieces, r.tail) by { assert kept + [] == kept; }
        KeptSplit(ps, from, repl, r);
        EditStep(prev, c, s, r);
    }
  }

  lemma {:induction false} EmptyScript()
    ensures Ungroup(Script([], [])) == [] && Chain([], "")
  {
  }

  lemma {:induction false} BridgedSame(prev: Before, r: string)
    ensures Bridged(prev, r, r)
  {
  }

  lemma {:induction false} KeepStep(prev: Before, s: Script, r: Script)
    requires Sound(s) && s.pieces != [] && Chain(Ungroup(r), "")
    requires Bridged(Behind(prev, s.pieces[0]), Join(Ungroup(Script(s.pieces[1..], s.tail))), Join(Ungroup(r)))
    ensures var w := Script([s.pieces[0]] + r.pieces, r.tail);
            Chain(Ungroup(w), "") && Bridged(prev, Join(Ungroup(s)), Join(Ungroup(w)))
  {
    hide Fits, Ends, Bridge, Flatten, Chain, Bridged;
    var ps := s.pieces;
    var a, x := ps[0].gap + [ps[0].tok], Flatten(ps[1..]) + s.tail;
    FirstOut(ps);
    assert Ungroup(s) == a + x;
    var w := Script([ps[0]] + r.pieces, r.tail);
    FirstOut(w.pieces);
    assert w.pieces[1..] == r.pieces;
    assert Ungroup(w) == a + Ungroup(r);
    KeepChain(prev, a, x, Ungroup(r));
  }

  lemma {:induction false} EditStep(prev: Before, c: Context, s: Script, r: Script)
    requires Sound(s) && s.pieces != [] && Decide(c, Toks(s.pieces)).Edit? && Apart(prev, c, s)
    requires Chain(Ungroup(r), "")
    requires var e := Decide(c, Toks(s.pieces));
             if e.toEnd then Ungroup(r) == []
             else Bridged(Before(Some(e.repl), false), Join(Ungroup(Script(s.pieces[e.to..], s.tail))), Join(Ungroup(r)))
    ensures var e := Decide(c, Toks(s.pieces));
            var now := Front(s.pieces, e.from) + ([e.repl] + Ungroup(r));
            Chain(now, "") && Bridged(prev, Join(Ungroup(s)), Join(now))
  {
    hide Fits, Ends, Bridge, Flatten, Decide, Next, After, PlacedConstant, Chain, Bridged, ValueEdit, ConnRewrite;
    var e := Decide(c, Toks(s.pieces));
    EditShape(c, Toks(s.pieces));
    if ValueEdit(Toks(s.pieces), e.from, e.to, e.repl) {
      ValueStep(prev, s.pieces, s.tail, e.from, e.to, e.repl, Ungroup(r));
    } else {
      FrontNone(s.pieces);
      ConnStep(prev, s.pieces, s.tail, Rewrite(e.repl, e.toEnd), Ungroup(r));
    }
  }

  // The statement read again

  lemma {:induction false} GroupSorted(ts: seq<Lexeme>)
    ensures Sorted(Group(ts).pieces) && AllGap(Group(ts).tail)
  {
    if ts != [] {
      GroupSorted(ts[1..]);
    }
  }

  lemma {:induction false} StatementSound(query: string)
    ensures Sound(Statement(query))
  {
    hide Chain, Group, Flatten, Fits;
    var ts := Lex(query);
    GroupSorted(ts);
    GroupWellFormed(ts);
    UngroupGroup(ts);
    ChainLex(query);
  }

  lemma {:induction false} GroupGap(gap: seq<Lexeme>, ts: seq<Lexeme>)
    requires AllGap(gap)
    ensures var g := Group(ts);
            Group(gap + ts) == if g.pieces == [] then Script([], gap + g.tail)
                               else Script([Piece(gap + g.pieces[0].gap, g.pieces[0].tok)] + g.pieces[1..], g.tail)
    decreases |gap|
  {
    var g := Group(ts);
    if gap == [] {
      assert gap + ts == ts;
      if g.pieces != [] {
        assert g.pieces == [g.pieces[0]] + g.pieces[1..];
        assert gap + g.pieces[0].gap == g.pieces[0].gap;
      } else {
        assert gap + g.tail == g.tail;
      }
    } else {
      assert (gap + ts)[1..] == gap[1..] + ts;
      GroupGap(gap[1..], ts);
      assert forall x: seq<Lexeme> :: [gap[0]] + (gap[1..] + x) == gap + x;
    }
  }

  /** Grouping tokens undoes taking a statement apart. */
  lemma {:induction false} GroupUngroup(s: Script)
    requires Sorted(s.pieces) && AllGap(s.tail)
    ensures Group(Ungroup(s)) == s
    decreases |s.pieces|
  {
    hide Group, Flatten;
    var ps := s.pieces;
    if ps == [] {
      GroupTail(s.tail);
    } else {
      var rest := Script(ps[1..], s.tail);
      GroupUngroup(rest);
      FirstOut(ps);
      assert Ungroup(s) == ps[0].gap + ([ps[0].tok] + Ungroup(rest));
      GroupPiece(ps[0], Ungroup(rest));
      assert ps == [ps[0]] + ps[1..];
    }
  }

  lemma {:induction false} GroupTail(tail: seq<Lexeme>)
    requires AllGap(tail)
    ensures Ungroup(Script([], tail)) == tail && Group(tail) == Script([], tail)
  {
    GroupGap(tail, []);
    assert tail + [] == tail;
  }

  lemma {:induction false} GroupPiece(p: Piece, ts: seq<Lexeme>)
    requires AllGap(p.gap) && p.tok.Significant()
    ensures Group(p.gap + ([p.tok] + ts)) == Script([p] + Group(ts).pieces, Group(ts).tail)
  {
    hide Group;
    GroupToken(p.tok, ts);
    GroupGap(p.gap, [p.tok] + ts);
    assert p.gap + [] == p.gap;
    assert ([Piece([], p.tok)] + Group(ts).pieces)[1..] == Group(ts).pieces;
  }

  lemma {:induction false} GroupToken(t: Lexeme, ts: seq<Lexeme>)
    requires t.Significant()
    ensures Group([t] + ts) == Script([Piece([], t)] + Group(ts).pieces, Group(ts).tail)
  {
    assert ([t] + ts)[1..] == ts;
  }

  /** The walk keeps gaps gaps and tokens tokens. */
  lemma {:induction false} WalkSorted(c: Context, s: Script)
    requires WellFormed(s.pieces) && Sorted(s.pieces) && AllGap(s.tail)
    ensures Sorted(Walk(c, s).pieces) && AllGap(Walk(c, s).tail)
    decreases |s.pieces|
  {
    hide Decide, Next, After, ValueEdit, ConnRewrite;
    var ps := s.pieces;
    if ps != [] {
      match Decide(c, Toks(ps))
      case Keep =>
        WalkSorted(Next(c, ps[0].tok), Script(ps[1..], s.tail));
      case Edit(from, to, repl, toEnd) =>
        ReplacementIsLiteral(c, Toks(ps));
        var kept := ps[..from] + [Piece(ps[from].gap, repl)];
        if !toEnd {
          WalkSorted(After(c, Toks(kept)), Script(ps[to..], s.tail));
        }
    }
  }

  lemma {:induction false} ReplacementIsLiteral(c: Context, ts: seq<Lexeme>)
    requires ts != [] && ts[0].WellFormed() && Decide(c, ts).Edit?
    ensures Decide(c, ts).repl.Significant()
  {
    hide Decide, ConnRewrite;
    EditShape(c, ts);
    var e := Decide(c, ts);
    if e.from == 0 {
      RewriteKinds(ts[0]);
    }
  }

  /** Reading the redacted statement again gives the original's significant tokens with each redacted
      run replaced by one constant or quoted identifier. */
  lemma {:induction false} Relex(query: string)
    requires Apart(NOTHING, START, Statement(query))
    ensures Statement(Rewritten(query)) == Walk(START, Statement(query))
  {
    hide Walk, Group, Chain, Apart, Lex;
    var w := Walk(START, Statement(query));
    StatementSound(query);
    WalkChain(NOTHING, START, Statement(query));
    WalkSorted(START, Statement(query));
    LexChain(Ungroup(w), "");
    assert Join(Ungroup(w)) + "" == Join(Ungroup(w));
    LexNone();
    assert Ungroup(w) + [] == Ungroup(w);
    GroupUngroup(w);
  }

  lemma {:induction false} LexNone()
    ensures Lex("") == []
  {
  }
}
