/**
 The rewriting loop as pkg/sqlredact/redact.go runs it: indexes of significant tokens, an output
 buffer and the position up to which the statement has been copied.
 */
module SqlRewriting {
  import opened Text
  import opened SqlLexer
  import opened SqlLexing
  import opened SqlRedact
  import opened SqlGate
  import opened SqlRelex
  import opened SqlTarget

  method MightContain(s: string) returns (found: bool)
    ensures found == MightContainSecret(s)
  {
    hide Contains;
    var lower := Lower(s);
    for i := 0 to |TRIGGERS|
      invariant forall j :: 0 <= j < i ==> !Contains(lower, TRIGGERS[j])
    {
      if Contains(lower, TRIGGERS[i]) {
        return true;
      }
    }
    found := false;
  }

  /** Folds the letters one by one, then looks for a scheme. */
  method TruncatedInUriHost(body: string) returns (cut: bool)
    ensures cut == TruncatedInHost(body)
  {
    hide Find;
    var lower := body;
    for i := 0 to |body|
      invariant |lower| == |body|
      invariant forall k :: 0 <= k < i ==> lower[k] == LowerChar(body[k])
      invariant forall k :: i <= k < |body| ==> lower[k] == body[k]
    {
      var c := lower[i];
      if 'A' <= c <= 'Z' {
        lower := lower[i := (c as int + 32) as char];
      }
    }
    assert lower == Lower(body);
    var prefixes := ["postgresql://", "postgres://"];
    for p := 0 to 2
      invariant p >= 1 ==> Find(lower, prefixes[0]) < 0
      invariant p >= 2 ==> Find(lower, prefixes[1]) < 0
    {
      var i := Find(lower, prefixes[p]);
      if i >= 0 {
        return !HasHostEnd(body[i + |prefixes[p]|..]);
      }
    }
    cut := false;
  }

  // Tokens of a statement

  /** What a token's place says about its text. */
  function View(query: string, t: Token): Lexeme {
    Lexeme(t.kind, if t.start <= t.end <= |query| then query[t.start..t.end] else "",
           if HasBody(t.kind) && t.start <= t.bodyStart then t.bodyStart - t.start else 0,
           if HasBody(t.kind) && t.start <= t.bodyEnd then t.bodyEnd - t.start else 0,
           t.escapes, t.unicode, t.terminated)
  }

  /** A lexeme that keeps a body only where its kind has one. */
  predicate Tidy(x: Lexeme) { !HasBody(x.kind) ==> x.lo == 0 && x.hi == 0 }

  lemma {:induction false} ViewPlaced(query: string, x: Lexeme, i: nat)
    requires Tidy(x) && i + |x.text| <= |query| && query[i..i + |x.text|] == x.text
    ensures View(query, Place(x, i)) == x
  {
  }

  lemma {:induction false} FirstTidy(s: string)
    requires s != ""
    ensures Tidy(First(s))
  {
    hide Run, BlockScan, QuoteScan, Find, Lower;
  }

  lemma {:induction false} LexTidy(s: string)
    ensures forall i :: 0 <= i < |Lex(s)| ==> Tidy(Lex(s)[i])
    decreases |s|
  {
    hide First, Tidy;
    if s != "" {
      FirstTidy(s);
      LexTidy(s[|First(s).text|..]);
    }
  }

  lemma {:induction false} GroupTidy(ts: seq<Lexeme>)
    requires forall i :: 0 <= i < |ts| ==> Tidy(ts[i])
    ensures forall i :: 0 <= i < |Group(ts).pieces| ==> Tidy(Group(ts).pieces[i].tok)
  {
    hide Tidy;
    if ts != [] {
      GroupTidy(ts[1..]);
    }
  }

  // Places of significant tokens

  predicate IsSignificant(t: Token) { t.kind != Space && t.kind != Comment }

  function SignificantOnes(toks: seq<Token>): seq<Token> {
    if toks == [] then []
    else (if IsSignificant(toks[0]) then [toks[0]] else []) + SignificantOnes(toks[1..])
  }

  lemma {:induction false} SignificantLast(toks: seq<Token>, t: Token)
    ensures SignificantOnes(toks + [t]) == SignificantOnes(toks) + (if IsSignificant(t) then [t] else [])
    decreases |toks|
  {
    hide IsSignificant;
    var last := if IsSignificant(t) then [t] else [];
    if toks == [] {
      assert toks + [t] == [t] && [t][1..] == [];
    } else {
      assert (toks + [t])[1..] == toks[1..] + [t] && (toks + [t])[0] == toks[0];
      SignificantLast(toks[1..], t);
      var first := if IsSignificant(toks[0]) then [toks[0]] else [];
      assert first + (SignificantOnes(toks[1..]) + last) == (first + SignificantOnes(toks[1..])) + last;
    }
  }

  /** The places of the pieces' tokens, in a statement whose first piece starts at `i`. */
  function PlacePieces(ps: seq<Piece>, i: nat): (toks: seq<Token>)
    ensures |toks| == |ps|
  {
    if ps == [] then []
    else
      var at := i + |Join(ps[0].gap)|;
      [Place(ps[0].tok, at)] + PlacePieces(ps[1..], at + |ps[0].tok.text|)
  }

  lemma {:induction false} GroupPlaces(ts: seq<Lexeme>, i: nat)
    ensures SignificantOnes(PlaceAll(ts, i)) == PlacePieces(Group(ts).pieces, i)
    decreases |ts|
  {
    hide Group, PlacePieces, PlaceAll, SignificantOnes;
    if ts == [] {
      GroupNothing(ts);
      NoPieces(i);
      NoOnes(ts, i);
    } else {
      GroupPlaces(ts[1..], i + |ts[0].text|);
      OnesFirst(ts, i);
      PiecesGroup(ts, i);
    }
  }

  lemma {:induction false} NoOnes(ts: seq<Lexeme>, i: nat)
    requires ts == []
    ensures SignificantOnes(PlaceAll(ts, i)) == []
  {
  }

  lemma {:induction false} OnesFirst(ts: seq<Lexeme>, i: nat)
    requires ts != []
    ensures var rest := SignificantOnes(PlaceAll(ts[1..], i + |ts[0].text|));
            SignificantOnes(PlaceAll(ts, i)) == if ts[0].Significant() then [Place(ts[0], i)] + rest else rest
  {
    hide Place, IsSignificant;
    var i' := i + |ts[0].text|;
    assert PlaceAll(ts, i)[1..] == PlaceAll(ts[1..], i');
    PlacedKind(ts[0], i);
  }

  lemma {:induction false} PiecesGroup(ts: seq<Lexeme>, i: nat)
    requires ts != []
    ensures var rest := PlacePieces(Group(ts[1..]).pieces, i + |ts[0].text|);
            PlacePieces(Group(ts).pieces, i) == if ts[0].Significant() then [Place(ts[0], i)] + rest else rest
  {
    hide Place, Join, Group, PlacePieces;
    GroupFirst(ts);
    var i', g := i + |ts[0].text|, Group(ts[1..]).pieces;
    if ts[0].Significant() {
      JoinNone();
      PiecesFirst(Piece([], ts[0]), g, i);
    } else if g != [] {
      JoinCons(ts[0], g[0].gap);
      PiecesFirst(Piece([ts[0]] + g[0].gap, g[0].tok), g[1..], i);
      PiecesFirst(g[0], g[1..], i');
      assert g == [g[0]] + g[1..];
    } else {
      NoPieces(i);
      NoPieces(i');
    }
  }

  lemma {:induction false} NoPieces(i: nat)
    ensures PlacePieces([], i) == []
  {
  }

  lemma {:induction false} PiecesFirst(p: Piece, ps: seq<Piece>, i: nat)
    ensures var at := i + |Join(p.gap)|; PlacePieces([p] + ps, i) == [Place(p.tok, at)] + PlacePieces(ps, at + |p.tok.text|)
  {
    hide Place, Join;
    assert ([p] + ps)[1..] == ps;
  }

  lemma {:induction false} PlacedKind(x: Lexeme, i: nat)
    ensures IsSignificant(Place(x, i)) == x.Significant()
  {
  }

  /** The indexes of the tokens that are not spaces or comments. */
  method Significant(toks: seq<Token>) returns (sig: seq<nat>)
    ensures forall j :: 0 <= j < |sig| ==> sig[j] < |toks|
    ensures |sig| == |SignificantOnes(toks)|
    ensures forall j :: 0 <= j < |sig| ==> toks[sig[j]] == SignificantOnes(toks)[j]
  {
    sig := [];
    for i := 0 to |toks|
      invariant forall j :: 0 <= j < |sig| ==> sig[j] < i
      invariant |sig| == |SignificantOnes(toks[..i])|
      invariant forall j :: 0 <= j < |sig| ==> toks[sig[j]] == SignificantOnes(toks[..i])[j]
    {
      assert toks[..i + 1] == toks[..i] + [toks[i]];
      SignificantLast(toks[..i], toks[i]);
      if IsSignificant(toks[i]) {
        sig := sig + [i];
      }
    }
    assert toks[..|toks|] == toks;
  }

  // Positions

  /** Where the gap of piece `k` starts. */
  function Offset(ps: seq<Piece>, k: nat): nat
    requires k <= |ps|
  {
    |Join(Flatten(ps[..k]))|
  }

  lemma {:induction false} OffsetStep(ps: seq<Piece>, k: nat)
    requires k < |ps|
    ensures Offset(ps, k + 1) == Offset(ps, k) + |Join(ps[k].gap)| + |ps[k].tok.text|
  {
    hide Flatten, Join;
    assert ps[..k + 1] == ps[..k] + [ps[k]];
    FlattenAppend(ps[..k], [ps[k]]);
    FlattenOne(ps[k]);
    JoinAppend(Flatten(ps[..k]), ps[k].gap + [ps[k].tok]);
    PieceText(ps[k]);
  }

  lemma {:induction false} PieceText(p: Piece)
    ensures Join(p.gap + [p.tok]) == Join(p.gap) + p.tok.text
  {
    hide Join;
    JoinAppend(p.gap, [p.tok]);
    JoinNone();
    JoinCons(p.tok, []);
    assert [p.tok] + [] == [p.tok] && p.tok.text + "" == p.tok.text;
  }

  lemma {:induction false} PlaceAt(ps: seq<Piece>, i: nat, k: nat)
    requires k < |ps|
    ensures PlacePieces(ps, i)[k] == Place(ps[k].tok, i + Offset(ps, k) + |Join(ps[k].gap)|)
    decreases k
  {
    hide Flatten, Join, Place;
    if k == 0 {
      assert ps[..0] == [];
      FlattenNone();
      JoinNone();
    } else {
      var at := i + |Join(ps[0].gap)| + |ps[0].tok.text|;
      PlaceAt(ps[1..], at, k - 1);
      assert ps[..k] == [ps[0]] + ps[1..][..k - 1];
      FlattenAppend([ps[0]], ps[1..][..k - 1]);
      FlattenOne(ps[0]);
      JoinAppend(ps[0].gap + [ps[0].tok], Flatten(ps[1..][..k - 1]));
      PieceText(ps[0]);
    }
  }

  /** The text from piece `k` on. */
  lemma {:induction false} TextFrom(ps: seq<Piece>, tail: seq<Lexeme>, query: string, k: nat)
    requires k <= |ps| && query == Join(Flatten(ps) + tail)
    ensures Offset(ps, k) <= |query| && query[Offset(ps, k)..] == Join(Flatten(ps[k..]) + tail)
  {
    hide Flatten, Join;
    assert ps == ps[..k] + ps[k..];
    FlattenAppend(ps[..k], ps[k..]);
    var a, b := Flatten(ps[..k]), Flatten(ps[k..]) + tail;
    assert Flatten(ps) + tail == a + b;
    JoinAppend(a, b);
    assert (Join(a) + Join(b))[|Join(a)|..] == Join(b);
  }

  /** The tokens and the indexes of the significant ones are those of the statement `s`. */
  ghost predicate Layout(query: string, toks: seq<Token>, sig: seq<nat>, s: Script) {
    && WellFormed(s.pieces) && query == Join(Ungroup(s)) && |sig| == |s.pieces|
    && (forall j :: 0 <= j < |sig| ==> sig[j] < |toks|)
    && (forall j :: 0 <= j < |sig| ==> Placed(query, toks[sig[j]], s.pieces, j))
  }

  /** The token is that of piece `j`, in its place. */
  ghost predicate Placed(query: string, t: Token, ps: seq<Piece>, j: nat)
    requires j < |ps|
  {
    View(query, t) == ps[j].tok && t.start == Offset(ps, j) + |Join(ps[j].gap)| && t.end == Offset(ps, j + 1)
  }

  lemma {:induction false} PieceView(query: string, s: Script, j: nat)
    requires j < |s.pieces| && query == Join(Ungroup(s)) && Tidy(s.pieces[j].tok)
    ensures Placed(query, Place(s.pieces[j].tok, Offset(s.pieces, j) + |Join(s.pieces[j].gap)|), s.pieces, j)
  {
    hide Flatten, Join, Tidy;
    var ps, p := s.pieces, s.pieces[j];
    var at := Offset(ps, j) + |Join(p.gap)|;
    TextFrom(ps, s.tail, query, j);
    FirstOut(ps[j..]);
    var rest := Flatten(ps[j..][1..]) + s.tail;
    assert Flatten(ps[j..]) + s.tail == (p.gap + [p.tok]) + rest;
    JoinAppend(p.gap + [p.tok], rest);
    PieceText(p);
    InText(query, Offset(ps, j), Join(p.gap), p.tok.text, Join(rest));
    ViewPlaced(query, p.tok, at);
    OffsetStep(ps, j);
  }

  lemma {:induction false} InText(query: string, at: nat, a: string, b: string, c: string)
    requires at <= |query| && query[at..] == a + b + c
    ensures at + |a| + |b| <= |query| && query[at + |a|..at + |a| + |b|] == b && query[at..at + |a|] == a
  {
    assert query[at..][|a|..|a| + |b|] == b;
    assert query[at..][..|a|] == a;
  }

  lemma {:induction false} LayoutOf(query: string, toks: seq<Token>, sig: seq<nat>)
    requires toks == PlaceAll(Lex(query), 0) && |sig| == |SignificantOnes(toks)|
    requires forall j :: 0 <= j < |sig| ==> sig[j] < |toks|
    requires forall j :: 0 <= j < |sig| ==> toks[sig[j]] == SignificantOnes(toks)[j]
    ensures Layout(query, toks, sig, Statement(query))
  {
    hide Lex, Group, Tidy, Placed, PlacePieces, PlaceAll, Offset;
    var s := Statement(query);
    LexTidy(query);
    GroupTidy(Lex(query));
    GroupPlaces(Lex(query), 0);
    UngroupGroup(Lex(query));
    LexCovers(query);
    forall j | 0 <= j < |sig| ensures Placed(query, toks[sig[j]], s.pieces, j) {
      PlaceAt(s.pieces, 0, j);
      PieceView(query, s, j);
    }
  }

  // The tests of the loop

  method IsSetTarget(query: string, toks: seq<Token>, sig: seq<nat>, k: nat, ghost s: Script) returns (target: bool)
    requires Layout(query, toks, sig, s) && k < |sig|
    ensures target == LooksBack(Toks(s.pieces), k)
  {
    hide View, Lexeme.Is, Offset, Join, LooksBack, NameStart, Lexeme.IsName;
    ghost var ts := Toks(s.pieces);
    var j := k;
    while j >= 2 && View(query, toks[sig[j - 1]]).Is(Other, ".") && View(query, toks[sig[j - 2]]).IsName()
      invariant 0 <= j <= k
      invariant NameStart(ts, j) == NameStart(ts, k)
    {
      NameStep(ts, j);
      j := j - 2;
    }
    NameStep(ts, j);
    LooksFrom(ts, k, j);
    if j >= 1 && (View(query, toks[sig[j - 1]]).Is(Ident, "local") || View(query, toks[sig[j - 1]]).Is(Ident, "session")) {
      j := j - 1;
    }
    target := j >= 1 && View(query, toks[sig[j - 1]]).Is(Ident, "set");
  }

  lemma {:induction false} NameStep(ts: seq<Lexeme>, j: nat)
    requires j <= |ts|
    ensures NameStart(ts, j) == if j >= 2 && ts[j - 1].Is(Other, ".") && ts[j - 2].IsName() then NameStart(ts, j - 2) else j
  {
    hide Lexeme.Is;
  }

  lemma {:induction false} LooksFrom(ts: seq<Lexeme>, k: nat, j: nat)
    requires j <= k <= |ts| && NameStart(ts, k) == j
    ensures var i := if j >= 1 && (ts[j - 1].Is(Ident, "local") || ts[j - 1].Is(Ident, "session")) then j - 1 else j;
            LooksBack(ts, k) == (i >= 1 && ts[i - 1].Is(Ident, "set"))
  {
    hide NameStart, Lexeme.Is;
  }

  lemma {:induction false} SemicolonIs(ts: seq<Lexeme>, n: nat)
    requires n <= |ts| && (forall i :: 0 <= i < n ==> !ts[i].Is(Other, ";")) && (n < |ts| ==> ts[n].Is(Other, ";"))
    ensures UpToSemicolon(ts) == n
  {
    hide Lexeme.Is;
  }

  method SetValueEnd(query: string, toks: seq<Token>, sig: seq<nat>, m: nat, ghost s: Script) returns (stop: nat)
    requires Layout(query, toks, sig, s) && m < |sig|
    ensures stop == m + SetValue(Toks(s.pieces)[m..])
  {
    hide View, Lexeme.Is, Offset, Join, UpToSemicolon, HoldsNoSecret;
    ghost var ts := Toks(s.pieces);
    stop := m;
    while stop < |sig| && !View(query, toks[sig[stop]]).Is(Other, ";")
      invariant m <= stop <= |sig|
      invariant forall i :: m <= i < stop ==> !ts[i].Is(Other, ";")
    {
      stop := stop + 1;
    }
    SemicolonIs(ts[m..], stop - m);
    if stop == m + 1 {
      var v := View(query, toks[sig[m]]);
      if HoldsNoSecret(v) {
        return m;
      }
    }
  }

  lemma {:induction false} LiteralsIs(ts: seq<Lexeme>, n: nat)
    requires n <= |ts| && (forall i :: 0 <= i < n ==> ts[i].IsLiteral()) && (n < |ts| ==> !ts[n].IsLiteral())
    ensures Literals(ts) == n
  {
  }

  lemma {:induction false} ViewOf(query: string, toks: seq<Token>, sig: seq<nat>, s: Script, m: nat)
    requires Layout(query, toks, sig, s) && m < |sig|
    ensures |sig| == |s.pieces| && sig[m] < |toks| && View(query, toks[sig[m]]) == s.pieces[m].tok
  {
    hide View, Offset, Join;
  }

  /** The end of the constants that start at `m`. */
  method LiteralsEnd(query: string, toks: seq<Token>, sig: seq<nat>, m: nat, ghost s: Script) returns (end: nat)
    requires Layout(query, toks, sig, s) && m < |sig| && s.pieces[m].tok.IsLiteral()
    ensures end == m + Literals(Toks(s.pieces)[m..])
  {
    hide View, Offset, Join, Literals;
    ghost var ts := Toks(s.pieces);
    end := m + 1;
    while end < |sig| && View(query, toks[sig[end]]).IsLiteral()
      invariant m < end <= |sig|
      invariant forall i :: m <= i < end ==> ts[i].IsLiteral()
    {
      end := end + 1;
    }
    LiteralsIs(ts[m..], end - m);
  }

  /** The constant at `m` goes with the constants continuing it. */
  method RedactValueAt(query: string, toks: seq<Token>, sig: seq<nat>, k: nat, m: nat, ghost s: Script) returns (step: Step)
    requires Layout(query, toks, sig, s) && k <= m < |sig| && s.pieces[m].tok.IsLiteral()
    ensures step == SqlRedact.RedactValue(Toks(s.pieces)[k..], m - k)
  {
    hide View, Literals, AmbiguousEscapes, Layout;
    ViewOf(query, toks, sig, s, m);
    var first := View(query, toks[sig[m]]);
    var end := LiteralsEnd(query, toks, sig, m, s);
    Dropped(Toks(s.pieces), k, m);
    step := Edit(m - k, end - k, REDACTED, AmbiguousEscapes(first));
  }

  lemma {:induction false} Dropped(ts: seq<Lexeme>, k: nat, m: nat)
    requires k <= m <= |ts|
    ensures ts[k..][m - k..] == ts[m..] && (m < |ts| ==> ts[k..][m - k] == ts[m])
  {
  }

  /** What is to be done at the significant token `k`. */
  method DecideAt(query: string, toks: seq<Token>, sig: seq<nat>, k: nat, ghost s: Script, ghost c: Context) returns (step: Step)
    requires Layout(query, toks, sig, s) && k < |sig| && c.target == LooksBack(Toks(s.pieces), k)
    ensures step == Decide(c, Toks(s.pieces)[k..])
  {
    hide View, Offset, Join, Literals, AmbiguousEscapes, IsSecretName, NameOf, ConnRewrite, IsConstantName, Lexeme.Is, SetValue, LooksBack;
    ghost var ts := Toks(s.pieces)[k..];
    var t := View(query, toks[sig[k]]);
    if IsSecret(t) {
      var m := k + 1;
      var separated := m < |sig| && IsSeparator(View(query, toks[sig[m]]));
      if separated {
        m := m + 1;
      }
      if m >= |sig| {
        return Keep;
      }
      var v := View(query, toks[sig[m]]);
      if v.IsLiteral() {
        step := RedactValueAt(query, toks, sig, k, m, s);
        return;
      }
      if separated && v.kind == QuotedIdent {
        return Edit(m - k, m + 1 - k, REDACTED_IDENT, false);
      }
      if separated {
        var target := IsSetTarget(query, toks, sig, k, s);
        if target {
          var stop := SetValueEnd(query, toks, sig, m, s);
          assert ts[m - k..] == Toks(s.pieces)[m..];
          if stop > m {
            return Edit(m - k, stop - k, REDACTED, false);
          }
        }
      }
      return Keep;
    }
    if !t.IsLiteral() {
      return Keep;
    }
    if IsConstantName(t) {
      if k + 2 < |sig| && IsSecretName(t.Body()) && View(query, toks[sig[k + 1]]).Is(Other, ",")
         && View(query, toks[sig[k + 2]]).IsLiteral()
      {
        step := RedactValueAt(query, toks, sig, k, k + 2, s);
        return;
      }
      if Lower(t.Body()) in NON_SECRET_NAMES {
        return Keep;
      }
    }
    match ConnRewrite(t) {
      case None => return Keep;
      case Some(r) => return Edit(0, 1, r.repl, r.toEnd);
    }
  }

  // The loop

  /** The forward context is that of the original tokens, where it matters. */
  predicate Agrees(c: Context, ts: seq<Lexeme>, k: nat)
    requires k <= |ts|
  {
    c == After(START, ts[..k]) || k == |ts| || ts[k].Is(Other, ";")
  }

  lemma {:induction false} AgreesKeep(c: Context, ts: seq<Lexeme>, k: nat)
    requires k < |ts| && Agrees(c, ts, k)
    ensures Agrees(Next(c, ts[k]), ts, k + 1)
  {
    hide Next, Lexeme.Is;
    AfterStep(ts, k + 1);
    if ts[k].Is(Other, ";") {
      AfterSemicolon(c, ts[k]);
      AfterSemicolon(After(START, ts[..k]), ts[k]);
    }
  }

  lemma {:induction false} SemicolonKept(c: Context, ts: seq<Lexeme>)
    requires ts != [] && ts[0].WellFormed() && ts[0].Is(Other, ";")
    ensures Decide(c, ts) == Keep
  {
  }

  lemma {:induction false} AgreesEdit(c: Context, ts: seq<Lexeme>, k: nat, e: Step)
    requires k < |ts| && ts[k].WellFormed() && Agrees(c, ts, k) && Decide(c, ts[k..]) == e && e.Edit?
    ensures k + e.to <= |ts| && Agrees(After(c, ts[k..k + e.from] + [e.repl]), ts, k + e.to)
  {
    hide Next, Lexeme.Is, Decide, IsSecret, IsSeparator, ConnRewrite;
    var us := ts[k..];
    if ts[k].Is(Other, ";") {
      SemicolonKept(c, us);
    }
    assert ts[k..k + e.from] == us[..e.from];
    AfterAppend(c, us[..e.from], [e.repl]);
    After1(After(c, us[..e.from]), e.repl);
    EditContext(c, us, e);
    AfterStep(ts, k + e.to);
    AfterSplit(ts, k, k + e.to - 1);
    assert us[..e.to - 1] == ts[k..k + e.to - 1] && us[e.to - 1] == ts[k + e.to - 1];
    assert e.to < |us| ==> us[e.to] == ts[k + e.to];
  }

  lemma {:induction false} AfterSplit(ts: seq<Lexeme>, k: nat, m: nat)
    requires k <= m <= |ts|
    ensures After(START, ts[..m]) == After(After(START, ts[..k]), ts[k..m])
  {
    hide Next;
    assert ts[..m] == ts[..k] + ts[k..m];
    AfterAppend(START, ts[..k], ts[k..m]);
  }

  /** The context behind an edit, from the placeholder and from the tokens it replaces. */
  lemma {:induction false} EditContext(c: Context, us: seq<Lexeme>, e: Step)
    requires us != [] && us[0].WellFormed() && Decide(c, us) == e && e.Edit?
    ensures e.to <= |us| && e.to > 0
    ensures || Next(After(c, us[..e.from]), e.repl) == Next(After(c, us[..e.to - 1]), us[e.to - 1])
            || e.to == |us| || us[e.to].Is(Other, ";")
  {
    hide Next, Lexeme.Is, ConnRewrite, IsSecretName, NameOf, IsSeparator, IsConstantName, After;
    EditShape(c, us);
    if e.from == 0 {
      RewriteKinds(us[0]);
    }
    var last := us[e.to - 1];
    if e.repl.IsLiteral() && last.IsLiteral() {
      AfterLiteral(After(c, us[..e.from]), e.repl);
      AfterLiteral(After(c, us[..e.to - 1]), last);
    } else if e.repl == REDACTED_IDENT {
      assert us[..e.to - 1] == us[..e.from];
      NextIdent(After(c, us[..e.from]), last);
    } else {
      SetOrLiteral(c, us, e);
    }
  }

  lemma {:induction false} NextIdent(c: Context, t: Lexeme)
    requires t.kind == QuotedIdent
    ensures Next(c, t) == Next(c, REDACTED_IDENT)
  {
  }

  lemma {:induction false} SetOrLiteral(c: Context, us: seq<Lexeme>, e: Step)
    requires us != [] && us[0].WellFormed() && Decide(c, us) == e && e.Edit? && e.repl != REDACTED_IDENT
    requires !(e.repl.IsLiteral() && us[e.to - 1].IsLiteral())
    ensures e.to == |us| || us[e.to].Is(Other, ";")
  {
    hide Lexeme.Is, ConnRewrite, IsSecretName, NameOf, IsConstantName, UpToSemicolon, HoldsNoSecret;
    if e.from == 0 {
      RewriteKinds(us[0]);
    } else {
      var vs := us[e.from..];
      assert vs[e.to - e.from - 1] == us[e.to - 1];
      assert e.to < |us| ==> vs[e.to - e.from] == us[e.to];
    }
  }

  // The texts that are copied

  /** The text between the gap of piece `k` and the token of a later piece. */
  lemma {:induction false} FrontText(query: string, s: Script, k: nat, from: nat)
    requires query == Join(Ungroup(s)) && k + from < |s.pieces|
    ensures var ps := s.pieces; var start := Offset(ps, k + from) + |Join(ps[k + from].gap)|;
            Offset(ps, k) <= start <= |query| && query[Offset(ps, k)..start] == Join(Front(ps[k..], from))
  {
    hide Flatten, Join;
    var ps, n := s.pieces, k + from;
    var a, b := Flatten(ps[..k]), Front(ps[k..], from);
    assert ps[..n] == ps[..k] + ps[k..][..from];
    FlattenAppend(ps[..k], ps[k..][..from]);
    assert Front(ps, n) == a + b;
    JoinAppend(a, b);
    JoinAppend(Flatten(ps[..n]), ps[n].gap);
    FrontSplit(ps, n, n + 1, s.tail);
    var rest := [ps[n].tok] + (Flatten(ps[n + 1..n + 1]) + (Flatten(ps[n + 1..]) + s.tail));
    assert Ungroup(s) == (a + b) + rest;
    JoinAppend(a + b, rest);
    Middle(Join(a), Join(b), Join(rest));
  }

  lemma {:induction false} Middle(a: string, b: string, c: string)
    ensures (a + b + c)[|a|..|a| + |b|] == b
  {
  }

  lemma {:induction false} KeepText(query: string, s: Script, k: nat, c: Context)
    requires query == Join(Ungroup(s)) && WellFormed(s.pieces) && k < |s.pieces|
    requires Decide(c, Toks(s.pieces[k..])) == Keep
    ensures var ps := s.pieces;
            && Offset(ps, k) <= Offset(ps, k + 1) <= |query|
            && Join(Ungroup(Walk(c, Script(ps[k..], s.tail)))) ==
                 query[Offset(ps, k)..Offset(ps, k + 1)] + Join(Ungroup(Walk(Next(c, ps[k].tok), Script(ps[k + 1..], s.tail))))
  {
    hide Flatten, Join, Decide, Next, After, Offset;
    var ps := s.pieces;
    var r := Walk(Next(c, ps[k].tok), Script(ps[k + 1..], s.tail));
    assert ps[k..][1..] == ps[k + 1..];
    var w := Script([ps[k]] + r.pieces, r.tail);
    assert Walk(c, Script(ps[k..], s.tail)) == w;
    FirstOut(w.pieces);
    assert w.pieces[1..] == r.pieces;
    assert Ungroup(w) == (ps[k].gap + [ps[k].tok]) + Ungroup(r);
    JoinAppend(ps[k].gap + [ps[k].tok], Ungroup(r));
    PieceInText(query, s, k);
  }

  lemma {:induction false} PieceInText(query: string, s: Script, k: nat)
    requires query == Join(Ungroup(s)) && k < |s.pieces|
    ensures var ps := s.pieces;
            && Offset(ps, k) <= Offset(ps, k + 1) <= |query|
            && query[Offset(ps, k)..Offset(ps, k + 1)] == Join(ps[k].gap + [ps[k].tok])
  {
    hide Flatten, Join, Offset;
    var ps := s.pieces;
    OffsetStep(ps, k);
    TextFrom(ps, s.tail, query, k);
    FirstOut(ps[k..]);
    var rest := Flatten(ps[k..][1..]) + s.tail;
    assert Flatten(ps[k..]) + s.tail == (ps[k].gap + [ps[k].tok]) + rest;
    JoinAppend(ps[k].gap + [ps[k].tok], rest);
    PieceText(ps[k]);
    InText(query, Offset(ps, k), Join(ps[k].gap + [ps[k].tok]), "", Join(rest)) by {
      assert Join(ps[k].gap + [ps[k].tok]) + "" == Join(ps[k].gap + [ps[k].tok]);
    }
  }

  lemma {:induction false} EditText(query: string, s: Script, k: nat, c: Context, e: Step)
    requires query == Join(Ungroup(s)) && WellFormed(s.pieces) && k < |s.pieces|
    requires Decide(c, Toks(s.pieces[k..])) == e && e.Edit?
    ensures var ps := s.pieces; var start := Offset(ps, k + e.from) + |Join(ps[k + e.from].gap)|;
            && Offset(ps, k) <= start <= |query|
            && Join(Ungroup(Walk(c, Script(ps[k..], s.tail)))) ==
                 query[Offset(ps, k)..start] + (e.repl.text + (if e.toEnd then "" else
                   Join(Ungroup(Walk(After(c, Toks(ps)[k..k + e.from] + [e.repl]), Script(ps[k + e.to..], s.tail))))))
  {
    hide Flatten, Join, Decide, Next, After, Offset;
    var ps := s.pieces;
    var kept := ps[k..][..e.from] + [Piece(ps[k + e.from].gap, e.repl)];
    assert Toks(kept) == Toks(ps)[k..k + e.from] + [e.repl];
    assert ps[k..][e.to..] == ps[k + e.to..];
    var r := if e.toEnd then Script([], []) else Walk(After(c, Toks(kept)), Script(ps[k + e.to..], s.tail));
    assert kept + [] == kept;
    assert Walk(c, Script(ps[k..], s.tail)) == Script(kept + r.pieces, r.tail);
    KeptSplit(ps[k..], e.from, e.repl, r);
    FrontText(query, s, k, e.from);
    JoinAppend(Front(ps[k..], e.from), [e.repl] + Ungroup(r));
    JoinCons(e.repl, Ungroup(r));
    EmptyScript();
    JoinNone();
  }

  lemma {:induction false} DecideAgrees(c: Context, ts: seq<Lexeme>, k: nat)
    requires k < |ts| && ts[k].WellFormed() && Agrees(c, ts, k)
    ensures Decide(After(START, ts[..k]), ts[k..]) == Decide(c, ts[k..])
  {
    hide Decide, Lexeme.Is, After;
    if ts[k].Is(Other, ";") {
      SemicolonKept(c, ts[k..]);
      SemicolonKept(After(START, ts[..k]), ts[k..]);
    }
  }

  /** Nothing is copied or read before the first piece. */
  lemma {:induction false} Begin(query: string)
    ensures var ps := Statement(query).pieces;
            && Offset(ps, 0) == 0 && ps[0..] == ps && query[0..0] == ""
            && Agrees(START, Toks(ps), 0) && query == Join(Ungroup(Statement(query)))
  {
    hide Lex, Group;
    UngroupGroup(Lex(query));
    LexCovers(query);
    var ps := Statement(query).pieces;
    assert ps[..0] == [] && Toks(ps)[..0] == [];
    FlattenNone();
    JoinNone();
  }

  lemma {:induction false} ToksFrom(ps: seq<Piece>, k: nat)
    requires k < |ps| && WellFormed(ps)
    ensures Toks(ps)[k..] == Toks(ps[k..]) && |Toks(ps)| == |ps| && Toks(ps)[k] == ps[k].tok
    ensures ps[k].tok.WellFormed()
  {
  }

  lemma {:induction false} Longer(query: string, a: nat, b: nat, c: nat)
    requires a <= b <= c <= |query|
    ensures query[a..b] + query[b..c] == query[a..c]
  {
  }

  lemma {:induction false} Regroup(out: string, a: string, b: string, r: string)
    ensures out + a + (b + r) == out + (a + b) + r
  {
  }

  lemma {:induction false} PlaceOf(query: string, toks: seq<Token>, sig: seq<nat>, s: Script, j: nat)
    requires Layout(query, toks, sig, s) && j < |sig|
    ensures |sig| == |s.pieces| && sig[j] < |toks|
    ensures toks[sig[j]].start == Offset(s.pieces, j) + |Join(s.pieces[j].gap)|
    ensures toks[sig[j]].end == Offset(s.pieces, j + 1)
  {
    hide View, Offset, Join;
  }

  /** What is left when there is no piece left. */
  lemma {:induction false} End(query: string, s: Script, c: Context)
    requires query == Join(Ungroup(s)) && WellFormed(s.pieces)
    ensures var n := |s.pieces|;
            && Offset(s.pieces, n) <= |query|
            && Join(Ungroup(Walk(c, Script(s.pieces[n..], s.tail)))) == query[Offset(s.pieces, n)..]
  {
    hide Flatten, Join, Offset, Decide;
    var n := |s.pieces|;
    TextFrom(s.pieces, s.tail, query, n);
    assert s.pieces[n..] == [];
  }

  /** What the walk makes of the text from the gap of piece `k` on. */
  ghost function Rest(s: Script, k: nat, c: Context): string
    requires WellFormed(s.pieces) && k <= |s.pieces|
  {
    Join(Ungroup(Walk(c, Script(s.pieces[k..], s.tail))))
  }

  /** `out` is what has been written, the text before `last` has been dealt with, and the walk is at
      piece `k`. */
  ghost predicate Progress(query: string, s: Script, out: string, last: nat, k: nat, c: Context) {
    && WellFormed(s.pieces) && query == Join(Ungroup(s)) && k <= |s.pieces|
    && last <= Offset(s.pieces, k) <= |query| && Agrees(c, Toks(s.pieces), k)
    && out + query[last..Offset(s.pieces, k)] + Rest(s, k, c) == Rest(s, 0, START)
  }

  lemma {:induction false} KeepProgress(query: string, s: Script, out: string, last: nat, k: nat, c: Context)
    requires Progress(query, s, out, last, k, c) && k < |s.pieces|
    requires Decide(After(START, Toks(s.pieces)[..k]), Toks(s.pieces)[k..]) == Keep
    ensures Progress(query, s, out, last, k + 1, Next(c, s.pieces[k].tok))
  {
    hide Flatten, Join, Decide, Next, After, Offset, Walk, Ungroup;
    var ps, ts := s.pieces, Toks(s.pieces);
    DecideAgrees(c, ts, k);
    ToksFrom(ps, k);
    KeepText(query, s, k, c);
    AgreesKeep(c, ts, k);
    Longer(query, last, Offset(ps, k), Offset(ps, k + 1));
    Regroup(out, query[last..Offset(ps, k)], query[Offset(ps, k)..Offset(ps, k + 1)], Rest(s, k + 1, Next(c, ps[k].tok)));
  }

  lemma {:induction false} EditProgress(query: string, s: Script, out: string, last: nat, k: nat, c: Context, e: Step)
    requires Progress(query, s, out, last, k, c) && k < |s.pieces|
    requires Decide(After(START, Toks(s.pieces)[..k]), Toks(s.pieces)[k..]) == e && e.Edit?
    ensures var ps := s.pieces; var start := Offset(ps, k + e.from) + |Join(ps[k + e.from].gap)|;
            && last <= start <= |query|
            && var now := out + query[last..start] + e.repl.text;
               if e.toEnd then now == Rest(s, 0, START)
               else Progress(query, s, now, Offset(ps, k + e.to), k + e.to, After(c, Toks(ps)[k..k + e.from] + [e.repl]))
  {
    hide Flatten, Join, Decide, Next, After, Offset, Walk, Ungroup, Agrees;
    var ps, ts := s.pieces, Toks(s.pieces);
    DecideAgrees(c, ts, k);
    ToksFrom(ps, k);
    EditText(query, s, k, c, e);
    AgreesEdit(c, ts, k, e);
    var start := Offset(ps, k + e.from) + |Join(ps[k + e.from].gap)|;
    Longer(query, last, Offset(ps, k), start);
    var r := if e.toEnd then "" else Rest(s, k + e.to, After(c, ts[k..k + e.from] + [e.repl]));
    Regroup(out, query[last..Offset(ps, k)], query[Offset(ps, k)..start], e.repl.text + r);
    Joined(out, query[last..start], e.repl.text, r);
    TextFromOffset(query, s, k + e.to);
  }

  lemma {:induction false} Joined(out: string, a: string, b: string, r: string)
    ensures out + a + (b + r) == (out + a + b) + "" + r && b + "" == b
  {
  }

  lemma {:induction false} TextFromOffset(query: string, s: Script, k: nat)
    requires k <= |s.pieces| && query == Join(Ungroup(s))
    ensures Offset(s.pieces, k) <= |query| && query[Offset(s.pieces, k)..Offset(s.pieces, k)] == ""
  {
    hide Flatten, Join, Offset;
    TextFrom(s.pieces, s.tail, query, k);
  }

  lemma {:induction false} BeginProgress(query: string)
    ensures Progress(query, Statement(query), "", 0, 0, START) && Rest(Statement(query), 0, START) == Rewritten(query)
  {
    hide Statement, Offset, Join, Flatten, Ungroup, Walk, Agrees;
    Begin(query);
    var r := Rest(Statement(query), 0, START);
    assert "" + "" + r == r;
  }

  lemma {:induction false} EndProgress(query: string, s: Script, out: string, last: nat, c: Context)
    requires Progress(query, s, out, last, |s.pieces|, c)
    ensures last <= |query| && out + query[last..] == Rest(s, 0, START)
  {
    hide Offset, Join, Flatten, Ungroup, Walk, Agrees;
    End(query, s, c);
    var n := Offset(s.pieces, |s.pieces|);
    Longer(query, last, n, |query|);
    assert out + query[last..n] + query[n..] == out + (query[last..n] + query[n..]);
  }

  /** Redacts a statement in one pass over its significant tokens. */
  method Redact(query: string) returns (out: string)
    ensures out == SqlRedact.RedactQuery(query)
  {
    hide MightContainSecret, Lex, Join, Decide, Next, After, Offset, Statement, Rewritten, Rest, Progress, LooksBack, PlaceAll, SignificantOnes, Layout;
    var might := MightContain(query);
    if !might {
      return query;
    }
    var toks := LexAll(query);
    var sig := Significant(toks);
    ghost var s, c := Statement(query), START;
    ghost var ts := Toks(s.pieces);
    LayoutOf(query, toks, sig);
    BeginProgress(query);
    LayoutLength(query, toks, sig, s);
    var last: nat, k: nat := 0, 0;
    out := "";
    while k < |sig|
      invariant 0 <= k <= |sig| == |s.pieces|
      invariant Progress(query, s, out, last, k, c)
      decreases |sig| - k
    {
      ContextLooksBack(ts, k);
      var step := DecideAt(query, toks, sig, k, s, After(START, ts[..k]));
      if step == Keep {
        KeepProgress(query, s, out, last, k, c);
        c := Next(c, ts[k]);
        k := k + 1;
      } else {
        EditProgress(query, s, out, last, k, c, step);
        PlaceOf(query, toks, sig, s, k + step.from);
        PlaceOf(query, toks, sig, s, k + step.to - 1);
        var start := toks[sig[k + step.from]].start;
        out := out + query[last..start] + step.repl.text;
        if step.toEnd {
          return;
        }
        last := toks[sig[k + step.to - 1]].end;
        c := After(c, ts[k..k + step.from] + [step.repl]);
        k := k + step.to;
      }
    }
    EndProgress(query, s, out, last, c);
    out := out + query[last..];
  }

  lemma {:induction false} LayoutLength(query: string, toks: seq<Token>, sig: seq<nat>, s: Script)
    requires Layout(query, toks, sig, s)
    ensures |sig| == |s.pieces|
  {
  }
}
