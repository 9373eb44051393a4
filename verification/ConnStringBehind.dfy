/**
 What stands behind the first quote of a nested connection string that is put back: three readings that tell
 whether the string is broken there.
 */
module ConnStringBehind {
  import opened Text
  import opened ConnString
  import opened ConnStringLaws
  import opened ConnStringEscape
  import opened ConnStringKept
  import opened ConnStringGrowth
  import opened ConnStringClean
  import opened ConnStringRedaction
  import opened ConnStringSplit

  /** What can be seen of a value behind its first quote. */
  function BehindQuote(v: string): string
    requires '\'' in JoinStars(Kept(v))
  {
    var red := JoinStars(Kept(v));
    QuoteIn(red);
    red[Run(NotQuote, red) + 1..]
  }

  lemma {:induction false} QuoteIn(red: string)
    requires '\'' in red
    ensures Run(NotQuote, red) < |red|
  {
    hide Run;
  }

  /** What can be seen of it before. */
  function BeforeQuote(v: string): string {
    var red := JoinStars(Kept(v));
    red[..Run(NotQuote, red)]
  }

  predicate ShowsBefore(v: string) { LooksLikeConnString(BeforeQuote(v)) && !Clean(BeforeQuote(v)) }

  lemma {:induction false} BrokenIs(ps: seq<Param>, trail: string)
    requires ps != [] && '\'' in JoinStars(Kept(ps[0].value))
    ensures Broken(ps, trail) <==>
            ShowsBefore(ps[0].value) ||
            !CleanKeywords("'" + EscapeValue(BehindQuote(ps[0].value)) + "'" + JoinStars(KeptParams(ps[1..], trail)))
  {
    hide Clean, CleanKeywords, LooksLikeConnString, EscapeValue, Run, Kept, KeptParams, JoinStars;
    QuoteIn(JoinStars(Kept(ps[0].value)));
  }

  lemma {:induction false} NotClean(s: string)
    requires ParseOne(s) == Bad
    ensures !CleanKeywords(s)
  {
    hide ParseOne;
  }

  /** The value is followed by whitespace or the end. */
  predicate Separate(ps: seq<Param>) { |ps| > 1 ==> ps[1].lead != "" }

  /** What follows, once it is redacted. */
  lemma {:induction false} Following(ps: seq<Param>, trail: string, n: nat) returns (y: string)
    requires ps != [] && AllCut(ps, trail) && All(IsConnSpace, trail) && Separate(ps) && forall i :: 0 <= i < |ps| ==> |ps[i].value| < n
    ensures y == JoinStars(KeptParams(ps[1..], trail)) == Unparse(MaskAll(ps[1..])) + trail
    ensures y == "" || IsConnSpace(y[0])
    ensures |ps| == 1 ==> y == trail
    ensures |ps| > 1 ==> y == ps[1].Head() + (NewRaw(ps[1]) + (Render(ps[2..]) + trail))
  {
    hide JoinStars, KeptParams, AllCut, NewRaw, Param.Head, Unparse, MaskAll;
    y := JoinStars(KeptParams(ps[1..], trail));
    assert forall i :: 0 <= i < |ps[1..]| ==> ps[1..][i] == ps[i + 1];
    ParamsKept(ps[1..], trail, n);
    RenderMasked(ps[1..]);
    FirstCut(ps, trail);
    if |ps| > 1 {
      MaskedStart(ps[1..], trail);
      UnparseStart(ps[1..], trail);
      Pieces(ps[1].Head(), NewRaw(ps[1]), Render(ps[2..]), trail);
      assert ps[1..][1..] == ps[2..];
    } else {
      assert Render(ps[1..]) == "" && "" + trail == trail;
    }
  }

  // Two words

  /** Two words behind the quote break the string. */
  lemma {:induction false} SplitBreaks(ps: seq<Param>, trail: string)
    requires ps != [] && Splits(JoinStars(Kept(ps[0].value)))
    ensures Broken(ps, trail)
  {
    hide EscapeValue, ParseOne, Kept, KeptParams, JoinStars, Clean, LooksLikeConnString, CleanKeywords, Run;
    var red, y := JoinStars(Kept(ps[0].value)), JoinStars(KeptParams(ps[1..], trail));
    SplitFails(red, y);
    Regrouped(EscapeValue(red[Run(NotQuote, red) + 1..]), y);
    NotClean("'" + EscapeValue(red[Run(NotQuote, red) + 1..]) + "'" + y);
  }

  // One word

  lemma {:induction false} KeyEnds(key: string, gap: string)
    requires key != "" && All(IsKeyChar, key) && All(IsConnSpace, gap)
    ensures ParseOne(key + gap) == Bad
  {
    hide Run, TakeRun, DropRun, ScanValue;
    var s := key + gap;
    assert s[0] == key[0] && "" + s == s && gap + "" == gap;
    CutRun(IsConnSpace, "", s);
    CutRun(IsKeyChar, key, gap);
    CutRun(IsConnSpace, gap, "");
  }

  /** One word behind the quote breaks the string, unless it is glued to what follows or that has no key. */
  lemma {:induction false} WordBreaks(ps: seq<Param>, trail: string, n: nat)
    requires ps != [] && AllCut(ps, trail) && All(IsConnSpace, trail) && Separate(ps) && forall i :: 0 <= i < |ps| ==> |ps[i].value| < n
    requires '\'' in JoinStars(Kept(ps[0].value)) && All(IsKeyChar, BehindQuote(ps[0].value)) && (|ps| > 1 ==> ps[1].key != "")
    ensures Broken(ps, trail)
  {
    hide EscapeValue, ParseOne, Kept, KeptParams, JoinStars, Clean, LooksLikeConnString, CleanKeywords, Run, AllCut, NewRaw, BehindQuote, ShowsBefore;
    BrokenIs(ps, trail);
    var y := Following(ps, trail, n);
    var w := BehindQuote(ps[0].value);
    var key := "'" + EscapeValue(w) + "'";
    EscapeKey(w);
    KeyQuoted(EscapeValue(w));
    if |ps| == 1 {
      KeyEnds(key, y);
    } else {
      var p, z := ps[1], NewRaw(ps[1]) + (Render(ps[2..]) + trail);
      NextIsCut(ps, trail);
      HeadKey(p, z);
      KeyFails(key, p.lead, p.key + (p.pre + ("=" + (p.post + z))));
    }
    NotClean(key + y);
  }

  lemma {:induction false} KeyQuoted(e: string)
    requires All(IsKeyChar, "'" + e)
    ensures All(IsKeyChar, "'" + e + "'") && "'" + e + "'" != ""
  {
    var s := "'" + e + "'";
    assert forall i :: 0 <= i < |s| - 1 ==> s[i] == ("'" + e)[i];
  }

  lemma {:induction false} NextIsCut(ps: seq<Param>, trail: string)
    requires |ps| > 1 && AllCut(ps, trail)
    ensures All(IsConnSpace, ps[1].lead) && All(IsKeyChar, ps[1].key)
  {
    hide ScanValue;
    FirstCut(ps, trail);
    FirstCut(ps[1..], trail);
  }

  lemma {:induction false} HeadKey(p: Param, z: string)
    ensures p.Head() + z == p.lead + (p.key + (p.pre + ("=" + (p.post + z))))
  {
  }

  // A word, '=' and a value

  /** A value without whitespace is read to its end. */
  lemma {:induction false} BareEscaped(v: string, y: string)
    requires (forall i :: 0 <= i < |v| ==> !IsConnSpace(v[i])) && (y == "" || IsConnSpace(y[0]))
    ensures BareValue(EscapeValue(v) + ("'" + y)).len == |EscapeValue(v)| + 1
    decreases |v|
  {
    hide EscapeValue, Double, BareValue;
    if v == "" {
      EscapeNone();
      BareQuote(y);
      assert EscapeValue(v) + ("'" + y) == "'" + y;
    } else {
      var e, d := EscapeValue([v[0]]), EscapeValue(v[1..]);
      EscapeAppend([v[0]], v[1..]);
      assert [v[0]] + v[1..] == v;
      EscapeOne(v[0]);
      BareEscaped(v[1..], y);
      assert (e + d) + ("'" + y) == e + (d + ("'" + y));
      BareOne(v[0], d + ("'" + y));
    }
  }

  lemma {:induction false} BareQuote(y: string)
    requires y == "" || IsConnSpace(y[0])
    ensures BareValue("'" + y).len == 1
  {
    assert ("'" + y)[1..] == y;
    assert BareValue(y).len == 0;
  }

  lemma {:induction false} EscapeNone()
    ensures EscapeValue("") == ""
  {
  }

  lemma {:induction false} EscapeOne(c: char)
    ensures EscapeValue([c]) == if c == '\\' then "\\\\" else if c == '\'' then "''" else [c]
  {
    DoubleNone([c], if c == '\\' then '\'' else '\\');
    if c == '\\' {
      DoubleOne(c);
      DoubleNone("\\\\", '\'');
    } else if c == '\'' {
      DoubleOne(c);
    } else {
      DoubleNone([c], '\'');
    }
  }

  lemma {:induction false} BareOne(c: char, z: string)
    requires !IsConnSpace(c)
    ensures var e := if c == '\\' then "\\\\" else if c == '\'' then "''" else [c]; BareValue(e + z).len == |e| + BareValue(z).len
  {
    var e := if c == '\\' then "\\\\" else if c == '\'' then "''" else [c];
    assert (e + z)[|e|..] == z;
    assert |e| == 2 ==> (e + z)[1..] == [e[1]] + z && ([e[1]] + z)[1..] == z;
  }

  /** The parameter that is read behind the quote. */
  lemma {:induction false} PairRead(w: string, v: string, y: string) returns (q: Param)
    requires All(IsKeyChar, w) && v != "" && v[0] != '\'' && (forall i :: 0 <= i < |v| ==> !IsConnSpace(v[i])) && (y == "" || IsConnSpace(y[0]))
    ensures ParseOne("'" + EscapeValue(w + "=" + v) + "'" + y) == Got(q, y) && q.key == "'" + EscapeValue(w)
  {
    hide EscapeValue, ParseOne, BareValue, Param.Text;
    var raw := EscapeValue(v) + "'";
    assert raw + y == EscapeValue(v) + ("'" + y);
    BareEscaped(v, y);
    EscapeStart(v);
    EscapeKey(w);
    q := Param("", "'" + EscapeValue(w), "", "", raw, BareValue(raw + y).decoded);
    assert (raw + y)[0] == v[0];
    ParseOneIs(q, y);
    EscapeAppend(w + "=", v);
    EscapeAppend(w, "=");
    EscapeEquals();
    PairText(q, EscapeValue(w), EscapeValue(v), y);
  }

  lemma {:induction false} EscapeEquals()
    ensures EscapeValue("=") == "="
  {
    DoubleNone("=", '\\');
    DoubleNone("=", '\'');
  }

  lemma {:induction false} PairText(q: Param, w: string, v: string, y: string)
    requires q.lead == "" && q.key == "'" + w && q.pre == "" && q.post == "" && q.raw == v + "'"
    ensures q.Text() + y == "'" + (w + "=" + v) + "'" + y
  {
  }

  lemma {:induction false} QuoteKeyClean(q: Param)
    requires q.key != "" && q.key[0] == '\''
    ensures CleanParam(q)
  {
    hide Clean, LooksLikeConnString;
    assert Lower(q.key)[0] == '\'' && Lower("dbname")[0] == 'd';
  }

  lemma {:induction false} PairClean(w: string, v: string, y: string)
    requires All(IsKeyChar, w) && v != "" && v[0] != '\'' && (forall i :: 0 <= i < |v| ==> !IsConnSpace(v[i])) && (y == "" || IsConnSpace(y[0]))
    ensures CleanKeywords("'" + EscapeValue(w + "=" + v) + "'" + y) <==> CleanKeywords(y)
  {
    hide EscapeValue, ParseOne, CleanKeywords, CleanParam;
    var q := PairRead(w, v, y);
    CleanFirst("'" + EscapeValue(w + "=" + v) + "'" + y, q, y);
    QuoteKeyClean(q);
  }

  /** A word, '=' and a value without whitespace behind the quote are harmless: the string is broken if and only if
      the part before the quote shows a password, or what follows the value moves. */
  lemma {:induction false} PairHarmless(ps: seq<Param>, trail: string, n: nat, w: string, v: string)
    requires ps != [] && AllCut(ps, trail) && All(IsConnSpace, trail) && Separate(ps) && forall i :: 0 <= i < |ps| ==> |ps[i].value| < n
    requires '\'' in JoinStars(Kept(ps[0].value)) && BehindQuote(ps[0].value) == w + "=" + v
    requires All(IsKeyChar, w) && v != "" && v[0] != '\'' && forall i :: 0 <= i < |v| ==> !IsConnSpace(v[i])
    ensures Broken(ps, trail) <==> ShowsBefore(ps[0].value) || Moves(ps[1..], trail)
  {
    hide EscapeValue, Kept, KeptParams, JoinStars, CleanKeywords, Run, AllCut, NewRaw, BehindQuote, ShowsBefore, Moves, Unparse, MaskAll, Broken;
    BrokenIs(ps, trail);
    var y := Following(ps, trail, n);
    PairClean(w, v, y);
    FirstCut(ps, trail);
    assert forall i :: 0 <= i < |ps[1..]| ==> ps[1..][i] == ps[i + 1];
    MovesExactly(ps[1..], trail, n);
  }
}
