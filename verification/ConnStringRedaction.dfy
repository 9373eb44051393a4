/**
 Redacting a keyword string: what the redacted string tokenizes to, and exactly when redacting it
 again changes nothing.
 */
module ConnStringRedaction {
  import opened Text
  import opened ConnString
  import opened ConnStringLaws
  import opened ConnStringEscape
  import opened ConnStringUri
  import opened ConnStringGrowth
  import opened ConnStringKept
  import opened ConnStringClean

  // The redacted parameters

  /** The parameter with a password value replaced, or a nested connection string redacted. */
  function Mask(p: Param): Param {
    if IsPasswordKey(p.key) then p.(raw := STARS, value := STARS)
    else if IsRewritten(p) then p.(raw := Requoted(p.value), value := RedactPasswords(p.value))
    else p
  }

  function MaskAll(ps: seq<Param>): (qs: seq<Param>)
    ensures |qs| == |ps| && forall i :: 0 <= i < |ps| ==> qs[i] == Mask(ps[i])
  {
    seq(|ps|, i requires 0 <= i < |ps| => Mask(ps[i]))
  }

  lemma {:induction false} MaskRaw(p: Param)
    ensures NewRaw(p) == Mask(p).raw && Mask(p).Head() == p.Head()
  {
    hide RedactPasswords, EscapeValue;
  }

  /** What is put back for a nested connection string reads back: there is no single quote in it. */
  predicate Reads(p: Param) { IsRewritten(p) ==> '\'' !in RedactPasswords(p.value) }

  predicate AllRead(ps: seq<Param>) { forall i :: 0 <= i < |ps| ==> Reads(ps[i]) }

  lemma {:induction false} RenderMasked(ps: seq<Param>)
    ensures Render(ps) == Unparse(MaskAll(ps))
    decreases |ps|
  {
    hide NewRaw, Mask, Param.Head;
    if ps != [] {
      assert MaskAll(ps)[1..] == MaskAll(ps[1..]);
      MaskRaw(ps[0]);
      RenderMasked(ps[1..]);
    }
  }

  /** Masked parameters start, and go on, where the original ones did. */
  lemma {:induction false} MaskedStart(ps: seq<Param>, trail: string)
    requires AllCut(ps, trail)
    ensures var r, r' := Unparse(ps) + trail, Unparse(MaskAll(ps)) + trail;
            (r == "" <==> r' == "") && (r != "" ==> r[0] == r'[0])
  {
    hide AllCut, Unparse, Render;
    SameStart(ps, trail);
    RenderMasked(ps);
  }

  /** The first password touches the next key, as only a quoted one can. */
  predicate GluedHere(ps: seq<Param>) { |ps| >= 2 && IsPasswordKey(ps[0].key) && ps[1].lead == "" }

  /** What follows a value: whitespace or the end, unless it is quoted and not a loose password. */
  lemma {:induction false} BareFollow(ps: seq<Param>, trail: string)
    requires ps != [] && AllCut(ps, trail) && All(IsConnSpace, trail) && !GluedHere(ps)
    ensures var r := Unparse(ps[1..]) + trail;
            r == "" || IsConnSpace(r[0]) || (IsQuoted(ps[0].raw) && !IsPasswordKey(ps[0].key))
  {
    hide IsPasswordKey, QuotedValue, BareValue;
    var p, r := ps[0], Unparse(ps[1..]) + trail;
    assert |ps| == 1 ==> r == trail;
    assert |ps| >= 2 && ps[1].lead != "" ==> r[0] == ps[1].lead[0];
    if r != "" && !IsConnSpace(r[0]) {
      QuotedOrBlank(p.raw, p.value, r);
    }
  }

  /** A printed value without quotes is read back. */
  lemma {:induction false} RequotedScan(red: string, r: string)
    requires '\'' !in red
    ensures var raw := "'" + EscapeValue(red) + "'";
            ScanValue(raw + r) == Some(Value(|raw|, red)) && NoLeadingSpace(raw + r)
  {
    hide QuotedValue, Double, EscapeValue;
    var raw := "'" + EscapeValue(red) + "'";
    EscapePlain(red);
    QuotedDoubled(red, r);
    assert (raw + r)[0] == '\'' && (raw + r)[1..] == EscapeValue(red) + ("'" + r);
  }

  /** The first masked parameter is well cut in front of the others, unless it is glued to them. */
  lemma {:induction false} MaskedFirst(ps: seq<Param>, trail: string)
    requires ps != [] && AllCut(ps, trail) && All(IsConnSpace, trail) && !GluedHere(ps) && Reads(ps[0])
    ensures WellCut(Mask(ps[0]), Unparse(MaskAll(ps[1..])) + trail)
  {
    hide ScanValue, IsPasswordKey, IsRewritten, RedactPasswords, EscapeValue, Unparse, MaskAll, Param.Text;
    var p := ps[0];
    var r, r' := Unparse(ps[1..]) + trail, Unparse(MaskAll(ps[1..])) + trail;
    MaskedStart(ps[1..], trail);
    BareFollow(ps, trail);
    if IsPasswordKey(p.key) {
      StarsScan(r');
    } else if IsRewritten(p) {
      RequotedScan(RedactPasswords(p.value), r');
    } else {
      ScanSwap(p.raw, p.value, r, r');
    }
  }

  // The redacted string

  /** Redaction of a string taken to be a keyword string. */
  function RedactKeywords(s: string): string {
    match Parse(s)
    case Malformed => STARS
    case Pairs(ps, trail) => Render(ps) + trail
  }

  // When redacting again changes something

  /** Of a nested connection string that was put back with a single quote in it, only what is in front of
      that quote is read as its value, and the rest of it as further parameters. A password can be seen in
      one or the other, or the rest is malformed. */
  predicate Broken(ps: seq<Param>, trail: string)
    requires ps != []
  {
    var red := JoinStars(Kept(ps[0].value));
    var k := Run(NotQuote, red);
    k < |red| &&
    (|| (LooksLikeConnString(red[..k]) && !Clean(red[..k]))
     || !CleanKeywords("'" + EscapeValue(red[k + 1..]) + "'" + JoinStars(KeptParams(ps[1..], trail))))
  }

  /** Some password is glued to the next key, some nested connection string is unsettled, or the first one
      that does not read back is broken. */
  predicate Moves(ps: seq<Param>, trail: string)
    decreases MaxValue(ps), 1, |ps|
  {
    ps != [] &&
    (|| GluedHere(ps)
     || if Reads(ps[0]) then (IsRewritten(ps[0]) && Unsettled(ps[0].value)) || Moves(ps[1..], trail)
        else Broken(ps, trail))
  }

  /** The cases in which redacting a redacted string changes it again. */
  predicate Unsettled(s: string)
    decreases |s|, 2, 0
  {
    if HasUriPrefix(s) then Uncovers(s[UriPrefixLen(s)..])
    else match Parse(s)
      case Malformed => false
      case Pairs(ps, trail) => Moves(ps, trail)
  }

  // A glued password

  lemma {:induction false} HeadStart(p: Param, rest: string)
    requires WellCut(p, rest)
    ensures p.Head() != "" && (IsConnSpace(p.Head()[0]) <==> p.lead != "")
  {
    hide ScanValue;
    assert p.Head()[0] == if p.lead != "" then p.lead[0] else if p.key != "" then p.key[0] else '=';
  }

  /** A list of parameters starts with whitespace exactly when its first one does. */
  lemma {:induction false} UnparseStart(ps: seq<Param>, trail: string)
    requires ps != [] && AllCut(ps, trail)
    ensures var r := Unparse(ps) + trail; r != "" && (IsConnSpace(r[0]) <==> ps[0].lead != "")
  {
    hide WellCut, Param.Head;
    HeadStart(ps[0], Unparse(ps[1..]) + trail);
    assert (Unparse(ps) + trail)[0] == ps[0].Head()[0];
  }

  lemma {:induction false} StarsThen(r: string)
    requires r != "" && !IsConnSpace(r[0])
    ensures var v := BareValue(r);
            v.len >= 1 && ScanValue(STARS + r) == Some(Value(|STARS| + v.len, STARS + v.decoded))
  {
    hide BareValue;
    BareStart(r);
    BarePrefix(STARS, r);
    assert (STARS + r)[0] == '*';
  }

  /** The parameter read where a masked password is followed by a key. */
  lemma {:induction false} Swallow(p: Param, r: string, out1: string) returns (q: Param, rest: string)
    requires WellCut(p, r) && IsPasswordKey(p.key) && out1 != "" && !IsConnSpace(out1[0])
    ensures q.key == p.key && ParseOne(q.Text() + rest) == Got(q, rest)
    ensures q.raw + rest == STARS + out1 && (rest == "" || IsConnSpace(rest[0]))
    ensures Mask(p).Text() + out1 == q.Text() + rest
  {
    hide ScanValue, ParseOne, BareValue, IsPasswordKey, Param.Text;
    StarsThen(out1);
    var v := BareValue(out1);
    q := p.(raw := STARS + out1[..v.len], value := STARS + v.decoded);
    rest := out1[v.len..];
    Regroup(STARS, out1, v.len);
    assert (STARS + out1)[0] == '*';
    ParseOneIs(q, rest);
    HeadsAgree(p, q, out1, rest);
  }

  lemma {:induction false} Regroup(a: string, b: string, k: nat)
    requires k <= |b|
    ensures (a + b[..k]) + b[k..] == a + b
  {
  }

  lemma {:induction false} HeadsAgree(p: Param, q: Param, out1: string, rest: string)
    requires q.Head() == p.Head() && IsPasswordKey(p.key) && q.raw + rest == STARS + out1
    ensures Mask(p).Text() + out1 == q.Text() + rest
  {
    assert Mask(p).Head() == p.Head();
    hide Param.Head;
    Associate(p.Head(), STARS, out1);
    Associate(q.Head(), q.raw, rest);
  }

  /** When the first password touches the next key, that key is read as part of it. */
  lemma {:induction false} GluedFirst(ps: seq<Param>, trail: string)
    requires AllCut(ps, trail) && GluedHere(ps)
    ensures !CleanKeywords(Unparse(MaskAll(ps)) + trail)
  {
    hide WellCut, Param.Text, IsPasswordKey, CleanKeywords, Unparse, Mask, MaskAll, ParseOne;
    var out1 := Unparse(MaskAll(ps[1..])) + trail;
    MaskedStart(ps[1..], trail);
    UnparseStart(ps[1..], trail);
    var q, rest := Swallow(ps[0], Unparse(ps[1..]) + trail, out1);
    MaskedCons(ps, trail);
    CleanFirst(q.Text() + rest, q, rest);
    if q.raw == STARS {
      Cancel(STARS, rest, out1);
    }
  }

  /** A keyword string is clean if and only if its first parameter and the rest are. */
  lemma {:induction false} CleanFirst(s: string, q: Param, rest: string)
    requires ParseOne(s) == Got(q, rest)
    ensures CleanKeywords(s) <==> CleanParam(q) && CleanKeywords(rest)
  {
    hide ParseOne, CleanParam;
    if Parse(rest).Pairs? {
      var qs := Parse(rest).params;
      assert ([q] + qs)[1..] == qs;
    }
  }

  lemma {:induction false} MaskedCons(ps: seq<Param>, trail: string)
    requires ps != []
    ensures Unparse(MaskAll(ps)) + trail == Mask(ps[0]).Text() + (Unparse(MaskAll(ps[1..])) + trail)
  {
    hide Param.Text, Mask;
    assert MaskAll(ps)[1..] == MaskAll(ps[1..]);
  }

  // A nested connection string with a quote

  /** The value that is put back ends at its first quote. */
  lemma {:induction false} QuoteFirst(p: Param, red: string, rest: string)
    requires All(IsConnSpace, p.lead) && All(IsKeyChar, p.key) && All(IsConnSpace, p.pre) && All(IsConnSpace, p.post)
    requires (p.key == "" ==> p.pre == "") && '\'' in red
    ensures var k := Run(NotQuote, red);
            k < |red| && ParseOne(p.Head() + ("'" + EscapeValue(red) + "'") + rest) ==
              Got(p.(raw := "'" + Double(red[..k], '\\') + "'", value := red[..k]), "'" + EscapeValue(red[k + 1..]) + "'" + rest)
  {
    hide EscapeValue, ParseOne, Run, Param.Head, Double, NotQuote;
    var k := FirstAt(red);
    var a, r := red[..k], red[k + 1..];
    QuoteSplit(red, k);
    EscapeSplit(a, r);
    Assembled(p.Head(), Double(a, '\\'), EscapeValue(r), rest);
    CutShort(p, a, "'" + EscapeValue(r) + "'" + rest);
  }

  lemma {:induction false} FirstAt(red: string) returns (k: nat)
    requires '\'' in red
    ensures k == Run(NotQuote, red) < |red|
  {
    hide Run;
    k := Run(NotQuote, red);
  }

  lemma {:induction false} QuoteSplit(red: string, k: nat)
    requires k == Run(NotQuote, red) < |red|
    ensures red == red[..k] + "'" + red[k + 1..] && '\'' !in red[..k]
  {
    hide Run;
    assert red[k] == '\'';
  }

  /** A value printed up to its first quote. */
  lemma {:induction false} CutShort(p: Param, a: string, more: string)
    requires All(IsConnSpace, p.lead) && All(IsKeyChar, p.key) && All(IsConnSpace, p.pre) && All(IsConnSpace, p.post)
    requires (p.key == "" ==> p.pre == "") && '\'' !in a
    ensures var q := p.(raw := "'" + Double(a, '\\') + "'", value := a);
            ParseOne(p.Head() + q.raw + more) == Got(q, more)
  {
    hide QuotedValue, ParseOne, Double, Param.Head;
    var q := p.(raw := "'" + Double(a, '\\') + "'", value := a);
    QuotedDoubled(a, more);
    assert (q.raw + more)[0] == '\'' && (q.raw + more)[1..] == Double(a, '\\') + ("'" + more);
    ParseOneIs(q, more);
    HeadSame(p, q);
  }

  lemma {:induction false} HeadSame(p: Param, q: Param)
    requires q == p.(raw := q.raw, value := q.value)
    ensures q.Head() == p.Head() && q.Text() == p.Head() + q.raw
  {
  }

  lemma {:induction false} Assembled(h: string, d: string, e: string, rest: string)
    ensures h + ("'" + (d + ("''" + e)) + "'") + rest == h + ("'" + d + "'") + ("'" + e + "'" + rest)
  {
    assert "'" + (d + ("''" + e)) + "'" == ("'" + d + "'") + ("'" + e + "'");
    Associate(h, "'" + d + "'", "'" + e + "'");
    Associate(h + ("'" + d + "'"), "'" + e + "'", rest);
  }

  lemma {:induction false} EscapeSplit(a: string, r: string)
    requires '\'' !in a
    ensures EscapeValue(a + "'" + r) == Double(a, '\\') + ("''" + EscapeValue(r))
  {
    hide Double;
    DoubleAppend(a + "'", r, '\\');
    DoubleAppend(a, "'", '\\');
    DoubleNone("'", '\\');
    var x, y := Double(a, '\\'), Double(r, '\\');
    DoubleAppend(x + "'", y, '\'');
    DoubleAppend(x, "'", '\'');
    DoubleKeeps(a, '\\', '\'');
    DoubleNone(x, '\'');
    DoubleOne('\'');
    Associate(x, "''", Double(y, '\''));
  }

  lemma {:induction false} BrokenExactly(ps: seq<Param>, trail: string, n: nat)
    requires ps != [] && AllCut(ps, trail) && !Reads(ps[0]) && forall i :: 0 <= i < |ps| ==> |ps[i].value| < n
    ensures CleanKeywords(Mask(ps[0]).Text() + (Unparse(MaskAll(ps[1..])) + trail)) <==> !Broken(ps, trail)
  {
    hide ScanValue, ParseOne, Param.Head, Unparse, MaskAll, Kept, KeptParams, JoinStars, Double, RedactPasswords, EscapeValue, Clean, CleanKeywords,
         IsPasswordKey, LooksLikeConnString, Run, AllCut;
    var p, red := ps[0], RedactPasswords(ps[0].value);
    FirstCut(ps, trail);
    NotBoth(p);
    HeadSame(p, Mask(p));
    KeptRedacts(p.value);
    RenderMasked(ps[1..]);
    assert forall i :: 0 <= i < |ps[1..]| ==> ps[1..][i] == ps[i + 1];
    ParamsKept(ps[1..], trail, n);
    var rest := Unparse(MaskAll(ps[1..])) + trail;
    QuoteFirst(p, red, rest);
    var k := Run(NotQuote, red);
    CleanFirst(p.Head() + ("'" + EscapeValue(red) + "'") + rest,
               p.(raw := "'" + Double(red[..k], '\\') + "'", value := red[..k]), "'" + EscapeValue(red[k + 1..]) + "'" + rest);
  }

  lemma {:induction false} NotBoth(p: Param)
    requires IsRewritten(p)
    ensures !IsPasswordKey(p.key)
  {
    hide IsPasswordKey, RedactPasswords;
  }

  // The tokens of a redacted string

  predicate NoneGlued(ps: seq<Param>)
    decreases |ps|
  {
    ps == [] || (!GluedHere(ps) && NoneGlued(ps[1..]))
  }

  lemma {:induction false} GluedNotCut(ps: seq<Param>, trail: string)
    requires AllCut(ps, trail) && GluedHere(ps)
    ensures !WellCut(Mask(ps[0]), Unparse(MaskAll(ps[1..])) + trail)
  {
    hide ScanValue, BareValue, IsPasswordKey, Unparse, MaskAll, STARS;
    MaskedStart(ps[1..], trail);
    UnparseStart(ps[1..], trail);
    StarsThen(Unparse(MaskAll(ps[1..])) + trail);
  }

  lemma {:induction false} QuoteNotCut(p: Param, r: string)
    requires !Reads(p)
    ensures !WellCut(Mask(p), r)
  {
    hide ScanValue, ParseOne, Param.Head, Double, RedactPasswords, EscapeValue, IsPasswordKey, Run;
    NotBoth(p);
    if WellCut(Mask(p), r) {
      QuoteFirst(p, RedactPasswords(p.value), r);
      HeadSame(p, Mask(p));
      ParseOneIs(Mask(p), r);
    }
  }

  /** The masked parameters are well cut if and only if no password is glued to the next key and what is put
      back for nested connection strings holds no quote. */
  lemma {:induction false} MaskedCut(ps: seq<Param>, trail: string)
    requires AllCut(ps, trail) && All(IsConnSpace, trail)
    ensures AllCut(MaskAll(ps), trail) <==> NoneGlued(ps) && AllRead(ps)
    decreases |ps|
  {
    hide WellCut, Reads, Mask, GluedHere;
    if ps != [] {
      MaskedCut(ps[1..], trail);
      assert MaskAll(ps)[1..] == MaskAll(ps[1..]);
      assert AllRead(ps) <==> Reads(ps[0]) && AllRead(ps[1..]) by {
        assert forall i :: 0 <= i < |ps| ==> ps[i] == if i == 0 then ps[0] else ps[1..][i - 1];
        assert forall i :: 0 <= i < |ps[1..]| ==> ps[1..][i] == ps[i + 1];
      }
      if GluedHere(ps) {
        GluedNotCut(ps, trail);
      } else if Reads(ps[0]) {
        MaskedFirst(ps, trail);
      } else {
        QuoteNotCut(ps[0], Unparse(MaskAll(ps[1..])) + trail);
      }
    }
  }

  /** In exactly these cases a redacted string tokenizes to the same keys and values, except that each
      password is the placeholder and each nested connection string is redacted. */
  lemma {:induction false} RedactedTokens(s: string)
    requires Parse(s).Pairs?
    ensures Parse(RedactKeywords(s)) == Pairs(MaskAll(Parse(s).params), Parse(s).trail) <==>
            NoneGlued(Parse(s).params) && AllRead(Parse(s).params)
  {
    hide AllCut, NoneGlued, AllRead, Unparse, MaskAll;
    ParseCut(s);
    var ps, trail := Parse(s).params, Parse(s).trail;
    RenderMasked(ps);
    MaskedCut(ps, trail);
    if AllCut(MaskAll(ps), trail) {
      ParseIs(MaskAll(ps), trail);
    }
    if Parse(RedactKeywords(s)) == Pairs(MaskAll(ps), trail) {
      ParseCut(RedactKeywords(s));
    }
  }

  // Both directions

  /** A masked parameter is clean unless it is a nested connection string that is unsettled. */
  lemma {:induction false} MaskClean(p: Param, n: nat)
    requires |p.value| < n
    ensures CleanParam(Mask(p)) <==> !(IsRewritten(p) && Unsettled(p.value))
    decreases n, 0, 0
  {
    hide RedactPasswords, EscapeValue, IsPasswordKey, LooksLikeConnString, Unsettled, Clean;
    if IsRewritten(p) {
      var red := RedactPasswords(p.value);
      RedactIdempotent(p.value);
      FixedExactly(red);
      if RedactPasswords(red) != red {
        LooksStill(p.value);
      }
    } else {
      FixedExactly(p.value);
    }
  }

  lemma {:induction false} MovesExactly(ps: seq<Param>, trail: string, n: nat)
    requires AllCut(ps, trail) && All(IsConnSpace, trail) && forall i :: 0 <= i < |ps| ==> |ps[i].value| < n
    ensures CleanKeywords(Unparse(MaskAll(ps)) + trail) <==> !Moves(ps, trail)
    decreases n, 1, |ps|
  {
    hide WellCut, Param.Text, GluedHere, Reads, Mask, MaskAll, ParseOne, IsRewritten, Unsettled, CleanKeywords, CleanParam, Broken;
    if ps == [] {
      NothingClean(ps, trail);
    } else if GluedHere(ps) {
      GluedFirst(ps, trail);
    } else {
      var p, out1 := ps[0], Unparse(MaskAll(ps[1..])) + trail;
      MaskedCons(ps, trail);
      if Reads(p) {
        assert forall i :: 0 <= i < |ps[1..]| ==> ps[1..][i] == ps[i + 1];
        MovesExactly(ps[1..], trail, n);
        MaskedFirst(ps, trail);
        ParseOneIs(Mask(p), out1);
        CleanFirst(Mask(p).Text() + out1, Mask(p), out1);
        MaskClean(p, n);
      } else {
        BrokenExactly(ps, trail, n);
      }
    }
  }

  lemma {:induction false} NothingClean(ps: seq<Param>, trail: string)
    requires ps == [] && All(IsConnSpace, trail)
    ensures CleanKeywords(Unparse(MaskAll(ps)) + trail)
  {
    hide ParseOne;
    ParseSpaces(trail);
    assert Unparse(MaskAll(ps)) + trail == trail;
  }

  lemma {:induction false} LooksStill(v: string)
    requires LooksLikeConnString(v) && RedactPasswords(RedactPasswords(v)) != RedactPasswords(v)
    ensures LooksLikeConnString(RedactPasswords(v))
  {
    hide RedactUri, Parse, HasUriPrefix, NewRaw, Contains;
    if HasUriPrefix(v) {
      UriPrefixStays(v);
    } else if Parse(v).Malformed? {
      StarsMalformed();
    } else {
      ParseCut(v);
      var ps := Parse(v).params;
      if ps == [] {
        ContainsHead(v, "=");
      } else {
        EqualsIn(ps, Parse(v).trail);
      }
    }
  }

  lemma {:induction false} EqualsIn(ps: seq<Param>, trail: string)
    requires ps != []
    ensures Contains(Render(ps) + trail, "=") && Render(ps) + trail != STARS
  {
    hide NewRaw;
    var h := ps[0].lead + ps[0].key + ps[0].pre;
    var s := Render(ps) + trail;
    assert s[|h|] == '=';
    assert s[|h|..|h| + 1] == "=";
    assert At(s, "=", |h|);
    StarsAre();
  }

  /** Redaction leaves the text up to the first '=' alone, so it makes no URI of a keyword string. */
  lemma {:induction false} StaysKeywords(s: string)
    requires !HasUriPrefix(s) && Parse(s).Pairs?
    ensures !HasUriPrefix(RedactKeywords(s))
  {
    hide Parse, NewRaw, HasUriPrefix, Param.Head;
    ParseCut(s);
    var ps, trail := Parse(s).params, Parse(s).trail;
    if ps == [] {
      assert Render(ps) + trail == trail == Unparse(ps) + trail;
    } else {
      var p := ps[0];
      var a, b := p.raw + (Unparse(ps[1..]) + trail), NewRaw(p) + (Render(ps[1..]) + trail);
      Pieces(p.Head(), p.raw, Unparse(ps[1..]), trail);
      Pieces(p.Head(), NewRaw(p), Render(ps[1..]), trail);
      HeadSplit(p, a);
      HeadSplit(p, b);
      SamePrefixWord(p.lead + p.key + p.pre, p.post + a, p.post + b);
    }
  }

  lemma {:induction false} HeadSplit(p: Param, x: string)
    ensures p.Head() + x == (p.lead + p.key + p.pre) + ("=" + (p.post + x))
  {
  }

  lemma {:induction false} SamePrefixWord(h: string, a: string, b: string)
    ensures HasUriPrefix(h + ("=" + a)) <==> HasUriPrefix(h + ("=" + b))
  {
    var s, t := h + ("=" + a), h + ("=" + b);
    WordBefore("postgresql://", h, a, b);
    WordBefore("postgres://", h, a, b);
  }

  lemma {:induction false} WordBefore(w: string, h: string, a: string, b: string)
    requires '=' !in w
    ensures w <= h + ("=" + a) <==> w <= h + ("=" + b)
  {
    var s, t := h + ("=" + a), h + ("=" + b);
    assert s[|h|] == t[|h|] == '=';
    assert forall i :: 0 <= i < |h| ==> s[i] == t[i];
    assert |w| > |h| ==> w[|h|] in w;
  }

  /** `RedactPasswords` is idempotent on a string if and only if no password of it is glued to the next key,
      hiding its passwords uncovers no user information, and its nested connection strings are neither
      unsettled nor broken. */
  lemma {:induction false} RedactIdempotent(s: string)
    ensures RedactPasswords(RedactPasswords(s)) == RedactPasswords(s) <==> !Unsettled(s)
    decreases |s|, 3, 0
  {
    hide Parse, RedactUri, Moves, Uncovers, HasUriPrefix;
    if HasUriPrefix(s) {
      UriPrefixStays(s);
      UriIdempotent(s);
    } else if Parse(s).Malformed? {
      StarsMalformed();
    } else {
      StaysKeywords(s);
      KeywordIdempotent(s);
    }
  }

  /** The same for keyword strings. */
  lemma {:induction false} KeywordIdempotent(s: string)
    requires Parse(s).Pairs?
    ensures RedactKeywords(RedactKeywords(s)) == RedactKeywords(s) <==> !Moves(Parse(s).params, Parse(s).trail)
    decreases |s|, 2, 0
  {
    hide AllCut, Moves, Parse, NewRaw, Unparse, MaskAll, CleanKeywords;
    var ps, trail, out := Parse(s).params, Parse(s).trail, RedactKeywords(s);
    ParseCut(s);
    RenderMasked(ps);
    ValuesShorter(ps, |s|);
    MovesExactly(ps, trail, |s|);
    if Parse(out).Pairs? {
      KeywordsFixed(out);
    } else {
      GivenUpIs(out);
      if ps != [] {
        EqualsIn(ps, trail);
      } else {
        NothingClean(ps, trail);
      }
    }
  }

  lemma {:induction false} GivenUpIs(s: string)
    requires Parse(s).Malformed?
    ensures !CleanKeywords(s)
  {
  }
}
