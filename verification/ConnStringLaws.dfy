/**
 What the tokenizer of pkg/connstring/redact.go reads back from a string assembled from parameters.
 */
module ConnStringLaws {
  import opened Text
  import opened ConnString

  // One parameter

  /** The parameter `p` is what the tokenizer reads in front of `rest`. */
  predicate WellCut(p: Param, rest: string) {
    && All(IsConnSpace, p.lead) && All(IsKeyChar, p.key)
    && All(IsConnSpace, p.pre) && All(IsConnSpace, p.post)
    && (p.key == "" ==> p.pre == "")
    && NoLeadingSpace(p.raw + rest)
    && ScanValue(p.raw + rest) == Some(Value(|p.raw|, p.value))
  }

  predicate NoLeadingSpace(s: string) { s != "" ==> !IsConnSpace(s[0]) }

  lemma {:induction false} TextParts(p: Param, rest: string)
    ensures p.Text() + rest == p.lead + (p.key + (p.pre + ("=" + (p.post + (p.raw + rest)))))
  {
    var a, b, c := p.lead + p.key, p.pre + "=", p.post + p.raw;
    assert p.Text() == a + b + c;
    assert a + b + c + rest == p.lead + (p.key + (b + (c + rest)));
  }

  lemma {:induction false} ParseOneIs(p: Param, rest: string)
    requires WellCut(p, rest)
    ensures ParseOne(p.Text() + rest) == Got(p, rest)
  {
    hide ScanValue, Run, TakeRun, DropRun, Param.Text;
    TextParts(p, rest);
    var s4 := p.raw + rest;
    var s3 := "=" + (p.post + s4);
    var s2 := p.pre + s3;
    var s1 := p.key + s2;
    assert s3[1..] == p.post + s4;
    CutRun(IsConnSpace, p.post, s4);
    CutRun(IsConnSpace, p.pre, s3);
    assert s2[0] == if p.pre == "" then '=' else p.pre[0];
    CutRun(IsKeyChar, p.key, s2);
    assert s1[0] == if p.key == "" then '=' else p.key[0];
    CutRun(IsConnSpace, p.lead, s1);
    assert s4[..|p.raw|] == p.raw && s4[|p.raw|..] == rest;
  }

  lemma {:induction false} ParseOneCut(s: string)
    requires ParseOne(s).Got?
    ensures var r := ParseOne(s); WellCut(r.param, r.rest) && s == r.param.Text() + r.rest
  {
    hide ScanValue, Run, TakeRun, DropRun, Param.Text;
    var p, rest := ParseOne(s).param, ParseOne(s).rest;
    CutAtRun(IsConnSpace, s);
    var s1 := DropRun(IsConnSpace, s);
    CutAtRun(IsKeyChar, s1);
    var s2 := DropRun(IsKeyChar, s1);
    CutAtRun(IsConnSpace, s2);
    var s3 := DropRun(IsConnSpace, s2);
    CutAtRun(IsConnSpace, s3[1..]);
    var s4 := DropRun(IsConnSpace, s3[1..]);
    assert s4 == p.raw + rest;
    assert s3 == "=" + s3[1..];
    TextParts(p, rest);
    if p.key == "" {
      EmptyKey(s1);
    }
  }

  lemma {:induction false} EmptyKey(s1: string)
    requires TakeRun(IsKeyChar, s1) == "" && NoLeadingSpace(s1)
    ensures TakeRun(IsConnSpace, DropRun(IsKeyChar, s1)) == ""
  {
    hide Run;
  }

  // All parameters

  function Unparse(ps: seq<Param>): string {
    if ps == [] then "" else ps[0].Text() + Unparse(ps[1..])
  }

  predicate AllCut(ps: seq<Param>, trail: string) {
    ps == [] || (WellCut(ps[0], Unparse(ps[1..]) + trail) && AllCut(ps[1..], trail))
  }

  /** A list of well-cut parameters is read back as it is. */
  lemma {:induction false} ParseIs(ps: seq<Param>, trail: string)
    requires AllCut(ps, trail) && All(IsConnSpace, trail)
    ensures Parse(Unparse(ps) + trail) == Pairs(ps, trail)
  {
    hide WellCut, ParseOne, ScanValue;
    if ps == [] {
      assert Unparse(ps) + trail == trail;
      ParseSpaces(trail);
    } else {
      var rest := Unparse(ps[1..]) + trail;
      assert Unparse(ps) + trail == ps[0].Text() + rest;
      ParseOneIs(ps[0], rest);
      ParseIs(ps[1..], trail);
    }
  }

  lemma {:induction false} ParseSpaces(trail: string)
    requires All(IsConnSpace, trail)
    ensures ParseOne(trail) == End
  {
    hide ScanValue, Run, TakeRun, DropRun;
    CutRun(IsConnSpace, trail, "");
    assert trail + "" == trail;
  }

  /** Tokenizing loses no character. */
  lemma {:induction false} ParseCut(s: string)
    requires Parse(s).Pairs?
    ensures var r := Parse(s);
            s == Unparse(r.params) + r.trail && AllCut(r.params, r.trail) && All(IsConnSpace, r.trail)
    decreases |s|
  {
    hide WellCut, ParseOne, ScanValue;
    match ParseOne(s)
    case End =>
      EndIsSpace(s);
    case Got(p, rest) =>
      ParseOneCut(s);
      ParseCut(rest);
      var r := Parse(s);
      assert r.params[1..] == Parse(rest).params;
      assert r.params[0] == p;
  }

  lemma {:induction false} EndIsSpace(s: string)
    requires ParseOne(s) == End
    ensures All(IsConnSpace, s)
  {
    hide ScanValue, Run, TakeRun, DropRun;
    CutAtRun(IsConnSpace, s);
  }

  // Values read from a changed text

  lemma {:induction false} QuotedSwap(a: string, r: string, r': string)
    requires QuotedValue(a + r).Some? && QuotedValue(a + r).value.len == |a|
    ensures QuotedValue(a + r') == QuotedValue(a + r)
    decreases |a|
  {
    hide QuotedValue;
    QuotedParts(a + r);
    var s, s' := a + r, a + r';
    assert a != "" && s[0] == a[0] == s'[0];
    QuotedParts(s');
    if a[0] == '\\' {
      assert |a| >= 2 && s[1] == a[1] == s'[1];
      CutAppend(a, r, 2);
      CutAppend(a, r', 2);
      QuotedSwap(a[2..], r, r');
    } else if a[0] != '\'' {
      CutAppend(a, r, 1);
      CutAppend(a, r', 1);
      QuotedSwap(a[1..], r, r');
    }
  }

  /** One step of reading a quoted value. */
  lemma {:induction false} QuotedParts(s: string)
    ensures QuotedValue(s) ==
            if s == "" then None
            else if s[0] == '\'' then Some(Value(1, ""))
            else if s[0] == '\\' then
              if |s| == 1 then None
              else match QuotedValue(s[2..]) case None => None case Some(v) => Some(Value(2 + v.len, [s[1]] + v.decoded))
            else match QuotedValue(s[1..]) case None => None case Some(v) => Some(Value(1 + v.len, [s[0]] + v.decoded))
  {
  }

  /** An unquoted value is read again in front of whitespace, or at the end if it was there. */
  lemma {:induction false} BareSwap(a: string, r: string, r': string)
    requires BareValue(a + r).len == |a|
    requires r' != "" ==> r != "" && IsConnSpace(r'[0])
    ensures BareValue(a + r') == BareValue(a + r)
    decreases |a|
  {
    var s, s' := a + r, a + r';
    if a == "" {
      assert s == r && s' == r';
    } else if a[0] == '\\' && |s| > 1 {
      assert |a| >= 2;
      CutAppend(a, r, 2);
      CutAppend(a, r', 2);
      assert s[0] == s'[0] && s[1] == s'[1];
      BareSwap(a[2..], r, r');
    } else {
      CutAppend(a, r, 1);
      CutAppend(a, r', 1);
      assert s[0] == a[0] == s'[0];
      BareSwap(a[1..], r, r');
    }
  }

  lemma {:induction false} ScanSwap(raw: string, v: string, r: string, r': string)
    requires ScanValue(raw + r) == Some(Value(|raw|, v))
    requires NoLeadingSpace(raw + r)
    requires r' != "" ==> r != "" && (IsConnSpace(r'[0]) || IsQuoted(raw))
    ensures ScanValue(raw + r') == Some(Value(|raw|, v))
    ensures NoLeadingSpace(raw + r')
  {
    hide QuotedValue, BareValue;
    if raw == "" {
      assert raw + r == r && raw + r' == r';
      EmptyValue(r);
    } else {
      assert (raw + r)[0] == raw[0] == (raw + r')[0];
      if IsQuoted(raw) {
        assert (raw + r)[1..] == raw[1..] + r && (raw + r')[1..] == raw[1..] + r';
        QuotedSwap(raw[1..], r, r');
      } else {
        BareSwap(raw, r, r');
      }
    }
  }

  lemma {:induction false} EmptyValue(r: string)
    requires NoLeadingSpace(r) && ScanValue(r).Some? && ScanValue(r).value.len == 0
    ensures r == ""
  {
  }

  lemma {:induction false} StarsAre()
    ensures |STARS| == 8 && forall i :: 0 <= i < |STARS| ==> STARS[i] == '*'
  {
  }

  lemma {:induction false} StarsScan(r: string)
    requires r == "" || IsConnSpace(r[0])
    ensures ScanValue(STARS + r) == Some(Value(|STARS|, STARS))
    ensures NoLeadingSpace(STARS + r)
  {
    hide BareValue, STARS;
    StarsAre();
    assert (STARS + r)[0] == '*';
    BareStart(r);
    BarePrefix(STARS, r);
    assert STARS + "" == STARS;
  }

  /** Characters that are neither blank nor a backslash belong to an unquoted value as they are. */
  lemma {:induction false} BarePrefix(a: string, r: string)
    requires forall i :: 0 <= i < |a| ==> !IsConnSpace(a[i]) && a[i] != '\\'
    ensures BareValue(a + r) == Value(|a| + BareValue(r).len, a + BareValue(r).decoded)
  {
    if a == "" {
      assert a + r == r;
    } else {
      assert (a + r)[0] == a[0] && (a + r)[1..] == a[1..] + r;
      BarePrefix(a[1..], r);
    }
  }

  lemma {:induction false} BareStart(r: string)
    ensures BareValue(r).len == 0 <==> r == "" || IsConnSpace(r[0])
    ensures BareValue(r).len == 0 ==> BareValue(r).decoded == ""
  {
  }

  lemma {:induction false} QuotedOrBlank(raw: string, v: string, r: string)
    requires ScanValue(raw + r) == Some(Value(|raw|, v)) && NoLeadingSpace(raw + r)
    requires r != "" && !IsConnSpace(r[0])
    ensures IsQuoted(raw)
  {
    hide QuotedValue, BareValue;
    assert (raw + r)[|raw|] == r[0];
    assert raw == "" ==> raw + r == r;
    if raw == "" {
      EmptyValue(r);
    } else {
      assert (raw + r)[0] == raw[0];
    }
  }
}
