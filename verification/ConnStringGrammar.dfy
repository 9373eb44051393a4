/**
 How a keyword string is cut into parameters, told in characters.
 */
module ConnStringGrammar {
  import opened Text
  import opened ConnString
  import opened ConnStringLaws

  /** One of the six bytes that C calls white space. */
  predicate IsWhite(c: char) { var x := c as int; x == 32 || 9 <= x <= 13 }

  predicate AllWhite(s: string) { forall i :: 0 <= i < |s| ==> IsWhite(s[i]) }

  /** No white space and no '='. */
  predicate IsKey(s: string) { forall i :: 0 <= i < |s| ==> !IsWhite(s[i]) && s[i] != '=' }

  /** What stands between quotes for `v`: each character, or it behind a backslash; quotes and backslashes always. */
  predicate Quotes(x: string, v: string)
    decreases |x|
  {
    if x == "" then v == ""
    else if x[0] == '\\' then |x| > 1 && v != "" && v[0] == x[1] && Quotes(x[2..], v[1..])
    else x[0] != '\'' && v != "" && v[0] == x[0] && Quotes(x[1..], v[1..])
  }

  /** What stands without quotes for `v`: each character, or it behind a backslash; white space and backslashes
      always. A lone backslash at the very end of the text stands for nothing. */
  predicate Bares(x: string, v: string, last: bool)
    decreases |x|
  {
    if x == "" then v == ""
    else if x[0] == '\\' then
      if |x| == 1 then last && v == "" else v != "" && v[0] == x[1] && Bares(x[2..], v[1..], last)
    else !IsWhite(x[0]) && v != "" && v[0] == x[0] && Bares(x[1..], v[1..], last)
  }

  /** `raw` is a value that stands for `v`, in front of `rest`. */
  predicate IsValue(raw: string, v: string, rest: string) {
    if raw != "" && raw[0] == '\'' then |raw| > 1 && raw[|raw| - 1] == '\'' && Quotes(raw[1..|raw| - 1], v)
    else
      && (raw == "" ==> rest == "")
      && !(raw != "" && IsWhite(raw[0]))
      && Bares(raw, v, rest == "") && (rest != "" ==> IsWhite(rest[0]))
  }

  /** White space, a key, white space, '=', white space and a value. */
  predicate IsParam(p: Param, rest: string) {
    && AllWhite(p.lead) && IsKey(p.key) && AllWhite(p.pre) && AllWhite(p.post) && (p.key == "" ==> p.pre == "")
    && IsValue(p.raw, p.value, rest)
  }

  /** The text is a row of such parameters with white space behind them. */
  predicate IsRow(s: string, ps: seq<Param>, trail: string)
    decreases |ps|
  {
    if ps == [] then s == trail && AllWhite(trail)
    else
      var n := |ps[0].Text()|;
      n <= |s| && s[..n] == ps[0].Text() && IsParam(ps[0], s[n..]) && IsRow(s[n..], ps[1..], trail)
  }

  /** The quoted value at the start of a text. */
  lemma {:induction false} QuotedIs(y: string, n: nat, v: string)
    ensures QuotedValue(y) == Some(Value(n, v)) <==> 0 < n <= |y| && y[n - 1] == '\'' && Quotes(y[..n - 1], v)
    decreases |y|, 1
  {
    hide QuotedValue;
    QuotedParts(y);
    if y != "" && 0 < n <= |y| {
      if y[0] == '\\' {
        if |y| > 1 {
          QuotedStep(y, 2, n, v);
        }
      } else if y[0] == '\'' {
        if n == 1 {
          assert y[..0] == "";
        } else {
          assert y[..n - 1][0] == '\'';
        }
      } else {
        QuotedStep(y, 1, n, v);
      }
    }
  }

  lemma {:induction false} QuotedStep(y: string, k: nat, n: nat, v: string)
    requires 0 < n <= |y| && y[0] != '\'' && k == (if y[0] == '\\' then 2 else 1) && k <= |y|
    ensures (var r := QuotedValue(y[k..]); r.Some? && r.value.len + k == n && [y[k - 1]] + r.value.decoded == v) <==>
            y[n - 1] == '\'' && Quotes(y[..n - 1], v)
    decreases |y|, 0
  {
    hide QuotedValue;
    var x := y[..n - 1];
    if n > k && v != "" {
      QuotedIs(y[k..], n - k, v[1..]);
      assert y[k..][n - k - 1] == y[n - 1];
      assert y[k..][..n - k - 1] == x[k..];
      assert v == [v[0]] + v[1..];
      assert x[0] == y[0] && (k == 2 ==> x[1] == y[1]);
    } else {
      assert n > k ==> x[0] == y[0];
      assert n == 2 && k == 2 ==> x == [y[0]];
      assert n == 1 ==> y[n - 1] == y[0];
    }
    var r := QuotedValue(y[k..]);
    if r.Some? {
      var w := [y[k - 1]] + r.value.decoded;
      assert w[0] == y[k - 1] && w[1..] == r.value.decoded;
    }
  }

  /** The unquoted value at the start of a text. */
  lemma {:induction false} BareIs(y: string, n: nat, v: string)
    requires n <= |y|
    ensures BareValue(y) == Value(n, v) <==> Bares(y[..n], v, n == |y|) && (n < |y| ==> IsWhite(y[n]))
    decreases |y|, 1
  {
    hide BareValue;
    BareParts(y);
    if y == "" || IsConnSpace(y[0]) {
      if n > 0 {
        assert y[..n][0] == y[0];
      } else {
        assert y[..0] == "";
      }
    } else if y[0] == '\\' && |y| == 1 {
      if n == 1 {
        assert y[..1] == y;
      }
    } else {
      BareStep(y, if y[0] == '\\' then 2 else 1, n, v);
    }
  }

  /** One step of reading an unquoted value. */
  lemma {:induction false} BareParts(s: string)
    ensures BareValue(s) ==
            if s == "" || IsConnSpace(s[0]) then Value(0, "")
            else if s[0] == '\\' then
              if |s| == 1 then Value(1, "") else var v := BareValue(s[2..]); Value(2 + v.len, [s[1]] + v.decoded)
            else var v := BareValue(s[1..]); Value(1 + v.len, [s[0]] + v.decoded)
  {
  }

  lemma {:induction false} BareStep(y: string, k: nat, n: nat, v: string)
    requires n <= |y| && y != "" && !IsConnSpace(y[0]) && k == (if y[0] == '\\' then 2 else 1) && k <= |y|
    ensures (var r := BareValue(y[k..]); r.len + k == n && [y[k - 1]] + r.decoded == v) <==>
            Bares(y[..n], v, n == |y|) && (n < |y| ==> IsWhite(y[n]))
    decreases |y|, 0
  {
    hide BareValue;
    var x, r := y[..n], BareValue(y[k..]);
    var w := [y[k - 1]] + r.decoded;
    assert w[0] == y[k - 1] && w[1..] == r.decoded;
    if n == 0 {
      assert x == "";
    } else {
      assert x[0] == y[0];
      if n >= k && v != "" {
        BareIs(y[k..], n - k, v[1..]);
        assert n < |y| ==> y[k..][n - k] == y[n];
        assert y[k..][..n - k] == x[k..];
        assert v == [v[0]] + v[1..];
        assert k == 2 ==> x[1] == y[1];
      }
    }
  }

  lemma {:induction false} ValueIs(raw: string, v: string, rest: string)
    ensures NoLeadingSpace(raw + rest) && ScanValue(raw + rest) == Some(Value(|raw|, v)) <==> IsValue(raw, v, rest)
  {
    hide QuotedValue, BareValue;
    var s := raw + rest;
    if raw == "" {
      assert s == rest;
      BareIs(rest, 0, v);
      assert rest[..0] == "";
    } else {
      assert s[0] == raw[0];
      if raw[0] == '\'' {
        assert s[1..] == raw[1..] + rest;
        QuotedIs(s[1..], |raw| - 1, v);
        if |raw| > 1 {
          assert s[1..][|raw| - 2] == raw[|raw| - 1];
          assert s[1..][..|raw| - 2] == raw[1..|raw| - 1];
        }
      } else {
        BareIs(s, |raw|, v);
        assert s[..|raw|] == raw;
        assert rest != "" ==> s[|raw|] == rest[0];
      }
    }
  }

  /** A parameter is cut off a text as these rules say. */
  lemma {:induction false} ParamIs(p: Param, rest: string)
    ensures WellCut(p, rest) <==> IsParam(p, rest)
  {
    hide ScanValue, IsValue;
    ValueIs(p.raw, p.value, rest);
  }

  /** The tokenizer reads exactly the rows of parameters. */
  lemma {:induction false} ParseExactly(s: string, ps: seq<Param>, trail: string)
    ensures Parse(s) == Pairs(ps, trail) <==> IsRow(s, ps, trail)
    ensures Parse(s).Malformed? <==> forall qs, t :: !IsRow(s, qs, t)
  {
    hide Parse, IsRow, AllCut;
    forall qs: seq<Param>, t: string ensures Parse(s) == Pairs(qs, t) <==> IsRow(s, qs, t) {
      RowIs(s, qs, t);
      if s == Unparse(qs) + t && AllCut(qs, t) && All(IsConnSpace, t) {
        ParseIs(qs, t);
      }
      if Parse(s) == Pairs(qs, t) {
        ParseCut(s);
      }
    }
    if Parse(s).Pairs? {
      assert IsRow(s, Parse(s).params, Parse(s).trail);
    }
  }

  lemma {:induction false} RowIs(s: string, ps: seq<Param>, trail: string)
    ensures IsRow(s, ps, trail) <==> s == Unparse(ps) + trail && AllCut(ps, trail) && All(IsConnSpace, trail)
    decreases |ps|
  {
    hide WellCut, IsParam, Param.Text;
    if ps == [] {
      assert Unparse(ps) + trail == trail;
    } else {
      var t, n := ps[0].Text(), |ps[0].Text()|;
      var r := Unparse(ps[1..]) + trail;
      assert Unparse(ps) + trail == t + r;
      if n <= |s| {
        RowIs(s[n..], ps[1..], trail);
        ParamIs(ps[0], s[n..]);
        assert s == s[..n] + s[n..];
      }
      if s == t + r {
        assert s[n..] == r && s[..n] == t;
      }
    }
  }
}
