/**
 What becomes of characters that are doubled when a value is printed.
 */
module ConnStringEscape {
  import opened Text
  import opened ConnString

  predicate NotQuote(c: char) { c != '\'' }

  /** A value with its backslashes doubled is read back, up to the quote that ends it. */
  lemma {:induction false} QuotedDoubled(a: string, r: string)
    requires All(NotQuote, a)
    ensures QuotedValue(Double(a, '\\') + ("'" + r)) == Some(Value(|Double(a, '\\')| + 1, a))
    decreases |a|
  {
    if a == "" {
      assert Double(a, '\\') + ("'" + r) == "'" + r;
    } else {
      QuotedDoubled(a[1..], r);
      var d', z := Double(a[1..], '\\'), "'" + r;
      assert a == [a[0]] + a[1..];
      QuotedNext(a[0], d', z, a[1..]);
    }
  }

  lemma {:induction false} QuotedNext(c: char, d: string, z: string, v: string)
    requires c != '\'' && QuotedValue(d + z) == Some(Value(|d| + 1, v))
    ensures var e := if c == '\\' then [c, c] else [c];
            QuotedValue(e + d + z) == Some(Value(|e + d| + 1, [c] + v))
  {
    var e := if c == '\\' then [c, c] else [c];
    var s := e + d + z;
    assert s == e + (d + z);
    assert s[|e|..] == d + z && s[0] == c && (|e| == 2 ==> s[1] == c);
  }

  lemma {:induction false} DoubleNone(s: string, c: char)
    requires c !in s
    ensures Double(s, c) == s
  {
    if s != "" {
      DoubleNone(s[1..], c);
    }
  }

  lemma {:induction false} DoubleAppend(a: string, b: string, c: char)
    ensures Double(a + b, c) == Double(a, c) + Double(b, c)
  {
    if a == "" {
      assert a + b == b;
    } else {
      assert (a + b)[1..] == a[1..] + b;
      DoubleAppend(a[1..], b, c);
    }
  }

  lemma {:induction false} DoubleKeeps(s: string, q: char, c: char)
    ensures c in Double(s, q) <==> c in s
    decreases |s|
  {
    if s != "" {
      DoubleKeeps(s[1..], q, c);
    }
  }

  lemma {:induction false} EscapeKeeps(s: string, c: char)
    ensures c in EscapeValue(s) <==> c in s
  {
    DoubleKeeps(s, '\\', c);
    DoubleKeeps(Double(s, '\\'), '\'', c);
  }

  lemma {:induction false} EscapePlain(v: string)
    requires '\'' !in v
    ensures EscapeValue(v) == Double(v, '\\')
  {
    DoubleKeeps(v, '\\', '\'');
    DoubleNone(Double(v, '\\'), '\'');
  }

  /** A single quote in a value is printed as two, the first of which ends the value when read. */
  lemma {:induction false} EscapeQuote(a: string, b: string) returns (e: string)
    requires '\'' !in a
    ensures EscapeValue(a + "'" + b) == Double(a, '\\') + ("'" + e)
  {
    hide Double;
    DoubleAppend(a + "'", b, '\\');
    DoubleAppend(a, "'", '\\');
    DoubleNone("'", '\\');
    var x, y := Double(a, '\\'), Double(b, '\\');
    DoubleAppend(x + "'", y, '\'');
    DoubleAppend(x, "'", '\'');
    DoubleKeeps(a, '\\', '\'');
    DoubleNone(x, '\'');
    DoubleOne('\'');
    e := "'" + Double(y, '\'');
    assert x + "''" + Double(y, '\'') == x + ("'" + e);
  }

  lemma {:induction false} DoubleOne(c: char)
    ensures Double([c], c) == [c, c]
  {
    assert Double([c][1..], c) == "";
  }

  lemma {:induction false} FirstQuote(v: string)
    requires '\'' in v
    ensures exists k :: 0 <= k < |v| && v[k] == '\'' && '\'' !in v[..k]
  {
    var k := Run(NotQuote, v);
    assert 0 <= k < |v| && v[k] == '\'' && '\'' !in v[..k];
  }

  lemma {:induction false} EscapeAppend(a: string, b: string)
    ensures EscapeValue(a + b) == EscapeValue(a) + EscapeValue(b)
  {
    DoubleAppend(a, b, '\\');
    DoubleAppend(Double(a, '\\'), Double(b, '\\'), '\'');
  }
}
