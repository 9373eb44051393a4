/**
 Constants taken apart and put together again: the value of a constant, and the constant rebuilt from
 a new value.
 */
module SqlConstants {
  import opened Text
  import opened SqlLexer
  import opened SqlBoundary
  import opened SqlRedact
  import opened SqlRelex
  import ConnString
  import opened ConnStringTags

  // Doubled quotes

  lemma {:induction false} UndoubleDouble(v: string, q: char)
    ensures Undouble(ConnString.Double(v, q), q) == v
  {
    if v != "" {
      UndoubleDouble(v[1..], q);
      var d, d' := ConnString.Double(v, q), ConnString.Double(v[1..], q);
      if v[0] == q {
        assert d[2..] == d';
      } else {
        assert d[1..] == d';
      }
      assert v == [v[0]] + v[1..];
    }
  }

  /** In the body of a constant every quote is doubled. */
  lemma {:induction false} DoubleUndouble(b: string, r: string, q: char)
    requires QuoteScan(b + r, q, false).len == |b| && (r != "" ==> r[0] == q)
    ensures ConnString.Double(Undouble(b, q), q) == b
    decreases |b|
  {
    var s := b + r;
    if b != "" {
      assert s[0] == b[0];
      var k := if b[0] == q then 2 else 1;
      assert |b| >= k && (k == 2 ==> s[1] == b[1]);
      assert s[k..] == b[k..] + r;
      DoubleUndouble(b[k..], r, q);
      var u := Undouble(b[k..], q);
      assert Undouble(b, q) == [b[0]] + u && ([b[0]] + u)[1..] == u;
      assert b == b[..k] + b[k..];
    }
  }

  lemma {:induction false} ScanDoubled(v: string, q: char, r: string)
    requires r != "" ==> r[0] != q
    ensures var d := ConnString.Double(v, q);
            QuoteScan(d + ([q] + r), q, false) == Scan(|d|, true) && QuoteScan(d, q, false) == Scan(|d|, false)
  {
    var d := ConnString.Double(v, q);
    if v == "" {
      assert d + ([q] + r) == [q] + r;
    } else {
      ScanDoubled(v[1..], q, r);
      var d', k := ConnString.Double(v[1..], q), if v[0] == q then 2 else 1;
      assert d[k..] == d';
      CutAppend(d, [q] + r, k);
    }
  }

  // A constant with another body

  /** A string constant's opening determines how a text that starts with it is read. */
  lemma {:induction false} OpeningRead(t: Lexeme, r: string, s: string)
    requires Fits(t, r) && t.kind == Str && t.lo <= |t.text| && t.text[..t.lo] <= s
    ensures 0 < t.lo && First(s) == Quoted(Str, s, t.lo - 1, '\'', t.escapes, t.unicode)
  {
    hide Run, BlockScan, QuoteScan, DollarLexeme, WordLexeme;
    var z := t.text[..t.lo];
    OpeningKept(t, r);
    assert s[0] == z[0] == t.text[0] == (t.text + r)[0];
    if t.text[0] != '\'' {
      LiteralStart(t, r);
      StartsWord(t, r);
      WordRead(t, r, s);
    }
  }

  lemma {:induction false} StartsWord(t: Lexeme, r: string)
    requires Fits(t, r) && t.kind == Str && t.text[0] != '\''
    ensures IsIdentStart(t.text[0]) && WordLexeme(t.text + r) == t
  {
    hide Run, BlockScan, QuoteScan, Quoted, WordLexeme;
    assert (t.text + r)[0] == t.text[0];
  }

  lemma {:induction false} WordRead(t: Lexeme, r: string, s: string)
    requires t.text != "" && IsIdentStart(t.text[0]) && WordLexeme(t.text + r) == t && t.kind == Str
    requires t.lo <= |t.text| && t.text[..t.lo] <= s
    ensures 0 < t.lo <= |s| && IsIdentStart(s[0]) && WordLexeme(s) == Quoted(Str, s, t.lo - 1, '\'', t.escapes, t.unicode)
  {
    hide Run, QuoteScan, Quoted, Lower;
    var s0 := t.text + r;
    var j := Run(IsIdentCont, s0);
    var z := t.text[..t.lo];
    assert forall i :: 0 <= i < t.lo ==> s[i] == z[i] == s0[i];
    assert j < t.lo && !IsIdentCont(s[j]);
    RunIs(IsIdentCont, s, j);
    assert s[..j] == s0[..j];
  }

  /** The body of a plain or B, X or N constant, closed or not, is restored from its value. */
  lemma {:induction false} BodyRestored(t: Lexeme, r: string)
    requires Fits(t, r) && t.kind == Str && !t.escapes && t.WellFormed()
    ensures ConnString.Double(Undouble(t.Body(), '\''), '\'') == t.Body()
  {
    hide QuoteScan, Undouble, First;
    var s := t.text + r;
    assert t.text[..t.lo] <= s;
    OpeningRead(t, r, s);
    QuotedShape(Str, t, t.lo - 1, '\'', false, t.unicode, r);
    if t.terminated {
      assert t.Body() + ['\''] + r == t.Body() + (['\''] + r);
      DoubleUndouble(t.Body(), ['\''] + r, '\'');
    } else {
      UnclosedBody(t);
      assert t.Body() + "" == t.Body();
      DoubleUndouble(t.Body(), "", '\'');
    }
  }

  lemma {:induction false} UnclosedBody(t: Lexeme)
    requires t.WellFormed() && 0 < t.lo && Quoted(Str, t.text + "", t.lo - 1, '\'', false, t.unicode) == t && !t.terminated
    ensures t.hi == |t.text| && QuoteScan(t.Body(), '\'', false).len == |t.Body()|
  {
    hide QuoteScan;
    assert t.text + "" == t.text;
    assert t.text[t.lo..] == t.Body();
  }

  /** The constant rebuilt from any new value is read back in its place, with that value. */
  lemma {:induction false} RebuiltFits(t: Lexeme, r: string, v: string)
    requires Fits(t, r) && t.kind == Str && !t.escapes && t.WellFormed()
    ensures var u := WithBody(t, ConnString.Double(v, '\''));
            Fits(u, r) && u.WellFormed() && Undouble(u.Body(), '\'') == v
  {
    hide QuoteScan, Undouble, First, ConnString.Double, Ends;
    var d, z := ConnString.Double(v, '\''), t.text[..t.lo];
    var u := WithBody(t, d);
    FitsEnds(t, r);
    StringOpening(t, r);
    UndoubleDouble(v, '\'');
    assert u.Body() == d by { BodyOf(t, d); }
    if t.terminated {
      RebuiltClosed(t, r, v);
    } else {
      RebuiltOpen(t, r, v);
    }
  }

  lemma {:induction false} RebuiltClosed(t: Lexeme, r: string, v: string)
    requires Fits(t, r) && t.kind == Str && !t.escapes && t.WellFormed() && t.terminated
    requires 0 < t.lo && t.text[t.lo - 1] == '\''
    ensures Fits(WithBody(t, ConnString.Double(v, '\'')), r)
  {
    hide QuoteScan, Undouble, First, ConnString.Double, Ends;
    var d, z := ConnString.Double(v, '\''), t.text[..t.lo];
    var u := WithBody(t, d);
    FitsEnds(t, r);
    StrEnds(t, r);
    ScanDoubled(v, '\'', r);
    assert u.text == z + (d + ['\'']);
    assert d + ['\''] + r == d + (['\''] + r);
    assert z <= u.text + r by { assert u.text + r == z + (d + ['\''] + r); }
    OpeningRead(t, r, u.text + r);
    QuotedClosed(Str, z, d, '\'', false, t.unicode, r);
    assert (z + (d + ['\''])) + r == u.text + r;
  }

  lemma {:induction false} RebuiltOpen(t: Lexeme, r: string, v: string)
    requires Fits(t, r) && t.kind == Str && !t.escapes && t.WellFormed() && !t.terminated
    requires 0 < t.lo && t.text[t.lo - 1] == '\''
    ensures Fits(WithBody(t, ConnString.Double(v, '\'')), r)
  {
    hide QuoteScan, Undouble, First, ConnString.Double, Ends;
    var d, z := ConnString.Double(v, '\''), t.text[..t.lo];
    var u := WithBody(t, d);
    FitsEnds(t, r);
    OpenEnded(t, r);
    ScanDoubled(v, '\'', "");
    assert u.text + r == u.text == z + d by { assert z + d + "" == z + d; }
    OpeningRead(t, r, u.text);
    assert u.text[t.lo..] == d;
    UnclosedIs(z, d, t.unicode);
  }

  lemma {:induction false} BodyOf(t: Lexeme, d: string)
    requires t.WellFormed() && 0 < t.lo
    ensures WithBody(t, d).WellFormed() && WithBody(t, d).Body() == d
  {
    var u := WithBody(t, d);
    var closing := u.text[t.lo + |d|..];
    assert u.text == t.text[..t.lo] + d + closing;
  }

  lemma {:induction false} StrEnds(t: Lexeme, r: string)
    requires t.kind == Str && t.terminated && Ends(t, r)
    ensures r != "" ==> r[0] != '\''
  {
  }

  lemma {:induction false} OpenEnded(t: Lexeme, r: string)
    requires t.kind == Str && !t.terminated && Ends(t, r)
    ensures r == ""
  {
  }

  lemma {:induction false} UnclosedIs(z: string, d: string, uni: bool)
    requires z != "" && QuoteScan(d, '\'', false) == Scan(|d|, false)
    ensures Quoted(Str, z + d, |z| - 1, '\'', false, uni) == Lexeme(Str, z + d, |z|, |z| + |d|, false, uni, false)
  {
    hide QuoteScan;
    assert (z + d)[|z|..] == d;
  }

  /** Rewriting a constant's value changes no other token of the statement. */
  lemma {:induction false} RebuiltInPlace(t: Lexeme, r: string, v: string)
    requires Fits(t, r) && t.kind == Str && !t.escapes && t.WellFormed()
    ensures var u := WithBody(t, ConnString.Double(v, '\''));
            Lex(t.text + r) == [t] + Lex(r) && Lex(u.text + r) == [u] + Lex(r) && Undouble(u.Body(), '\'') == v
  {
    hide Fits, First, Undouble;
    RebuiltFits(t, r, v);
    LexOne(t, r);
    LexOne(WithBody(t, ConnString.Double(v, '\'')), r);
  }

  lemma {:induction false} LexOne(t: Lexeme, r: string)
    requires Fits(t, r)
    ensures Lex(t.text + r) == [t] + Lex(r)
  {
    hide First;
    assert (t.text + r)[|t.text|..] == r;
  }

  // Dollar quotes

  lemma {:induction false} AvoidsFind(b: string, tag: string, r: string)
    requires Avoids(b, tag, tag)
    ensures Find(b + tag + r, tag) == |b|
  {
    hide FindFrom;
    var s := b + tag + r;
    assert s[|b|..|b| + |tag|] == tag;
    assert At(s, tag, |b|);
    forall j: nat | j < |b| ensures !At(s, tag, j) {
      assert !At(b + tag, tag, j);
      assert s[j..j + |tag|] == (b + tag)[j..j + |tag|];
    }
  }

  lemma {:induction false} FindAvoids(b: string, tag: string, r: string)
    requires Find(b + tag + r, tag) == |b|
    ensures Avoids(b, tag, tag)
  {
    hide FindFrom;
    var s := b + tag + r;
    forall j | 0 <= j < |b| ensures !At(b + tag, tag, j) {
      assert !At(s, tag, j);
      assert s[j..j + |tag|] == (b + tag)[j..j + |tag|];
    }
  }

  /** A dollar-quoted constant whose new body avoids its tag is read back in its place. */
  lemma {:induction false} RebuiltDollar(t: Lexeme, r: string, b: string)
    requires Fits(t, r) && t.kind == Dollar && t.WellFormed() && t.lo <= t.hi
    requires var tag := t.text[..t.lo]; Avoids(b, if t.terminated then tag else "", tag)
    ensures Fits(WithBody(t, b), r) && WithBody(t, b).Body() == b
  {
    hide First, Find, TagLen, OpensDollar, Avoids, Contains, Ends, DollarLexeme, Tag;
    OpeningKept(t, r);
    BodyOf(t, b);
    DollarRead(t, r);
    DollarShape(t, r);
    var name := t.text[1..t.lo - 1];
    TagOf(t);
    TagRead(t, name, r);
    var u := WithBody(t, b);
    if t.terminated {
      AvoidsFind(b, Tag(name), r);
      TagLenRefit(name, t.text[t.lo..] + r, r);
      DollarClosed(name, b, r);
      Reassociate(Tag(name), b, r);
      DollarFirst(u, r);
    } else {
      TagLenRefit(name, t.text[t.lo..] + r, b);
      AvoidsContains(b, Tag(name));
      DollarOpen(name, b);
      assert Tag(name) + b + "" == Tag(name) + b && u.text + r == u.text;
      DollarFirst(u, r);
    }
  }

  lemma {:induction false} TagOf(t: Lexeme)
    requires 2 <= t.lo <= |t.text| && t.text[0] == '$' && t.text[t.lo - 1] == '$'
    ensures t.text[..t.lo] == Tag(t.text[1..t.lo - 1])
  {
  }

  lemma {:induction false} Reassociate(tag: string, b: string, r: string)
    ensures tag + b + tag == tag + (b + tag)
  {
  }

  lemma {:induction false} TagRead(t: Lexeme, name: string, r: string)
    requires 2 <= t.lo <= |t.text| && t.text[..t.lo] == Tag(name)
    ensures t.text[1..] + r == name + ['$'] + (t.text[t.lo..] + r)
  {
    assert t.text == Tag(name) + t.text[t.lo..];
  }

  lemma {:induction false} DollarRead(t: Lexeme, r: string)
    requires Fits(t, r) && t.kind == Dollar
    ensures "$" <= t.text && DollarLexeme(t.text + r) == t
  {
    hide Run, BlockScan, QuoteScan, DollarLexeme;
    assert (t.text + r)[0] == t.text[0];
  }

  lemma {:induction false} DollarFirst(u: Lexeme, r: string)
    requires "$" <= u.text && DollarLexeme(u.text + r) == u
    ensures Fits(u, r)
  {
    hide Run, DollarLexeme;
    assert (u.text + r)[0] == '$';
  }

  lemma {:induction false} DollarOpen(name: string, b: string)
    requires TagLen(name + ['$'] + b) == |name| && OpensDollar(name + ['$'] + b) && !Contains(b, Tag(name))
    ensures DollarLexeme(Tag(name) + b) == Lexeme(Dollar, Tag(name) + b, |name| + 2, |name| + 2 + |b|, false, false, false)
  {
    hide Run, FindFrom;
    var s := Tag(name) + b;
    assert s[1..] == name + ['$'] + b;
    assert s[|name| + 2..] == b && s[..|name| + 2] == Tag(name);
    assert name != "" ==> s[1] == name[0];
  }

  lemma {:induction false} TagChars(t: Lexeme, r: string)
    requires "$" <= t.text && t.kind == Dollar && DollarLexeme(t.text + r) == t && t.lo <= |t.text|
    ensures 2 <= t.lo && IsTag(t.text[..t.lo])
  {
    hide Run, Find;
    DollarShape(t, r);
    var d, z := t.text[1..] + r, t.text[..t.lo];
    var n := TagLen(d);
    assert d[n] == '$';
    forall i | 0 <= i < |z| ensures z[i] == '$' || IsTagCont(z[i]) {
      assert z[i] == if i == 0 then '$' else d[i - 1];
    }
    TagOnly(z);
  }

  lemma {:induction false} TagOnly(z: string)
    requires z != "" && forall i :: 0 <= i < |z| ==> z[i] == '$' || IsTagCont(z[i])
    ensures IsTag(z)
  {
  }

  /** The text of a dollar quote does not hold its tag. */
  lemma {:induction false} BodyAvoids(t: Lexeme, r: string)
    requires "$" <= t.text && t.kind == Dollar && DollarLexeme(t.text + r) == t && t.WellFormed()
    ensures var tag := t.text[..t.lo]; tag != "" && Avoids(t.Body(), if t.terminated then tag else "", tag)
  {
    hide Run, FindFrom, Avoids, TagLen, OpensDollar;
    DollarShape(t, r);
    var tag := t.text[..t.lo];
    if t.terminated {
      FindAvoids(t.Body(), tag, r);
    } else {
      assert t.text + r == t.text;
      CutAppend(t.text, r, t.lo);
      assert t.text[t.lo..] == t.Body();
      AvoidsContains(t.Body(), tag);
    }
  }

  /** What the body of a dollar-quoted constant must not hold is its tag; up to the closing one, if any. */
  predicate Holds(t: Lexeme, b: string)
    requires t.lo <= |t.text|
  {
    Avoids(b, if t.terminated then t.text[..t.lo] else "", t.text[..t.lo])
  }

  /** A dollar-quoted constant can take a new body exactly when the body avoids its tag. */
  lemma {:induction false} DollarExactly(t: Lexeme, r: string, b: string)
    requires Fits(t, r) && t.kind == Dollar && t.WellFormed()
    ensures Fits(WithBody(t, b), r) <==> Holds(t, b)
    ensures WithBody(t, b).WellFormed() && WithBody(t, b).Body() == b
  {
    hide First, DollarLexeme, Avoids, Fits;
    var u := WithBody(t, b);
    OpeningKept(t, r);
    BodyOf(t, b);
    if Holds(t, b) {
      RebuiltDollar(t, r, b);
    }
    if Fits(u, r) {
      DollarRead(u, r);
      BodyAvoids(u, r);
      assert u.text[..u.lo] == t.text[..t.lo];
    }
  }

  /** The tag occurs in no value nested in the constant that is rewritten. */
  predicate NestedFree(t: Lexeme)
    requires t.lo <= |t.text|
  {
    TagFree(t.Body(), if t.terminated then t.text[..t.lo] else "", t.text[..t.lo])
  }

  /** A redacted connection string can go back inside the dollar quotes it was in exactly when it does not
      hold their tag; and it does not, if no nested value does. */
  lemma {:induction false} RedactedDollarFits(t: Lexeme, r: string)
    requires Fits(t, r) && t.kind == Dollar && t.WellFormed()
    ensures Fits(WithBody(t, ConnString.RedactPasswords(t.Body())), r) <==> Holds(t, ConnString.RedactPasswords(t.Body()))
    ensures NestedFree(t) ==> Holds(t, ConnString.RedactPasswords(t.Body()))
  {
    hide First, DollarLexeme, Avoids, ConnString.RedactPasswords, Lexeme.Body, TagFree, IsTag, Fits;
    DollarRead(t, r);
    TagChars(t, r);
    DollarExactly(t, r, ConnString.RedactPasswords(t.Body()));
    if NestedFree(t) {
      RedactedAvoids(t.Body(), if t.terminated then t.text[..t.lo] else "", t.text[..t.lo]);
    }
  }

  /** What the connection-string rule puts for a constant reads back as one constant, except where a
      dollar-quoted one has come to hold its own tag. */
  lemma {:induction false} ConnRewriteFits(t: Lexeme, r: string)
    requires Fits(t, r) && t.IsLiteral() && t.WellFormed() && ConnRewrite(t).Some?
    ensures var u := ConnRewrite(t).value.repl;
            Fits(u, "") <==> u == REDACTED || t.kind == Str || Holds(t, ConnString.RedactPasswords(t.Body()))
  {
    hide Fits, Ends, MentionsConnSecret, TruncatedInHost, Undouble, ConnString.Double, ConnString.RedactPasswords, AmbiguousEscapes, Holds;
    var u := ConnRewrite(t).value.repl;
    RedactedFits();
    EndsNothing(u);
    if u != REDACTED {
      if t.kind == Dollar {
        RedactedDollarFits(t, r);
        FitsEnds(t, r);
        DollarEnds(t, u, r);
        if Fits(u, "") {
          Refit(u, "", r);
        }
      } else {
        RebuiltFits(t, r, ConnString.RedactPasswords(Undouble(t.Body(), '\'')));
      }
      if Fits(u, r) {
        Refit(u, r, "");
      }
    }
  }

  lemma {:induction false} DollarEnds(t: Lexeme, u: Lexeme, r: string)
    requires t.kind == Dollar && u.kind == Dollar && u.terminated == t.terminated && Ends(t, r)
    ensures Ends(u, r)
  {
  }

  // Rewritten constants

  /** The text a constant stands for. */
  function ValueOf(t: Lexeme): string {
    if t.kind == Dollar then t.Body() else Undouble(t.Body(), '\'')
  }

  /** What is put for a constant that is not given up: the constant with its value redacted. */
  lemma {:induction false} RewrittenBody(t: Lexeme, r: string)
    requires Fits(t, r) && t.IsLiteral() && t.WellFormed() && ConnRewrite(t).Some? && ConnRewrite(t).value.repl != REDACTED
    ensures var red := ConnString.RedactPasswords(ValueOf(t));
            var b := if t.kind == Dollar then red else ConnString.Double(red, '\'');
            var u := ConnRewrite(t).value.repl;
            && red != ValueOf(t) && u == WithBody(t, b) && u.WellFormed() && u.Body() == b && ValueOf(u) == red
            && !AmbiguousEscapes(t) && !t.escapes && !t.unicode
  {
    hide Fits, MentionsConnSecret, TruncatedInHost, Undouble, ConnString.Double, ConnString.RedactPasswords;
    OpeningKept(t, r);
    var red := ConnString.RedactPasswords(ValueOf(t));
    BodyOf(t, if t.kind == Dollar then red else ConnString.Double(red, '\''));
    UndoubleDouble(red, '\'');
    if t.kind == Dollar {
      DollarFlags(t, r);
    }
  }

  lemma {:induction false} DollarFlags(t: Lexeme, r: string)
    requires Fits(t, r) && t.kind == Dollar
    ensures !t.escapes && !t.unicode
  {
    hide Run, Find, TagLen, OpensDollar, QuoteScan;
    DollarRead(t, r);
  }

  /** It has the same opening, and no backslash escapes. */
  lemma {:induction false} RewrittenFlags(t: Lexeme, r: string)
    requires Fits(t, r) && t.IsLiteral() && t.WellFormed() && ConnRewrite(t).Some? && ConnRewrite(t).value.repl != REDACTED
    ensures var u := ConnRewrite(t).value.repl;
            && u.WellFormed() && u.kind == t.kind && u.terminated == t.terminated && !u.escapes && !u.unicode
            && 0 < u.lo && u.lo == t.lo
  {
    hide Fits, ConnRewrite, ConnString.Double, ConnString.RedactPasswords;
    RewrittenBody(t, r);
    OpeningKept(t, r);
  }
}
