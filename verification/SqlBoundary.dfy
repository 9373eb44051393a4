/**
 Where a token ends. A token read from a text is read again, unchanged, from any text that
 continues it in a way its kind allows; `Ends` says which ways those are.
 */
module SqlBoundary {
  import opened Text
  import opened SqlLexer

  /** Reading `t.text` followed by `r` yields `t`. */
  predicate Fits(t: Lexeme, r: string) {
    t.text != "" && First(t.text + r) == t
  }

  /** The token `t` may be followed by the text `r`. */
  predicate Ends(t: Lexeme, r: string) {
    r == "" ||
    match t.kind
    case Space => !IsSpace(r[0])
    case Comment => if "--" <= t.text then r[0] == '\n' else BlockScan(t.text, 0).closed
    case Ident => WordEnds(Lower(t.text), r)
    case QuotedIdent => t.terminated && r[0] != '"'
    case Str => t.terminated && r[0] != '\''
    case Dollar => t.terminated
    case Op => !IsOpChar(r[0])
    case Other =>
      if t.text == "-" then r[0] != '-'
      else if t.text == "/" then r[0] != '*'
      else if t.text == "$" then !IsDigit(r[0]) && !OpensDollar(r)
      else "$" <= t.text ==> !IsDigit(r[0])
  }

  predicate WordEnds(word: string, r: string)
    requires r != ""
  {
    && !IsIdentCont(r[0])
    && !(r[0] == '\'' && (word == "e" || PlainPrefix(word)))
    && !(word == "u" && |r| > 1 && r[0] == '&' && r[1] == '\'')
  }

  lemma {:induction false} EndsNothing(t: Lexeme)
    ensures Ends(t, "")
  {
  }

  lemma {:induction false} FitsFirst(t: Lexeme, r: string)
    requires Fits(t, r)
    ensures t.text + r != "" && First(t.text + r) == t
  {
  }

  // Quoted text

  lemma {:induction false} QuoteScanRefit(b: string, q: char, esc: bool, r: string, r': string)
    requires QuoteScan(b + [q] + r, q, esc) == Scan(|b|, true)
    requires r' == "" || r'[0] != q
    ensures QuoteScan(b + [q] + r', q, esc) == Scan(|b|, true)
    decreases |b|
  {
    var s, s' := b + [q] + r, b + [q] + r';
    if b != "" {
      var k := if b[0] == q || (esc && b[0] == '\\') then 2 else 1;
      assert |b| >= k;
      assert s[k..] == b[k..] + [q] + r;
      assert s'[k..] == b[k..] + [q] + r';
      QuoteScanRefit(b[k..], q, esc, r, r');
    }
  }

  /** A quoted token's text is its opening, its body and, when closed, its quote. */
  lemma {:induction false} QuotedShape(kind: Kind, t: Lexeme, quoteAt: nat, q: char, esc: bool, uni: bool, r: string)
    requires quoteAt < |t.text|
    requires Quoted(kind, t.text + r, quoteAt, q, esc, uni) == t
    ensures !t.terminated ==> r == ""
    ensures t.terminated ==>
      && t.lo == quoteAt + 1 <= t.hi == |t.text| - 1
      && t.text[t.lo..] == t.text[t.lo..t.hi] + [q]
      && QuoteScan(t.text[t.lo..t.hi] + [q] + r, q, esc) == Scan(t.hi - t.lo, true)
  {
    hide QuoteScan;
    var d := t.text[quoteAt + 1..];
    CutAppend(t.text, r, quoteAt + 1);
    var scan := QuoteScan(d + r, q, esc);
    assert |t.text| == if scan.closed then quoteAt + 2 + scan.len else |t.text + r|;
    if t.terminated {
      assert t.hi == quoteAt + 1 + scan.len;
      ClosingQuote(d, r, scan.len, q);
      assert t.text[t.lo..t.hi] == d[..scan.len];
    }
  }

  lemma {:induction false} ClosingQuote(d: string, r: string, k: nat, q: char)
    requires |d| == k + 1 && (d + r)[k] == q
    ensures d == d[..k] + [q]
  {
  }

  lemma {:induction false} QuotedClosed(kind: Kind, o: string, b: string, q: char, esc: bool, uni: bool, r: string)
    requires o != ""
    requires QuoteScan(b + [q] + r, q, esc) == Scan(|b|, true)
    ensures Quoted(kind, o + (b + [q]) + r, |o| - 1, q, esc, uni)
         == Lexeme(kind, o + (b + [q]), |o|, |o| + |b|, esc, uni, true)
  {
    hide QuoteScan;
    var d := b + [q];
    CutAppend(o + d, r, |o|);
    CutAppend(o + d, r, |o + d|);
    assert (o + d)[|o|..] == d;
  }

  lemma {:induction false} QuotedRefit(kind: Kind, t: Lexeme, quoteAt: nat, q: char, esc: bool, uni: bool, r: string, r': string)
    requires quoteAt < |t.text|
    requires Quoted(kind, t.text + r, quoteAt, q, esc, uni) == t
    requires r' == "" || (t.terminated && r'[0] != q)
    ensures Quoted(kind, t.text + r', quoteAt, q, esc, uni) == t
  {
    hide QuoteScan, Quoted;
    QuotedShape(kind, t, quoteAt, q, esc, uni, r);
    if t.terminated {
      var o, b := t.text[..t.lo], t.text[t.lo..t.hi];
      QuoteScanRefit(b, q, esc, r, r');
      QuotedClosed(kind, o, b, q, esc, uni, r');
      assert t.text == o + (b + [q]);
    } else {
      assert t.text + r == t.text == t.text + r';
    }
  }

  lemma {:induction false} QuotedEnds(kind: Kind, t: Lexeme, quoteAt: nat, q: char, esc: bool, uni: bool, r: string)
    requires quoteAt < |t.text| && r != ""
    requires Quoted(kind, t.text + r, quoteAt, q, esc, uni) == t
    ensures t.terminated && r[0] != q
  {
    hide QuoteScan, Quoted;
    QuotedShape(kind, t, quoteAt, q, esc, uni, r);
    NotDoubled(t.text[quoteAt + 1..t.hi], q, esc, r);
  }

  lemma {:induction false} NotDoubled(b: string, q: char, esc: bool, r: string)
    requires QuoteScan(b + [q] + r, q, esc) == Scan(|b|, true)
    ensures r == "" || r[0] != q
    decreases |b|
  {
    var s := b + [q] + r;
    if b != "" {
      var k := if b[0] == q || (esc && b[0] == '\\') then 2 else 1;
      assert s[k..] == b[k..] + [q] + r;
      NotDoubled(b[k..], q, esc, r);
    }
  }

  // Block comments

  lemma {:induction false} BlockRefit(a: string, depth: nat, r: string, r': string)
    requires BlockScan(a + r, depth) == Scan(|a|, true)
    ensures BlockScan(a + r', depth) == Scan(|a|, true)
    decreases |a|
  {
    var s, s' := a + r, a + r';
    assert |a| >= 2 && s[0] == s'[0] && s[1] == s'[1];
    if s[0] == '/' && s[1] == '*' {
      assert s[2..] == a[2..] + r && s'[2..] == a[2..] + r';
      BlockRefit(a[2..], depth + 1, r, r');
    } else if s[0] == '*' && s[1] == '/' {
      if depth > 1 {
        assert s[2..] == a[2..] + r && s'[2..] == a[2..] + r';
        BlockRefit(a[2..], depth - 1, r, r');
      }
    } else {
      assert s[1..] == a[1..] + r && s'[1..] == a[1..] + r';
      BlockRefit(a[1..], depth, r, r');
    }
  }

  // Dollar quotes

  lemma {:induction false} TagLenRefit(a: string, r: string, r': string)
    requires OpensDollar(a + ['$'] + r) && TagLen(a + ['$'] + r) == |a|
    ensures OpensDollar(a + ['$'] + r') && TagLen(a + ['$'] + r') == |a|
  {
    if a != "" {
      assert (a + ['$'] + r)[0] == a[0];
      assert a + ['$'] + r == a + (['$'] + r) && a + ['$'] + r' == a + (['$'] + r');
      RunRefit(IsTagCont, a, ['$'] + r, ['$'] + r');
    }
  }

  /** A dollar-quoted token's text is its tag, its body and, when closed, its tag. */
  /** The parts of a dollar-quoted constant, in the text that it starts. */
  lemma {:induction false} DollarParts(s: string, t: Lexeme)
    requires "$" <= s && t.kind == Dollar && DollarLexeme(s) == t
    ensures 2 <= t.lo <= t.hi <= |t.text| <= |s| && t.lo == TagLen(s[1..]) + 2 && OpensDollar(s[1..]) && !t.escapes && !t.unicode
    ensures t.text == s[..|t.text|] && t.lo <= |s|
    ensures t.terminated ==> t.hi == t.lo + Find(s[t.lo..], s[..t.lo]) && |t.text| == t.hi + t.lo
    ensures !t.terminated ==> t.text == s
  {
    hide Run, FindFrom, TagLen;
    var lo := TagLen(s[1..]) + 2;
    var k := Find(s[lo..], s[..lo]);
    if k >= 0 {
      assert At(s[lo..], s[..lo], k);
    }
  }

  lemma {:induction false} DollarShape(t: Lexeme, r: string)
    requires "$" <= t.text && t.kind == Dollar && DollarLexeme(t.text + r) == t
    ensures 2 <= t.lo <= t.hi <= |t.text|
    ensures !t.terminated ==> r == ""
    ensures TagLen(t.text[1..] + r) == t.lo - 2 && OpensDollar(t.text[1..] + r)
    ensures t.text[t.lo - 1] == '$' && !t.escapes && !t.unicode
    ensures t.terminated ==>
      && t.text[t.lo..] == t.text[t.lo..t.hi] + t.text[..t.lo]
      && Find(t.text[t.lo..t.hi] + t.text[..t.lo] + r, t.text[..t.lo]) == t.hi - t.lo
  {
    hide Run, Find, TagLen, DollarLexeme;
    var s := t.text + r;
    DollarParts(s, t);
    CutAppend(t.text, r, 1);
    CutAppend(t.text, r, t.lo);
    assert s[1..][t.lo - 2] == s[t.lo - 1] == t.text[t.lo - 1];
    if t.terminated {
      DollarBody(t.text, r, t.lo, t.hi);
    } else {
      assert |s| == |t.text| + |r|;
    }
  }

  lemma {:induction false} DollarBody(x: string, r: string, lo: nat, hi: nat)
    requires lo <= hi && |x| == hi + lo && lo > 0
    requires Find((x + r)[lo..], (x + r)[..lo]) == hi - lo
    ensures x[lo..] == x[lo..hi] + x[..lo] && Find(x[lo..hi] + x[..lo] + r, x[..lo]) == hi - lo
  {
    hide Find;
    var d, k := x[lo..], hi - lo;
    CutAppend(x, r, lo);
    assert At(d + r, x[..lo], k);
    assert (d + r)[k..k + lo] == d[k..];
    assert d == d[..k] + d[k..] && d[..k] == x[lo..hi];
  }

  function Tag(name: string): (tag: string)
    ensures |tag| == |name| + 2
  {
    ['$'] + name + ['$']
  }

  lemma {:induction false} DollarClosed(name: string, b: string, r: string)
    requires TagLen(name + ['$'] + r) == |name| && OpensDollar(name + ['$'] + r)
    requires Find(b + Tag(name) + r, Tag(name)) == |b|
    ensures DollarLexeme(Tag(name) + (b + Tag(name)) + r)
         == Lexeme(Dollar, Tag(name) + (b + Tag(name)), |name| + 2, |name| + 2 + |b|, false, false, true)
  {
    hide Run, Find;
    var tag := Tag(name);
    var s := tag + (b + tag) + r;
    assert s[1..] == name + ['$'] + (b + tag + r);
    TagLenRefit(name, r, b + tag + r);
    CutAppend(tag + (b + tag), r, |tag|);
    CutAppend(tag + (b + tag), r, |tag + (b + tag)|);
    assert (tag + (b + tag))[|tag|..] == b + tag && (tag + (b + tag))[..|tag|] == tag;
    assert name != "" ==> s[1] == name[0];
  }

  lemma {:induction false} DollarParamRefit(t: Lexeme, r: string, r': string)
    requires "$" <= t.text && t.kind == Other && DollarLexeme(t.text + r) == t
    requires Ends(t, r')
    ensures DollarLexeme(t.text + r') == t
  {
    hide Run, Find, BlockScan;
    var s, s' := t.text + r, t.text + r';
    CutAppend(t.text, r, 1);
    CutAppend(t.text, r', 1);
    if |s| > 1 && IsDigit(s[1]) {
      RunRefit(IsDigit, t.text[1..], r, r');
      CutAppend(t.text, r', |t.text|);
    } else {
      assert t.text == "$";
      assert s'[1..] == r';
    }
  }

  lemma {:induction false} DollarRefit(t: Lexeme, r: string, r': string)
    requires "$" <= t.text && t.kind == Dollar && DollarLexeme(t.text + r) == t
    requires Ends(t, r')
    ensures DollarLexeme(t.text + r') == t
  {
    hide Run, Find, TagLen, OpensDollar, DollarLexeme, BlockScan, Tag;
    DollarShape(t, r);
    if t.terminated {
      var tag, b, name := t.text[..t.lo], t.text[t.lo..t.hi], t.text[1..t.lo - 1];
      TagParts(t.text, t.lo);
      FindRefit(b, tag, r, r');
      assert t.text == tag + (b + tag) by { assert t.text == t.text[..t.lo] + t.text[t.lo..]; }
      DollarTail(t.text, name, b, r);
      TagLenRefit(name, b + tag + r, r');
      DollarClosed(name, b, r');
    } else {
      assert t.text + r == t.text == t.text + r';
    }
  }

  lemma {:induction false} TagParts(x: string, lo: nat)
    requires 2 <= lo <= |x| && x[0] == '$' && x[lo - 1] == '$'
    ensures x[..lo] == Tag(x[1..lo - 1])
  {
  }

  lemma {:induction false} DollarTail(text: string, name: string, b: string, r: string)
    requires text == Tag(name) + (b + Tag(name))
    ensures text[1..] + r == name + ['$'] + (b + Tag(name) + r)
  {
  }

  // Words

  lemma {:induction false} WordRefit(t: Lexeme, r: string, r': string)
    requires t.text != "" && IsIdentStart(t.text[0]) && WordLexeme(t.text + r) == t
    requires Ends(t, r')
    ensures WordLexeme(t.text + r') == t
  {
    hide WordLexeme;
    if t.kind == Ident {
      IdentRefit(t, r, r');
    } else {
      PrefixedRefit(t, r, r');
    }
  }

  lemma {:induction false} IdentRefit(t: Lexeme, r: string, r': string)
    requires t.text != "" && IsIdentStart(t.text[0]) && WordLexeme(t.text + r) == t
    requires Ends(t, r') && t.kind == Ident
    ensures WordLexeme(t.text + r') == t
  {
    hide Run, BlockScan, QuoteScan;
    var s' := t.text + r';
    RunRefit(IsIdentCont, t.text, r, r');
    CutAppend(t.text, r', |t.text|);
    assert |t.text| < |s'| ==> s'[|t.text|] == r'[0];
    assert |t.text| + 1 < |s'| ==> s'[|t.text| + 1] == r'[1];
  }

  lemma {:induction false} PrefixedRefit(t: Lexeme, r: string, r': string)
    requires t.text != "" && IsIdentStart(t.text[0]) && WordLexeme(t.text + r) == t
    requires Ends(t, r') && t.kind != Ident
    ensures WordLexeme(t.text + r') == t
  {
    hide Run, BlockScan, QuoteScan, Quoted;
    var s, s' := t.text + r, t.text + r';
    var j := Run(IsIdentCont, s);
    assert t.kind == Str && j < t.lo <= |t.text|;
    QuotedRefit(Str, t, t.lo - 1, '\'', t.escapes, t.unicode, r, r');
    SamePrefix(t.text, r, r', j);
    SameRun(t.text, r, r', j);
    assert s[j] == s'[j] && s[..j] == s'[..j];
    assert s[t.lo - 1] == s'[t.lo - 1];
  }

  lemma {:induction false} SamePrefix(a: string, r: string, r': string, j: nat)
    requires j <= |a|
    ensures (a + r)[..j] == (a + r')[..j]
    ensures forall i :: 0 <= i < |a| ==> (a + r)[i] == (a + r')[i]
  {
  }

  lemma {:induction false} SameRun(a: string, r: string, r': string, j: nat)
    requires j < |a| && Run(IsIdentCont, a + r) == j
    ensures Run(IsIdentCont, a + r') == j
  {
    hide Run;
    SamePrefix(a, r, r', j);
    RunIs(IsIdentCont, a + r', j);
  }

  // Every token

  /** A token stays the same token in any text that continues it as its kind allows. */
  lemma {:induction false} Refit(t: Lexeme, r: string, r': string)
    requires Fits(t, r) && Ends(t, r')
    ensures Fits(t, r')
  {
    hide Run, BlockScan, QuoteScan, Quoted, DollarLexeme, WordLexeme, OpensDollar, Ends;
    SamePrefix(t.text, r, r', |t.text|);
    assert (t.text + r)[0] == t.text[0] == (t.text + r')[0];
    var c := t.text[0];
    if c == '\'' {
      QuoteRefit(t, r, r');
    } else if c == '"' {
      QuoteRefit(t, r, r');
    } else if c == '$' {
      if t.kind == Other { DollarParamRefit(t, r, r'); } else { DollarRefit(t, r, r'); }
    } else if IsIdentStart(c) {
      WordRefit(t, r, r');
    } else {
      SimpleRefit(t, r, r');
    }
  }

  lemma {:induction false} QuoteRefit(t: Lexeme, r: string, r': string)
    requires Fits(t, r) && Ends(t, r')
    requires t.text[0] == '\'' || t.text[0] == '"'
    ensures Fits(t, r')
  {
    hide Run, BlockScan, QuoteScan, Quoted, DollarLexeme, WordLexeme, OpensDollar;
    var c := t.text[0];
    assert (t.text + r)[0] == c == (t.text + r')[0];
    QuotedRefit(if c == '"' then QuotedIdent else Str, t, 0, c, false, false, r, r');
  }

  /** Spaces, comments, operators and single characters. */
  lemma {:induction false} SimpleRefit(t: Lexeme, r: string, r': string)
    requires Fits(t, r) && Ends(t, r')
    requires var c := t.text[0]; c != '\'' && c != '"' && c != '$' && !IsIdentStart(c)
    ensures Fits(t, r')
  {
    hide Run, BlockScan, Quoted, DollarLexeme, WordLexeme, OpensDollar, First, Fits, Ends;
    FitsFirst(t, r);
    var s, c := t.text + r, t.text[0];
    assert s[0] == c;
    if |s| > 1 && c == '-' && s[1] == '-' {
      LineRefit(t, r, r');
    } else if |s| > 1 && c == '/' && s[1] == '*' {
      BlockCommentRefit(t, r, r');
    } else {
      ShortRefit(t, r, r');
    }
  }

  lemma {:induction false} LineRefit(t: Lexeme, r: string, r': string)
    requires Fits(t, r) && Ends(t, r') && t.text[0] == '-' && |t.text + r| > 1 && (t.text + r)[1] == '-'
    ensures Fits(t, r')
  {
    hide Run, BlockScan, Quoted, DollarLexeme, WordLexeme, OpensDollar;
    var s, s' := t.text + r, t.text + r';
    assert s[0] == t.text[0] == s'[0];
    CutAppend(t.text, r', |t.text|);
    RunAtLeast(t.text, r);
    assert s'[1] == t.text[1] == '-';
    RunRefit(NotNewline, t.text, r, r');
  }

  lemma {:induction false} BlockCommentRefit(t: Lexeme, r: string, r': string)
    requires Fits(t, r) && Ends(t, r') && t.text[0] == '/' && |t.text + r| > 1 && (t.text + r)[1] == '*'
    ensures Fits(t, r')
  {
    hide Run, BlockScan, Quoted, DollarLexeme, WordLexeme, OpensDollar;
    var s, s' := t.text + r, t.text + r';
    assert s[0] == t.text[0] == s'[0];
    CutAppend(t.text, r', |t.text|);
    BlockAtLeast(t.text, r);
    assert s'[1] == t.text[1] == '*';
    BlockWhole(t.text, r);
    assert t.text + "" == t.text;
    if r' != "" {
      BlockRefit(t.text, 0, "", r');
    }
  }

  /** What is read where no quote, word or comment starts. */
  lemma {:induction false} FirstShort(s: string)
    requires s != ""
    requires var c := s[0];
             && c != '\'' && c != '"' && c != '$' && !IsIdentStart(c)
             && !(|s| > 1 && ((c == '-' && s[1] == '-') || (c == '/' && s[1] == '*')))
    ensures First(s) ==
            if IsSpace(s[0]) then Plain(Space, s[..Run(IsSpace, s)])
            else if IsOpChar(s[0]) then Plain(Op, s[..Run(IsOpChar, s)])
            else Plain(Other, s[..1])
  {
    hide Run, BlockScan, Quoted, DollarLexeme, WordLexeme;
  }

  lemma {:induction false} ShortRefit(t: Lexeme, r: string, r': string)
    requires Fits(t, r) && Ends(t, r')
    requires var c, s := t.text[0], t.text + r;
             && c != '\'' && c != '"' && c != '$' && !IsIdentStart(c)
             && !(|s| > 1 && ((c == '-' && s[1] == '-') || (c == '/' && s[1] == '*')))
    ensures Fits(t, r')
  {
    hide Run, BlockScan, OpensDollar, First, Lower;
    var s, s', c := t.text + r, t.text + r', t.text[0];
    assert s[0] == c == s'[0];
    assert |t.text| > 1 ==> s'[1] == t.text[1] == s[1];
    assert |t.text| == 1 && r' != "" ==> s'[1] == r'[0];
    CutAppend(t.text, r', |t.text|);
    FirstShort(s);
    assert c == '-' || c == '/' ==> t.text == [c] by { assert s[..1] == [c]; }
    assert "-" == ['-'] && "/" == ['/'];
    FirstShort(s');
    if IsSpace(c) {
      RunRefit(IsSpace, t.text, r, r');
    } else if IsOpChar(c) {
      RunRefit(IsOpChar, t.text, r, r');
    } else {
      assert s'[..1] == [c] == t.text;
    }
  }

  lemma {:induction false} RunAtLeast(a: string, r: string)
    requires "--" <= a + r && Run(NotNewline, a + r) == |a|
    ensures |a| >= 2
  {
    var s := a + r;
    assert s[0] == s[1] == '-';
  }

  lemma {:induction false} BlockAtLeast(a: string, r: string)
    requires "/*" <= a + r && BlockScan(a + r, 0).len == |a|
    ensures |a| >= 2
  {
  }

  /** A block comment that is a whole text is read as a whole text. */
  lemma {:induction false} BlockWhole(a: string, r: string)
    requires BlockScan(a + r, 0).len == |a|
    ensures BlockScan(a + "", 0).len == |a|
  {
    hide BlockScan;
    var scan := BlockScan(a + r, 0);
    if scan.closed {
      BlockRefit(a, 0, r, "");
    } else {
      assert a + r == a + "";
    }
  }

  /** A token is followed by a text its kind allows. */
  lemma {:induction false} FitsEnds(t: Lexeme, r: string)
    requires Fits(t, r)
    ensures Ends(t, r)
  {
    hide Run, BlockScan, QuoteScan, Quoted, DollarLexeme, WordLexeme, OpensDollar;
    if r != "" {
      var s, c := t.text + r, t.text[0];
      assert s[0] == c && s[|t.text|] == r[0];
      if c == '\'' || c == '"' {
        QuotedEnds(if c == '"' then QuotedIdent else Str, t, 0, c, false, false, r);
      } else if c == '$' {
        DollarEnds(t, r);
      } else if IsIdentStart(c) {
        WordFitsEnds(t, r);
      } else if |s| > 1 && c == '/' && s[1] == '*' {
        BlockAtLeast(t.text, r);
        assert t.text[1] == '*';
        BlockRefit(t.text, 0, r, "");
        assert t.text + "" == t.text;
      } else if |s| > 1 && c == '-' && s[1] == '-' {
        RunAtLeast(t.text, r);
        assert t.text[..2] == "--";
      } else if !IsSpace(c) && !IsOpChar(c) {
        assert t.text == [c];
        assert s[1] == r[0];
      }
    }
  }

  lemma {:induction false} DollarEnds(t: Lexeme, r: string)
    requires "$" <= t.text && r != "" && DollarLexeme(t.text + r) == t
    ensures Ends(t, r)
  {
    hide Run, BlockScan, Find, TagLen;
    var s := t.text + r;
    CutAppend(t.text, r, 1);
    if t.kind == Dollar {
      DollarShape(t, r);
    } else if |s| > 1 && IsDigit(s[1]) {
      assert s[1..][|t.text| - 1] == r[0];
      assert t.text != "$";
    } else {
      assert t.text == "$" && s[1..] == r;
    }
  }

  lemma {:induction false} WordFitsEnds(t: Lexeme, r: string)
    requires t.text != "" && r != "" && IsIdentStart(t.text[0]) && WordLexeme(t.text + r) == t
    ensures Ends(t, r)
  {
    hide Run, BlockScan, QuoteScan, Quoted;
    var s, n := t.text + r, |t.text|;
    if t.kind == Ident {
      CutAppend(t.text, r, n);
      assert s[n] == r[0] && (|r| > 1 ==> s[n + 1] == r[1]);
    } else {
      var j := Run(IsIdentCont, s);
      assert t.kind == Str && j < t.lo <= n;
      QuotedEnds(Str, t, t.lo - 1, '\'', t.escapes, t.unicode, r);
    }
  }
}
