/**
 The lexer as pkg/sqlredact/redact.go runs it: one pass with indexes into the statement. Every
 method is proved to find exactly the tokens of `SqlLexer`, in their places.
 */
module SqlLexing {
  import opened Text
  import opened SqlLexer

  /** A token by its place in the statement; the body's place is kept for delimited tokens. */
  datatype Token = Token(kind: Kind, start: nat, end: nat, bodyStart: nat, bodyEnd: nat,
                         escapes: bool, unicode: bool, terminated: bool, tag: string)

  predicate HasBody(kind: Kind) { kind == Str || kind == Dollar || kind == QuotedIdent }

  /** The token at position `i` of a statement that has the lexeme `x` there. */
  function Place(x: Lexeme, i: nat): Token {
    Token(x.kind, i, i + |x.text|,
          if HasBody(x.kind) then i + x.lo else 0, if HasBody(x.kind) then i + x.hi else 0,
          x.escapes, x.unicode, x.terminated,
          if x.kind == Dollar && x.lo <= |x.text| then x.text[..x.lo] else "")
  }

  function PlaceAll(xs: seq<Lexeme>, i: nat): seq<Token>
    decreases |xs|
  {
    if xs == [] then [] else [Place(xs[0], i)] + PlaceAll(xs[1..], i + |xs[0].text|)
  }

  function Simple(kind: Kind, start: nat, end: nat): Token {
    Token(kind, start, end, 0, 0, false, false, false, "")
  }

  /** The end of the run of characters satisfying `p` that starts at `i`. */
  method SkipRun(query: string, i: nat, p: char -> bool) returns (j: nat)
    requires i <= |query|
    ensures j == i + Run(p, query[i..])
  {
    j := i;
    while j < |query| && p(query[j])
      invariant i <= j <= |query|
      invariant forall k :: i <= k < j ==> p(query[k])
    {
      j := j + 1;
    }
    RunIs(p, query[i..], j - i);
  }

  /** One step of reading a block comment, at position `i`. */
  lemma {:induction false} BlockStep(query: string, i: nat, depth: nat)
    requires i < |query|
    ensures var scan := BlockScan(query[i..], depth);
            if i + 1 < |query| && query[i] == '/' && query[i + 1] == '*' then
              scan == Shift(2, BlockScan(query[i + 2..], depth + 1))
            else if i + 1 < |query| && query[i] == '*' && query[i + 1] == '/' then
              scan == (if depth <= 1 then Scan(2, true) else Shift(2, BlockScan(query[i + 2..], depth - 1)))
            else scan == Shift(1, BlockScan(query[i + 1..], depth))
  {
    var rest := query[i..];
    assert rest[1..] == query[i + 1..];
    assert i + 1 < |query| ==> rest[2..] == query[i + 2..];
  }

  method LexBlockComment(query: string, start: nat) returns (t: Token)
    requires start + 2 <= |query| && query[start] == '/' && query[start + 1] == '*'
    ensures t == Simple(Comment, start, start + BlockScan(query[start..], 0).len)
  {
    hide BlockScan;
    var n, depth, i := |query|, 0, start;
    while i < n
      invariant start <= i <= n && 0 <= depth
      invariant if i > start then depth >= 1 else depth == 0
      invariant BlockScan(query[start..], 0) == Shift(i - start, BlockScan(query[i..], depth))
    {
      BlockStep(query, i, depth);
      if i + 1 < n && query[i] == '/' && query[i + 1] == '*' {
        depth := depth + 1;
        i := i + 2;
      } else if i + 1 < n && query[i] == '*' && query[i + 1] == '/' {
        depth := depth - 1;
        i := i + 2;
        if depth == 0 {
          return Simple(Comment, start, i);
        }
      } else {
        i := i + 1;
      }
    }
    t := Simple(Comment, start, n);
  }

  /** One step of reading a quoted text, at position `i`. */
  lemma {:induction false} QuoteStep(query: string, i: nat, q: char, esc: bool)
    requires i < |query|
    ensures var scan := QuoteScan(query[i..], q, esc);
            if query[i] == q then
              scan == (if i + 1 < |query| && query[i + 1] == q then Shift(2, QuoteScan(query[i + 2..], q, esc)) else Scan(0, true))
            else if esc && query[i] == '\\' then
              scan == (if i + 1 == |query| then Scan(1, false) else Shift(2, QuoteScan(query[i + 2..], q, esc)))
            else scan == Shift(1, QuoteScan(query[i + 1..], q, esc))
  {
    var rest := query[i..];
    assert rest[1..] == query[i + 1..];
    assert i + 1 < |query| ==> rest[2..] == query[i + 2..];
  }

  method LexString(query: string, start: nat, quote: nat, escapes: bool) returns (t: Token)
    requires start <= quote < |query|
    ensures t == Place(Quoted(Str, query[start..], quote - start, '\'', escapes, false), start)
  {
    hide QuoteScan, Quoted, Place;
    var n, i := |query|, quote + 1;
    ghost var all := QuoteScan(query[quote + 1..], '\'', escapes);
    StringPlaced(query, start, quote, escapes);
    while i < n
      invariant quote < i <= n + 1
      invariant i <= n ==> all == Shift(i - quote - 1, QuoteScan(query[i..], '\'', escapes))
      invariant i == n + 1 ==> all == Scan(n - quote - 1, false)
    {
      QuoteStep(query, i, '\'', escapes);
      if query[i] == '\'' && i + 1 < n && query[i + 1] == '\'' {
        i := i + 2;
      } else if query[i] == '\'' {
        return Token(Str, start, i + 1, quote + 1, i, escapes, false, true, "");
      } else if escapes && query[i] == '\\' {
        i := i + 2;
      } else {
        i := i + 1;
      }
    }
    assert i == n ==> !all.closed;
    t := Token(Str, start, n, quote + 1, n, escapes, false, false, "");
  }

  /** The token of a string, from the reading of its body. */
  lemma {:induction false} StringPlaced(query: string, start: nat, quote: nat, escapes: bool)
    requires start <= quote < |query|
    ensures var all := QuoteScan(query[quote + 1..], '\'', escapes);
            Place(Quoted(Str, query[start..], quote - start, '\'', escapes, false), start) ==
            if all.closed then Token(Str, start, quote + 1 + all.len + 1, quote + 1, quote + 1 + all.len, escapes, false, true, "")
            else Token(Str, start, |query|, quote + 1, |query|, escapes, false, false, "")
  {
    hide QuoteScan;
    assert query[start..][quote - start + 1..] == query[quote + 1..];
  }

  method LexQuotedIdent(query: string, start: nat) returns (t: Token)
    requires start < |query| && query[start] == '"'
    ensures t == Place(Quoted(QuotedIdent, query[start..], 0, '"', false, false), start)
  {
    hide QuoteScan;
    var n, i := |query|, start + 1;
    ghost var all := QuoteScan(query[start + 1..], '"', false);
    assert query[start..][1..] == query[start + 1..];
    while i < n
      invariant start < i <= n
      invariant all == Shift(i - start - 1, QuoteScan(query[i..], '"', false))
    {
      QuoteStep(query, i, '"', false);
      if query[i] == '"' {
        if i + 1 < n && query[i + 1] == '"' {
          i := i + 2;
          continue;
        }
        return Token(QuotedIdent, start, i + 1, start + 1, i, false, false, true, "");
      }
      i := i + 1;
    }
    t := Token(QuotedIdent, start, n, start + 1, n, false, false, false, "");
  }

  method LexDollar(query: string, start: nat) returns (t: Token)
    requires start < |query| && query[start] == '$'
    ensures t == Place(DollarLexeme(query[start..]), start)
  {
    hide Run, FindFrom;
    var n, j := |query|, start + 1;
    ghost var s := query[start..];
    assert s[1..] == query[start + 1..];
    if j < n && IsDigit(query[j]) {
      j := SkipRun(query, j, IsDigit);
      return Simple(Other, start, j);
    }
    if j < n && IsIdentStart(query[j]) {
      j := SkipRun(query, j, IsTagCont);
    }
    assert j == start + 1 + TagLen(s[1..]);
    if j >= n || query[j] != '$' {
      return Simple(Other, start, start + 1);
    }
    var tag := query[start..j + 1];
    var k := Find(query[j + 1..], tag);
    DollarPlaced(query, start, j);
    if k >= 0 {
      assert At(query[j + 1..], tag, k);
      t := Token(Dollar, start, j + 1 + k + |tag|, j + 1, j + 1 + k, false, false, true, tag);
    } else {
      t := Token(Dollar, start, n, j + 1, n, false, false, false, tag);
    }
  }

  /** A dollar quote whose tag ends at `j`. */
  lemma {:induction false} DollarPlaced(query: string, start: nat, j: nat)
    requires start < j < |query| && query[start] == '$' && query[j] == '$' && !IsDigit(query[start + 1])
    requires j == start + 1 + TagLen(query[start..][1..])
    ensures var tag, k := query[start..j + 1], Find(query[j + 1..], query[start..j + 1]);
            Place(DollarLexeme(query[start..]), start) ==
              if k >= 0 then Token(Dollar, start, j + 1 + k + |tag|, j + 1, j + 1 + k, false, false, true, tag)
              else Token(Dollar, start, |query|, j + 1, |query|, false, false, false, tag)
  {
    hide TagLen, FindFrom;
    var s, lo := query[start..], j + 1 - start;
    assert s[1..][j - start - 1] == '$';
    assert s[lo..] == query[j + 1..] && s[..lo] == query[start..j + 1];
    var x := DollarLexeme(s);
    assert x.lo == lo;
    assert x.text[..lo] == s[..lo];
  }

  method LexIdentOrPrefixedString(query: string, start: nat) returns (t: Token)
    requires start < |query| && IsIdentStart(query[start])
    ensures t == Place(WordLexeme(query[start..]), start)
  {
    hide Run, QuoteScan, Quoted;
    var n := |query|;
    var j := SkipRun(query, start, IsIdentCont);
    var word := Lower(query[start..j]);
    ghost var s := query[start..];
    assert s[..j - start] == query[start..j];
    if j < n && query[j] == '\'' {
      if word == "e" {
        t := LexString(query, start, j, true);
        return;
      }
      if word == "b" || word == "x" || word == "n" {
        t := LexString(query, start, j, false);
        return;
      }
    }
    if word == "u" && j + 1 < n && query[j] == '&' && query[j + 1] == '\'' {
      t := LexString(query, start, j + 1, false);
      QuotedUnicode(s, j + 1 - start);
      t := t.(unicode := true);
      return;
    }
    t := Simple(Ident, start, j);
  }

  lemma {:induction false} QuotedUnicode(s: string, at: nat)
    requires at < |s|
    ensures Quoted(Str, s, at, '\'', false, true) == Quoted(Str, s, at, '\'', false, false).(unicode := true)
  {
  }

  /** Splits a statement into its tokens. */
  method LexAll(query: string) returns (toks: seq<Token>)
    ensures toks == PlaceAll(Lex(query), 0)
  {
    hide First, Lex, PlaceAll, Place;
    toks := [];
    var n, i := |query|, 0;
    LexBegin(query);
    while i < n
      invariant 0 <= i <= n
      invariant toks + PlaceAll(Lex(query[i..]), i) == PlaceAll(Lex(query), 0)
    {
      var t := LexToken(query, i);
      LexNext(query, i, toks);
      toks := toks + [t];
      i := t.end;
    }
    LexEnd(query, toks);
  }

  lemma {:induction false} LexBegin(query: string)
    ensures [] + PlaceAll(Lex(query[0..]), 0) == PlaceAll(Lex(query), 0)
  {
    hide Lex, PlaceAll;
    assert query[0..] == query;
  }

  lemma {:induction false} LexEnd(query: string, toks: seq<Token>)
    ensures toks + PlaceAll(Lex(query[|query|..]), |query|) == toks
  {
    assert Lex(query[|query|..]) == [];
  }

  /** The next token joins those read. */
  lemma {:induction false} LexNext(query: string, i: nat, toks: seq<Token>)
    requires i < |query|
    ensures var x := First(query[i..]);
            && i + |x.text| <= |query| && x.text != "" && Place(x, i).end == i + |x.text|
            && toks + PlaceAll(Lex(query[i..]), i) == (toks + [Place(x, i)]) + PlaceAll(Lex(query[i + |x.text|..]), i + |x.text|)
  {
    hide First, Lex, PlaceAll;
    LexStep(query, i);
  }

  lemma {:induction false} LexStep(query: string, i: nat)
    requires i < |query|
    ensures var x := First(query[i..]);
            && i + |x.text| <= |query|
            && PlaceAll(Lex(query[i..]), i) == [Place(x, i)] + PlaceAll(Lex(query[i + |x.text|..]), i + |x.text|)
  {
    hide First, Place, PlaceAll;
    var s := query[i..];
    var x := First(s);
    assert s[|x.text|..] == query[i + |x.text|..];
    PlaceCons(x, Lex(s[|x.text|..]), i);
  }

  lemma {:induction false} PlaceCons(x: Lexeme, xs: seq<Lexeme>, i: nat)
    ensures PlaceAll([x] + xs, i) == [Place(x, i)] + PlaceAll(xs, i + |x.text|)
  {
    hide Place;
    assert ([x] + xs)[1..] == xs;
  }

  /** The token at position `i`. */
  method LexToken(query: string, i: nat) returns (t: Token)
    requires i < |query|
    ensures t == Place(First(query[i..]), i)
  {
    hide Run, BlockScan, QuoteScan, DollarLexeme, WordLexeme;
    var n, c := |query|, query[i];
    ghost var s := query[i..];
    if IsSpace(c) {
      var j := SkipRun(query, i, IsSpace);
      t := Simple(Space, i, j);
    } else if c == '-' && i + 1 < n && query[i + 1] == '-' {
      var j := SkipRun(query, i, NotNewline);
      t := Simple(Comment, i, j);
    } else if c == '/' && i + 1 < n && query[i + 1] == '*' {
      t := LexBlockComment(query, i);
    } else if c == '\'' {
      t := LexString(query, i, i, false);
    } else if c == '"' {
      t := LexQuotedIdent(query, i);
    } else if c == '$' {
      t := LexDollar(query, i);
    } else if IsIdentStart(c) {
      t := LexIdentOrPrefixedString(query, i);
    } else if IsOpChar(c) {
      var j := SkipRun(query, i, IsOpChar);
      t := Simple(Op, i, j);
    } else {
      t := Simple(Other, i, i + 1);
    }
  }
}
