/**
 The tokens of a statement, described by their characters.
 */
module SqlTokens {
  import opened Text
  import opened Spelling
  import opened SqlLexer
  import opened SqlBoundary
  import opened SqlChain
  import opened SqlRedact
  import SqlGate
  import SqlRelex

  // Characters, by their codes

  /** A tab, a line feed, a vertical tab, a form feed, a carriage return or a space. */
  predicate IsBlank(c: char) { var x := c as int; 9 <= x <= 13 || x == 32 }

  /** A letter, an underscore or a byte from 0x80 on. */
  predicate StartsWord(c: char) { var x := c as int; 65 <= x <= 90 || 97 <= x <= 122 || x == 95 || x >= 128 }

  predicate InTag(c: char) { StartsWord(c) || IsDecimal(c) }

  predicate InWord(c: char) { InTag(c) || c as int == 36 }

  predicate InOperator(c: char) { c in "=<>:!" }

  predicate NoBreak(c: char) { c as int != 10 }

  lemma {:induction false} ClassesAre(c: char)
    ensures IsSpace(c) <==> IsBlank(c)
    ensures IsDigit(c) <==> IsDecimal(c)
    ensures IsIdentStart(c) <==> StartsWord(c)
    ensures IsTagCont(c) <==> InTag(c)
    ensures IsIdentCont(c) <==> InWord(c)
    ensures IsOpChar(c) <==> InOperator(c)
    ensures NotNewline(c) <==> NoBreak(c)
  {
  }

  /** The longest stretch of such characters at the start of the text has `n` of them. */
  predicate IsRun(p: char -> bool, s: string, n: nat) {
    n <= |s| && (forall i :: 0 <= i < n ==> p(s[i])) && (n < |s| ==> !p(s[n]))
  }

  // Block comments

  /** The two characters at `i` are these. */
  predicate Mark(s: string, i: nat, a: char, b: char) { i + 1 < |s| && s[i] == a && s[i + 1] == b }

  /** From `i` to `j` there are whole comments and characters that open or close none. */
  ghost predicate Inside(s: string, i: nat, j: nat)
    decreases |s| - i, 1
  {
    i <= j <= |s| &&
    (|| i == j
     || (i < |s| && !Mark(s, i, '/', '*') && !Mark(s, i, '*', '/') && Inside(s, i + 1, j))
     || exists k: nat :: i < k <= j && IsComment(s, i, k) && Inside(s, k, j))
  }

  /** A comment, with those inside it, goes from `i` to `j`. */
  ghost predicate IsComment(s: string, i: nat, j: nat)
    decreases |s| - i, 0
  {
    i + 4 <= j <= |s| && Mark(s, i, '/', '*') && Mark(s, j - 2, '*', '/') && Inside(s, i + 2, j - 2)
  }

  /** Nothing inside changes how deep the scan is. */
  lemma {:induction false} InsideScan(s: string, i: nat, j: nat, depth: nat)
    requires Inside(s, i, j) && depth > 0
    ensures BlockScan(s[i..], depth) == Shift(j - i, BlockScan(s[j..], depth))
    decreases |s| - i, 1
  {
    hide BlockScan;
    if i < j {
      BlockStep(s, i, depth);
      if !Mark(s, i, '/', '*') && !Mark(s, i, '*', '/') {
        InsideScan(s, i + 1, j, depth);
      } else {
        var k: nat :| i < k <= j && IsComment(s, i, k) && Inside(s, k, j);
        CommentScan(s, i, k, depth);
        InsideScan(s, k, j, depth);
      }
    }
  }

  lemma {:induction false} CommentScan(s: string, i: nat, k: nat, depth: nat)
    requires IsComment(s, i, k)
    ensures BlockScan(s[i..], depth) == if depth == 0 then Scan(k - i, true) else Shift(k - i, BlockScan(s[k..], depth))
    decreases |s| - i, 0
  {
    hide BlockScan;
    BlockStep(s, i, depth);
    InsideScan(s, i + 2, k - 2, depth + 1);
    BlockStep(s, k - 2, depth + 1);
  }

  lemma {:induction false} BlockStep(s: string, i: nat, depth: nat)
    requires i <= |s|
    ensures BlockScan(s[i..], depth) ==
            if i == |s| then Scan(0, false)
            else if Mark(s, i, '/', '*') then Shift(2, BlockScan(s[i + 2..], depth + 1))
            else if Mark(s, i, '*', '/') then
              if depth <= 1 then Scan(2, true) else Shift(2, BlockScan(s[i + 2..], depth - 1))
            else Shift(1, BlockScan(s[i + 1..], depth))
  {
    var u := s[i..];
    assert i < |s| ==> u[0] == s[i] && u[1..] == s[i + 1..];
    assert i + 1 < |s| ==> u[1] == s[i + 1] && u[2..] == s[i + 2..];
  }

  /** Where the scan leaves the depth it is at, if it does. */
  lemma {:induction false} ScanLeaves(s: string, i: nat, depth: nat) returns (j: nat)
    requires i <= |s| && depth > 0 && BlockScan(s[i..], depth).closed
    ensures i <= j && Inside(s, i, j) && Mark(s, j, '*', '/')
    ensures BlockScan(s[i..], depth) ==
            Shift(j + 2 - i, if depth == 1 then Scan(0, true) else BlockScan(s[j + 2..], depth - 1))
    decreases |s| - i
  {
    hide BlockScan;
    BlockStep(s, i, depth);
    if Mark(s, i, '*', '/') {
      j := i;
    } else if Mark(s, i, '/', '*') {
      var k := ScanLeaves(s, i + 2, depth + 1);
      assert IsComment(s, i, k + 2);
      j := ScanLeaves(s, k + 2, depth);
    } else {
      j := ScanLeaves(s, i + 1, depth);
    }
  }

  /** The scan ends where the comment does, and only a comment without an end takes the whole text. */
  lemma {:induction false} CommentExactly(s: string, n: nat)
    requires "/*" <= s
    ensures BlockScan(s, 0).closed && BlockScan(s, 0).len == n <==> IsComment(s, 0, n)
  {
    hide BlockScan;
    assert s[0..] == s;
    if IsComment(s, 0, n) {
      CommentScan(s, 0, n, 0);
    }
    if BlockScan(s, 0).closed {
      BlockStep(s, 0, 0);
      var j := ScanLeaves(s, 2, 1);
    }
  }

  // Quoted text

  /** The content of quoted text: a quote only doubled and, with `esc`, a backslash only with what follows it. */
  predicate IsContent(b: string, quote: char, esc: bool) {
    || b == ""
    || (if b[0] == quote then |b| > 1 && b[1] == quote && IsContent(b[2..], quote, esc)
        else if esc && b[0] == '\\' then |b| > 1 && IsContent(b[2..], quote, esc)
        else IsContent(b[1..], quote, esc))
  }

  /** The closing quote is at `n`. */
  predicate ClosesAt(s: string, n: nat, quote: char, esc: bool) {
    n < |s| && s[n] == quote && (n + 1 < |s| ==> s[n + 1] != quote) && IsContent(s[..n], quote, esc)
  }

  lemma {:induction false} ClosesExactly(s: string, n: nat, quote: char, esc: bool)
    ensures QuoteScan(s, quote, esc) == Scan(n, true) <==> ClosesAt(s, n, quote, esc)
    decreases |s|
  {
    if s != "" {
      var k := if s[0] == quote || (esc && s[0] == '\\') then 2 else 1;
      if s[0] == quote && !(|s| > 1 && s[1] == quote) {
        assert s[..0] == "";
        if n > 0 {
          assert n < |s| ==> s[..n][0] == quote;
          assert 1 < n < |s| ==> s[..n][1] == s[1];
        }
      } else if |s| >= k && n >= k {
        ClosesExactly(s[k..], n - k, quote, esc);
        PrefixContent(s, n, k);
      } else if n == 1 < |s| {
        assert s[..1] == [s[0]];
      }
    }
  }

  lemma {:induction false} PrefixContent(s: string, n: nat, k: nat)
    requires k <= n && k <= |s|
    ensures n <= |s| ==> s[..n][k..] == s[k..][..n - k] && forall i :: 0 <= i < n ==> s[..n][i] == s[i]
  {
  }

  // Tokens

  /** The number of characters in front of the body of a constant that opens here; 0 if none does. */
  function Opening(s: string): nat {
    if |s| >= 1 && s[0] == '\'' then 1
    else if |s| >= 2 && s[0] in "eEbBxXnN" && s[1] == '\'' then 2
    else if |s| >= 3 && s[0] in "uU" && s[1] == '&' && s[2] == '\'' then 3
    else 0
  }

  /** A dollar sign, a word without dollar signs or nothing, and a dollar sign. */
  predicate IsTag(tag: string) {
    && |tag| >= 2 && tag[0] == '$' && tag[|tag| - 1] == '$'
    && (|tag| > 2 ==> StartsWord(tag[1])) && forall i :: 1 <= i < |tag| - 1 ==> InTag(tag[i])
  }

  ghost predicate HasTag(s: string) { exists n :: 2 <= n <= |s| && IsTag(s[..n]) }

  predicate IsPlain(t: Lexeme, kind: Kind) {
    t.kind == kind && t.lo == 0 && t.hi == 0 && !t.escapes && !t.unicode && !t.terminated
  }

  ghost predicate IsQuoted(s: string, t: Lexeme, kind: Kind, o: nat, quote: char, esc: bool, uni: bool)
    requires o <= |s|
  {
    && t.kind == kind && t.lo == o && t.escapes == esc && t.unicode == uni && t.lo <= t.hi
    && if t.terminated then |t.text| == t.hi + 1 && ClosesAt(s[o..], t.hi - o, quote, esc)
       else t.text == s && t.hi == |s| && forall n: nat :: !ClosesAt(s[o..], n, quote, esc)
  }

  /** The tag opens at the start and ends at its first place behind it. */
  ghost predicate IsDollar(s: string, t: Lexeme) {
    && t.kind == Dollar && !t.escapes && !t.unicode && 2 <= t.lo <= t.hi <= |t.text| <= |s| && IsTag(s[..t.lo])
    && (forall k :: t.lo <= k < t.hi ==> !At(s, s[..t.lo], k))
    && if t.terminated then |t.text| == t.hi + t.lo && At(s, s[..t.lo], t.hi) else t.text == s && t.hi == |s|
  }

  /** The token at the start of a text, in the order in which its characters decide. */
  ghost predicate Reads(s: string, t: Lexeme)
    requires s != ""
  {
    var n := |t.text|;
    t.text <= s &&
    if IsBlank(s[0]) then IsPlain(t, Space) && IsRun(IsBlank, s, n)
    else if Mark(s, 0, '-', '-') then IsPlain(t, Comment) && IsRun(NoBreak, s, n)
    else if Mark(s, 0, '/', '*') then
      IsPlain(t, Comment) && (IsComment(s, 0, n) || (n == |s| && forall m: nat :: !IsComment(s, 0, m)))
    else if Opening(s) > 0 then IsQuoted(s, t, Str, Opening(s), '\'', s[0] in "eE", s[0] in "uU")
    else if s[0] == '"' then IsQuoted(s, t, QuotedIdent, 1, '"', false, false)
    else if StartsWord(s[0]) then IsPlain(t, Ident) && IsRun(InWord, s, n)
    else if InOperator(s[0]) then IsPlain(t, Op) && IsRun(InOperator, s, n)
    else if HasTag(s) then IsDollar(s, t)
    else if s[0] == '$' && |s| > 1 && IsDecimal(s[1]) then IsPlain(t, Other) && n > 1 && IsRun(IsDecimal, s[1..], n - 1)
    else IsPlain(t, Other) && n == 1
  }

  // The lexer reads so

  lemma {:induction false} RunExactly(p: char -> bool, q: char -> bool, s: string)
    requires forall c :: p(c) <==> q(c)
    ensures IsRun(q, s, Run(p, s))
  {
  }

  lemma {:induction false} BlankReads(s: string)
    requires s != "" && IsBlank(s[0])
    ensures Reads(s, First(s))
  {
    hide Run, BlockScan, Quoted, DollarLexeme, WordLexeme, Opening, HasTag, IsQuoted;
    ClassesAre(s[0]);
    forall c ensures IsSpace(c) <==> IsBlank(c) { ClassesAre(c); }
    RunExactly(IsSpace, IsBlank, s);
  }

  lemma {:induction false} CommentReads(s: string)
    requires Mark(s, 0, '-', '-') || Mark(s, 0, '/', '*')
    ensures Reads(s, First(s))
  {
    hide Run, BlockScan, Quoted, DollarLexeme, WordLexeme, Opening, HasTag, IsQuoted, IsComment;
    ClassesAre(s[0]);
    if Mark(s, 0, '-', '-') {
      forall c ensures NotNewline(c) <==> NoBreak(c) { ClassesAre(c); }
      RunExactly(NotNewline, NoBreak, s);
    } else {
      assert s[..2] == "/*";
      forall m: nat ensures BlockScan(s, 0).closed && BlockScan(s, 0).len == m <==> IsComment(s, 0, m) {
        CommentExactly(s, m);
      }
    }
  }

  lemma {:induction false} QuotedReads(s: string, kind: Kind, o: nat, quote: char, esc: bool, uni: bool)
    requires 0 < o <= |s|
    ensures IsQuoted(s, Quoted(kind, s, o - 1, quote, esc, uni), kind, o, quote, esc, uni)
  {
    hide QuoteScan, ClosesAt;
    var scan := QuoteScan(s[o..], quote, esc);
    forall n: nat ensures scan == Scan(n, true) <==> ClosesAt(s[o..], n, quote, esc) {
      ClosesExactly(s[o..], n, quote, esc);
    }
    if scan.closed {
      assert scan == Scan(scan.len, true);
    }
  }

  /** Which constants have a letter in front of them. */
  lemma {:induction false} OpeningIs(s: string)
    requires s != "" && StartsWord(s[0])
    ensures var o := Opening(s);
            WordLexeme(s) ==
            if o > 0 then Quoted(Str, s, o - 1, '\'', s[0] in "eE", s[0] in "uU") else Plain(Ident, s[..Run(IsIdentCont, s)])
  {
    hide Run, Quoted, Lower;
    var j := Run(IsIdentCont, s);
    ClassesAre(s[0]);
    WordIs(s, j, 'e', 'E');
    WordIs(s, j, 'b', 'B');
    WordIs(s, j, 'x', 'X');
    WordIs(s, j, 'n', 'N');
    WordIs(s, j, 'u', 'U');
    if Opening(s) > 0 {
      RunIs(IsIdentCont, s, 1);
    }
  }

  lemma {:induction false} WordIs(s: string, j: nat, small: char, large: char)
    requires 0 < j <= |s| && 'a' <= small <= 'z' && large as int == small as int - 32
    ensures Lower(s[..j]) == [small] <==> j == 1 && (s[0] == small || s[0] == large)
  {
    var w := Lower(s[..j]);
    assert w[0] == LowerChar(s[0]);
    if j == 1 {
      assert w == [w[0]];
    }
  }

  lemma {:induction false} ConstantReads(s: string)
    requires Opening(s) > 0
    ensures Reads(s, First(s))
  {
    hide Run, BlockScan, Quoted, DollarLexeme, WordLexeme, HasTag, IsQuoted, IsComment;
    ClassesAre(s[0]);
    QuotedReads(s, Str, Opening(s), '\'', s[0] in "eE", s[0] in "uU");
    if s[0] != '\'' {
      OpeningIs(s);
    }
  }

  lemma {:induction false} WordReads(s: string)
    requires s != "" && StartsWord(s[0]) && Opening(s) == 0
    ensures Reads(s, First(s))
  {
    hide Run, BlockScan, Quoted, DollarLexeme, WordLexeme, Opening, HasTag, IsQuoted, IsComment;
    ClassesAre(s[0]);
    OpeningIs(s);
    forall c ensures IsIdentCont(c) <==> InWord(c) { ClassesAre(c); }
    RunExactly(IsIdentCont, InWord, s);
  }

  lemma {:induction false} OperatorReads(s: string)
    requires s != "" && InOperator(s[0])
    ensures Reads(s, First(s))
  {
    hide Run, BlockScan, Quoted, DollarLexeme, WordLexeme, HasTag, IsQuoted, IsComment;
    ClassesAre(s[0]);
    forall c ensures IsOpChar(c) <==> InOperator(c) { ClassesAre(c); }
    RunExactly(IsOpChar, InOperator, s);
  }

  lemma {:induction false} QuotedNameReads(s: string)
    requires s != "" && s[0] == '"'
    ensures Reads(s, First(s))
  {
    hide Run, BlockScan, Quoted, DollarLexeme, WordLexeme, HasTag, IsQuoted, IsComment;
    ClassesAre(s[0]);
    QuotedReads(s, QuotedIdent, 1, '"', false, false);
  }

  /** A tag at the start of a text. */
  lemma {:induction false} TagIs(s: string)
    requires s != "" && s[0] == '$'
    ensures OpensDollar(s[1..]) ==> TagLen(s[1..]) + 2 <= |s| && IsTag(s[..TagLen(s[1..]) + 2])
    ensures forall n :: 2 <= n <= |s| && IsTag(s[..n]) ==> OpensDollar(s[1..]) && n == TagLen(s[1..]) + 2
  {
    hide Run, IsTagCont, InTag, IsIdentStart, StartsWord;
    var r := s[1..];
    forall c ensures (IsTagCont(c) <==> InTag(c)) && (IsIdentStart(c) <==> StartsWord(c)) { ClassesAre(c); }
    assert !InTag('$') && !StartsWord('$') by { DollarApart(); }
    assert forall i :: 0 <= i < |r| ==> r[i] == s[i + 1];
    forall n | 2 <= n <= |s| && IsTag(s[..n]) ensures OpensDollar(r) && n == TagLen(r) + 2 {
      var tag := s[..n];
      assert forall i :: 0 <= i < n ==> tag[i] == s[i];
      if n > 2 {
        RunIs(IsTagCont, r, n - 2);
      }
    }
  }

  lemma {:induction false} DollarApart()
    ensures !InTag('$') && !StartsWord('$')
  {
  }

  /** Places behind the tag, counted from the start. */
  lemma {:induction false} PlacesBehind(s: string, lo: nat, f: string)
    requires lo <= |s|
    ensures forall k: nat :: At(s[lo..], f, k) <==> At(s, f, lo + k)
  {
    forall k: nat ensures At(s[lo..], f, k) <==> At(s, f, lo + k) {
      if lo + k + |f| <= |s| {
        assert s[lo..][k..k + |f|] == s[lo + k..lo + k + |f|];
      }
    }
  }

  lemma {:induction false} DollarIs(s: string)
    requires s != "" && s[0] == '$' && OpensDollar(s[1..]) && !(|s| > 1 && IsDigit(s[1]))
    ensures IsDollar(s, DollarLexeme(s))
  {
    hide Find, TagLen, OpensDollar, IsTag;
    TagIs(s);
    var lo := TagLen(s[1..]) + 2;
    PlacesBehind(s, lo, s[..lo]);
    var k := Find(s[lo..], s[..lo]);
    if k < 0 {
      forall i | lo <= i < |s| ensures !At(s, s[..lo], i) {
        assert !At(s[lo..], s[..lo], i - lo);
      }
    } else {
      forall i | lo <= i < lo + k ensures !At(s, s[..lo], i) {
        assert !At(s[lo..], s[..lo], i - lo);
      }
    }
  }

  lemma {:induction false} DollarReads(s: string)
    requires s != "" && s[0] == '$'
    ensures Reads(s, First(s))
  {
    hide Run, BlockScan, Quoted, WordLexeme, IsQuoted, IsComment, OpensDollar, IsDollar, TagLen;
    ClassesAre(s[0]);
    if |s| > 1 {
      ClassesAre(s[1]);
    }
    forall c ensures IsDigit(c) <==> IsDecimal(c) { ClassesAre(c); }
    TagIs(s);
    if |s| > 1 && IsDigit(s[1]) {
      RunExactly(IsDigit, IsDecimal, s[1..]);
      DigitNoTag(s);
      assert s[1..][0] == s[1];
    } else if OpensDollar(s[1..]) {
      DollarIs(s);
    }
  }

  lemma {:induction false} DigitNoTag(s: string)
    requires |s| > 1 && IsDecimal(s[1])
    ensures !HasTag(s)
  {
    forall n | 2 <= n <= |s| ensures !IsTag(s[..n]) {
      assert s[..n][1] == s[1];
    }
  }

  lemma {:induction false} OtherReads(s: string)
    requires s != "" && !IsBlank(s[0]) && !StartsWord(s[0]) && !InOperator(s[0]) && s[0] !in "'\"$"
    requires !Mark(s, 0, '-', '-') && !Mark(s, 0, '/', '*')
    ensures Reads(s, First(s))
  {
    hide Run, BlockScan, Quoted, DollarLexeme, WordLexeme, IsQuoted, IsComment;
    ClassesAre(s[0]);
    forall n | 2 <= n <= |s| ensures !IsTag(s[..n]) {
      assert s[..n][0] == s[0];
    }
  }

  lemma {:induction false} FirstReads(s: string)
    requires s != ""
    ensures Reads(s, First(s))
  {
    hide Reads, First;
    if IsBlank(s[0]) { BlankReads(s); }
    else if Mark(s, 0, '-', '-') || Mark(s, 0, '/', '*') { CommentReads(s); }
    else if Opening(s) > 0 { ConstantReads(s); }
    else if s[0] == '"' { QuotedNameReads(s); }
    else if StartsWord(s[0]) { WordReads(s); }
    else if InOperator(s[0]) { OperatorReads(s); }
    else if s[0] == '$' { DollarReads(s); }
    else { OtherReads(s); }
  }

  // And in no other way

  lemma {:induction false} OneRun(p: char -> bool, s: string, m: nat, n: nat)
    requires IsRun(p, s, m) && IsRun(p, s, n)
    ensures m == n
  {
  }

  lemma {:induction false} OneQuoted(s: string, t: Lexeme, u: Lexeme, kind: Kind, o: nat, quote: char, esc: bool, uni: bool)
    requires o <= |s| && t.text <= s && u.text <= s
    requires IsQuoted(s, t, kind, o, quote, esc, uni) && IsQuoted(s, u, kind, o, quote, esc, uni)
    ensures t == u
  {
    hide QuoteScan, ClosesAt;
    if t.terminated {
      ClosesExactly(s[o..], t.hi - o, quote, esc);
    }
    if u.terminated {
      ClosesExactly(s[o..], u.hi - o, quote, esc);
    }
  }

  lemma {:induction false} OneDollar(s: string, t: Lexeme, u: Lexeme)
    requires s != "" && t.text <= s && u.text <= s && IsDollar(s, t) && IsDollar(s, u)
    ensures t == u
  {
    hide OpensDollar, TagLen;
    assert s[0] == '$' by { assert s[..t.lo][0] == s[0]; }
    TagIs(s);
  }

  lemma {:induction false} OneComment(s: string, m: nat, n: nat)
    requires IsComment(s, 0, m) && IsComment(s, 0, n)
    ensures m == n
  {
    hide BlockScan;
    assert s[..2] == "/*";
    CommentExactly(s, m);
    CommentExactly(s, n);
  }

  lemma {:induction false} OneToken(s: string, t: Lexeme, u: Lexeme)
    requires s != "" && Reads(s, t) && Reads(s, u)
    ensures t == u
  {
    hide IsQuoted, IsDollar, IsComment, HasTag, IsRun, IsTag;
    var m, n := |t.text|, |u.text|;
    if IsBlank(s[0]) { OneRun(IsBlank, s, m, n); }
    else if Mark(s, 0, '-', '-') { OneRun(NoBreak, s, m, n); }
    else if Mark(s, 0, '/', '*') {
      if IsComment(s, 0, m) && IsComment(s, 0, n) { OneComment(s, m, n); }
    }
    else if Opening(s) > 0 { OneQuoted(s, t, u, Str, Opening(s), '\'', s[0] in "eE", s[0] in "uU"); }
    else if s[0] == '"' { OneQuoted(s, t, u, QuotedIdent, 1, '"', false, false); }
    else if StartsWord(s[0]) { OneRun(InWord, s, m, n); }
    else if InOperator(s[0]) { OneRun(InOperator, s, m, n); }
    else if HasTag(s) { OneDollar(s, t, u); }
    else if s[0] == '$' && |s| > 1 && IsDecimal(s[1]) { OneRun(IsDecimal, s[1..], m - 1, n - 1); }
  }

  /** The token at the start of a text is the one its characters make. */
  lemma {:induction false} FirstExactly(s: string, t: Lexeme)
    requires s != ""
    ensures First(s) == t <==> Reads(s, t)
  {
    hide Reads, First;
    FirstReads(s);
    if Reads(s, t) {
      OneToken(s, t, First(s));
    }
  }

  /** The tokens cut the text, each read where the one before it ends. */
  ghost predicate ReadsAll(s: string, ts: seq<Lexeme>)
    decreases |ts|
  {
    if s == "" || ts == [] then s == "" && ts == []
    else Reads(s, ts[0]) && ReadsAll(s[|ts[0].text|..], ts[1..])
  }

  lemma {:induction false} LexExactly(s: string, ts: seq<Lexeme>)
    ensures Lex(s) == ts <==> ReadsAll(s, ts)
    decreases |ts|
  {
    hide Reads, First;
    if s != "" && ts != [] {
      FirstExactly(s, ts[0]);
      var t := First(s);
      if t == ts[0] {
        LexExactly(s[|t.text|..], ts[1..]);
        assert ts == [t] + ts[1..];
        assert Lex(s) == [t] + Lex(s[|t.text|..]);
        assert Lex(s)[1..] == Lex(s[|t.text|..]);
      }
    }
  }

  // White space

  /** The tokens that are neither white space nor a comment. */
  function Solid(ts: seq<Lexeme>): seq<Lexeme> {
    if ts == [] then []
    else (if ts[0].kind == Space || ts[0].kind == Comment then [] else [ts[0]]) + Solid(ts[1..])
  }

  lemma {:induction false} SolidIs(ts: seq<Lexeme>)
    ensures Toks(Group(ts).pieces) == Solid(ts)
  {
    hide Group, Toks;
    if ts == [] {
      SqlGate.GroupNothing(ts);
    } else {
      SqlGate.GroupToks(ts);
      SolidIs(ts[1..]);
    }
  }

  lemma {:induction false} SolidNone()
    ensures Solid([]) == []
  {
  }

  lemma {:induction false} SolidCons(t: Lexeme, ts: seq<Lexeme>)
    ensures Solid([t] + ts) == (if t.kind == Space || t.kind == Comment then [] else [t]) + Solid(ts)
  {
    assert ([t] + ts)[1..] == ts;
  }

  lemma {:induction false} SolidAppend(a: seq<Lexeme>, b: seq<Lexeme>)
    ensures Solid(a + b) == Solid(a) + Solid(b)
  {
    if a == [] {
      assert a + b == b;
    } else {
      assert (a + b)[1..] == a[1..] + b;
      SolidAppend(a[1..], b);
    }
  }

  predicate AllBlank(w: string) { forall i :: 0 <= i < |w| ==> IsBlank(w[i]) }

  /** A line comment ends in front of a line break only. */
  predicate EndsLine(t: Lexeme) { t.kind == Comment && Mark(t.text, 0, '-', '-') }

  lemma {:induction false} BlankBehind(t: Lexeme, r: string, w: string)
    requires Fits(t, r) && r != "" && IsBlank(r[0])
    requires w != "" && IsBlank(w[0]) && (EndsLine(t) ==> w[0] == '\n')
    ensures Bridge(t, true, r, w)
  {
    hide Fits, Run, BlockScan, Lower;
    FitsEnds(t, r);
    ClassesAre(r[0]);
    ClassesAre(w[0]);
    if t.kind == Comment {
      assert "--" <= t.text ==> Mark(t.text, 0, '-', '-');
    }
  }

  /** White space is followed by something else. */
  lemma {:induction false} SpaceStarts(w: Lexeme, r: string)
    requires Fits(w, r) && w.kind == Space
    ensures w.text != "" && IsBlank(w.text[0]) && (r != "" ==> !IsBlank(r[0]))
  {
    hide First, ClosesAt, IsTag, IsComment, HasTag;
    var s := w.text + r;
    assert s[0] == w.text[0];
    FirstExactly(s, w);
    assert r != "" ==> s[|w.text|] == r[0];
  }

  lemma {:induction false} SpaceFits(w: string, r: string)
    requires w != "" && AllBlank(w) && (r != "" ==> !IsBlank(r[0]))
    ensures Fits(Plain(Space, w), r)
  {
    hide First;
    var s := w + r;
    assert s[0] == w[0] && s[..|w|] == w;
    assert forall i :: 0 <= i < |w| ==> s[i] == w[i];
    FirstExactly(s, Plain(Space, w));
  }

  /** In front of white space, one stretch of it is like another. */
  lemma {:induction false} ChainBlank(a: seq<Lexeme>, w: Lexeme, w': string, b: seq<Lexeme>)
    requires Chain(a + ([w] + b), "") && w.kind == Space
    requires w' != "" && AllBlank(w') && (a != [] && EndsLine(a[|a| - 1]) ==> w'[0] == '\n')
    ensures Chain(a + ([Plain(Space, w')] + b), "")
  {
    hide Fits, Chain, First, Ends, Bridge, Join;
    var x, r := Plain(Space, w'), Join(b) + "";
    ChainSplit(a, [w] + b, "");
    ChainSplit([w], b, "");
    SqlRelex.LastEnds([w], r);
    SpaceStarts(w, r);
    SpaceFits(w', r);
    assert Chain([x], r) by { ChainOne(x, r); }
    ChainSplit([x], b, "");
    var p, q := Join([w] + b) + "", Join([x] + b) + "";
    SqlRelex.JoinCons(w, b);
    SqlRelex.JoinCons(x, b);
    if a != [] {
      SqlRelex.LastEnds(a, p);
      assert p[0] == w.text[0] && q[0] == w'[0];
      BlankBehind(a[|a| - 1], p, q);
    }
    FollowsAny(None, a, true, p, q);
    ChainSwap(None, a, p, q);
    ChainSplit(a, [x] + b, "");
  }

  /** White space between two tokens may be exchanged for any other: the tokens around it stay, those that count
      among them. Behind a line comment it has to start with the line break that ends the comment. */
  lemma {:induction false} SpaceExchanged(s: string, i: nat, w: string)
    requires i < |Lex(s)| && Lex(s)[i].kind == Space && w != "" && AllBlank(w)
    requires i > 0 && EndsLine(Lex(s)[i - 1]) ==> w[0] == '\n'
    ensures var ts := Lex(s); var s' := Join(ts[..i]) + (w + Join(ts[i + 1..]));
            && Lex(s') == ts[i := Plain(Space, w)]
            && Toks(Statement(s').pieces) == Toks(Statement(s).pieces)
  {
    hide Lex, Chain, Group, Join, Solid, Toks, Lexeme.WellFormed, AllBlank;
    var ts, x := Lex(s), Plain(Space, w);
    var a, b := ts[..i], ts[i + 1..];
    assert ts == a + ([ts[i]] + b);
    ChainLex(s);
    ChainBlank(a, ts[i], w, b);
    var us := a + ([x] + b);
    LexChain(us, "");
    SqlRelex.JoinCons(x, b);
    JoinAppend(a, [x] + b);
    var s' := Join(a) + (w + Join(b));
    assert Join(us) + "" == s';
    SqlRelex.LexNone();
    assert us + [] == us == ts[i := x];
    SolidIs(ts);
    SolidIs(us);
    SolidAround(a, ts[i], b);
    SolidAround(a, x, b);
  }

  lemma {:induction false} SolidAround(a: seq<Lexeme>, w: Lexeme, b: seq<Lexeme>)
    requires w.kind == Space
    ensures Solid(a + ([w] + b)) == Solid(a) + Solid(b)
  {
    SolidAppend(a, [w] + b);
    assert ([w] + b)[1..] == b;
  }
}
