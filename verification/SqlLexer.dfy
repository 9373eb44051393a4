/**
 The SQL lexer of pkg/sqlredact: what each token is, as a function of the text that starts with it.

 A `Lexeme` is a token by value: its text and the place of its body inside that text. The loops of
 the source, which work with indexes into the whole statement, are in `SqlLexing`.
 */
module SqlLexer {
  import opened Text

  datatype Kind = Space | Comment | Ident | QuotedIdent | Str | Dollar | Op | Other

  /** `text[lo..hi]` is the body of a constant or a quoted identifier; `lo` and `hi` are 0 otherwise. */
  datatype Lexeme = Lexeme(kind: Kind, text: string, lo: nat, hi: nat,
                           escapes: bool, unicode: bool, terminated: bool)
  {
    function Body(): string { if lo <= hi <= |text| then text[lo..hi] else "" }

    predicate IsLiteral() { kind == Str || kind == Dollar }

    predicate IsName() { kind == Ident || kind == QuotedIdent }

    predicate Significant() { kind != Space && kind != Comment }

    predicate Is(k: Kind, word: string) { kind == k && EqualFold(text, word) }

    predicate WellFormed() { 0 < |text| && lo <= hi <= |text| }
  }

  function Plain(kind: Kind, text: string): Lexeme {
    Lexeme(kind, text, 0, 0, false, false, false)
  }

  predicate IsSpace(c: char) {
    c == ' ' || c == '\t' || c == '\n' || c == '\r' || c as int == 12 || c as int == 11
  }

  predicate IsDigit(c: char) { '0' <= c <= '9' }

  predicate IsIdentStart(c: char) {
    'a' <= c <= 'z' || 'A' <= c <= 'Z' || c == '_' || c as int >= 0x80
  }

  predicate IsIdentCont(c: char) { IsIdentStart(c) || IsDigit(c) || c == '$' }

  predicate IsTagCont(c: char) { IsIdentStart(c) || IsDigit(c) }

  predicate IsOpChar(c: char) { c == '=' || c == '<' || c == '>' || c == ':' || c == '!' }

  predicate NotNewline(c: char) { c != '\n' }

  /** How far a delimited text reaches, and whether its closing delimiter is present. */
  datatype Scan = Scan(len: nat, closed: bool)

  function Shift(k: nat, r: Scan): Scan { Scan(k + r.len, r.closed) }

  /** Reads a block comment from `s`, given the number of comments already open. */
  function BlockScan(s: string, depth: nat): (r: Scan)
    ensures r.len <= |s| && (!r.closed ==> r.len == |s|)
    ensures r.closed ==> r.len >= 2
  {
    if s == "" then Scan(0, false)
    else if |s| >= 2 && s[0] == '/' && s[1] == '*' then Shift(2, BlockScan(s[2..], depth + 1))
    else if |s| >= 2 && s[0] == '*' && s[1] == '/' then
      if depth <= 1 then Scan(2, true) else Shift(2, BlockScan(s[2..], depth - 1))
    else Shift(1, BlockScan(s[1..], depth))
  }

  /** Reads the body of a quoted text up to its closing quote: a doubled quote is content, and
      with `esc` so is whatever follows a backslash. */
  function QuoteScan(s: string, quote: char, esc: bool): (r: Scan)
    ensures r.len <= |s| && (r.closed <==> r.len < |s|)
    ensures r.closed ==> s[r.len] == quote
  {
    if s == "" then Scan(0, false)
    else if s[0] == quote then
      if |s| > 1 && s[1] == quote then Shift(2, QuoteScan(s[2..], quote, esc)) else Scan(0, true)
    else if esc && s[0] == '\\' then
      if |s| == 1 then Scan(1, false) else Shift(2, QuoteScan(s[2..], quote, esc))
    else Shift(1, QuoteScan(s[1..], quote, esc))
  }

  /** The constant or quoted identifier at the start of `s`, whose opening quote is at `quoteAt`. */
  function Quoted(kind: Kind, s: string, quoteAt: nat, quote: char, esc: bool, uni: bool): (t: Lexeme)
    requires quoteAt < |s|
    ensures t.WellFormed() && t.text <= s
    ensures t.kind == kind && t.lo == quoteAt + 1 && t.escapes == esc && t.unicode == uni
  {
    var lo := quoteAt + 1;
    var r := QuoteScan(s[lo..], quote, esc);
    if r.closed then Lexeme(kind, s[..lo + r.len + 1], lo, lo + r.len, esc, uni, true)
    else Lexeme(kind, s, lo, |s|, esc, uni, false)
  }

  /** The length of a dollar-quote tag name at the start of `s`. */
  function TagLen(s: string): (n: nat)
    ensures n <= |s|
  {
    if s != "" && IsIdentStart(s[0]) then Run(IsTagCont, s) else 0
  }

  /** `s` starts, after its first character, like the rest of an opening dollar quote. */
  predicate OpensDollar(s: string) {
    var j := TagLen(s);
    j < |s| && s[j] == '$'
  }

  /** A `$n` parameter, a dollar-quoted string or a lone dollar sign. */
  function DollarLexeme(s: string): (t: Lexeme)
    requires s != "" && s[0] == '$'
    ensures t.WellFormed() && t.text <= s
    ensures t.kind == Other || t.kind == Dollar
  {
    if |s| > 1 && IsDigit(s[1]) then Plain(Other, s[..1 + Run(IsDigit, s[1..])])
    else if !OpensDollar(s[1..]) then Plain(Other, s[..1])
    else
      var lo := TagLen(s[1..]) + 2;
      var k := Find(s[lo..], s[..lo]);
      if k >= 0 then Lexeme(Dollar, s[..lo + k + lo], lo, lo + k, false, false, true)
      else Lexeme(Dollar, s, lo, |s|, false, false, false)
  }

  predicate PlainPrefix(word: string) { word == "b" || word == "x" || word == "n" }

  /** An identifier, or a constant with an E, B, X, N or U& prefix. */
  function WordLexeme(s: string): (t: Lexeme)
    requires s != "" && IsIdentStart(s[0])
    ensures t.WellFormed() && t.text <= s
  {
    var j := Run(IsIdentCont, s);
    var word := Lower(s[..j]);
    if j < |s| && s[j] == '\'' && word == "e" then Quoted(Str, s, j, '\'', true, false)
    else if j < |s| && s[j] == '\'' && PlainPrefix(word) then Quoted(Str, s, j, '\'', false, false)
    else if word == "u" && j + 1 < |s| && s[j] == '&' && s[j + 1] == '\'' then
      Quoted(Str, s, j + 1, '\'', false, true)
    else Plain(Ident, s[..j])
  }

  /** The token at the start of `s`. */
  function First(s: string): (t: Lexeme)
    requires s != ""
    ensures t.WellFormed() && t.text <= s
  {
    var c := s[0];
    if IsSpace(c) then Plain(Space, s[..Run(IsSpace, s)])
    else if c == '-' && |s| > 1 && s[1] == '-' then Plain(Comment, s[..Run(NotNewline, s)])
    else if c == '/' && |s| > 1 && s[1] == '*' then Plain(Comment, s[..BlockScan(s, 0).len])
    else if c == '\'' then Quoted(Str, s, 0, '\'', false, false)
    else if c == '"' then Quoted(QuotedIdent, s, 0, '"', false, false)
    else if c == '$' then DollarLexeme(s)
    else if IsIdentStart(c) then WordLexeme(s)
    else if IsOpChar(c) then Plain(Op, s[..Run(IsOpChar, s)])
    else Plain(Other, s[..1])
  }

  /** The tokens of `s`. */
  function Lex(s: string): (ts: seq<Lexeme>)
    ensures forall i :: 0 <= i < |ts| ==> ts[i].WellFormed()
    decreases |s|
  {
    if s == "" then [] else var t := First(s); [t] + Lex(s[|t.text|..])
  }

  /** The text of a list of tokens. */
  function Join(ts: seq<Lexeme>): string {
    if ts == [] then "" else ts[0].text + Join(ts[1..])
  }

  /** The tokens cover all of the text. */
  lemma {:induction false} LexCovers(s: string)
    ensures Join(Lex(s)) == s
    decreases |s|
  {
    hide First;
    if s != "" {
      var t := First(s);
      LexCovers(s[|t.text|..]);
      assert Lex(s)[1..] == Lex(s[|t.text|..]);
      assert s == t.text + s[|t.text|..];
    }
  }

  lemma {:induction false} JoinAppend(a: seq<Lexeme>, b: seq<Lexeme>)
    ensures Join(a + b) == Join(a) + Join(b)
  {
    if a == [] {
      assert a + b == b;
    } else {
      assert (a + b)[1..] == a[1..] + b;
      JoinAppend(a[1..], b);
    }
  }
}
