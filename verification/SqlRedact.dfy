/**
 The redaction of pkg/sqlredact, as a function of a statement's tokens.

 The source walks the significant tokens and splices replacements into the text. What it does at a
 token depends only on that token, the significant tokens after it and whether a SET command's
 target starts there (`Context`), so `Decide` takes exactly those.
 */
module SqlRedact {
  import opened Text
  import opened SqlLexer
  import ConnString

  const STARS := ConnString.STARS

  const SECRET_FRAGMENTS := ["password", "passwd", "passphrase", "secret", "token", "credential", "private_key"]

  const NON_SECRET_NAMES :=
    ["md5_password_warnings", "password_encryption", "ssl_passphrase_command_supports_reload", "password_required"]

  const WHOLE_VALUE_SETTINGS :=
    ["archive_cleanup_command", "archive_command", "recovery_end_command", "restore_command", "ssl_passphrase_command"]

  const TRIGGERS :=
    ["pass", "secret", "token", "credential", "private_key", "postgres://", "postgresql://"] + WHOLE_VALUE_SETTINGS

  predicate ContainsAny(s: string, fs: seq<string>) {
    exists i :: 0 <= i < |fs| && Contains(s, fs[i])
  }

  /** The cheap check that lets most statements skip the lexer. */
  predicate MightContainSecret(s: string) { ContainsAny(Lower(s), TRIGGERS) }

  predicate IsSecretName(name: string) {
    var n := Lower(name);
    n !in NON_SECRET_NAMES && (n in WHOLE_VALUE_SETTINGS || ContainsAny(n, SECRET_FRAGMENTS))
  }

  /** Replaces each doubled `q` by a single one, from the left. */
  function Undouble(s: string, q: char): string {
    if s == "" then ""
    else if |s| > 1 && s[0] == q && s[1] == q then [q] + Undouble(s[2..], q)
    else [s[0]] + Undouble(s[1..], q)
  }

  // Tokens

  function NameOf(t: Lexeme): string {
    if t.kind == QuotedIdent then Undouble(t.Body(), '"') else t.text
  }

  predicate IsSecret(t: Lexeme) { t.IsName() && IsSecretName(NameOf(t)) }

  predicate IsSeparator(t: Lexeme) {
    || (t.kind == Op && (t.text == "=" || t.text == "=>" || t.text == ":="))
    || (t.kind == Ident && EqualFold(t.text, "to"))
  }

  predicate IsNameChar(c: char) { IsIdentCont(c) || c == '.' }

  /** A plain constant that holds nothing but a name. */
  predicate IsConstantName(t: Lexeme) {
    t.kind == Str && t.lo == 1 && t.terminated && t.Body() != "" && All(IsNameChar, t.Body())
  }

  predicate AmbiguousEscapes(t: Lexeme) {
    t.kind == Str && !t.escapes && !t.unicode && '\\' in t.Body()
  }

  const REDACTED := Lexeme(Str, "'" + STARS + "'", 1, 9, false, false, true)

  const REDACTED_IDENT := Lexeme(QuotedIdent, "\"" + STARS + "\"", 1, 9, false, false, true)

  // Connection strings in constants

  predicate MentionsConnSecret(body: string) {
    var lower := Lower(body);
    Contains(lower, "password") || Contains(lower, "postgres://") || Contains(lower, "postgresql://")
  }

  predicate HasHostEnd(s: string) { '@' in s || '/' in s }

  /** A URI cut off before the end of its user information or host. */
  predicate TruncatedInHost(body: string) {
    var lower := Lower(body);
    var i, j := Find(lower, "postgresql://"), Find(lower, "postgres://");
    if i >= 0 then !HasHostEnd(body[i + 13..]) else j >= 0 && !HasHostEnd(body[j + 11..])
  }

  datatype Rewrite = Rewrite(repl: Lexeme, toEnd: bool)

  /** `t` with its body replaced. */
  function WithBody(t: Lexeme, body: string): Lexeme
    requires t.lo <= |t.text|
  {
    var closing := if !t.terminated then "" else if t.kind == Dollar then t.text[..t.lo] else "'";
    t.(text := t.text[..t.lo] + body + closing, hi := t.lo + |body|)
  }

  /** What becomes of a constant that may hold a connection string; None when it stays. */
  function ConnRewrite(t: Lexeme): Option<Rewrite>
    requires t.WellFormed()
  {
    var body := t.Body();
    if !MentionsConnSecret(body) then None
    else if !t.terminated && TruncatedInHost(body) then Some(Rewrite(REDACTED, true))
    else if t.kind == Dollar then
      var red := ConnString.RedactPasswords(body);
      if red == body then None else Some(Rewrite(WithBody(t, red), false))
    else if t.escapes || t.unicode then Some(Rewrite(REDACTED, false))
    else if AmbiguousEscapes(t) then Some(Rewrite(REDACTED, true))
    else
      var value := Undouble(body, '\'');
      var red := ConnString.RedactPasswords(value);
      if red == value then None else Some(Rewrite(WithBody(t, ConnString.Double(red, '\'')), false))
  }

  // The target of a SET command

  /** What is known of the significant tokens read so far: whether the next one would be the last part
      of a SET command's target, whether the last one is SET, and the same question for a name
      as it was before that name. */
  datatype Context = Context(target: bool, afterSet: bool, name: bool, targetBefore: bool)

  const START := Context(false, false, false, false)

  function Next(c: Context, t: Lexeme): Context {
    var target :=
      if t.Is(Other, ".") then c.name && c.targetBefore
      else if t.Is(Ident, "local") || t.Is(Ident, "session") then c.afterSet
      else t.Is(Ident, "set");
    Context(target, t.Is(Ident, "set"), t.IsName(), t.IsName() && c.target)
  }

  function After(c: Context, ts: seq<Lexeme>): Context
    decreases |ts|
  {
    if ts == [] then c else After(Next(c, ts[0]), ts[1..])
  }

  // One step of the walk

  /** At the first of the tokens `ts`: keep it, or keep those before `from`, put `repl` for those up to
      `to` and go on there (or, with `toEnd`, drop the rest of the text). */
  datatype Step = Keep | Edit(from: nat, to: nat, repl: Lexeme, toEnd: bool)

  /** The number of constants at the start of `ts`, which continue one another. */
  function Literals(ts: seq<Lexeme>): (n: nat)
    ensures n <= |ts|
    ensures forall i :: 0 <= i < n ==> ts[i].IsLiteral()
    ensures n < |ts| ==> !ts[n].IsLiteral()
  {
    if ts == [] || !ts[0].IsLiteral() then 0 else 1 + Literals(ts[1..])
  }

  /** The number of tokens before the next semicolon. */
  function UpToSemicolon(ts: seq<Lexeme>): (n: nat)
    ensures n <= |ts|
    ensures forall i :: 0 <= i < n ==> !ts[i].Is(Other, ";")
    ensures n < |ts| ==> ts[n].Is(Other, ";")
  {
    if ts == [] || ts[0].Is(Other, ";") then 0 else 1 + UpToSemicolon(ts[1..])
  }

  predicate HoldsNoSecret(t: Lexeme) {
    t.Is(Ident, "default") || (|t.text| > 1 && t.text[0] == '$' && IsDigit(t.text[1]))
  }

  /** The number of tokens of a SET command's value; 0 for DEFAULT or a parameter. */
  function SetValue(ts: seq<Lexeme>): (n: nat)
    ensures n <= |ts|
    ensures 0 < n < |ts| ==> ts[n].Is(Other, ";")
  {
    var n := UpToSemicolon(ts);
    if n == 1 && HoldsNoSecret(ts[0]) then 0 else n
  }

  /** The value at `ts[m]`, a constant, goes together with the constants continuing it. */
  function RedactValue(ts: seq<Lexeme>, m: nat): Step
    requires m < |ts|
  {
    Edit(m, m + Literals(ts[m..]), REDACTED, AmbiguousEscapes(ts[m]))
  }

  function DecideName(c: Context, ts: seq<Lexeme>): Step
    requires ts != []
  {
    var separated := |ts| > 1 && IsSeparator(ts[1]);
    var m := if separated then 2 else 1;
    if m >= |ts| then Keep
    else if ts[m].IsLiteral() then RedactValue(ts, m)
    else if separated && ts[m].kind == QuotedIdent then Edit(m, m + 1, REDACTED_IDENT, false)
    else if separated && c.target && SetValue(ts[m..]) > 0 then Edit(m, m + SetValue(ts[m..]), REDACTED, false)
    else Keep
  }

  function DecideLiteral(ts: seq<Lexeme>): Step
    requires ts != [] && ts[0].WellFormed()
  {
    var t := ts[0];
    if IsConstantName(t) && |ts| > 2 && IsSecretName(t.Body()) && ts[1].Is(Other, ",") && ts[2].IsLiteral() then
      RedactValue(ts, 2)
    else if IsConstantName(t) && Lower(t.Body()) in NON_SECRET_NAMES then Keep
    else
      match ConnRewrite(t)
      case None => Keep
      case Some(r) => Edit(0, 1, r.repl, r.toEnd)
  }

  function Decide(c: Context, ts: seq<Lexeme>): (step: Step)
    requires ts != [] && ts[0].WellFormed()
    ensures step.Edit? ==> step.from < |ts| && step.from < step.to <= |ts|
  {
    if IsSecret(ts[0]) then DecideName(c, ts)
    else if ts[0].IsLiteral() then DecideLiteral(ts)
    else Keep
  }

  // The statement

  /** A significant token with the spaces and comments in front of it. */
  datatype Piece = Piece(gap: seq<Lexeme>, tok: Lexeme)

  /** A statement's significant tokens, and the spaces and comments at its end. */
  datatype Script = Script(pieces: seq<Piece>, tail: seq<Lexeme>)

  function Group(ts: seq<Lexeme>): Script {
    if ts == [] then Script([], [])
    else
      var rest := Group(ts[1..]);
      if ts[0].Significant() then Script([Piece([], ts[0])] + rest.pieces, rest.tail)
      else if rest.pieces == [] then Script([], [ts[0]] + rest.tail)
      else
        var p := rest.pieces[0];
        Script([Piece([ts[0]] + p.gap, p.tok)] + rest.pieces[1..], rest.tail)
  }

  function Flatten(ps: seq<Piece>): seq<Lexeme> {
    if ps == [] then [] else ps[0].gap + [ps[0].tok] + Flatten(ps[1..])
  }

  function Ungroup(s: Script): seq<Lexeme> { Flatten(s.pieces) + s.tail }

  function Toks(ps: seq<Piece>): (ts: seq<Lexeme>)
    ensures |ts| == |ps| && forall i :: 0 <= i < |ps| ==> ts[i] == ps[i].tok
  {
    seq(|ps|, i requires 0 <= i < |ps| => ps[i].tok)
  }

  predicate WellFormed(ps: seq<Piece>) {
    forall i :: 0 <= i < |ps| ==> ps[i].tok.WellFormed()
  }

  /** The rewriting walk from the first of the pieces on. */
  function Walk(c: Context, s: Script): (r: Script)
    requires WellFormed(s.pieces)
    decreases |s.pieces|
  {
    var ps := s.pieces;
    if ps == [] then s
    else
      match Decide(c, Toks(ps))
      case Keep =>
        var r := Walk(Next(c, ps[0].tok), Script(ps[1..], s.tail));
        Script([ps[0]] + r.pieces, r.tail)
      case Edit(from, to, repl, toEnd) =>
        var kept := ps[..from] + [Piece(ps[from].gap, repl)];
        if toEnd then Script(kept, [])
        else
          var r := Walk(After(c, Toks(kept)), Script(ps[to..], s.tail));
          Script(kept + r.pieces, r.tail)
  }

  lemma {:induction false} After1(c: Context, t: Lexeme)
    ensures After(c, [t]) == Next(c, t)
  {
    hide Next;
    assert [t][1..] == [];
  }

  /** One edit of the walk. */
  lemma {:induction false} WalkEdit(c: Context, s: Script, e: Step)
    requires WellFormed(s.pieces) && s.pieces != [] && Decide(c, Toks(s.pieces)) == e && e.Edit?
    ensures var kept := s.pieces[..e.from] + [Piece(s.pieces[e.from].gap, e.repl)];
            var r := if e.toEnd then Script([], []) else Walk(After(c, Toks(kept)), Script(s.pieces[e.to..], s.tail));
            Walk(c, s) == Script(kept + r.pieces, r.tail)
  {
    hide Decide, After;
    var kept := s.pieces[..e.from] + [Piece(s.pieces[e.from].gap, e.repl)];
    assert kept + [] == kept;
  }

  lemma {:induction false} GroupWellFormed(ts: seq<Lexeme>)
    requires forall i :: 0 <= i < |ts| ==> ts[i].WellFormed()
    ensures WellFormed(Group(ts).pieces)
  {
    if ts != [] {
      GroupWellFormed(ts[1..]);
    }
  }

  function Statement(query: string): (s: Script)
    ensures WellFormed(s.pieces)
  {
    GroupWellFormed(Lex(query));
    Group(Lex(query))
  }

  /** The lex-and-rewrite loop, without the gate in front of it. */
  function Rewritten(query: string): string {
    Join(Ungroup(Walk(START, Statement(query))))
  }

  function RedactQuery(query: string): string {
    if MightContainSecret(query) then Rewritten(query) else query
  }
}
