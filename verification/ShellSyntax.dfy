/**
 Which commands the shell-command redactor shows, and as what, told in characters and plain quoting rules.
 */
module ShellSyntax {
  import opened Text
  import opened Spelling
  import opened ShellCommand

  // Quoting

  /** Where a character stands: outside quotes, inside single or double ones, or behind a backslash. */
  datatype Place = Outside | InSingle | InDouble | Escaped | EscapedInDouble

  function Move(q: Place, c: char): Place {
    match q
    case Outside => if c == '\'' then InSingle else if c == '"' then InDouble else if c == '\\' then Escaped else Outside
    case InSingle => if c == '\'' then Outside else InSingle
    case InDouble => if c == '"' then Outside else if c == '\\' then EscapedInDouble else InDouble
    case Escaped => Outside
    case EscapedInDouble => InDouble
  }

  /** Where the character at `i` stands. */
  function PlaceAt(s: string, i: nat): Place
    requires i <= |s|
  {
    if i == 0 then Outside else Move(PlaceAt(s, i - 1), s[i - 1])
  }

  /** A space or a tab. */
  predicate IsGap(c: char) { c as int == 32 || c as int == 9 }

  /** The first word of the text may end at `n`: at an unquoted space or tab, or at the end. */
  predicate Closes(s: string, n: nat) { n <= |s| && PlaceAt(s, n) == Outside && (n == |s| || IsGap(s[n])) }

  /** The character ends, redirects or groups commands, breaks the line or starts an expansion, where the shell
      takes it to: unquoted, or for an expansion in double quotes. */
  predicate Acts(s: string, i: nat)
    requires i < |s|
  {
    var c, q := s[i], PlaceAt(s, i);
    || (q == Outside && (c == ';' || c == '&' || c == '|' || c == '<' || c == '>' || c == '(' || c == ')' || c == '\n' || c == '\r'))
    || ((q == Outside || q == InDouble) && (c == '$' || c == '`'))
  }

  /** The first `n` characters are a word in which nothing acts. */
  ghost predicate IsFirstWord(s: string, n: nat) {
    Closes(s, n) && (forall k: nat :: k < n ==> !Closes(s, k)) && forall i :: 0 <= i < n ==> !Acts(s, i)
  }

  /** The mode for a place. */
  function ModeOf(q: Place): Mode {
    match q
    case Outside => Bare
    case InSingle => Single
    case InDouble => Double
    case Escaped => BareEscape
    case EscapedInDouble => DoubleEscape
  }

  /** The reader is where the quoting rules say, unless it has given up at a character that acts. */
  lemma {:induction false} ModeIs(s: string, i: nat)
    requires i <= |s|
    ensures ModeAfter(Bare, s[..i]) == if exists j :: 0 <= j < i && Acts(s, j) then GivenUp else ModeOf(PlaceAt(s, i))
    decreases i
  {
    hide Acts;
    if i == 0 {
      assert s[..0] == "";
    } else {
      ModeIs(s, i - 1);
      assert s[..i] == s[..i - 1] + [s[i - 1]];
      ModeSplit(Bare, s[..i - 1], [s[i - 1]]);
      OneStep(ModeAfter(Bare, s[..i - 1]), s[i - 1]);
      StepIs(s, i - 1);
    }
  }

  lemma {:induction false} OneStep(m: Mode, c: char)
    ensures ModeAfter(m, [c]) == Step(m, c)
  {
    assert [c][1..] == "";
  }

  lemma {:induction false} StepIs(s: string, i: nat)
    requires i < |s|
    ensures Step(ModeOf(PlaceAt(s, i)), s[i]) == if Acts(s, i) then GivenUp else ModeOf(PlaceAt(s, i + 1))
    ensures Step(GivenUp, s[i]) == GivenUp
  {
  }

  /** The splitter takes a word exactly as the quoting rules cut it, and gives up exactly where none ends or
      something in it acts. */
  lemma {:induction false} WordExactly(s: string)
    ensures forall n: nat :: WordLen(s) == n <==> IsFirstWord(s, n)
    ensures WordLen(s) < 0 <==> forall n: nat :: !IsFirstWord(s, n)
  {
    hide WordLen, PlaceAt, Acts, ModeAfter;
    WordEnds(s);
    forall k: nat ensures EndsAt(Bare, s, k) <==> Closes(s, k) && forall i :: 0 <= i < k ==> !Acts(s, i) {
      if k <= |s| {
        ModeIs(s, k);
        GapIs(s, k);
      }
    }
    var w := WordLen(s);
    forall n: nat ensures w == n <==> IsFirstWord(s, n) {
      if w == n {
        assert forall k: nat :: k < n ==> !EndsAt(Bare, s, k);
      }
    }
    if w >= 0 {
      var n: nat := w;
      assert IsFirstWord(s, n);
    }
  }

  lemma {:induction false} GapIs(s: string, k: nat)
    requires k <= |s|
    ensures k < |s| ==> (IsGap(s[k]) <==> IsBlank(s[k]))
  {
  }

  // Commands

  predicate IsLetter(c: char) { var x := c as int; 65 <= x <= 90 || 97 <= x <= 122 || c == '_' }

  /** Letters, digits and underscores, not starting with a digit. */
  predicate NamesVariable(name: string) {
    name != "" && !IsDecimal(name[0]) && forall i :: 0 <= i < |name| ==> IsLetter(name[i]) || IsDecimal(name[i])
  }

  /** Letters, digits and the characters _ . / + - ~ only. */
  predicate NamesProgram(word: string) {
    forall i :: 0 <= i < |word| ==>
      var c := word[i]; IsLetter(c) || IsDecimal(c) || c == '.' || c == '/' || c == '+' || c == '-' || c == '~'
  }

  /** A space, a tab, a quote, or a backslash in front of nothing but a space or tab. */
  predicate EmptyAt(value: string, i: nat)
    requires i < |value|
  {
    var c := value[i];
    IsGap(c) || c == '\'' || c == '"' || (c == '\\' && (i + 1 < |value| ==> IsGap(value[i + 1])))
  }

  /** Nothing else is in the value. */
  predicate LooksEmpty(value: string) { forall i :: 0 <= i < |value| ==> EmptyAt(value, i) }

  /** From `n` on there are spaces and tabs up to `m`, and no more. */
  predicate GapTo(s: string, n: nat, m: nat) {
    n <= m <= |s| && (forall i :: n <= i < m ==> IsGap(s[i])) && (m < |s| ==> !IsGap(s[m]))
  }

  /** The text is a row of assignments, each a complete word, with a program and its arguments behind them or
      nothing. */
  ghost predicate IsCommand(s: string, sh: Shape)
    decreases |s|, 0
  {
    if s == "" then sh == Shape([], None, false)
    else exists n: nat, m: nat :: 0 < n && IsFirstWord(s, n) && GapTo(s, n, m) && StartsWith(s[..n], s[m..], sh)
  }

  /** The word is an assignment in front of a command, or a program. */
  ghost predicate StartsWith(word: string, rest: string, sh: Shape)
    decreases |rest|, 1
  {
    || (exists e :: 0 <= e < |word| && word[e] == '=' && '=' !in word[..e]
          && NamesVariable(word[..e]) && !LooksEmpty(word[e + 1..])
          && sh.names != [] && sh.names[0] == word[..e] && IsCommand(rest, sh.(names := sh.names[1..])))
    || ('=' !in word && NamesProgram(word) && sh == Shape([], Some(word), rest != ""))
  }

  lemma {:induction false} EmptyIs(value: string)
    ensures IsBlankWord(value) <==> LooksEmpty(value)
    decreases |value|
  {
    hide LooksEmpty, IsBlankWord;
    BlankStep(value);
    EmptyNone();
    BlankStep("");
    if value != "" {
      if value[0] == '\\' && |value| > 1 {
        EmptyIs(value[2..]);
        EmptyStep(value, 2);
      } else {
        EmptyIs(value[1..]);
        EmptyStep(value, 1);
      }
    }
  }

  lemma {:induction false} EmptyNone()
    ensures LooksEmpty("")
  {
  }

  lemma {:induction false} BlankStep(value: string)
    ensures IsBlankWord(value) <==>
            if value == "" then true
            else if value[0] == '\'' || value[0] == '"' then IsBlankWord(value[1..])
            else if value[0] == '\\' then |value| == 1 || (IsBlank(value[1]) && IsBlankWord(value[2..]))
            else IsBlank(value[0]) && IsBlankWord(value[1..])
  {
  }

  lemma {:induction false} EmptyStep(value: string, k: nat)
    requires 1 <= k <= |value| && k == (if value[0] == '\\' && |value| > 1 then 2 else 1)
    ensures LooksEmpty(value) <==>
            && LooksEmpty(value[k..])
            && (if value[0] == '\\' then |value| == 1 || IsBlank(value[1])
                else value[0] == '\'' || value[0] == '"' || IsBlank(value[0]))
  {
    forall i | 0 <= i < |value[k..]| ensures EmptyAt(value[k..], i) <==> EmptyAt(value, i + k) {
      EmptyShift(value, k, i);
    }
    if LooksEmpty(value) {
      assert EmptyAt(value, 0);
    } else {
      assert forall i :: k <= i < |value| ==> (EmptyAt(value[k..], i - k) <==> EmptyAt(value, i));
    }
  }

  lemma {:induction false} EmptyShift(value: string, k: nat, i: nat)
    requires k + i < |value|
    ensures EmptyAt(value[k..], i) <==> EmptyAt(value, i + k)
  {
  }

  lemma {:induction false} VariableIs(name: string)
    ensures IsVariable(name) <==> NamesVariable(name)
  {
  }

  lemma {:induction false} ProgramIs(word: string)
    ensures IsProgram(word) <==> NamesProgram(word)
  {
    assert forall c :: IsProgramChar(c) <==> IsLetter(c) || IsDecimal(c) || c == '.' || c == '/' || c == '+' || c == '-' || c == '~';
  }

  lemma {:induction false} TrimIs(s: string, n: nat, m: nat)
    requires n <= |s|
    ensures GapTo(s, n, m) ==> Trim(s[n..]) == s[m..]
    ensures GapTo(s, n, n + Run(IsBlank, s[n..]))
  {
    hide Run;
    var x := s[n..];
    var k := Run(IsBlank, x);
    assert forall i :: n <= i < |s| ==> x[i - n] == s[i];
    assert x[k..] == s[n + k..];
    if GapTo(s, n, m) {
      RunIs(IsBlank, x, m - n);
    }
  }

  lemma {:induction false} FirstEquals(word: string)
    ensures var e := Find(word, "=");
            if e < 0 then '=' !in word else e < |word| && word[e] == '=' && '=' !in word[..e]
    ensures forall e :: 0 <= e < |word| && word[e] == '=' && '=' !in word[..e] ==> Find(word, "=") == e
  {
    hide Find;
    var e := Find(word, "=");
    assert forall i :: 0 <= i < |word| ==> (At(word, "=", i) <==> word[i] == '=') by {
      assert forall i :: 0 <= i < |word| ==> word[i..i + 1] == [word[i]];
    }
  }

  /** The redactor's shape of a command is the one that these rules give it. */
  lemma {:induction false} CommandExactly(s: string, sh: Shape)
    requires s == "" || !IsGap(s[0])
    ensures Words(s) == Some(sh) <==> IsCommand(s, sh)
    decreases |s|, 0
  {
    hide WordLen, IsFirstWord, GapTo, StartsWith, Trim, Words, IsCommand, Run, FromWord;
    WordsStep(s);
    CommandStep(s, sh);
    if s != "" {
      WordExactly(s);
      if WordLen(s) > 0 {
        var n: nat := WordLen(s);
        var m := n + Run(IsBlank, s[n..]);
        TrimIs(s, n, m);
        GapEnds(s, n, m);
        StartExactly(s[..n], s[m..], sh);
        assert IsFirstWord(s, n) && GapTo(s, n, m);
        if IsCommand(s, sh) {
          var n': nat, m': nat :| 0 < n' && IsFirstWord(s, n') && GapTo(s, n', m') && n' <= |s| && m' <= |s| && StartsWith(s[..n'], s[m'..], sh);
          assert n' == n;
          TrimIs(s, n, m');
        }
      }
    }
  }

  lemma {:induction false} GapEnds(s: string, n: nat, m: nat)
    requires GapTo(s, n, m)
    ensures m <= |s| && n <= m && (s[m..] == "" || !IsGap(s[m..][0]))
  {
  }

  lemma {:induction false} CommandStep(s: string, sh: Shape)
    ensures IsCommand(s, sh) <==>
            if s == "" then sh == Shape([], None, false)
            else exists n: nat, m: nat :: 0 < n && IsFirstWord(s, n) && GapTo(s, n, m) && n <= |s| && m <= |s| && StartsWith(s[..n], s[m..], sh)
  {
  }

  /** What `Words` makes of the first word and the rest. */
  function FromWord(word: string, rest: string): Option<Shape> {
    var eq := Find(word, "=");
    if eq >= 0 then
      if !IsVariable(word[..eq]) || IsBlankWord(word[eq + 1..]) then None
      else
        match Words(rest)
        case None => None
        case Some(sh) => Some(sh.(names := [word[..eq]] + sh.names))
    else if !IsProgram(word) then None
    else Some(Shape([], Some(word), rest != ""))
  }

  lemma {:induction false} WordsStep(s: string)
    ensures Words(s) ==
            if s == "" then Some(Shape([], None, false))
            else if WordLen(s) <= 0 then None
            else FromWord(s[..WordLen(s)], Trim(s[WordLen(s)..]))
  {
    hide WordLen, Find, IsVariable, IsBlankWord, IsProgram, Trim;
  }

  lemma {:induction false} StartExactly(word: string, rest: string, sh: Shape)
    requires rest == "" || !IsGap(rest[0])
    requires word != ""
    ensures FromWord(word, rest) == Some(sh) <==> StartsWith(word, rest, sh)
    decreases |rest|, 1
  {
    hide Find, IsVariable, IsBlankWord, IsProgram, Words, IsCommand, NamesVariable, NamesProgram, LooksEmpty;
    var e := Find(word, "=");
    FirstEquals(word);
    if e >= 0 {
      VariableIs(word[..e]);
      EmptyIs(word[e + 1..]);
      var tail := sh.(names := if sh.names == [] then [] else sh.names[1..]);
      CommandExactly(rest, tail);
      NamesBack(sh, word[..e], Words(rest));
    } else {
      ProgramIs(word);
    }
  }

  lemma {:induction false} NamesBack(sh: Shape, name: string, w: Option<Shape>)
    ensures (w.Some? && w.value.(names := [name] + w.value.names) == sh) <==>
            sh.names != [] && sh.names[0] == name && w == Some(sh.(names := sh.names[1..]))
  {
    if w.Some? {
      var ns := [name] + w.value.names;
      assert ns[1..] == w.value.names && ns[0] == name;
    }
    if sh.names != [] {
      assert sh.names == [sh.names[0]] + sh.names[1..];
    }
  }

  // The redaction

  /** A backslash stands directly in front of a line feed. */
  predicate ContinuesLine(s: string) { exists i :: 0 <= i < |s| - 1 && s[i] == '\\' && s[i + 1] as int == 10 }

  predicate AllGaps(s: string) { forall i :: 0 <= i < |s| ==> IsGap(s[i]) }

  /** The names with the placeholder behind each, the program, and a placeholder if something follows it. */
  function Line(sh: Shape): string
    decreases |sh.names|
  {
    if sh.names != [] then
      var rest := sh.(names := sh.names[1..]);
      sh.names[0] + "=********" + (if rest == Shape([], None, false) then "" else " " + Line(rest))
    else if sh.prog.Some? then sh.prog.value + (if sh.more then " ********" else "")
    else ""
  }

  /** What is shown of a command: all of it if it is blank, the placeholder if a line is continued in it or it is
      not a command by these rules, and otherwise no more than names and program. */
  lemma {:induction false} RedactExactly(command: string, m: nat)
    requires GapTo(command, 0, m)
    ensures ContinuesLine(command) ==> Redact(command) == "********"
    ensures !ContinuesLine(command) && AllGaps(command) ==> Redact(command) == command
    ensures !ContinuesLine(command) && !AllGaps(command) ==>
              if exists sh :: IsCommand(command[m..], sh) then forall sh :: IsCommand(command[m..], sh) ==> Redact(command) == Line(sh)
              else Redact(command) == "********"
  {
    hide Words, IsCommand, Trim, Line, JoinSpace, Shown;
    ContinuesIs(command);
    TrimIs(command, 0, m);
    assert command[0..] == command;
    GapEnds(command, 0, m);
    GapsIs(command, m);
    WordsStep("");
    var s := command[m..];
    forall sh: Shape ensures Words(s) == Some(sh) <==> IsCommand(s, sh) {
      CommandExactly(s, sh);
    }
    if Words(s).Some? {
      WordsValid(s);
      LineIs(Words(s).value);
    }
  }

  lemma {:induction false} GapsIs(s: string, m: nat)
    requires GapTo(s, 0, m)
    ensures AllGaps(s) <==> s[m..] == ""
  {
  }

  lemma {:induction false} ContinuesIs(s: string)
    ensures Contains(s, "\\\n") <==> ContinuesLine(s)
  {
    var f := "\\\n";
    assert |f| == 2 && f[0] == '\\' && f[1] == '\n';
    if Contains(s, f) {
      var i :| 0 <= i <= |s| && At(s, f, i);
      assert s[i] == s[i..i + 2][0] && s[i + 1] == s[i..i + 2][1];
    }
    if ContinuesLine(s) {
      var i :| 0 <= i < |s| - 1 && s[i] == '\\' && s[i + 1] as int == 10;
      assert s[i..i + 2] == f;
      assert At(s, f, i);
    }
  }

  lemma {:induction false} LineIs(sh: Shape)
    requires ValidShape(sh)
    ensures JoinSpace(Shown(sh)) == Line(sh)
    decreases |sh.names|
  {
    hide IsVariable, IsProgram;
    if sh.names != [] {
      var rest := sh.(names := sh.names[1..]);
      LineIs(rest);
      ShownCons(sh);
      var a, ws := Assignment(sh.names[0]), Shown(rest);
      assert STARS == "********";
      assert a == sh.names[0] + "=********" by { assert "=" + STARS == "=********"; }
      JoinNext(a, ws);
      ShownNone(rest);
      assert a + "" == a;
    } else {
      LineProgram(sh);
    }
  }

  lemma {:induction false} ShownNone(sh: Shape)
    requires ValidShape(sh)
    ensures Shown(sh) == [] <==> sh == Shape([], None, false)
  {
  }

  lemma {:induction false} LineProgram(sh: Shape)
    requires ValidShape(sh) && sh.names == []
    ensures JoinSpace(Shown(sh)) == Line(sh)
  {
    hide IsProgram, IsVariable, STARS, JoinSpace;
    if sh.prog.Some? {
      var p := sh.prog.value;
      assert Shown(sh) == [p] + if sh.more then [STARS] else [];
      JoinNext(p, if sh.more then [STARS] else []);
      LoneStars();
      assert p + "" == p;
    } else {
      assert Shown(sh) == [];
      LoneStars();
    }
  }

  lemma {:induction false} LoneStars()
    ensures JoinSpace([STARS]) == STARS && JoinSpace([]) == "" && " " + STARS == " ********" && Rest([]) == ""
  {
  }
}
