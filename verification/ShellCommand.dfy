/**
 The shell-command redactor of pkg/pgsettings: what a command is reduced to, as a function of its text.
 */
module ShellCommand {
  import opened Text
  import ConnString

  const STARS := ConnString.STARS

  const UNSAFE := ";&|<>()`$\n\r"

  predicate IsBlank(c: char) { c == ' ' || c == '\t' }

  function Trim(s: string): string { DropRun(IsBlank, s) }

  // Words

  /** The length of the rest of a double-quoted text, closing quote included; 0 when it has no end or an expansion. */
  function DoubleLen(s: string): (n: nat)
    ensures n <= |s|
  {
    if s == "" || s[0] == '$' || s[0] == '`' then 0
    else if s[0] == '"' then 1
    else if s[0] == '\\' then
      if |s| == 1 then 0 else var n := DoubleLen(s[2..]); if n == 0 then 0 else 2 + n
    else var n := DoubleLen(s[1..]); if n == 0 then 0 else 1 + n
  }

  /** The length of the part of a word at the start of `s`; 0 when the command is given up. */
  function PartLen(s: string): (n: nat)
    requires s != ""
    ensures n <= |s|
  {
    if s[0] == '\'' then var e := Find(s[1..], "'"); if e < 0 then 0 else e + 2
    else if s[0] == '"' then var n := DoubleLen(s[1..]); if n == 0 then 0 else 1 + n
    else if s[0] == '\\' then if |s| == 1 then 0 else 2
    else if s[0] in UNSAFE then 0
    else 1
  }

  /** The length of the word at the start of `s`, or -1. */
  function WordLen(s: string): (n: int)
    ensures -1 <= n <= |s|
    ensures 0 <= n < |s| ==> IsBlank(s[n])
    ensures n == 0 ==> s == "" || IsBlank(s[0])
    decreases |s|
  {
    if s == "" || IsBlank(s[0]) then 0
    else
      var p := PartLen(s);
      if p == 0 then -1 else var n := WordLen(s[p..]); if n < 0 then -1 else p + n
  }

  // Names

  predicate IsNameStart(c: char) { c == '_' || 'A' <= c <= 'Z' || 'a' <= c <= 'z' }

  predicate IsNameChar(c: char) { IsNameStart(c) || '0' <= c <= '9' }

  predicate IsVariable(name: string) { name != "" && IsNameStart(name[0]) && All(IsNameChar, name) }

  predicate IsProgramChar(c: char) { IsNameChar(c) || c in "./+-~" }

  predicate IsProgram(word: string) { All(IsProgramChar, word) }

  /** The word is blank once its quotes and backslashes are removed. */
  predicate IsBlankWord(word: string) {
    if word == "" then true
    else if word[0] == '\'' || word[0] == '"' then IsBlankWord(word[1..])
    else if word[0] == '\\' then |word| == 1 || (IsBlank(word[1]) && IsBlankWord(word[2..]))
    else IsBlank(word[0]) && IsBlankWord(word[1..])
  }

  // Commands

  /** What is kept of a command: the names of the variables assigned in front of it, the program, and
      whether anything follows that. */
  datatype Shape = Shape(names: seq<string>, prog: Option<string>, more: bool)

  /** Reads the words of a command without leading blanks; None when it is given up. */
  function Words(s: string): (r: Option<Shape>)
    decreases |s|
  {
    if s == "" then Some(Shape([], None, false))
    else
      var n := WordLen(s);
      if n <= 0 then None
      else
        var word, rest := s[..n], Trim(s[n..]);
        var eq := Find(word, "=");
        if eq >= 0 then
          if !IsVariable(word[..eq]) || IsBlankWord(word[eq + 1..]) then None
          else
            match Words(rest)
            case None => None
            case Some(sh) => Some(sh.(names := [word[..eq]] + sh.names))
        else if !IsProgram(word) then None
        else Some(Shape([], Some(word), rest != ""))
  }

  function ShapeOf(command: string): Option<Shape> {
    if Contains(command, "\\\n") then None else Words(Trim(command))
  }

  function Assignment(name: string): string { name + "=" + STARS }

  /** The words that are shown for a command of the given shape. */
  function Shown(sh: Shape): seq<string> {
    seq(|sh.names|, i requires 0 <= i < |sh.names| => Assignment(sh.names[i]))
    + (if sh.prog.Some? then [sh.prog.value] else []) + (if sh.more then [STARS] else [])
  }

  function Redact(command: string): string {
    match ShapeOf(command)
    case None => STARS
    case Some(sh) => if Trim(command) == "" then command else JoinSpace(Shown(sh))
  }

  lemma {:induction false} ShownCons(sh: Shape)
    requires sh.names != []
    ensures Shown(sh) == [Assignment(sh.names[0])] + Shown(sh.(names := sh.names[1..]))
  {
  }

  // The quoting rules, one character at a time

  /** How the shell reads the next character of a word. */
  datatype Mode = Bare | Single | Double | BareEscape | DoubleEscape | GivenUp

  function Step(m: Mode, c: char): Mode {
    match m
    case Bare =>
      if c == '\'' then Single else if c == '"' then Double else if c == '\\' then BareEscape
      else if c in UNSAFE then GivenUp else Bare
    case Single => if c == '\'' then Bare else Single
    case Double =>
      if c == '"' then Bare else if c == '$' || c == '`' then GivenUp
      else if c == '\\' then DoubleEscape else Double
    case BareEscape => Bare
    case DoubleEscape => Double
    case GivenUp => GivenUp
  }

  function ModeAfter(m: Mode, s: string): Mode
    decreases |s|
  {
    if s == "" then m else ModeAfter(Step(m, s[0]), s[1..])
  }

  /** A word ends in front of position `n`: an unquoted blank or the end of the text is there. */
  predicate EndsAt(m: Mode, s: string, n: nat) {
    n <= |s| && ModeAfter(m, s[..n]) == Bare && (n == |s| || IsBlank(s[n]))
  }

  lemma {:induction false} EndsLater(m: Mode, s: string, k: nat, n: nat)
    requires k <= |s|
    ensures EndsAt(m, s, k + n) <==> EndsAt(ModeAfter(m, s[..k]), s[k..], n)
  {
    if k + n <= |s| {
      ModeSplit(m, s[..k], s[k..][..n]);
      assert s[..k + n] == s[..k] + s[k..][..n];
    }
  }

  lemma {:induction false} ModeSplit(m: Mode, a: string, b: string)
    ensures ModeAfter(m, a + b) == ModeAfter(ModeAfter(m, a), b)
    decreases |a|
  {
    if a == "" {
      assert a + b == b;
    } else {
      assert (a + b)[1..] == a[1..] + b && (a + b)[0] == a[0];
      ModeSplit(Step(m, a[0]), a[1..], b);
    }
  }

  /** A text that is given up stays so. */
  lemma {:induction false} NeverEnds(s: string, n: nat)
    ensures !EndsAt(GivenUp, s, n)
    decreases |s|, n
  {
    if 0 < n <= |s| {
      assert s[..n][1..] == s[1..][..n - 1];
      NeverEnds(s[1..], n - 1);
      EndsLater(GivenUp, s, 1, n - 1);
      OneMode(GivenUp, s);
    }
  }

  lemma {:induction false} OneMode(m: Mode, s: string)
    requires s != ""
    ensures ModeAfter(m, s[..1]) == Step(m, s[0])
  {
    assert s[..1][1..] == "";
  }

  /** `n` is where the word first ends, when it is read from mode `m`; -1 when it never does. */
  ghost predicate FirstEnd(m: Mode, s: string, n: int) {
    if n < 0 then forall k: nat :: !EndsAt(m, s, k)
    else EndsAt(m, s, n) && forall k: nat :: k < n ==> !EndsAt(m, s, k)
  }

  /** What is read first can be cut off, if the word does not end in it. */
  lemma {:induction false} FirstEndLater(m: Mode, s: string, k: nat, n: int)
    requires k <= |s| && (forall i: nat :: i < k ==> !EndsAt(m, s, i))
    requires FirstEnd(ModeAfter(m, s[..k]), s[k..], n)
    ensures FirstEnd(m, s, if n < 0 then -1 else k + n)
  {
    hide EndsAt, ModeAfter;
    forall i: nat | k <= i ensures EndsAt(m, s, i) <==> EndsAt(ModeAfter(m, s[..k]), s[k..], i - k) {
      EndsLater(m, s, k, i - k);
    }
  }

  /** One character is read, in a place where the word does not end. */
  lemma {:induction false} FirstEndStep(m: Mode, s: string, n: int)
    requires s != "" && !(m == Bare && IsBlank(s[0]))
    requires FirstEnd(Step(m, s[0]), s[1..], n)
    ensures FirstEnd(m, s, if n < 0 then -1 else 1 + n)
  {
    hide FirstEnd;
    OneMode(m, s);
    assert s[..0] == "";
    FirstEndLater(m, s, 1, n);
  }

  lemma {:induction false} NoEnd(m: Mode, s: string)
    requires m == GivenUp || (s == "" && m != Bare)
    ensures FirstEnd(m, s, -1)
  {
    forall k: nat ensures !EndsAt(m, s, k) {
      if m == GivenUp {
        NeverEnds(s, k);
      }
    }
  }

  function Add(k: nat, n: int): int { if n < 0 then -1 else k + n }

  /** A single-quoted text is left at the next quote. */
  lemma {:induction false} SingleEnd(s: string, e: int, n: int)
    requires e == Find(s, "'") && (e >= 0 ==> FirstEnd(Bare, s[e + 1..], n))
    ensures FirstEnd(Single, s, if e < 0 then -1 else Add(e + 1, n))
    decreases |s|
  {
    hide FirstEnd, Find;
    if s == "" {
      NoEnd(Single, s);
    } else if s[0] == '\'' {
      assert At(s, "'", 0);
      FirstEndStep(Single, s, n);
    } else {
      var e' := Find(s[1..], "'");
      FindNext(s);
      assert e >= 0 ==> s[1..][e' + 1..] == s[e + 1..];
      SingleEnd(s[1..], e', n);
      FirstEndStep(Single, s, if e' < 0 then -1 else Add(e' + 1, n));
    }
  }

  lemma {:induction false} FindNext(s: string)
    requires s != "" && s[0] != '\''
    ensures Find(s, "'") == Add(1, Find(s[1..], "'"))
  {
    hide Find;
    OccursFrom(s, "'", 1);
    assert !At(s, "'", 0);
    FindIs(s, "'", Add(1, Find(s[1..], "'")));
  }

  /** A double-quoted text is left at the next quote that is not escaped. */
  lemma {:induction false} DoubleEnd(s: string, n: int)
    requires DoubleLen(s) > 0 ==> FirstEnd(Bare, s[DoubleLen(s)..], n)
    ensures FirstEnd(Double, s, if DoubleLen(s) == 0 then -1 else Add(DoubleLen(s), n))
    decreases |s|
  {
    hide FirstEnd;
    if s == "" {
      NoEnd(Double, s);
    } else if s[0] == '"' {
      FirstEndStep(Double, s, n);
    } else if s[0] == '$' || s[0] == '`' {
      NoEnd(GivenUp, s[1..]);
      FirstEndStep(Double, s, -1);
    } else if s[0] == '\\' {
      if |s| == 1 {
        NoEnd(DoubleEscape, s[1..]);
        FirstEndStep(Double, s, -1);
      } else {
        var d := DoubleLen(s[2..]);
        assert s[1..][1..] == s[2..];
        assert d > 0 ==> s[2..][d..] == s[2 + d..];
        DoubleEnd(s[2..], n);
        var n' := if d == 0 then -1 else Add(d, n);
        FirstEndStep(DoubleEscape, s[1..], n');
        FirstEndStep(Double, s, Add(1, n'));
      }
    } else {
      var d := DoubleLen(s[1..]);
      assert d > 0 ==> s[1..][d..] == s[1 + d..];
      DoubleEnd(s[1..], n);
      FirstEndStep(Double, s, if d == 0 then -1 else Add(d, n));
    }
  }

  /** A part of a word is read as the shell reads it. */
  lemma {:induction false} PartEnd(s: string, n: int)
    requires s != "" && !IsBlank(s[0]) && (PartLen(s) > 0 ==> FirstEnd(Bare, s[PartLen(s)..], n))
    ensures FirstEnd(Bare, s, if PartLen(s) == 0 then -1 else Add(PartLen(s), n))
  {
    hide FirstEnd, Find, DoubleLen;
    var p := PartLen(s);
    if s[0] == '\'' {
      var e := Find(s[1..], "'");
      assert p > 0 ==> s[1..][e + 1..] == s[p..];
      SingleEnd(s[1..], e, n);
      FirstEndStep(Bare, s, if e < 0 then -1 else Add(e + 1, n));
    } else if s[0] == '"' {
      var d := DoubleLen(s[1..]);
      assert p > 0 ==> s[1..][d..] == s[p..];
      DoubleEnd(s[1..], n);
      FirstEndStep(Bare, s, if d == 0 then -1 else Add(d, n));
    } else if s[0] == '\\' {
      EscapeEnd(s, n);
    } else {
      UnquotedEnd(s, n);
    }
  }

  lemma {:induction false} EscapeEnd(s: string, n: int)
    requires s != "" && s[0] == '\\' && (|s| > 1 ==> FirstEnd(Bare, s[2..], n))
    ensures FirstEnd(Bare, s, if |s| == 1 then -1 else Add(2, n))
  {
    hide FirstEnd;
    if |s| == 1 {
      NoEnd(BareEscape, s[1..]);
      FirstEndStep(Bare, s, -1);
    } else {
      assert s[1..][1..] == s[2..];
      FirstEndStep(BareEscape, s[1..], n);
      FirstEndStep(Bare, s, Add(1, n));
    }
  }

  lemma {:induction false} UnquotedEnd(s: string, n: int)
    requires s != "" && !IsBlank(s[0]) && s[0] != '\'' && s[0] != '"' && s[0] != '\\'
    requires s[0] !in UNSAFE ==> FirstEnd(Bare, s[1..], n)
    ensures FirstEnd(Bare, s, if s[0] in UNSAFE then -1 else Add(1, n))
  {
    hide FirstEnd, UNSAFE;
    if s[0] in UNSAFE {
      NoEnd(GivenUp, s[1..]);
      FirstEndStep(Bare, s, -1);
    } else {
      FirstEndStep(Bare, s, n);
    }
  }

  /** A word ends where the shell's quoting rules say: at the first blank that is not quoted. */
  lemma {:induction false} WordEnds(s: string)
    ensures FirstEnd(Bare, s, WordLen(s))
    decreases |s|
  {
    hide FirstEnd, PartLen;
    if s == "" || IsBlank(s[0]) {
      EndsHere(s);
    } else {
      var p := PartLen(s);
      if p > 0 {
        WordEnds(s[p..]);
        PartEnd(s, WordLen(s[p..]));
      } else {
        PartEnd(s, -1);
      }
    }
  }

  lemma {:induction false} EndsHere(s: string)
    requires s == "" || IsBlank(s[0])
    ensures FirstEnd(Bare, s, 0)
  {
    assert s[..0] == "";
  }

  // Reading a shown command back

  predicate IsPlain(c: char) { !IsBlank(c) && c != '\'' && c != '"' && c != '\\' && c !in UNSAFE }

  lemma {:induction false} PlainWord(w: string, r: string)
    requires All(IsPlain, w) && (r == "" || IsBlank(r[0]))
    ensures WordLen(w + r) == |w|
    decreases |w|
  {
    if w == "" {
      assert w + r == r;
    } else {
      assert (w + r)[0] == w[0] && (w + r)[1..] == w[1..] + r;
      PlainWord(w[1..], r);
    }
  }

  /** What `Words` finds. */
  predicate ValidShape(sh: Shape) {
    && (forall i :: 0 <= i < |sh.names| ==> IsVariable(sh.names[i]))
    && (sh.prog.Some? ==> sh.prog.value != "" && IsProgram(sh.prog.value))
    && (sh.more ==> sh.prog.Some?)
  }

  lemma {:induction false} WordsValid(s: string)
    requires Words(s).Some?
    ensures ValidShape(Words(s).value)
    ensures s != "" ==> Words(s).value != Shape([], None, false)
    decreases |s|
  {
    hide IsVariable, IsProgram, IsBlankWord, WordLen, Find, ValidShape;
    if s == "" {
      LoneValid(None, false);
    } else {
      var n := WordLen(s);
      var word, rest := s[..n], Trim(s[n..]);
      var eq := Find(word, "=");
      if eq >= 0 {
        WordsValid(rest);
        NamedValid(word[..eq], Words(rest).value);
      } else {
        LoneValid(Some(word), rest != "");
      }
    }
  }

  lemma {:induction false} LoneValid(prog: Option<string>, more: bool)
    requires if prog.Some? then prog.value != "" && IsProgram(prog.value) else !more
    ensures ValidShape(Shape([], prog, more))
  {
  }

  lemma {:induction false} NamedValid(name: string, sh: Shape)
    requires IsVariable(name) && ValidShape(sh)
    ensures ValidShape(sh.(names := [name] + sh.names)) && [name] + sh.names != []
  {
  }

  lemma {:induction false} NamePlain(name: string)
    requires IsVariable(name)
    ensures All(IsPlain, Assignment(name)) && Find(Assignment(name), "=") == |name|
    ensures Assignment(name)[..|name|] == name && Assignment(name)[|name| + 1..] == STARS
  {
    hide STARS, IsPlain, IsNameChar, IsNameStart, Find, At, Assignment;
    StarsOnly();
    StarKinds();
    NameKinds();
    AssignmentAt(name);
    FirstEquals(name, STARS);
  }

  lemma {:induction false} NameKinds()
    ensures IsPlain('=') && !IsNameChar('=') && forall c :: IsNameChar(c) ==> IsPlain(c)
  {
  }

  lemma {:induction false} AssignmentAt(name: string)
    ensures var w := Assignment(name); |w| == |name| + 1 + |STARS| && w == name + "=" + STARS
    ensures var w := Assignment(name); w[..|name|] == name && w[|name|] == '=' && w[|name| + 1..] == STARS
  {
    hide STARS;
  }

  lemma {:induction false} FirstEquals(name: string, v: string)
    requires All(IsNameChar, name) && !IsNameChar('=')
    ensures Find(name + "=" + v, "=") == |name|
  {
    hide Find, IsNameChar;
    var w := name + "=" + v;
    assert w[|name|] == '=';
    forall j: nat | j < |name| ensures !At(w, "=", j) {
      assert w[j] == name[j];
    }
    FindIs(w, "=", |name|);
  }

  lemma {:induction false} ProgramPlain(word: string)
    requires IsProgram(word)
    ensures All(IsPlain, word) && Find(word, "=") < 0
  {
    assert !IsProgramChar('=');
    if Contains(word, "=") {
      ContainsHead(word, "=");
    }
  }

  lemma {:induction false} StarsPlain()
    ensures !IsBlankWord(STARS) && All(IsPlain, STARS) && Find(STARS, "=") < 0 && !IsProgram(STARS)
  {
    hide FindFrom, STARS, IsPlain, IsProgramChar;
    StarsOnly();
    StarKinds();
    assert STARS[0] == '*';
    if Contains(STARS, "=") {
      ContainsHead(STARS, "=");
    }
  }

  lemma {:induction false} StarsOnly()
    ensures |STARS| == 8 && forall i :: 0 <= i < |STARS| ==> STARS[i] == '*'
  {
  }

  lemma {:induction false} StarKinds()
    ensures IsPlain('*') && !IsProgramChar('*')
  {
  }

  lemma {:induction false} StarsWord()
    ensures Words(STARS) == None
  {
    hide Find, IsBlankWord, IsPlain, IsProgram, WordLen;
    StarsPlain();
    PlainWord(STARS, "");
    assert STARS + "" == STARS && STARS[..|STARS|] == STARS;
  }

  function Rest(parts: seq<string>): string { if parts == [] then "" else " " + JoinSpace(parts) }

  lemma {:induction false} JoinNext(w: string, parts: seq<string>)
    ensures JoinSpace([w] + parts) == w + Rest(parts)
  {
    assert ([w] + parts)[1..] == parts;
    assert w + "" == w;
    assert w + " " + JoinSpace(parts) == w + (" " + JoinSpace(parts));
  }

  /** No part is empty or starts with a blank. */
  predicate Parts(parts: seq<string>) {
    forall i :: 0 <= i < |parts| ==> parts[i] != "" && !IsBlank(parts[i][0])
  }

  lemma {:induction false} TrimRest(parts: seq<string>)
    requires Parts(parts)
    ensures Trim(Rest(parts)) == JoinSpace(parts) && Trim(JoinSpace(parts)) == JoinSpace(parts)
    ensures parts != [] ==> JoinSpace(parts) != ""
  {
    hide Run;
    var t := JoinSpace(parts);
    if parts == [] {
      RunIs(IsBlank, "", 0);
    } else {
      assert parts == [parts[0]] + parts[1..];
      JoinNext(parts[0], parts[1..]);
      assert t[0] == parts[0][0];
      RunIs(IsBlank, " " + t, 1);
      RunIs(IsBlank, t, 0);
    }
  }

  lemma {:induction false} ShownParts(sh: Shape)
    requires ValidShape(sh)
    ensures Parts(Shown(sh))
    ensures sh.names != [] ==> Shown(sh) == [Assignment(sh.names[0])] + Shown(sh.(names := sh.names[1..]))
  {
    var ps := Shown(sh);
    forall i | 0 <= i < |ps| ensures ps[i] != "" && !IsBlank(ps[i][0]) {
      if i < |sh.names| {
        assert ps[i] == Assignment(sh.names[i]) && ps[i][0] == sh.names[i][0];
      } else {
        assert ps[i] == STARS || ps[i] == sh.prog.value;
      }
    }
  }

  /** A shown command has the shape it was shown for. */
  lemma {:induction false} ShownBack(sh: Shape)
    requires ValidShape(sh)
    ensures Words(JoinSpace(Shown(sh))) == Some(sh)
    decreases |sh.names|
  {
    hide IsVariable, IsProgram, IsBlankWord, Find, Shown, Trim, Assignment;
    ShownParts(sh);
    if sh.names != [] {
      var name, sh' := sh.names[0], sh.(names := sh.names[1..]);
      ShownBack(sh');
      ShownParts(sh');
      var w, ps := Assignment(name), Shown(sh');
      JoinNext(w, ps);
      NamePlain(name);
      PlainWord(w, Rest(ps));
      TrimRest(ps);
      CutAppend(w, Rest(ps), |w|);
      StarsPlain();
      assert w != "" && w[..|w|] == w;
      assert [name] + sh'.names == sh.names;
    } else {
      ProgramBack(sh);
    }
  }

  lemma {:induction false} ProgramBack(sh: Shape)
    requires ValidShape(sh) && sh.names == []
    ensures Words(JoinSpace(Shown(sh))) == Some(sh)
  {
    hide IsVariable, IsProgram, IsBlankWord, Find, Trim, JoinSpace;
    ShownParts(sh);
    match sh.prog {
      case None =>
        assert Shown(sh) == [];
        NoParts();
      case Some(word) =>
        var ps := if sh.more then [STARS] else [];
        assert Shown(sh) == [word] + ps;
        JoinNext(word, ps);
        ProgramPlain(word);
        PlainWord(word, Rest(ps));
        assert Parts(ps) by { assert ps != [] ==> ps[0] == Shown(sh)[1]; }
        TrimRest(ps);
        NoParts();
        CutAppend(word, Rest(ps), |word|);
        assert word[..|word|] == word;
    }
  }

  lemma {:induction false} NoParts()
    ensures JoinSpace([]) == ""
  {
  }

  lemma {:induction false} ShownSafe(sh: Shape)
    requires ValidShape(sh)
    ensures '\\' !in JoinSpace(Shown(sh))
  {
    var ps := Shown(sh);
    forall i | 0 <= i < |ps| ensures '\\' !in ps[i] {
      if i < |sh.names| {
        assert ps[i] == Assignment(sh.names[i]);
        NamePlain(sh.names[i]);
      } else if ps[i] != STARS {
        assert ps[i] == sh.prog.value;
      }
    }
    JoinSafe(ps);
  }

  lemma {:induction false} JoinSafe(ps: seq<string>)
    requires forall i :: 0 <= i < |ps| ==> '\\' !in ps[i]
    ensures '\\' !in JoinSpace(ps)
    decreases |ps|
  {
    if |ps| > 1 {
      JoinSafe(ps[1..]);
    }
  }

  // The results

  /** The shape of a shown command. */
  lemma {:induction false} RedactedShape(command: string)
    requires ShapeOf(command).Some? && Trim(command) != ""
    ensures ShapeOf(Redact(command)) == ShapeOf(command) && Trim(Redact(command)) == Redact(command) != ""
  {
    hide Words, Shown, Trim, JoinSpace, ValidShape, Contains;
    var sh := ShapeOf(command).value;
    WordsValid(Trim(command));
    ShownBack(sh);
    ShownSafe(sh);
    ShownParts(sh);
    TrimRest(Shown(sh));
    var out := Redact(command);
    if Contains(out, "\\\n") {
      ContainsHead(out, "\\\n");
    }
    NoWords();
  }

  lemma {:induction false} NoWords()
    ensures Words("") == Some(Shape([], None, false))
  {
  }

  lemma {:induction false} StarsShape()
    ensures ShapeOf(STARS) == None
  {
    hide Words, Run;
    StarsWord();
    assert STARS[0] == '*';
    RunIs(IsBlank, STARS, 0);
  }

  /** Redacting a redacted command changes nothing, whatever the command was. */
  lemma {:induction false} RedactIdempotent(command: string)
    ensures Redact(Redact(command)) == Redact(command)
  {
    hide ShapeOf, Trim, Shown, JoinSpace;
    if ShapeOf(command).Some? && Trim(command) != "" {
      RedactedShape(command);
    } else if ShapeOf(command).None? {
      StarsShape();
    }
  }

  /** Two commands, not blank, are shown alike exactly when they have the same leading variable names,
      the same program and both or neither go on: nothing else about them can be told from the result. */
  lemma {:induction false} ShapeDecides(a: string, b: string)
    requires Trim(a) != "" && Trim(b) != ""
    ensures Redact(a) == Redact(b) <==> ShapeOf(a) == ShapeOf(b)
  {
    hide ShapeOf, Trim, Shown, JoinSpace;
    StarsShape();
    if ShapeOf(a).Some? {
      RedactedShape(a);
    }
    if ShapeOf(b).Some? {
      RedactedShape(b);
    }
  }
}
