/**
 The loops of pkg/pgsettings/redact.go, proved to compute what `ShellCommand` says, and the choice
 of a redaction by the name of a setting.
 */
module ShellScan {
  import opened Text
  import opened ShellCommand
  import ConnString
  import ConnStringRedaction
  import SqlRedact
  import opened Spelling
  import SecretWords

  // Words

  lemma {:induction false} DoubleStep(s: string, i: nat)
    requires i < |s|
    ensures var n := DoubleLen(s[i..]);
            if s[i] == '$' || s[i] == '`' then n == 0
            else if s[i] == '"' then n == 1
            else
              var k := if s[i] == '\\' then 2 else 1;
              if i + k > |s| then n == 0
              else var r := DoubleLen(s[i + k..]); n == if r == 0 then 0 else k + r
  {
    assert s[i..][1..] == s[i + 1..];
    assert i + 2 <= |s| ==> s[i..][2..] == s[i + 2..];
  }

  /** The index behind the closing quote, or -1. */
  method SkipDoubleQuoted(s: string, start: nat) returns (end: int)
    requires start <= |s|
    ensures end == if DoubleLen(s[start..]) == 0 then -1 else start + DoubleLen(s[start..])
  {
    hide DoubleLen;
    var i := start;
    ghost var all := DoubleLen(s[start..]);
    while i < |s|
      invariant start <= i <= |s| + 1
      invariant i <= |s| ==> all == (if DoubleLen(s[i..]) == 0 then 0 else i - start + DoubleLen(s[i..]))
      invariant i == |s| + 1 ==> all == 0
    {
      DoubleStep(s, i);
      if s[i] == '"' {
        return i + 1;
      }
      if s[i] == '$' || s[i] == '`' {
        return -1;
      }
      if s[i] == '\\' {
        i := i + 1;
      }
      i := i + 1;
    }
    end := -1;
  }

  method SkipShellWordPart(s: string, i: nat) returns (end: int)
    requires i < |s|
    ensures end == if PartLen(s[i..]) == 0 then -1 else i + PartLen(s[i..])
  {
    hide DoubleLen, Find;
    assert s[i..][1..] == s[i + 1..];
    if s[i] == '\'' {
      var e := Find(s[i + 1..], "'");
      return if e < 0 then -1 else i + e + 2;
    }
    if s[i] == '"' {
      end := SkipDoubleQuoted(s, i + 1);
      return;
    }
    if s[i] == '\\' {
      return if i + 1 >= |s| then -1 else i + 2;
    }
    end := if s[i] in UNSAFE then -1 else i + 1;
  }

  /** The first word and what follows it; None when the command is given up. */
  method NextShellWord(s: string) returns (r: Option<(string, string)>)
    requires s != "" && !IsBlank(s[0])
    ensures r.None? <==> WordLen(s) < 0
    ensures r.Some? ==> r.value.0 != "" && r.value.0 + r.value.1 == s && |r.value.0| == WordLen(s)
  {
    hide PartLen;
    var i := 0;
    assert s[0..] == s;
    while i < |s|
      invariant 0 <= i <= |s|
      invariant WordLen(s) == Add(i, WordLen(s[i..]))
    {
      if IsBlank(s[i]) {
        return Some((s[..i], s[i..]));
      }
      var next := SkipShellWordPart(s, i);
      if next < 0 {
        return None;
      }
      assert s[i..][next - i..] == s[next..];
      i := next;
    }
    assert s + "" == s;
    r := Some((s, ""));
  }

  // Names

  lemma {:induction false} BlankStep(word: string, i: nat)
    requires i < |word|
    ensures IsBlankWord(word[i..]) <==>
            if word[i] == '\'' || word[i] == '"' then IsBlankWord(word[i + 1..])
            else if word[i] == '\\' then i + 1 == |word| || (IsBlank(word[i + 1]) && IsBlankWord(word[i + 2..]))
            else IsBlank(word[i]) && IsBlankWord(word[i + 1..])
  {
    assert word[i..][1..] == word[i + 1..];
    assert i + 2 <= |word| ==> word[i..][2..] == word[i + 2..];
  }

  method IsBlankShellWord(word: string) returns (blank: bool)
    ensures blank == IsBlankWord(word)
  {
    hide IsBlankWord;
    var i := 0;
    assert word[0..] == word;
    while i < |word|
      invariant 0 <= i <= |word| + 1
      invariant i <= |word| ==> IsBlankWord(word) == IsBlankWord(word[i..])
      invariant i == |word| + 1 ==> IsBlankWord(word)
    {
      BlankStep(word, i);
      var c := word[i];
      if c == '\\' {
        i := i + 1;
        if i < |word| && !IsBlank(word[i]) {
          return false;
        }
      } else if c != '\'' && c != '"' && !IsBlank(c) {
        return false;
      }
      i := i + 1;
    }
    EmptyBlank();
    assert i == |word| ==> word[i..] == "";
    blank := true;
  }

  lemma {:induction false} EmptyBlank()
    ensures IsBlankWord("")
  {
  }

  method IsShellVariableName(name: string) returns (ok: bool)
    ensures ok == IsVariable(name)
  {
    if name == "" {
      return false;
    }
    for i := 0 to |name|
      invariant forall k :: 0 <= k < i ==> IsNameChar(name[k])
      invariant i > 0 ==> IsNameStart(name[0])
    {
      if !(IsNameStart(name[i]) || (i > 0 && '0' <= name[i] <= '9')) {
        return false;
      }
    }
    ok := true;
  }

  method IsPlainProgramName(word: string) returns (ok: bool)
    ensures ok == IsProgram(word)
  {
    for i := 0 to |word|
      invariant forall k :: 0 <= k < i ==> IsProgramChar(word[k])
    {
      if !IsProgramChar(word[i]) {
        return false;
      }
    }
    ok := true;
  }

  // Commands

  /** What is shown in the end, when the words `out` are shown for what has been read and `rest` is left. */
  ghost function Finished(out: seq<string>, rest: string): string {
    match Words(rest)
    case None => STARS
    case Some(sh) => JoinSpace(out + Shown(sh))
  }

  lemma {:induction false} AssignmentRead(out: seq<string>, s: string, word: string, after: string, eq: nat)
    requires word != "" && word + after == s && |word| == WordLen(s) && Find(word, "=") == eq < |word|
    ensures if !IsVariable(word[..eq]) || IsBlankWord(word[eq + 1..]) then Words(s) == None
            else Finished(out, s) == Finished(out + [Assignment(word[..eq])], Trim(after))
  {
    hide Find, WordLen, IsVariable, IsBlankWord, Shown, JoinSpace, Trim;
    assert s[..|word|] == word && s[|word|..] == after;
    var r := Words(Trim(after));
    if r.Some? {
      var sh := r.value;
      var sh' := sh.(names := [word[..eq]] + sh.names);
      ShownCons(sh');
      assert sh'.names[1..] == sh.names;
      assert out + ([Assignment(word[..eq])] + Shown(sh)) == (out + [Assignment(word[..eq])]) + Shown(sh);
    }
  }

  lemma {:induction false} ProgramRead(out: seq<string>, s: string, word: string, after: string)
    requires word != "" && word + after == s && |word| == WordLen(s) && Find(word, "=") < 0
    ensures if !IsProgram(word) then Words(s) == None
            else Finished(out, s) == JoinSpace(out + [word] + (if Trim(after) != "" then [STARS] else []))
  {
    hide Find, WordLen, IsProgram, JoinSpace, Trim;
    assert s[..|word|] == word && s[|word|..] == after;
    if IsProgram(word) {
      var more := if Trim(after) != "" then [STARS] else [];
      assert Shown(Shape([], Some(word), Trim(after) != "")) == [word] + more;
      assert out + ([word] + more) == out + [word] + more;
    }
  }

  lemma {:induction false} Started(rest: string)
    ensures Words(rest) == None ==> Finished([], rest) == STARS
    ensures Words(rest).Some? ==> Finished([], rest) == JoinSpace(Shown(Words(rest).value))
    ensures forall out :: Finished(out, "") == JoinSpace(out)
  {
    hide JoinSpace;
    forall out: seq<string> ensures Finished(out, "") == JoinSpace(out) {
      assert out + Shown(Shape([], None, false)) == out;
    }
    assert Words(rest).Some? ==> [] + Shown(Words(rest).value) == Shown(Words(rest).value);
  }

  method TrimLeft(s: string) returns (r: string)
    ensures r == Trim(s) && (r != "" ==> !IsBlank(r[0]))
  {
    var i := 0;
    while i < |s| && IsBlank(s[i])
      invariant 0 <= i <= |s|
      invariant forall k :: 0 <= k < i ==> IsBlank(s[k])
    {
      i := i + 1;
    }
    RunIs(IsBlank, s, i);
    r := s[i..];
  }

  method RedactShellCommand(command: string) returns (text: string)
    ensures text == ShellCommand.Redact(command)
  {
    hide Find, WordLen, IsVariable, IsBlankWord, IsProgram, Shown, JoinSpace, Trim, Words, Contains, Finished;
    if Contains(command, "\\\n") {
      return STARS;
    }
    var rest := TrimLeft(command);
    Started(rest);
    NoWords();
    if rest == "" {
      return command;
    }
    var out: seq<string> := [];
    while rest != ""
      invariant rest != "" ==> !IsBlank(rest[0])
      invariant Finished(out, rest) == ShellCommand.Redact(command)
      decreases |rest|
    {
      var next := NextShellWord(rest);
      if next.None? {
        GivenUpHere(out, rest);
        return STARS;
      }
      var (word, after) := next.value;
      ghost var s := rest;
      rest := TrimLeft(after);
      Shorter(after);
      var eq := Find(word, "=");
      if eq >= 0 {
        EqIn(word);
        AssignmentRead(out, s, word, after, eq);
        var named := IsShellVariableName(word[..eq]);
        var blank := IsBlankShellWord(word[eq + 1..]);
        if !named || blank {
          GivenUpHere(out, s);
          return STARS;
        }
        out := out + [word[..eq] + "=" + STARS];
        continue;
      }
      ProgramRead(out, s, word, after);
      var plain := IsPlainProgramName(word);
      if !plain {
        GivenUpHere(out, s);
        return STARS;
      }
      out := out + [word];
      if rest != "" {
        out := out + [STARS];
      }
      assert rest == "" ==> out + [] == out;
      return JoinSpace(out);
    }
    text := JoinSpace(out);
  }

  lemma {:induction false} GivenUpHere(out: seq<string>, s: string)
    requires Words(s) == None || (s != "" && WordLen(s) < 0)
    ensures Finished(out, s) == STARS
  {
    hide WordLen;
  }

  lemma {:induction false} EqIn(word: string)
    requires Find(word, "=") >= 0
    ensures Find(word, "=") < |word|
  {
    hide FindFrom;
  }

  lemma {:induction false} Shorter(s: string)
    ensures |Trim(s)| <= |s|
  {
  }

  // Settings

  const CONNINFO := ["primary_conninfo"]

  const WHOLE_VALUE := ["ssl_passphrase_command"]

  const SHELL := ["archive_command", "archive_cleanup_command", "restore_command", "recovery_end_command"]

  predicate IsCredentialSetting(name: string) {
    var n := Lower(name);
    || n in CONNINFO || n in WHOLE_VALUE || n in SHELL
    || (Contains(n, ".") && SqlRedact.ContainsAny(n, SqlRedact.SECRET_FRAGMENTS))
  }

  function RedactValue(name: string, value: string): string {
    if value == "" || !IsCredentialSetting(name) then value
    else if Lower(name) in CONNINFO then ConnString.RedactPasswords(value)
    else if Lower(name) in SHELL then ShellCommand.Redact(value)
    else STARS
  }

  /** Redacting a setting twice is redacting it once, if and only if the setting is not a connection string
      that stays unsettled. */
  lemma {:induction false} SettingIdempotent(name: string, value: string)
    ensures RedactValue(name, RedactValue(name, value)) == RedactValue(name, value) <==>
            !(Lower(name) in CONNINFO && ConnStringRedaction.Unsettled(value))
  {
    hide IsCredentialSetting, ShellCommand.Redact, ConnString.RedactPasswords, ConnStringRedaction.Unsettled;
    Listed(name);
    RedactIdempotent(value);
    ConnStringRedaction.RedactIdempotent(value);
    EmptyStays();
  }

  lemma {:induction false} Listed(name: string)
    ensures Lower(name) in CONNINFO ==> IsCredentialSetting(name)
  {
  }

  lemma {:induction false} EmptyStays()
    ensures ConnString.RedactPasswords("") == ""
  {
  }

  // The settings by name

  /** A setting of an extension whose name has a part that tells of a secret. */
  predicate TellsOfSecret(name: string) { '.' in name && SecretWords.HasSecretPart(name) }

  predicate NamesCommand(name: string) {
    || Spells(name, "archive_command") || Spells(name, "archive_cleanup_command")
    || Spells(name, "restore_command") || Spells(name, "recovery_end_command")
  }

  /** What becomes of a setting, by the letters of its name. */
  lemma {:induction false} SettingExactly(name: string, value: string)
    ensures RedactValue(name, value) ==
            if value == "" then ""
            else if Spells(name, "primary_conninfo") then ConnString.RedactPasswords(value)
            else if NamesCommand(name) then ShellCommand.Redact(value)
            else if Spells(name, "ssl_passphrase_command") || TellsOfSecret(name) then "********"
            else value
  {
    hide ConnString.RedactPasswords, ShellCommand.Redact, Spells, Lower;
    NameListed(name);
    LowerSpells(name, "primary_conninfo");
    LowerSpells(name, "ssl_passphrase_command");
    SecretTold(name);
    assert STARS == "********";
  }

  lemma {:induction false} NameListed(name: string)
    ensures Lower(name) in SHELL <==> NamesCommand(name)
  {
    hide Spells, Lower, IsSmall;
    SecretWords.SmallArchive();
    SecretWords.SmallRecovery();
    LowerSpells(name, "archive_command");
    LowerSpells(name, "archive_cleanup_command");
    LowerSpells(name, "restore_command");
    LowerSpells(name, "recovery_end_command");
  }

  lemma {:induction false} SecretTold(name: string)
    ensures Contains(Lower(name), ".") && SqlRedact.ContainsAny(Lower(name), SqlRedact.SECRET_FRAGMENTS) <==> TellsOfSecret(name)
  {
    hide SecretWords.HasSecretPart, Lower, Contains;
    DotIn(name);
    SecretWords.FragmentsAre(name);
  }

  lemma {:induction false} DotIn(name: string)
    ensures Contains(Lower(name), ".") <==> '.' in name
  {
    hide Lower;
    PartFound(name, ".");
    if HasPart(name, ".") {
      var i :| 0 <= i <= |name| && SpellsAt(name, ".", i);
      assert name[i..i + 1][0] == name[i] && SameLetter(name[i], '.');
    }
    if '.' in name {
      var i :| 0 <= i < |name| && name[i] == '.';
      assert name[i..i + 1] == ".";
      assert SpellsAt(name, ".", i);
    }
  }
}
