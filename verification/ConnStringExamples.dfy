/**
 Connection strings on which redaction is not idempotent, although the source calls it so.
 */
module ConnStringExamples {
  import opened Text
  import opened ConnString
  import opened ConnStringLaws
  import opened ConnStringEscape
  import opened ConnStringPrint
  import opened ConnStringRedaction
  import opened ConnStringSplit
  import opened ConnStringUri

  const GLUED := "password" + "=" + ("'" + "a" + ("'" + GLUED_USER))

  const GLUED_USER := "user" + "=" + ("'" + "b" + ("'" + ""))

  /** A quoted password directly followed by the next key. */
  lemma {:induction false} GluedExample()
    ensures RedactPasswords(RedactPasswords(GLUED)) != RedactPasswords(GLUED)
  {
    hide RedactPasswords, Parse, Printed, Moves;
    GluedParse();
    GluedQuiet();
    assert GLUED[1] == 'a';
    RedactIdempotent(GLUED);
  }

  lemma {:induction false} GluedParse()
    ensures Parse(GLUED) == Pairs([Printed("", ("password", "a")), Printed("", ("user", "b"))], "")
  {
    hide ParseOne, Printed;
    GluedRead("password", "a", GLUED_USER);
    GluedRead("user", "b", "");
    ParseSpaces("");
    assert Parse(GLUED_USER) == Pairs([Printed("", ("user", "b"))], "");
  }

  lemma {:induction false} GluedRead(key: string, a: string, rest: string)
    requires All(IsKeyChar, key) && '\'' !in a && '\\' !in a
    ensures ParseOne(key + "=" + ("'" + a + ("'" + rest))) == Got(Printed("", (key, a)), rest)
  {
    hide ParseOne, Printed;
    DoubleNone(a, '\\');
    ReadPair("", key, a, rest);
    assert "" + key == key;
  }

  lemma {:induction false} GluedQuiet()
    ensures var ps := [Printed("", ("password", "a")), Printed("", ("user", "b"))];
            Moves(ps, "")
  {
    hide RedactPasswords, Double;
    assert Lower("password") == "password";
  }

  const LATE_AT := "postgres://" + ("h:1" + "?" + ("password=/" + ("&" + "x=@")))

  /** A password parameter whose slash is what keeps a later '@' out of the user information. */
  lemma {:induction false} LateAtExample()
    ensures RedactPasswords(RedactPasswords(LATE_AT)) != RedactPasswords(LATE_AT)
  {
    hide Run, FindFrom, RedactPasswords, Parse, RedactHosts, RedactUserInfo, Uncovers;
    var rest := "h:1" + "?" + ("password=/" + ("&" + "x=@"));
    assert LATE_AT[8] == ':';
    assert UriPrefixLen(LATE_AT) == 11 && LATE_AT[11..] == rest;
    assert !HasUser(rest) by {
      assert rest == "h:1?password=" + "/&x=@";
      CutRun(NotUserEnd, "h:1?password=", "/&x=@");
    }
    LateAtQuery();
    var user := "h:1?password=" + STARS + "&x=";
    var out := "h:1" + "?" + ("password=" + STARS + "&" + "x=@");
    LateAtOut(STARS);
    CutRun(NotUserEnd, user, "@" + "");
    assert out[..|user|] == user;
    LateAtUser(user);
    UncoversExactly(rest);
    RedactIdempotent(LATE_AT);
  }

  lemma {:induction false} LateAtOut(v: string)
    ensures "h:1" + "?" + ("password=" + v + "&" + "x=@") == ("h:1?password=" + v + "&x=") + ("@" + "")
  {
    var a, b := "h:1" + "?" + ("password=" + v + "&" + "x=@"), ("h:1?password=" + v + "&x=") + ("@" + "");
    assert a == "h:1?password=" + v + "&x=@";
    assert b == "h:1?password=" + v + "&x=@";
  }

  lemma {:induction false} QueryAfter(h: string, query: string)
    requires '?' !in h && '[' !in h
    ensures QueryStart(h + "?" + query, false) == |h|
  {
    var s := h + "?" + query;
    if h != "" {
      assert s[1..] == h[1..] + "?" + query;
      QueryAfter(h[1..], query);
    }
  }

  lemma {:induction false} UnescapePlain(s: string)
    requires '%' !in s
    ensures PathUnescape(s) == Some(s)
  {
    if s != "" {
      UnescapePlain(s[1..]);
      assert s == [s[0]] + s[1..];
    }
  }

  lemma {:induction false} LateAtQuery()
    ensures RedactHosts("h:1" + "?" + ("password=/" + ("&" + "x=@")))
         == "h:1" + "?" + ("password=" + STARS + "&" + "x=@")
  {
    hide Run, QueryStart, RedactParam, SplitAmp;
    var query := "password=/" + ("&" + "x=@");
    QueryAfter("h:1", query);
    assert ("h:1" + "?" + query)[4..] == query && ("h:1" + "?" + query)[..4] == "h:1" + "?";
    SplitCons("password=/", "x=@");
    SplitJoin(["x=@"]);
    assert JoinAmp(["x=@"]) == "x=@";
    assert SplitAmp(query) == ["password=/", "x=@"];
    LateAtParams();
    assert RedactAll(["password=/", "x=@"]) == ["password=" + STARS, "x=@"];
    assert ["password=" + STARS, "x=@"][1..] == ["x=@"];
  }

  lemma {:induction false} LateAtParams()
    ensures RedactParam("password=/") == "password=" + STARS && RedactParam("x=@") == "x=@"
  {
    hide FindFrom, PathUnescape;
    FindAfter("password", '=', "/");
    assert "password" + "=" + "/" == "password=/" && "password=/"[..8] == "password";
    UnescapePlain("password");
    assert Lower("password") == "password";
    FindAfter("x", '=', "@");
    assert "x" + "=" + "@" == "x=@" && "x=@"[..1] == "x";
    UnescapePlain("x");
    assert |Lower("x")| == 1;
  }

  lemma {:induction false} LateAtUser(user: string)
    requires user == "h:1?password=" + STARS + "&x="
    ensures RedactUserInfo(user) != user
  {
    hide FindFrom;
    FindAfter("h", ':', "1?password=" + STARS + "&x=");
    assert user == "h" + ":" + ("1?password=" + STARS + "&x=");
    assert |RedactUserInfo(user)| == 10;
  }

  // A nested connection string whose redaction holds a quote

  lemma {:induction false} ReadPlain(a: string, n: nat, d: string, r: string)
    requires '\'' !in a && '\\' !in a && QuotedValue(r) == Some(Value(n, d))
    ensures QuotedValue(a + r) == Some(Value(|a| + n, a + d))
    decreases |a|
  {
    if a == "" {
      assert a + r == r && a + d == d;
    } else {
      assert (a + r)[0] == a[0] && (a + r)[1..] == a[1..] + r;
      ReadPlain(a[1..], n, d, r);
      assert [a[0]] + (a[1..] + d) == a + d;
    }
  }

  lemma {:induction false} ReadEscaped(c: char, n: nat, d: string, r: string)
    requires QuotedValue(r) == Some(Value(n, d))
    ensures QuotedValue(['\\', c] + r) == Some(Value(2 + n, [c] + d))
  {
    assert (['\\', c] + r)[2..] == r;
  }

  const INNER := "user=" + ("'" + ("a b" + ("'" + " password=s")))

  const INNER_RAW := "user=" + ("\\'" + ("a b" + ("\\'" + (" password=s" + "'"))))

  const NESTED := "dbname=" + ("'" + INNER_RAW)

  lemma {:induction false} InnerRead()
    ensures QuotedValue(INNER_RAW) == Some(Value(|INNER_RAW|, INNER))
  {
    hide QuotedValue;
    var z := " password=s" + "'";
    LastQuote();
    ReadPlain(" password=s", 1, "", "'");
    assert " password=s" + "" == " password=s";
    ReadEscaped('\'', 12, " password=s", z);
    assert ['\\', '\''] == "\\'" && ['\''] == "'";
    ReadPlain("a b", 14, "'" + " password=s", "\\'" + z);
    ReadEscaped('\'', 17, "a b" + ("'" + " password=s"), "a b" + ("\\'" + z));
    ReadPlain("user=", 19, "'" + ("a b" + ("'" + " password=s")), "\\'" + ("a b" + ("\\'" + z)));
    assert |INNER_RAW| == 24;
  }

  lemma {:induction false} LastQuote()
    ensures QuotedValue("'") == Some(Value(1, ""))
  {
  }

  lemma {:induction false} NestedParse()
    ensures Parse(NESTED) == Pairs([Param("", "dbname", "", "", "'" + INNER_RAW, INNER)], "")
  {
    hide QuotedValue, ParseOne, INNER, INNER_RAW;
    var p := Param("", "dbname", "", "", "'" + INNER_RAW, INNER);
    InnerRead();
    assert (p.raw + "")[1..] == INNER_RAW && (p.raw + "")[0] == '\'';
    ParseOneIs(p, "");
    ParseSpaces("");
    assert p.Text() + "" == NESTED;
    assert Parse("") == Pairs([], "");
    assert [p] + [] == [p];
  }

  lemma {:induction false} InnerParse()
    ensures Parse(INNER) == Pairs([Printed("", ("user", "a b")), Param(" ", "password", "", "", "s", "s")], "")
    ensures !HasUriPrefix(INNER)
  {
    hide ParseOne, Printed;
    GluedRead("user", "a b", " password=s");
    assert INNER == "user" + "=" + ("'" + "a b" + ("'" + " password=s"));
    PasswordParse();
    assert INNER[0] == 'u';
  }

  lemma {:induction false} PasswordParse()
    ensures Parse(" password=s") == Pairs([Param(" ", "password", "", "", "s", "s")], "")
  {
    hide ParseOne, BareValue;
    var q := Param(" ", "password", "", "", "s", "s");
    OneBare();
    assert WellCut(q, "");
    ParseOneIs(q, "");
    assert q.Text() + "" == " password=s";
    ParseSpaces("");
    assert Parse("") == Pairs([], "");
    assert [q] + [] == [q];
  }

  lemma {:induction false} OneBare()
    ensures BareValue("s" + "") == Value(1, "s") && "s" + "" == "s"
  {
    assert "s"[1..] == "";
  }

  const SHOWN := "user=" + ("'" + ("a b" + ("'" + (" password=" + STARS))))

  lemma {:induction false} InnerRedacted()
    ensures RedactPasswords(INNER) == SHOWN && SHOWN != INNER
  {
    hide Parse, NewRaw, STARS;
    var u, q := Printed("", ("user", "a b")), Param(" ", "password", "", "", "s", "s");
    InnerParse();
    InnerRaws();
    assert [u, q][1..] == [q] && [q][1..] == [];
    assert Render([]) == "";
    assert Render([q]) == " password=" + STARS + "" == " password=" + STARS;
    assert Render([u, q]) == "user=" + "'a b'" + (" password=" + STARS);
    assert "'a b'" == "'" + ("a b" + "'");
    StarsAre();
    assert |SHOWN| == 28 && |INNER| == 21;
  }

  lemma {:induction false} InnerRaws()
    ensures var u, q := Printed("", ("user", "a b")), Param(" ", "password", "", "", "s", "s");
            NewRaw(u) == "'a b'" && u.Head() == "user=" && NewRaw(q) == STARS && q.Head() == " password="
  {
    hide RedactPasswords, IsPasswordKey, IsNested, Double;
    PasswordWord();
    UserWord(Printed("", ("user", "a b")));
    DoubleNone("a b", '\\');
  }

  lemma {:induction false} PasswordWord()
    ensures IsPasswordKey("password")
  {
    assert Lower("password") == "password";
  }

  lemma {:induction false} UserWord(p: Param)
    requires |p.key| < 6
    ensures !IsPasswordKey(p.key) && !IsNested(p)
  {
    hide LooksLikeConnString;
    assert |Lower(p.key)| < 6 && |Lower("dbname")| == 6;
  }

  lemma {:induction false} ShownSplits()
    ensures Splits(SHOWN) && '\'' in SHOWN
  {
    hide Run, STARS;
    var r := "a b" + ("'" + (" password=" + STARS));
    assert SHOWN == "user=" + ("'" + r) && SHOWN[5] == '\'';
    RunIs(NotQuote, SHOWN, 5);
    assert SHOWN[6..] == r && r[0] == 'a' && r[1] == ' ' && r[2] == 'b';
    RunIs(IsKeyChar, r, 1);
    assert r[1..][0] == ' ' && r[1..][1] == 'b';
    RunIs(IsConnSpace, r[1..], 1);
  }

  lemma {:induction false} DbnameNested()
    ensures var p := Param("", "dbname", "", "", "'" + INNER_RAW, INNER); IsNested(p) && p.Head() == "dbname="
  {
    hide INNER_RAW;
    assert |Lower("dbname")| == 6;
    assert INNER[4..5] == "=";
    assert At(INNER, "=", 4);
  }

  /** A nested connection string is put back with its quotes doubled, is no longer read as one value, and
      the whole string is given up when it is redacted again. */
  lemma {:induction false} NestedExample()
    ensures RedactPasswords(NESTED) == "dbname=" + Requoted(INNER) && RedactPasswords(INNER) == SHOWN
    ensures RedactPasswords(RedactPasswords(NESTED)) == STARS != RedactPasswords(NESTED)
  {
    hide Parse, INNER, INNER_RAW, SHOWN, Requoted, IsNested, Splits, NESTED, Param.Head, RedactPasswords;
    var p := Param("", "dbname", "", "", "'" + INNER_RAW, INNER);
    NestedParse();
    InnerRedacted();
    ShownSplits();
    DbnameNested();
    NestedStart();
    LoneNested(NESTED, p);
    LoneSplits(NESTED, p);
  }

  /** A string that is one nested connection string. */
  lemma {:induction false} LoneNested(s: string, p: Param)
    requires !HasUriPrefix(s) && Parse(s) == Pairs([p], "") && IsRewritten(p)
    ensures RedactPasswords(s) == p.Head() + Requoted(p.value)
  {
    hide Parse, EscapeValue, IsNested, Param.Head, HasUriPrefix, RedactPasswords, NewRaw;
    RequotedRaw(p);
    KeywordsParts(s);
    assert [p][1..] == [] && Render([]) == "";
    var out := p.Head() + Requoted(p.value);
    assert out + "" == out;
  }

  lemma {:induction false} RequotedRaw(p: Param)
    requires IsRewritten(p)
    ensures NewRaw(p) == Requoted(p.value)
  {
    hide EscapeValue, RedactPasswords, IsPasswordKey;
    NotBoth(p);
  }

  lemma {:induction false} LoneSplits(s: string, p: Param)
    requires !HasUriPrefix(s) && Parse(s) == Pairs([p], "") && IsRewritten(p) && Splits(RedactPasswords(p.value))
    requires p.lead == "" && All(IsKeyChar, p.key) && p.pre == "" && p.post == ""
    ensures RedactPasswords(RedactPasswords(s)) == STARS != RedactPasswords(s)
  {
    hide Parse, EscapeValue, IsNested, Param.Head, HasUriPrefix, RedactPasswords, Splits, IsRewritten;
    LoneNested(s, p);
    StaysKeywords(s);
    KeywordsIs(s);
    SplitChanges(p, RedactPasswords(p.value), "");
    var out := RedactPasswords(s);
    assert out + "" == out;
    Given(out);
    EqualsIn([p], "");
    KeywordsParts(s);
  }

  lemma {:induction false} Given(s: string)
    requires !HasUriPrefix(s) && Parse(s) == Malformed
    ensures RedactPasswords(s) == STARS
  {
  }

  lemma {:induction false} KeywordsParts(s: string)
    requires !HasUriPrefix(s) && Parse(s).Pairs?
    ensures RedactPasswords(s) == Render(Parse(s).params) + Parse(s).trail
  {
  }

  lemma {:induction false} KeywordsIs(s: string)
    requires !HasUriPrefix(s)
    ensures RedactKeywords(s) == RedactPasswords(s)
  {
    hide Parse;
  }

  lemma {:induction false} NestedStart()
    ensures !HasUriPrefix(NESTED)
  {
    assert NESTED[0] == 'd';
  }
}
