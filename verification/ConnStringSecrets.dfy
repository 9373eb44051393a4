/**
 Which values of a connection string are hidden, told by the letters of their keys.
 */
module ConnStringSecrets {
  import opened Text
  import opened Spelling
  import opened ConnString
  import opened ConnStringGrammar
  import opened ConnStringUri
  import ConnStringEscape
  import ConnStringBehind

  /** The key is one of the two that name a password. */
  predicate NamesPassword(key: string) { Spells(key, "password") || Spells(key, "sslpassword") }

  lemma {:induction false} PasswordKeys(key: string)
    ensures IsPasswordKey(key) <==> NamesPassword(key)
  {
    hide Spells, Lower;
    LowerSpells(key, "password");
    LowerSpells(key, "sslpassword");
  }

  /** The text starts with one of the two schemes. */
  predicate StartsUri(s: string) {
    (|s| >= 13 && s[..13] == "postgresql://") || (|s| >= 11 && s[..11] == "postgres://")
  }

  lemma {:induction false} StartsIs(s: string)
    ensures HasUriPrefix(s) <==> StartsUri(s)
    ensures StartsUri(s) ==> UriPrefixLen(s) == if |s| >= 13 && s[..13] == "postgresql://" then 13 else 11
  {
  }

  // Keyword strings

  /** The value is a connection string itself. */
  predicate MayNest(v: string) { StartsUri(v) || '=' in v }

  lemma {:induction false} MayNestIs(v: string)
    ensures LooksLikeConnString(v) <==> MayNest(v)
  {
    hide HasUriPrefix, StartsUri;
    StartsIs(v);
    if Contains(v, "=") {
      ContainsHead(v, "=");
    }
    if '=' in v {
      var i :| 0 <= i < |v| && v[i] == '=';
      assert v[i..i + 1] == "=";
      assert At(v, "=", i);
    }
  }

  /** Each character of the value, with quotes and backslashes doubled. */
  function Doubled(v: string): string {
    if v == "" then "" else (if v[0] == '\'' || v[0] == '\\' then [v[0], v[0]] else [v[0]]) + Doubled(v[1..])
  }

  /** What stands for the value of a parameter in the redacted string. */
  function Instead(p: Param): string {
    if NamesPassword(p.key) then "********"
    else if Spells(p.key, "dbname") && MayNest(p.value) && RedactPasswords(p.value) != p.value then
      "'" + Doubled(RedactPasswords(p.value)) + "'"
    else p.raw
  }

  /** The parameters with other values put for theirs. */
  function Laid(ps: seq<Param>): string
    decreases |ps|
  {
    if ps == [] then ""
    else ps[0].lead + ps[0].key + ps[0].pre + "=" + ps[0].post + Instead(ps[0]) + Laid(ps[1..])
  }

  lemma {:induction false} DoubledIs(v: string)
    ensures EscapeValue(v) == Doubled(v)
    decreases |v|
  {
    hide EscapeValue;
    if v == "" {
      ConnStringBehind.EscapeNone();
    } else {
      DoubledIs(v[1..]);
      ConnStringBehind.EscapeOne(v[0]);
      ConnStringEscape.EscapeAppend([v[0]], v[1..]);
      assert v == [v[0]] + v[1..];
    }
  }

  lemma {:induction false} InsteadIs(p: Param)
    ensures NewRaw(p) == Instead(p)
  {
    hide RedactPasswords, EscapeValue, Doubled, Spells, LooksLikeConnString, MayNest;
    PasswordKeys(p.key);
    FoldSpells(p.key, "dbname");
    MayNestIs(p.value);
    DoubledIs(RedactPasswords(p.value));
    assert STARS == "********";
  }

  lemma {:induction false} LaidIs(ps: seq<Param>)
    ensures Render(ps) == Laid(ps)
    decreases |ps|
  {
    hide NewRaw, Instead;
    if ps != [] {
      InsteadIs(ps[0]);
      LaidIs(ps[1..]);
    }
  }

  /** A keyword string is redacted to its parameters with the placeholder for each password, every other value as
      it was unless it is a connection string itself; and to the placeholder if it is no row of parameters. */
  lemma {:induction false} KeywordsExactly(s: string)
    requires !StartsUri(s)
    ensures forall ps, trail :: IsRow(s, ps, trail) ==> RedactPasswords(s) == Laid(ps) + trail
    ensures (forall ps, trail :: !IsRow(s, ps, trail)) ==> RedactPasswords(s) == "********"
  {
    hide Parse, IsRow, Laid, Render;
    StartsIs(s);
    forall ps: seq<Param>, trail: string | IsRow(s, ps, trail) ensures RedactPasswords(s) == Laid(ps) + trail {
      ParseExactly(s, ps, trail);
      LaidIs(ps);
    }
    ParseExactly(s, [], "");
  }

  // URIs

  /** The user information ends here: at an '@' with no '@' or '/' before it. */
  predicate IsUserEnd(rest: string, at: nat) {
    at < |rest| && rest[at] == '@' && forall i :: 0 <= i < at ==> rest[i] != '@' && rest[i] != '/'
  }

  /** The query opens here: at the first question mark that is not between an opening bracket and the next closing
      one. */
  predicate InBrackets(s: string, i: nat)
    requires i <= |s|
  {
    exists j :: 0 <= j < i && s[j] == '[' && forall k :: j < k < i ==> s[k] != ']'
  }

  predicate IsOpening(s: string, q: nat) {
    && q < |s| && s[q] == '?' && !InBrackets(s, q)
    && forall i :: 0 <= i < q && s[i] == '?' ==> InBrackets(s, i)
  }

  /** Two hexadecimal digits. */
  function Digit(c: char): int {
    var x := c as int;
    if 48 <= x <= 57 then x - 48 else if 65 <= x <= 70 then x - 55 else if 97 <= x <= 102 then x - 87 else -1
  }

  /** The key stands for `word`: each character, or a percent sign and its code in two hexadecimal digits. */
  predicate Encodes(key: string, word: string)
    decreases |key|
  {
    if key == "" then word == ""
    else if key[0] == '%' then
      && |key| >= 3 && word != "" && Digit(key[1]) >= 0 && Digit(key[2]) >= 0
      && word[0] as int == 16 * Digit(key[1]) + Digit(key[2]) && Encodes(key[3..], word[1..])
    else word != "" && word[0] == key[0] && Encodes(key[1..], word[1..])
  }

  /** The key of a query parameter names a password: what it stands for does, or it itself if it stands for nothing. */
  ghost predicate KeyHides(key: string) {
    (exists w :: Encodes(key, w) && NamesPassword(w)) || ((forall w :: !Encodes(key, w)) && NamesPassword(key))
  }

  lemma {:induction false} DecodedIs(key: string)
    ensures forall w :: PathUnescape(key) == Some(w) <==> Encodes(key, w)
    decreases |key|
  {
    if key != "" {
      if key[0] != '%' {
        DecodedIs(key[1..]);
        forall w ensures PathUnescape(key) == Some(w) <==> Encodes(key, w) {
          if w != "" {
            assert w == [w[0]] + w[1..];
            assert PathUnescape(key[1..]) == Some(w[1..]) <==> Encodes(key[1..], w[1..]);
          }
        }
      } else if |key| >= 3 {
        DecodedIs(key[3..]);
        HexIs(key[1]);
        HexIs(key[2]);
        forall w ensures PathUnescape(key) == Some(w) <==> Encodes(key, w) {
          if w != "" {
            assert w == [w[0]] + w[1..];
            assert PathUnescape(key[3..]) == Some(w[1..]) <==> Encodes(key[3..], w[1..]);
          }
        }
      }
    }
  }

  lemma {:induction false} HexIs(c: char)
    ensures IsHex(c) <==> Digit(c) >= 0
    ensures IsHex(c) ==> HexValue(c) == Digit(c)
  {
  }

  lemma {:induction false} KeyHidesIs(key: string)
    ensures IsPasswordKey(DecodedKey(key)) <==> KeyHides(key)
  {
    hide PathUnescape, Encodes, NamesPassword, IsPasswordKey;
    DecodedIs(key);
    PasswordKeys(DecodedKey(key));
    if PathUnescape(key).Some? {
      assert Encodes(key, DecodedKey(key));
    }
  }

  /** The first place of a character, or the length of the text. */
  function IndexOf(s: string, c: char): (i: nat)
    ensures i <= |s| && c !in s[..i] && (i < |s| ==> s[i] == c)
  {
    if s == "" || s[0] == c then 0
    else
      var i := IndexOf(s[1..], c);
      assert s[..1 + i] == [s[0]] + s[1..][..i];
      1 + i
  }

  lemma {:induction false} FindIndex(s: string, c: char)
    ensures Find(s, [c]) == if IndexOf(s, c) == |s| then -1 else IndexOf(s, c)
  {
    hide Find;
    var i := IndexOf(s, c);
    if i < |s| {
      assert s == s[..i] + [c] + s[i + 1..];
      FindAfter(s[..i], c, s[i + 1..]);
    } else {
      assert s[..i] == s;
      if Contains(s, [c]) {
        ContainsHead(s, [c]);
      }
    }
  }

  /** What is shown of user information: what follows its first colon is hidden, if there is something. */
  function UserShown(user: string): string {
    var c := IndexOf(user, ':');
    if c + 1 < |user| then user[..c + 1] + "********" else user
  }

  /** What is shown of a query parameter. */
  ghost function ParamShown(param: string): string {
    var e := IndexOf(param, '=');
    if e < |param| && KeyHides(param[..e]) then param[..e + 1] + "********" else param
  }

  /** What is shown of a query: each of its parameters. */
  ghost function QueryShown(query: string): string
    decreases |query|
  {
    var i := IndexOf(query, '&');
    if i == |query| then ParamShown(query) else ParamShown(query[..i]) + "&" + QueryShown(query[i + 1..])
  }

  lemma {:induction false} UserShownIs(user: string)
    ensures RedactUserInfo(user) == UserShown(user)
  {
    hide Find;
    FindIndex(user, ':');
    assert [':'] == ":" && STARS == "********";
  }

  lemma {:induction false} ParamShownIs(param: string)
    ensures RedactParam(param) == ParamShown(param)
  {
    hide Find, KeyHides, DecodedKey, IsPasswordKey;
    FindIndex(param, '=');
    KeyHidesIs(param[..IndexOf(param, '=')]);
    assert ['='] == "=" && STARS == "********";
  }

  lemma {:induction false} QueryShownIs(query: string)
    ensures JoinAmp(RedactAll(SplitAmp(query))) == QueryShown(query)
    decreases |query|
  {
    hide ParamShown, RedactParam;
    var i := IndexOf(query, '&');
    AmpIs(query);
    ParamShownIs(query[..i]);
    if i == |query| {
      assert query[..i] == query;
    } else {
      var rest := query[i + 1..];
      QueryShownIs(rest);
      AllFirst(query[..i], SplitAmp(rest));
      assert ([RedactParam(query[..i])] + RedactAll(SplitAmp(rest)))[1..] == RedactAll(SplitAmp(rest));
    }
  }

  lemma {:induction false} AllFirst(p: string, ps: seq<string>)
    ensures RedactAll([p] + ps) == [RedactParam(p)] + RedactAll(ps)
  {
    hide RedactParam;
  }

  lemma {:induction false} AmpIs(query: string)
    ensures Run(NotAmp, query) == IndexOf(query, '&')
  {
    hide Run;
    var i := IndexOf(query, '&');
    assert forall k :: 0 <= k < i ==> query[..i][k] != '&';
    RunIs(NotAmp, query, i);
  }

  lemma {:induction false} UserEndIs(rest: string, at: nat)
    ensures IsUserEnd(rest, at) <==> at == Run(NotUserEnd, rest) && at < |rest| && rest[at] == '@'
  {
    hide Run;
    if IsUserEnd(rest, at) {
      RunIs(NotUserEnd, rest, at);
    }
  }

  lemma {:induction false} OpeningIs(s: string, q: nat)
    ensures QueryStart(s, false) == q <==> IsOpening(s, q)
  {
    OpeningFrom(s, 0, false, q);
    assert s[0..] == s;
  }

  /** The scan from `i` on knows whether a bracket is open there. */
  lemma {:induction false} OpeningFrom(s: string, i: nat, open: bool, q: nat)
    requires i <= |s| && open == InBrackets(s, i) && forall k :: 0 <= k < i && s[k] == '?' ==> InBrackets(s, k)
    ensures (var r := QueryStart(s[i..], open); r >= 0 && i + r == q) <==> IsOpening(s, q)
    decreases |s| - i
  {
    hide QueryStart, InBrackets;
    QueryParts(s[i..], open);
    if i < |s| {
      assert s[i..][0] == s[i] && s[i..][1..] == s[i + 1..];
      if s[i] == '?' && !open {
        assert IsOpening(s, i);
      } else {
        BracketStep(s, i);
        OpeningFrom(s, i + 1, s[i] == '[' || (open && s[i] != ']'), q);
      }
    }
  }

  lemma {:induction false} QueryParts(s: string, open: bool)
    ensures QueryStart(s, open) ==
            if s == "" then -1
            else if s[0] == '?' && !open then 0
            else var q := QueryStart(s[1..], s[0] == '[' || (open && s[0] != ']')); if q < 0 then -1 else q + 1
  {
  }

  lemma {:induction false} BracketStep(s: string, i: nat)
    requires i < |s|
    ensures InBrackets(s, i + 1) <==> s[i] == '[' || (InBrackets(s, i) && s[i] != ']')
  {
    if InBrackets(s, i + 1) {
      var j :| 0 <= j < i + 1 && s[j] == '[' && forall k :: j < k < i + 1 ==> s[k] != ']';
    }
    if InBrackets(s, i) && s[i] != ']' {
      var j :| 0 <= j < i && s[j] == '[' && forall k :: j < k < i ==> s[k] != ']';
      assert forall k :: j < k < i + 1 ==> s[k] != ']';
    }
  }

  /** What is shown of the part behind the user information: everything, but the values of password parameters of
      its query. */
  lemma {:induction false} HostsExactly(rest: string)
    ensures forall q: nat :: IsOpening(rest, q) ==> RedactHosts(rest) == rest[..q + 1] + QueryShown(rest[q + 1..])
    ensures (forall q: nat :: !IsOpening(rest, q)) ==> RedactHosts(rest) == rest
  {
    hide QueryStart, QueryShown, IsOpening, JoinAmp, SplitAmp;
    forall q: nat ensures QueryStart(rest, false) == q <==> IsOpening(rest, q) {
      OpeningIs(rest, q);
    }
    forall q: nat | q < |rest| && IsOpening(rest, q) ensures RedactHosts(rest) == rest[..q + 1] + QueryShown(rest[q + 1..]) {
      QueryShownIs(rest[q + 1..]);
    }
    OpeningIn(rest);
    var at := QueryStart(rest, false);
    if at >= 0 {
      assert IsOpening(rest, at);
    }
  }

  lemma {:induction false} OpeningIn(rest: string)
    ensures forall q: nat :: IsOpening(rest, q) ==> q < |rest|
  {
  }

  /** And of the whole: the scheme, user information with its password hidden if there is any, and the rest. */
  lemma {:induction false} UriExactly(s: string)
    requires StartsUri(s)
    ensures var n := if |s| >= 13 && s[..13] == "postgresql://" then 13 else 11;
            var rest := s[n..];
            && (forall at: nat :: IsUserEnd(rest, at) ==>
                  RedactPasswords(s) == s[..n] + (UserShown(rest[..at]) + "@" + RedactHosts(rest[at + 1..])))
            && ((forall at: nat :: !IsUserEnd(rest, at)) ==> RedactPasswords(s) == s[..n] + RedactHosts(rest))
  {
    hide Run, RedactHosts, UserShown, RedactUserInfo, IsUserEnd, Parse;
    StartsIs(s);
    var rest := s[UriPrefixLen(s)..];
    forall at: nat ensures IsUserEnd(rest, at) <==> at == Run(NotUserEnd, rest) && at < |rest| && rest[at] == '@' {
      UserEndIs(rest, at);
    }
    UserShownIs(rest[..Run(NotUserEnd, rest)]);
  }
}
