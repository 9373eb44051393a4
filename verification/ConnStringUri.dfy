/**
 Redacting a connection URI, and exactly when redacting it again changes nothing.
 */
module ConnStringUri {
  import opened Text
  import opened ConnString

  /** The text up to and including the first `c` is found again in front of any other text. */
  lemma {:induction false} FindCut(s: string, c: char, k: nat, r: string)
    requires Find(s, [c]) == k
    ensures s == s[..k] + [c] + s[k + 1..] && s[..k + 1] == s[..k] + [c]
    ensures Find(s[..k + 1] + r, [c]) == k
  {
    hide FindFrom;
    assert At(s, [c], k);
    assert s[k] == s[k..k + 1][0] == c;
    assert s == s[..k] + [c] + s[k + 1..];
    FindRefit(s[..k], [c], s[k + 1..], r);
  }

  lemma {:induction false} UserInfoAgain(user: string)
    requires All(NotUserEnd, user)
    ensures All(NotUserEnd, RedactUserInfo(user))
    ensures RedactUserInfo(RedactUserInfo(user)) == RedactUserInfo(user)
  {
    hide Find;
    var k := Find(user, ":");
    if 0 <= k < |user| - 1 {
      FindCut(user, ':', k, STARS);
      CutAppend(user[..k + 1], STARS, k + 1);
    }
  }

  lemma {:induction false} ParamAgain(param: string)
    requires All(NotAmp, param)
    ensures All(NotAmp, RedactParam(param))
    ensures RedactParam(RedactParam(param)) == RedactParam(param)
  {
    hide Find, DecodedKey, IsPasswordKey;
    var k := Find(param, "=");
    if k >= 0 && IsPasswordKey(DecodedKey(param[..k])) {
      FindCut(param, '=', k, STARS);
      CutAppend(param[..k + 1], STARS, k + 1);
      CutAppend(param[..k + 1], STARS, k);
      assert param[..k + 1][..k] == param[..k];
    }
  }

  lemma {:induction false} SplitParts(s: string)
    ensures forall i :: 0 <= i < |SplitAmp(s)| ==> All(NotAmp, SplitAmp(s)[i])
    decreases |s|
  {
    var i := Run(NotAmp, s);
    if i < |s| {
      SplitParts(s[i + 1..]);
    }
  }

  lemma {:induction false} SplitCons(p: string, rest: string)
    requires All(NotAmp, p)
    ensures SplitAmp(p + ("&" + rest)) == [p] + SplitAmp(rest)
  {
    hide Run;
    var s := p + ("&" + rest);
    assert s[|p|] == '&';
    RunIs(NotAmp, s, |p|);
    assert s[..|p|] == p && s[|p| + 1..] == rest;
  }

  lemma {:induction false} SplitOne(s: string)
    requires All(NotAmp, s)
    ensures SplitAmp(s) == [s]
  {
    hide Run;
    RunIs(NotAmp, s, |s|);
  }

  lemma {:induction false} SplitJoin(ps: seq<string>)
    requires ps != [] && forall i :: 0 <= i < |ps| ==> All(NotAmp, ps[i])
    ensures SplitAmp(JoinAmp(ps)) == ps
  {
    hide SplitAmp, Run, All;
    if |ps| == 1 {
      SplitOne(ps[0]);
      assert [ps[0]] == ps;
    } else {
      SplitCons(ps[0], JoinAmp(ps[1..]));
      Associate(ps[0], "&", JoinAmp(ps[1..]));
      SplitJoin(ps[1..]);
    }
  }

  lemma {:induction false} JoinSplit(s: string)
    ensures JoinAmp(SplitAmp(s)) == s
    decreases |s|
  {
    hide Run;
    var i := Run(NotAmp, s);
    if i < |s| {
      JoinSplit(s[i + 1..]);
      assert SplitAmp(s)[1..] == SplitAmp(s[i + 1..]);
      assert s[i] == '&';
      assert s == s[..i] + "&" + s[i + 1..];
    }
  }

  lemma {:induction false} ParamsAgain(s: string)
    ensures var out := JoinAmp(RedactAll(SplitAmp(s)));
            JoinAmp(RedactAll(SplitAmp(out))) == out
  {
    hide SplitAmp, RedactParam;
    var ps := SplitAmp(s);
    SplitParts(s);
    forall i | 0 <= i < |ps|
      ensures All(NotAmp, RedactParam(ps[i])) && RedactParam(RedactParam(ps[i])) == RedactParam(ps[i])
    {
      ParamAgain(ps[i]);
    }
    SplitJoin(RedactAll(ps));
    assert RedactAll(RedactAll(ps)) == RedactAll(ps);
  }

  lemma {:induction false} QueryStartAgain(s: string, inBrackets: bool, q: nat, r: string)
    requires QueryStart(s, inBrackets) == q
    ensures QueryStart(s[..q + 1] + r, inBrackets) == q
    decreases |s|
  {
    var s' := s[..q + 1] + r;
    assert s'[0] == s[0];
    if q > 0 {
      assert s'[1..] == s[1..][..q] + r;
      QueryStartAgain(s[1..], s[0] == '[' || (inBrackets && s[0] != ']'), q - 1, r);
    }
  }

  lemma {:induction false} HostsAgain(rest: string)
    ensures RedactHosts(RedactHosts(rest)) == RedactHosts(rest)
  {
    hide QueryStart, SplitAmp, JoinAmp, RedactAll;
    var q := QueryStart(rest, false);
    if q >= 0 {
      var out := JoinAmp(RedactAll(SplitAmp(rest[q + 1..])));
      ParamsAgain(rest[q + 1..]);
      QueryStartAgain(rest, false, q, out);
      assert (rest[..q + 1] + out)[q + 1..] == out && (rest[..q + 1] + out)[..q + 1] == rest[..q + 1];
    }
  }

  /** The part of a URI after its scheme starts with user information. */
  predicate HasUser(rest: string) {
    var at := Run(NotUserEnd, rest);
    at < |rest| && rest[at] == '@'
  }

  lemma {:induction false} UserSplit(user: string, hosts: string)
    requires All(NotUserEnd, user)
    ensures HasUser(user + "@" + hosts)
    ensures RedactAuthority(user + "@" + hosts) == RedactUserInfo(user) + "@" + RedactHosts(hosts)
  {
    hide Run, RedactUserInfo, RedactHosts;
    var s := user + "@" + hosts;
    RunIs(NotUserEnd, s, |user|);
    assert s[..|user|] == user && s[|user| + 1..] == hosts;
  }

  lemma {:induction false} UserAgain(rest: string)
    requires HasUser(rest)
    ensures RedactAuthority(RedactAuthority(rest)) == RedactAuthority(rest)
  {
    hide Run, RedactUserInfo, RedactHosts;
    var at := Run(NotUserEnd, rest);
    UserInfoAgain(rest[..at]);
    HostsAgain(rest[at + 1..]);
    UserSplit(RedactUserInfo(rest[..at]), RedactHosts(rest[at + 1..]));
  }

  /** The redacted text starts with user information, and that or what follows it changes when it is
      redacted as such. */
  predicate ExposesUser(rest: string) {
    var out := RedactHosts(rest);
    && !HasUser(rest) && HasUser(out)
    && var at := Run(NotUserEnd, out);
       !(RedactUserInfo(out[..at]) == out[..at] && RedactHosts(out[at + 1..]) == out[at + 1..])
  }

  lemma {:induction false} SameSplit(u: string, h: string, u': string, h': string)
    requires All(NotUserEnd, u) && All(NotUserEnd, u')
    requires u + "@" + h == u' + "@" + h'
    ensures u == u' && h == h'
  {
    hide Run;
    var s, s' := u + "@" + h, u' + "@" + h';
    RunIs(NotUserEnd, s, |u|);
    RunIs(NotUserEnd, s', |u'|);
    assert s[..|u|] == u && s'[..|u'|] == u';
    assert s[|u| + 1..] == h && s'[|u'| + 1..] == h';
  }

  /** Redacting the part after the scheme twice is redacting it once, unless user information appears. */
  lemma {:induction false} AuthorityAgain(rest: string)
    ensures RedactAuthority(RedactAuthority(rest)) == RedactAuthority(rest) <==> !ExposesUser(rest)
  {
    hide Run, RedactUserInfo, RedactHosts;
    if HasUser(rest) {
      UserAgain(rest);
    } else {
      HostsAgain(rest);
      var out := RedactHosts(rest);
      if HasUser(out) {
        var at := Run(NotUserEnd, out);
        var u, h := out[..at], out[at + 1..];
        assert out == u + "@" + h;
        UserInfoAgain(u);
        if RedactAuthority(out) == out {
          SameSplit(RedactUserInfo(u), RedactHosts(h), u, h);
        }
      }
    }
  }

  lemma {:induction false} UriPrefixStays(s: string)
    requires HasUriPrefix(s)
    ensures HasUriPrefix(RedactUri(s)) && UriPrefixLen(RedactUri(s)) == UriPrefixLen(s)
    ensures RedactUri(RedactUri(s)) == s[..UriPrefixLen(s)] + RedactAuthority(RedactAuthority(s[UriPrefixLen(s)..]))
  {
    hide RedactAuthority;
    var n := UriPrefixLen(s);
    var out := RedactUri(s);
    assert out[..n] == s[..n] && out[n..] == RedactAuthority(s[n..]);
    if "postgresql://" <= s {
      assert out[..13] == "postgresql://";
    } else {
      assert s[..11] == "postgres://";
      assert out[..11] == "postgres://";
      assert s[8] == out[8] == ':';
    }
  }

  // The same, read off the URI

  /** The query parameter carries a password. */
  predicate HidesValue(param: string) {
    var eq := Find(param, "=");
    eq >= 0 && IsPasswordKey(DecodedKey(param[..eq]))
  }

  /** It carries one that is not yet the placeholder. */
  predicate OpenPassword(param: string) { HidesValue(param) && param[Find(param, "=") + 1..] != STARS }

  /** What can be seen of a parameter: all of it, or the key if the value is hidden. */
  datatype Seen = Seen(text: string, hides: bool)

  function SeenOf(param: string): Seen {
    if HidesValue(param) then Seen(param[..Find(param, "=") + 1], true) else Seen(param, false)
  }

  function SeenAll(ps: seq<string>): (vs: seq<Seen>)
    ensures |vs| == |ps| && forall i :: 0 <= i < |ps| ==> vs[i] == SeenOf(ps[i])
  {
    seq(|ps|, i requires 0 <= i < |ps| => SeenOf(ps[i]))
  }

  /** Whether a bracket is open behind `s`. */
  predicate BracketsAfter(s: string, inBrackets: bool)
    decreases |s|
  {
    if s == "" then inBrackets else BracketsAfter(s[1..], s[0] == '[' || (inBrackets && s[0] != ']'))
  }

  /** Among what can be seen, the first '?' outside brackets opens a parameter with a password. */
  predicate LateQuery(vs: seq<Seen>, inBrackets: bool)
    decreases |vs|
  {
    vs != [] &&
    var m := QueryStart(vs[0].text, inBrackets);
    if m >= 0 then !vs[0].hides && OpenPassword(vs[0].text[m + 1..])
    else LateQuery(vs[1..], BracketsAfter(vs[0].text, inBrackets))
  }

  /** A colon with something behind it other than the placeholder. */
  predicate OpenUser(user: string) {
    var c := Find(user, ":");
    0 <= c < |user| - 1 && user[c + 1..] != STARS
  }

  /** Among what can be seen of the parameters, the first '@' or '/' is an '@', and there is something to
      redact in front of it (a colon, given as `colon` if it was passed already) or behind it. */
  predicate UncoversIn(vs: seq<Seen>, colon: bool)
    decreases |vs|
  {
    vs != [] &&
    var text := vs[0].text;
    var k := Run(NotUserEnd, text);
    if k == |text| then UncoversIn(vs[1..], colon || ':' in text)
    else
      text[k] == '@' &&
      (colon || OpenUser(text[..k]) || LateQuery([Seen(text[k + 1..], vs[0].hides)] + vs[1..], false))
  }

  /** Hiding the passwords of the query uncovers user information: there is none, nor a path, before the
      query, but an '@' in it that only a hidden slash keeps from being the first of the two. */
  predicate Uncovers(rest: string) {
    var q := QueryStart(rest, false);
    && !HasUser(rest) && q >= 0 && All(NotUserEnd, rest[..q])
    && UncoversIn(SeenAll(SplitAmp(rest[q + 1..])), ':' in rest[..q])
  }

  function Show(v: Seen): string { v.text + (if v.hides then STARS else "") }

  function ShowAll(vs: seq<Seen>): (ps: seq<string>)
    ensures |ps| == |vs| && forall i :: 0 <= i < |vs| ==> ps[i] == Show(vs[i])
  {
    seq(|vs|, i requires 0 <= i < |vs| => Show(vs[i]))
  }

  /** A hidden value is behind the only '=' that can be seen. */
  predicate Proper(v: Seen) {
    && All(NotAmp, v.text)
    && (v.hides ==> v.text != "" && v.text[|v.text| - 1] == '=' && '=' !in v.text[..|v.text| - 1])
  }

  lemma {:induction false} SeenShown(param: string)
    requires All(NotAmp, param)
    ensures Show(SeenOf(param)) == RedactParam(param) && Proper(SeenOf(param))
  {
    hide Find, DecodedKey, IsPasswordKey;
    if HidesValue(param) {
      FindCut(param, '=', Find(param, "="), STARS);
      NotBefore(param, '=', Find(param, "="));
    } else {
      assert param + "" == param;
    }
  }

  lemma {:induction false} NotBefore(s: string, c: char, k: nat)
    requires Find(s, [c]) == k
    ensures k < |s| && s[k] == c && c !in s[..k]
  {
    hide FindFrom;
    assert At(s, [c], k);
    assert s[k..k + 1][0] == s[k];
    forall i | 0 <= i < k ensures s[..k][i] != c {
      assert !At(s, [c], i);
      assert s[i..i + 1] == [s[i]];
    }
  }

  lemma {:induction false} FindAfter(a: string, c: char, b: string)
    requires c !in a
    ensures Find(a + [c] + b, [c]) == |a|
  {
    var s := a + [c] + b;
    assert s[|a|..|a| + 1] == [c];
    forall j: nat | j < |a| ensures !At(s, [c], j) {
      assert s[j..j + 1][0] == a[j];
    }
    FindIs(s, [c], |a|);
  }

  /** A hidden value is not hidden again. */
  lemma {:induction false} ShownAgain(v: Seen)
    requires Proper(v) && v.hides
    ensures RedactParam(Show(v)) == Show(v) && All(NotAmp, Show(v))
  {
    hide Find, DecodedKey, IsPasswordKey;
    var n := |v.text| - 1;
    var s := Show(v);
    assert s == v.text[..n] + "=" + STARS;
    FindAfter(v.text[..n], '=', STARS);
    assert s[..n + 1] + STARS == s;
  }

  lemma {:induction false} OpenChanges(param: string)
    ensures RedactParam(param) != param <==> OpenPassword(param)
  {
    hide FindFrom, DecodedKey, IsPasswordKey;
    var eq := Find(param, "=");
    if eq >= 0 {
      assert At(param, "=", eq);
      assert param == param[..eq + 1] + param[eq + 1..];
      if param[eq + 1..] != STARS {
        Cancel(param[..eq + 1], param[eq + 1..], STARS);
      }
    }
  }

  // Behind the '@'

  lemma {:induction false} QueryIn(a: string, r: string, inBrackets: bool)
    ensures var m := QueryStart(a, inBrackets);
            if m >= 0 then QueryStart(a + r, inBrackets) == m
            else var n := QueryStart(r, BracketsAfter(a, inBrackets));
              QueryStart(a + r, inBrackets) == if n < 0 then -1 else |a| + n
    decreases |a|
  {
    if a == "" {
      assert a + r == r;
    } else {
      assert (a + r)[0] == a[0] && (a + r)[1..] == a[1..] + r;
      QueryIn(a[1..], r, a[0] == '[' || (inBrackets && a[0] != ']'));
    }
  }

  lemma {:induction false} PlainIn(a: string, inBrackets: bool)
    requires '?' !in a && '[' !in a && ']' !in a
    ensures QueryStart(a, inBrackets) == -1 && BracketsAfter(a, inBrackets) == inBrackets
    decreases |a|
  {
    if a != "" {
      PlainIn(a[1..], inBrackets);
    }
  }

  /** Parameters as they are shown. */
  predicate Settle(vs: seq<Seen>) {
    forall i :: 0 <= i < |vs| ==> Proper(vs[i]) && RedactParam(Show(vs[i])) == Show(vs[i])
  }

  lemma {:induction false} ShowNext(vs: seq<Seen>)
    requires vs != []
    ensures JoinAmp(ShowAll(vs)) == Show(vs[0]) + (if |vs| == 1 then "" else "&" + JoinAmp(ShowAll(vs[1..])))
  {
    hide Show;
    if |vs| > 1 {
      assert ShowAll(vs)[1..] == ShowAll(vs[1..]);
      Associate(Show(vs[0]), "&", JoinAmp(ShowAll(vs[1..])));
    } else {
      assert Show(vs[0]) + "" == Show(vs[0]);
    }
  }

  /** A query string in the text has a parameter to redact. */
  predicate Late(t: string, inBrackets: bool) {
    var q := QueryStart(t, inBrackets);
    q >= 0 && JoinAmp(RedactAll(SplitAmp(t[q + 1..]))) != t[q + 1..]
  }

  /** The '?' of the visible text, and what it opens. */
  lemma {:induction false} LateShown(vs: seq<Seen>, inBrackets: bool)
    requires vs != [] && Proper(vs[0]) && Settle(vs[1..])
    ensures Late(JoinAmp(ShowAll(vs)), inBrackets) <==> LateQuery(vs, inBrackets)
    decreases |vs|
  {
    hide Late, Proper, RedactParam, JoinAmp, ShowAll, QueryStart, OpenPassword, BracketsAfter;
    var v, b := vs[0], BracketsAfter(vs[0].text, inBrackets);
    var m := QueryStart(v.text, inBrackets);
    if m >= 0 {
      LateNow(vs, inBrackets);
    } else if |vs| == 1 {
      LateNever(vs, inBrackets);
    } else {
      assert vs[1..][1..] == vs[2..] && vs[1..][0] == vs[1];
      assert Settle(vs[2..]) by { assert forall i :: 0 <= i < |vs[2..]| ==> vs[2..][i] == vs[1..][i + 1]; }
      LateShown(vs[1..], b);
      LateMore(vs, inBrackets);
    }
  }

  lemma {:induction false} LateNow(vs: seq<Seen>, inBrackets: bool)
    requires vs != [] && Proper(vs[0]) && Settle(vs[1..]) && QueryStart(vs[0].text, inBrackets) >= 0
    ensures Late(JoinAmp(ShowAll(vs)), inBrackets) <==>
            !vs[0].hides && OpenPassword(vs[0].text[QueryStart(vs[0].text, inBrackets) + 1..])
  {
    hide QueryStart, SplitAmp, JoinAmp, RedactAll, ShowAll, OpenPassword, Proper, RedactParam;
    var v := vs[0];
    var m := QueryStart(v.text, inBrackets);
    var more := (if v.hides then STARS else "") + (if |vs| == 1 then "" else "&" + JoinAmp(ShowAll(vs[1..])));
    ShownText(vs);
    QueryIn(v.text, more, inBrackets);
    LateHere(vs, m);
    CutAppend(v.text, more, m + 1);
  }

  lemma {:induction false} ShownText(vs: seq<Seen>)
    requires vs != []
    ensures JoinAmp(ShowAll(vs)) == vs[0].text +
              ((if vs[0].hides then STARS else "") + (if |vs| == 1 then "" else "&" + JoinAmp(ShowAll(vs[1..]))))
  {
    hide JoinAmp, ShowAll;
    ShowNext(vs);
    Associate(vs[0].text, if vs[0].hides then STARS else "", if |vs| == 1 then "" else "&" + JoinAmp(ShowAll(vs[1..])));
  }

  lemma {:induction false} LateNever(vs: seq<Seen>, inBrackets: bool)
    requires |vs| == 1 && QueryStart(vs[0].text, inBrackets) < 0
    ensures !Late(JoinAmp(ShowAll(vs)), inBrackets)
  {
    hide QueryStart, JoinAmp, ShowAll, BracketsAfter, Show;
    ShowNext(vs);
    LateSkips(vs[0], "", inBrackets);
    EmptyQuery(BracketsAfter(vs[0].text, inBrackets));
  }

  lemma {:induction false} LateMore(vs: seq<Seen>, inBrackets: bool)
    requires |vs| > 1 && QueryStart(vs[0].text, inBrackets) < 0
    ensures Late(JoinAmp(ShowAll(vs)), inBrackets) <==> Late(JoinAmp(ShowAll(vs[1..])), BracketsAfter(vs[0].text, inBrackets))
  {
    hide QueryStart, JoinAmp, ShowAll, BracketsAfter, Show, SplitAmp, RedactAll;
    var t, t', b, n := JoinAmp(ShowAll(vs)), JoinAmp(ShowAll(vs[1..])), BracketsAfter(vs[0].text, inBrackets), |Show(vs[0])|;
    ShowNext(vs);
    LateSkips(vs[0], "&" + t', inBrackets);
    AmpFirst(t', b);
    var q := QueryStart(t', b);
    if q >= 0 {
      assert t[n + 1 + q + 1..] == t'[q + 1..];
    }
  }

  lemma {:induction false} EmptyQuery(b: bool)
    ensures QueryStart("", b) == -1
  {
  }

  lemma {:induction false} AmpFirst(t: string, b: bool)
    ensures var q := QueryStart(t, b); QueryStart("&" + t, b) == if q < 0 then -1 else 1 + q
  {
    assert ("&" + t)[1..] == t;
  }

  lemma {:induction false} LateSkips(v: Seen, next: string, inBrackets: bool)
    requires QueryStart(v.text, inBrackets) < 0
    ensures var n := QueryStart(next, BracketsAfter(v.text, inBrackets));
            QueryStart(Show(v) + next, inBrackets) == if n < 0 then -1 else |Show(v)| + n
  {
    hide QueryStart, BracketsAfter;
    var stars, b := if v.hides then STARS else "", BracketsAfter(v.text, inBrackets);
    assert forall i :: 0 <= i < |STARS| ==> STARS[i] == '*';
    PlainIn(stars, b);
    QueryIn(v.text, stars + next, inBrackets);
    QueryIn(stars, next, b);
    Associate(v.text, stars, next);
  }

  lemma {:induction false} LateHere(vs: seq<Seen>, m: nat)
    requires vs != [] && Proper(vs[0]) && Settle(vs[1..]) && m < |vs[0].text| && vs[0].text[m] == '?'
    ensures var v := vs[0];
            var x := v.text[m + 1..] + ((if v.hides then STARS else "") + (if |vs| == 1 then "" else "&" + JoinAmp(ShowAll(vs[1..]))));
            JoinAmp(RedactAll(SplitAmp(x))) != x <==> !v.hides && OpenPassword(v.text[m + 1..])
  {
    hide SplitAmp, JoinAmp, RedactParam, OpenPassword, ShowAll, Proper, RedactAll;
    var w := Seen(vs[0].text[m + 1..], vs[0].hides);
    var ws := [w] + vs[1..];
    assert ws[1..] == vs[1..] && ws[0] == w;
    ProperRest(vs[0], m);
    ShownText(ws);
    FirstShown(w);
    ShownChanges(ws);
  }

  /** Parameters of which at most the first is redacted. */
  lemma {:induction false} ShownChanges(ws: seq<Seen>)
    requires ws != [] && Proper(ws[0]) && Settle(ws[1..])
    ensures var x := JoinAmp(ShowAll(ws)); JoinAmp(RedactAll(SplitAmp(x))) != x <==> RedactParam(Show(ws[0])) != Show(ws[0])
  {
    hide SplitAmp, JoinAmp, RedactParam, Proper, Show, All;
    var ps := ShowAll(ws);
    forall i | 0 <= i < |ps| ensures All(NotAmp, ps[i]) && All(NotAmp, RedactParam(ps[i])) && (i > 0 ==> RedactParam(ps[i]) == ps[i]) {
      assert i > 0 ==> ws[i] == ws[1..][i - 1];
      ShownAmp(ws[i]);
      ParamAgain(ps[i]);
    }
    SplitJoin(ps);
    SplitJoin(RedactAll(ps));
    if RedactParam(ps[0]) == ps[0] {
      assert RedactAll(ps) == ps;
    } else {
      assert RedactAll(ps)[0] != ps[0];
    }
  }

  lemma {:induction false} ShownAmp(v: Seen)
    requires Proper(v)
    ensures All(NotAmp, Show(v))
  {
    assert forall i :: 0 <= i < |STARS| ==> STARS[i] == '*';
  }

  lemma {:induction false} FirstShown(w: Seen)
    requires Proper(w)
    ensures RedactParam(Show(w)) != Show(w) <==> !w.hides && OpenPassword(w.text)
  {
    hide RedactParam, OpenPassword;
    if w.hides {
      ShownAgain(w);
    } else {
      assert w.text + "" == w.text;
      OpenChanges(w.text);
    }
  }

  // In front of it

  /** The redacted text has user information with something to redact. */
  predicate Exposed(out: string) {
    HasUser(out) && var at := Run(NotUserEnd, out);
    !(RedactUserInfo(out[..at]) == out[..at] && RedactHosts(out[at + 1..]) == out[at + 1..])
  }

  lemma {:induction false} UserOpen(user: string)
    ensures RedactUserInfo(user) != user <==> OpenUser(user)
  {
    hide FindFrom;
    var c := Find(user, ":");
    if 0 <= c < |user| - 1 {
      assert user == user[..c + 1] + user[c + 1..];
      if user[c + 1..] != STARS {
        Cancel(user[..c + 1], user[c + 1..], STARS);
      }
    }
  }

  /** A colon before the last separator has something other than the placeholder behind it. */
  lemma {:induction false} PassedColon(pre: string, user: string)
    requires pre != "" && (pre[|pre| - 1] == '?' || pre[|pre| - 1] == '&')
    ensures OpenUser(pre + user) <==> ':' in pre || OpenUser(user)
  {
    hide FindFrom;
    var s, n := pre + user, |pre| - 1;
    assert s[n] == pre[n];
    if ':' in pre {
      var c := Find(s, ":");
      ColonFound(s);
      NotBefore(s, ':', c);
      FirstColon(pre, user);
      assert s[c + 1..][n - c - 1] == s[n];
      assert forall i :: 0 <= i < |STARS| ==> STARS[i] == '*';
    } else {
      ColonBehind(pre, user);
      var c := Find(user, ":");
      assert c >= 0 ==> s[|pre| + c + 1..] == user[c + 1..];
    }
  }

  lemma {:induction false} FirstColon(pre: string, user: string)
    requires ':' in pre
    ensures 0 <= Find(pre + user, ":") < |pre|
  {
    hide FindFrom;
    var i :| 0 <= i < |pre| && pre[i] == ':';
    assert (pre + user)[i..i + 1] == ":";
    assert At(pre + user, ":", i);
  }

  lemma {:induction false} ColonFound(s: string)
    ensures ':' in s <==> Find(s, ":") >= 0
  {
    hide FindFrom;
    if ':' in s {
      var i :| 0 <= i < |s| && s[i] == ':';
      assert s[i..i + 1] == ":";
      assert At(s, ":", i);
    }
    if Find(s, ":") >= 0 {
      NotBefore(s, ':', Find(s, ":"));
    }
  }

  lemma {:induction false} ColonBehind(pre: string, user: string)
    requires ':' !in pre
    ensures var c := Find(user, ":"); Find(pre + user, ":") == if c < 0 then -1 else |pre| + c
  {
    hide Find;
    var s := pre + user;
    OccursFrom(s, ":", |pre|);
    assert s[|pre|..] == user;
    forall j: nat | j < |pre| ensures !At(s, ":", j) {
      assert s[j..j + 1][0] == pre[j];
    }
    var c := Find(user, ":");
    FindIs(s, ":", if c < 0 then -1 else |pre| + c);
  }

  lemma {:induction false} ShownUncovers(pre: string, vs: seq<Seen>)
    requires pre != "" && (pre[|pre| - 1] == '?' || pre[|pre| - 1] == '&') && All(NotUserEnd, pre)
    requires vs != [] && Settle(vs)
    ensures Exposed(pre + JoinAmp(ShowAll(vs))) <==> UncoversIn(vs, ':' in pre)
    decreases |vs|
  {
    hide JoinAmp, ShowAll, Exposed, RedactParam, Run, LateQuery, OpenUser, Proper;
    var v := vs[0];
    var k := Run(NotUserEnd, v.text);
    var next := if |vs| == 1 then "" else "&" + JoinAmp(ShowAll(vs[1..]));
    ShowNext(vs);
    if k == |v.text| {
      NoEndShown(v);
      if |vs| == 1 {
        assert Show(v) + "" == Show(v);
        NotExposed(pre + Show(v));
      } else {
        var pre' := pre + Show(v) + "&";
        assert Settle(vs[1..]) by { assert forall i :: 0 <= i < |vs[1..]| ==> vs[1..][i] == vs[i + 1]; }
        ColonShown(pre, v);
        ShownUncovers(pre', vs[1..]);
        Associate(pre, Show(v), next);
        Associate(pre + Show(v), "&", JoinAmp(ShowAll(vs[1..])));
      }
    } else {
      EndHere(pre, vs, k);
    }
  }

  lemma {:induction false} NoEndShown(v: Seen)
    requires Run(NotUserEnd, v.text) == |v.text|
    ensures All(NotUserEnd, Show(v))
  {
    assert forall i :: 0 <= i < |STARS| ==> STARS[i] == '*';
  }

  lemma {:induction false} ColonShown(pre: string, v: Seen)
    ensures ':' in pre + Show(v) + "&" <==> ':' in pre || ':' in v.text
  {
    assert forall i :: 0 <= i < |STARS| ==> STARS[i] == '*';
  }

  lemma {:induction false} NotExposed(out: string)
    requires All(NotUserEnd, out)
    ensures !Exposed(out)
  {
    hide Run;
    RunIs(NotUserEnd, out, |out|);
  }

  lemma {:induction false} EndHere(pre: string, vs: seq<Seen>, k: nat)
    requires pre != "" && (pre[|pre| - 1] == '?' || pre[|pre| - 1] == '&') && All(NotUserEnd, pre)
    requires vs != [] && Settle(vs) && k == Run(NotUserEnd, vs[0].text) < |vs[0].text|
    ensures Exposed(pre + JoinAmp(ShowAll(vs))) <==>
            var text := vs[0].text;
            text[k] == '@' && (':' in pre || OpenUser(text[..k]) || LateQuery([Seen(text[k + 1..], vs[0].hides)] + vs[1..], false))
  {
    hide JoinAmp, ShowAll, RedactParam, Run, LateQuery, OpenUser, Late, Exposed, Proper, RedactAll;
    var v := vs[0];
    var w := Seen(v.text[k + 1..], v.hides);
    var ws := [w] + vs[1..];
    assert ws[1..] == vs[1..] && ws[0] == w;
    ProperRest(v, k);
    assert Settle(vs[1..]) by { assert forall i :: 0 <= i < |vs[1..]| ==> vs[1..][i] == vs[i + 1]; }
    ShownText(vs);
    ShownText(ws);
    var more := (if v.hides then STARS else "") + (if |vs| == 1 then "" else "&" + JoinAmp(ShowAll(vs[1..])));
    SplitHere(pre, v.text, k, more);
    ExposedHere(pre, v.text[..k], v.text[k], JoinAmp(ShowAll(ws)));
    PassedColon(pre, v.text[..k]);
    LateShown(ws, false);
  }

  lemma {:induction false} ProperRest(v: Seen, k: nat)
    requires Proper(v) && k < |v.text| && v.text[k] != '='
    ensures Proper(Seen(v.text[k + 1..], v.hides))
  {
    var x, n := v.text[k + 1..], |v.text|;
    if v.hides {
      assert k < n - 1;
      assert x[|x| - 1] == v.text[n - 1];
      assert x[..|x| - 1] == v.text[..n - 1][k + 1..];
    }
  }

  lemma {:induction false} ExposedHere(pre: string, u: string, c: char, tail: string)
    requires All(NotUserEnd, pre) && All(NotUserEnd, u) && !NotUserEnd(c)
    ensures Exposed(pre + u + [c] + tail) <==> c == '@' && (OpenUser(pre + u) || Late(tail, false))
  {
    hide Run, OpenUser, Late, RedactUserInfo, RedactHosts;
    var user := pre + u;
    var out := user + [c] + tail;
    RunIs(NotUserEnd, out, |user|);
    assert out[..|user|] == user && out[|user| + 1..] == tail && out[|user|] == c;
    UserOpen(user);
    TailChanges(tail);
  }

  lemma {:induction false} SplitHere(pre: string, text: string, k: nat, more: string)
    requires k < |text|
    ensures pre + (text + more) == pre + text[..k] + [text[k]] + (text[k + 1..] + more)
  {
    assert text == text[..k] + [text[k]] + text[k + 1..];
  }

  lemma {:induction false} TailChanges(tail: string)
    ensures RedactHosts(tail) != tail <==> Late(tail, false)
  {
    hide QueryStart, SplitAmp, JoinAmp, RedactAll;
    var q := QueryStart(tail, false);
    if q >= 0 {
      var x, y := tail[q + 1..], JoinAmp(RedactAll(SplitAmp(tail[q + 1..])));
      assert tail == tail[..q + 1] + x;
      if x != y {
        Cancel(tail[..q + 1], x, y);
      }
    }
  }

  /** Whether redaction uncovers user information can be read off the URI. */
  lemma {:induction false} UncoversExactly(rest: string)
    ensures ExposesUser(rest) <==> Uncovers(rest)
  {
    hide QueryStart, SplitAmp, JoinAmp, RedactAll, Run, RedactUserInfo, UncoversIn, SeenAll, Exposed, HasUser;
    var q := QueryStart(rest, false);
    ExposedIs(rest);
    if !HasUser(rest) && q >= 0 {
      if All(NotUserEnd, rest[..q]) {
        QueryUncovers(rest, q);
      } else {
        PathFirst(rest, q, RedactHosts(rest));
        NoUserNotExposed(RedactHosts(rest));
      }
    } else if !HasUser(rest) {
      NoUserNotExposed(rest);
    }
  }

  lemma {:induction false} ExposedIs(rest: string)
    ensures ExposesUser(rest) <==> !HasUser(rest) && Exposed(RedactHosts(rest))
  {
    hide RedactHosts, RedactUserInfo, Run;
  }

  lemma {:induction false} NoUserNotExposed(out: string)
    requires !HasUser(out)
    ensures !Exposed(out)
  {
  }

  lemma {:induction false} QueryUncovers(rest: string, q: nat)
    requires q == QueryStart(rest, false) && All(NotUserEnd, rest[..q])
    ensures Exposed(RedactHosts(rest)) <==> UncoversIn(SeenAll(SplitAmp(rest[q + 1..])), ':' in rest[..q])
  {
    hide QueryStart, SplitAmp, JoinAmp, RedactAll, RedactParam, UncoversIn, SeenAll, Exposed, Proper, ShowAll;
    var ps := SplitAmp(rest[q + 1..]);
    var vs := SeenAll(ps);
    SplitParts(rest[q + 1..]);
    AllShown(ps);
    assert rest[..q + 1] == rest[..q] + "?";
    ShownUncovers(rest[..q] + "?", vs);
  }

  lemma {:induction false} AllShown(ps: seq<string>)
    requires forall i :: 0 <= i < |ps| ==> All(NotAmp, ps[i])
    ensures RedactAll(ps) == ShowAll(SeenAll(ps)) && Settle(SeenAll(ps))
  {
    hide RedactParam, SeenOf, Proper, All, Show;
    var vs := SeenAll(ps);
    forall i | 0 <= i < |ps| ensures Proper(vs[i]) && Show(vs[i]) == RedactParam(ps[i]) && RedactParam(Show(vs[i])) == Show(vs[i]) {
      SeenShown(ps[i]);
      ParamAgain(ps[i]);
    }
    assert RedactAll(ps) == ShowAll(vs);
  }

  lemma {:induction false} PathFirst(rest: string, q: nat, out: string)
    requires q < |rest| && !All(NotUserEnd, rest[..q]) && !HasUser(rest) && rest[..q + 1] <= out
    ensures !HasUser(out)
  {
    hide Run;
    var at := Run(NotUserEnd, rest);
    assert at < q;
    assert out[..q + 1] == rest[..q + 1];
    assert forall i :: 0 <= i <= at ==> out[i] == rest[i] by {
      assert forall i :: 0 <= i <= at ==> out[i] == out[..q + 1][i] && rest[i] == rest[..q + 1][i];
    }
    RunIs(NotUserEnd, out, at);
  }

  /** A path before the query string keeps user information from appearing. */
  lemma {:induction false} PathBeforeQuery(rest: string)
    requires var at := Run(NotUserEnd, rest);
             at < |rest| && rest[at] == '/' && (QueryStart(rest, false) < 0 || at < QueryStart(rest, false))
    ensures !Uncovers(rest)
  {
    hide Run, QueryStart, UncoversIn, SplitAmp;
    var at, q := Run(NotUserEnd, rest), QueryStart(rest, false);
    assert q >= 0 ==> rest[..q][at] == rest[at];
  }

  /** Redaction of a URI is idempotent exactly when it uncovers no user information. */
  lemma {:induction false} UriIdempotent(s: string)
    requires HasUriPrefix(s)
    ensures RedactUri(RedactUri(s)) == RedactUri(s) <==> !Uncovers(s[UriPrefixLen(s)..])
  {
    hide RedactAuthority, HasUriPrefix, UriPrefixLen, ExposesUser, Uncovers;
    var n := UriPrefixLen(s);
    UriPrefixStays(s);
    AuthorityAgain(s[n..]);
    UncoversExactly(s[n..]);
    if RedactAuthority(RedactAuthority(s[n..])) != RedactAuthority(s[n..]) {
      Cancel(s[..n], RedactAuthority(RedactAuthority(s[n..])), RedactAuthority(s[n..]));
    }
  }
}
