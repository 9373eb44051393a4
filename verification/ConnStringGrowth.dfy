/**
 How a connection string compares with its redaction: it is a proper beginning of it only where the
 placeholder goes on, and the redaction brings in no characters but asterisks and quotes.
 */
module ConnStringGrowth {
  import opened Text
  import opened ConnString
  import opened ConnStringLaws
  import opened ConnStringEscape
  import opened ConnStringUri

  /** If `s` is a proper beginning of `t`, an asterisk follows in `t`. */
  predicate Grows(s: string, t: string) { s <= t && |s| < |t| ==> t[|s|] == '*' }

  lemma {:induction false} GrowsBehind(p: string, x: string, y: string)
    requires Grows(x, y)
    ensures Grows(p + x, p + y)
  {
    if p + x <= p + y && |x| < |y| {
      assert (p + y)[|p|..][..|x|] == (p + y)[..|p + x|][|p|..];
      assert x <= y;
      assert (p + y)[|p + x|] == y[|x|];
    }
  }

  /** A value that ends where an end character stands, against the placeholder. */
  lemma {:induction false} ValueGrows(isEnd: char -> bool, a: string, b: string, b': string)
    requires a != STARS && !isEnd('*') && (b == "" || isEnd(b[0])) && (b' == "" || isEnd(b'[0]))
    requires |a| > 8 && STARS <= a ==> !isEnd(a[8])
    ensures Grows(a + b, STARS + b')
  {
    hide STARS;
    StarsAre();
    var s, t := a + b, STARS + b';
    assert |a| >= 8 ==> s[..8] == a[..8];
    assert t[..8] == STARS;
    assert |a| > 8 ==> s[8] == a[8];
    assert b' != "" ==> t[8] == b'[0];
    assert |a| < 8 && b != "" ==> s[|a|] == b[0];
    assert |a| < 8 ==> t[|a|] == STARS[|a|];
    assert |a| == 8 ==> a[..8] == a;
    PrefixPrefix(s, t, 8);
  }

  lemma {:induction false} PrefixPrefix(s: string, t: string, n: nat)
    ensures s <= t && n <= |s| ==> s[..n] == t[..n]
  {
  }

  // URIs

  predicate IsAmp(c: char) { c == '&' }

  predicate IsAt(c: char) { c == '@' }

  lemma {:induction false} ParamGrows(p: string, b: string, b': string)
    requires All(NotAmp, p) && RedactParam(p) != p && (b == "" || IsAmp(b[0])) && (b' == "" || IsAmp(b'[0]))
    ensures Grows(p + b, RedactParam(p) + b')
  {
    hide FindFrom, DecodedKey, IsPasswordKey, Grows;
    var eq := Find(p, "=");
    assert At(p, "=", eq);
    var k, a := p[..eq + 1], p[eq + 1..];
    assert p == k + a;
    ValueGrows(IsAmp, a, b, b');
    GrowsBehind(k, a + b, STARS + b');
    Associate(k, a, b);
    Associate(k, STARS, b');
  }

  lemma {:induction false} ParamsGrow(ps: seq<string>)
    requires ps != [] && forall i :: 0 <= i < |ps| ==> All(NotAmp, ps[i])
    ensures Grows(JoinAmp(ps), JoinAmp(RedactAll(ps)))
    decreases |ps|
  {
    hide RedactParam, Grows, All;
    var p, r := ps[0], RedactAll(ps);
    var b := if |ps| == 1 then "" else "&" + JoinAmp(ps[1..]);
    var b' := if |ps| == 1 then "" else "&" + JoinAmp(RedactAll(ps[1..]));
    assert r[1..] == RedactAll(ps[1..]);
    JoinNext(ps);
    JoinNext(r);
    if RedactParam(p) != p {
      ParamGrows(p, b, b');
    } else {
      if |ps| > 1 {
        ParamsGrow(ps[1..]);
        GrowsBehind("&", JoinAmp(ps[1..]), JoinAmp(RedactAll(ps[1..])));
      } else {
        GrowsSame("");
      }
      GrowsBehind(p, b, b');
    }
  }

  lemma {:induction false} JoinNext(ps: seq<string>)
    requires ps != []
    ensures JoinAmp(ps) == ps[0] + (if |ps| == 1 then "" else "&" + JoinAmp(ps[1..]))
  {
    if |ps| > 1 {
      Associate(ps[0], "&", JoinAmp(ps[1..]));
    } else {
      assert ps[0] + "" == ps[0];
    }
  }

  lemma {:induction false} GrowsSame(s: string)
    ensures Grows(s, s)
  {
  }

  lemma {:induction false} HostsGrow(rest: string)
    ensures Grows(rest, RedactHosts(rest))
  {
    hide QueryStart, SplitAmp, JoinAmp, RedactAll, Grows;
    var q := QueryStart(rest, false);
    GrowsSame(rest);
    if q >= 0 {
      var query := rest[q + 1..];
      SplitParts(query);
      JoinSplit(query);
      ParamsGrow(SplitAmp(query));
      GrowsBehind(rest[..q + 1], query, JoinAmp(RedactAll(SplitAmp(query))));
      assert rest == rest[..q + 1] + query;
    }
  }

  lemma {:induction false} UriGrows(s: string)
    requires HasUriPrefix(s)
    ensures Grows(s, RedactUri(s))
  {
    hide Grows, Run, RedactUserInfo, RedactHosts, HasUriPrefix;
    var n := UriPrefixLen(s);
    var rest := s[n..];
    var at := Run(NotUserEnd, rest);
    if at < |rest| && rest[at] == '@' {
      UserGrows(rest[..at], rest[at + 1..]);
      assert rest == rest[..at] + ("@" + rest[at + 1..]);
      Associate(RedactUserInfo(rest[..at]), "@", RedactHosts(rest[at + 1..]));
    } else {
      HostsGrow(rest);
    }
    GrowsBehind(s[..n], rest, RedactAuthority(rest));
    assert s == s[..n] + rest;
  }

  lemma {:induction false} UserGrows(user: string, hosts: string)
    requires All(NotUserEnd, user)
    ensures Grows(user + ("@" + hosts), RedactUserInfo(user) + ("@" + RedactHosts(hosts)))
  {
    hide FindFrom, RedactHosts, Grows;
    var c := Find(user, ":");
    var b, b' := "@" + hosts, "@" + RedactHosts(hosts);
    if 0 <= c < |user| - 1 && user[c + 1..] != STARS {
      var k, a := user[..c + 1], user[c + 1..];
      assert user == k + a;
      ValueGrows(IsAt, a, b, b');
      GrowsBehind(k, a + b, STARS + b');
      Associate(k, a, b);
      Associate(k, STARS, b');
    } else {
      assert RedactUserInfo(user) == user by { assert 0 <= c < |user| ==> user == user[..c + 1] + user[c + 1..]; }
      HostsGrow(hosts);
      GrowsBehind("@", hosts, RedactHosts(hosts));
      GrowsBehind(user, b, b');
    }
  }

  // Keyword strings

  /** What follows a value starts alike before and after redaction. */
  lemma {:induction false} SameStart(ps: seq<Param>, trail: string)
    requires AllCut(ps, trail)
    ensures var r, r' := Unparse(ps) + trail, Render(ps) + trail;
            (r == "" <==> r' == "") && (r != "" ==> r[0] == r'[0])
  {
    hide WellCut, NewRaw;
    if ps != [] {
      var p := ps[0];
      assert |p.Head()| > 0;
      assert (Unparse(ps) + trail)[0] == p.Head()[0] == (Render(ps) + trail)[0];
    }
  }

  lemma {:induction false} PasswordGrows(raw: string, v: string, b: string, b': string)
    requires ScanValue(raw + b) == Some(Value(|raw|, v)) && NoLeadingSpace(raw + b) && raw != STARS
    requires (b == "" <==> b' == "") && (b != "" ==> b[0] == b'[0])
    ensures Grows(raw + b, STARS + b')
  {
    hide BareValue, QuotedValue, STARS;
    StarsAre();
    if IsQuoted(raw) {
      assert (raw + b)[0] == '\'' && (STARS + b')[0] == STARS[0];
    } else {
      if b != "" && !IsConnSpace(b[0]) {
        QuotedOrBlank(raw, v, b);
      }
      if |raw| > 8 && STARS <= raw {
        LongBare(raw, b);
      }
      ValueGrows(IsConnSpace, raw, b, b');
    }
  }

  lemma {:induction false} LongBare(raw: string, b: string)
    requires |raw| > 8 && STARS <= raw && ScanValue(raw + b).Some? && ScanValue(raw + b).value.len == |raw|
    ensures !IsConnSpace(raw[8])
  {
    hide BareValue, STARS;
    StarsAre();
    assert raw == STARS + raw[8..];
    Associate(STARS, raw[8..], b);
    assert (raw + b)[0] == STARS[0];
    BarePrefix(STARS, raw[8..] + b);
    BareStart(raw[8..] + b);
    assert (raw[8..] + b)[0] == raw[8];
  }

  /** A quoted value printed anew, against the old one. */
  lemma {:induction false} NestedGrows(raw: string, v: string, red: string, b: string, b': string)
    requires ScanValue(raw + b) == Some(Value(|raw|, v)) && v != "" && red != v && Grows(v, red)
    ensures Grows(raw + b, "'" + EscapeValue(red) + "'" + b')
  {
    hide BareValue, QuotedValue, EscapeValue;
    var s, t := raw + b, "'" + EscapeValue(red) + "'" + b';
    if s <= t && |s| < |t| {
      assert s[0] == t[0] == '\'';
      assert raw != "" by { assert raw == "" ==> raw + b == b; }
      assert raw[0] == s[0];
      var x := raw[1..];
      assert t == raw + t[|raw|..];
      assert s[1..] == x + b && t[1..] == x + t[|raw|..];
      QuotedSwap(x, b, t[|raw|..]);
      assert t[1..] == EscapeValue(red) + ("'" + b');
      PrintedReads(red, b');
    }
  }

  /** What is read of a printed value: all of it, or what is before its first quote. */
  lemma {:induction false} PrintedReads(red: string, r: string)
    ensures var got := QuotedValue(EscapeValue(red) + ("'" + r));
            got.Some? && got.value.decoded <= red
            && (got.value.decoded != red ==> |got.value.decoded| < |red| && red[|got.value.decoded|] == '\'')
  {
    hide QuotedValue, EscapeValue, Double;
    if '\'' in red {
      var k :| 0 <= k < |red| && red[k] == '\'' && '\'' !in red[..k] by { FirstQuote(red); }
      assert red == red[..k] + "'" + red[k + 1..];
      var e := EscapeQuote(red[..k], red[k + 1..]);
      Associate(Double(red[..k], '\\'), "'" + e, "'" + r);
      Associate("'", e, "'" + r);
      QuotedDoubled(red[..k], e + ("'" + r));
    } else {
      EscapePlain(red);
      QuotedDoubled(red, r);
    }
  }

  lemma {:induction false} NestedNonempty(p: Param)
    requires IsNested(p)
    ensures p.value != ""
  {
  }

  lemma {:induction false} RenderGrows(ps: seq<Param>, trail: string, n: nat)
    requires AllCut(ps, trail) && forall i :: 0 <= i < |ps| ==> |ps[i].value| < n
    ensures Grows(Unparse(ps) + trail, Render(ps) + trail)
    decreases n, 0, |ps|
  {
    hide Grows, NewRaw, WellCut, RedactPasswords;
    if ps == [] {
      assert Unparse(ps) + trail == trail == Render(ps) + trail;
      GrowsSame(trail);
    } else {
      var p, b, b' := ps[0], Unparse(ps[1..]) + trail, Render(ps[1..]) + trail;
      assert forall i :: 0 <= i < |ps[1..]| ==> ps[1..][i] == ps[i + 1];
      RenderGrows(ps[1..], trail, n);
      SameStart(ps[1..], trail);
      ValueStep(p, b, b', n);
      GrowsBehind(p.Head(), p.raw + b, NewRaw(p) + b');
      Pieces(p.Head(), p.raw, Unparse(ps[1..]), trail);
      Pieces(p.Head(), NewRaw(p), Render(ps[1..]), trail);
    }
  }

  lemma {:induction false} Pieces(a: string, b: string, c: string, d: string)
    ensures a + b + c + d == a + (b + (c + d))
  {
  }

  lemma {:induction false} ValueStep(p: Param, b: string, b': string, n: nat)
    requires WellCut(p, b) && Grows(b, b') && |p.value| < n
    requires (b == "" <==> b' == "") && (b != "" ==> b[0] == b'[0])
    ensures Grows(p.raw + b, NewRaw(p) + b')
    decreases n, 0, 0
  {
    hide Grows, ScanValue, RedactPasswords, EscapeValue, IsNested, IsPasswordKey;
    if NewRaw(p) == p.raw {
      GrowsBehind(p.raw, b, b');
    } else if IsPasswordKey(p.key) {
      PasswordGrows(p.raw, p.value, b, b');
    } else {
      NestedNonempty(p);
      RedactionGrows(p.value);
      NestedGrows(p.raw, p.value, RedactPasswords(p.value), b, b');
    }
  }

  /** A string is a proper beginning of its redaction only where an asterisk follows. */
  lemma {:induction false} RedactionGrows(s: string)
    ensures Grows(s, RedactPasswords(s))
    decreases |s|, 1, 0
  {
    hide Grows, RedactUri, Parse, HasUriPrefix;
    if HasUriPrefix(s) {
      UriGrows(s);
    } else if Parse(s).Malformed? {
      StarsGrow(s);
    } else {
      ParseCut(s);
      ValuesShorter(Parse(s).params, |s|);
      RenderGrows(Parse(s).params, Parse(s).trail, |s|);
    }
  }

  lemma {:induction false} StarsGrow(s: string)
    ensures Grows(s, STARS)
  {
    StarsAre();
  }

  lemma {:induction false} ValuesShorter(ps: seq<Param>, n: nat)
    requires MaxValue(ps) <= n
    ensures forall i :: 0 <= i < |ps| ==> |ps[i].value| < n
    decreases |ps|
  {
    if ps != [] {
      ValuesShorter(ps[1..], n);
      assert forall i :: 0 < i < |ps| ==> ps[i] == ps[1..][i - 1];
    }
  }

  // Characters

  lemma {:induction false} QuotedChars(s: string, c: char)
    requires QuotedValue(s).Some? && c in QuotedValue(s).value.decoded
    ensures c in s[..QuotedValue(s).value.len]
    decreases |s|
  {
    var v := QuotedValue(s).value;
    var k := if s[0] == '\\' then 2 else 1;
    assert s[k - 1] in s[..v.len];
    if c != s[k - 1] {
      QuotedChars(s[k..], c);
      assert s[..v.len] == s[..k] + s[k..][..v.len - k];
    }
  }

  lemma {:induction false} BareChars(s: string, c: char)
    requires c in BareValue(s).decoded
    ensures c in s[..BareValue(s).len]
    decreases |s|
  {
    var v := BareValue(s);
    var k := if s[0] == '\\' then 2 else 1;
    assert s[k - 1] in s[..v.len];
    if c != s[k - 1] {
      BareChars(s[k..], c);
      assert s[..v.len] == s[..k] + s[k..][..v.len - k];
    }
  }

  /** A value stands for characters of its text. */
  lemma {:induction false} ValueChars(p: Param, rest: string, c: char)
    requires WellCut(p, rest) && c in p.value
    ensures c in p.raw
  {
    hide QuotedValue, BareValue;
    var s := p.raw + rest;
    if IsQuoted(s) {
      QuotedChars(s[1..], c);
      var n := QuotedValue(s[1..]).value.len;
      assert s[1..][..n] == s[1..1 + n];
      assert s[..1 + n] == p.raw;
      assert s[1..1 + n] == p.raw[1..];
    } else {
      BareChars(s, c);
      assert s[..|p.raw|] == p.raw;
    }
  }

  predicate Added(c: char) { c == '*' || c == '\'' }

  lemma {:induction false} JoinChars(ps: seq<string>, c: char)
    requires c in JoinAmp(RedactAll(ps))
    ensures c == '*' || c in JoinAmp(ps)
    decreases |ps|
  {
    hide RedactParam;
    if ps != [] {
      ParamChars(ps[0], c);
      assert RedactAll(ps)[1..] == RedactAll(ps[1..]);
      if |ps| > 1 && c in JoinAmp(RedactAll(ps[1..])) {
        JoinChars(ps[1..], c);
      }
    }
  }

  lemma {:induction false} ParamChars(p: string, c: char)
    ensures c in RedactParam(p) ==> c == '*' || c in p
  {
    hide Find, DecodedKey, IsPasswordKey, STARS;
    StarsAre();
  }

  lemma {:induction false} HostsChars(rest: string, c: char)
    ensures c in RedactHosts(rest) ==> c == '*' || c in rest
  {
    hide QueryStart, SplitAmp, JoinAmp, RedactAll;
    var q := QueryStart(rest, false);
    if q >= 0 && c in JoinAmp(RedactAll(SplitAmp(rest[q + 1..]))) {
      JoinChars(SplitAmp(rest[q + 1..]), c);
      JoinSplit(rest[q + 1..]);
    }
  }

  lemma {:induction false} UriChars(s: string, c: char)
    requires HasUriPrefix(s)
    ensures c in RedactUri(s) ==> c == '*' || c in s
  {
    hide Run, RedactHosts, Find, STARS;
    StarsAre();
    var n := UriPrefixLen(s);
    var rest := s[n..];
    var at := Run(NotUserEnd, rest);
    HostsChars(rest, c);
    if at < |rest| {
      HostsChars(rest[at + 1..], c);
    }
  }

  lemma {:induction false} RenderChars(ps: seq<Param>, trail: string, n: nat, c: char)
    requires AllCut(ps, trail) && forall i :: 0 <= i < |ps| ==> |ps[i].value| < n
    ensures c in Render(ps) ==> Added(c) || c in Unparse(ps)
    decreases n, 0, |ps|
  {
    hide NewRaw, WellCut, Param.Head;
    if ps != [] {
      assert forall i :: 0 <= i < |ps[1..]| ==> ps[1..][i] == ps[i + 1];
      RenderChars(ps[1..], trail, n, c);
      RawChars(ps[0], Unparse(ps[1..]) + trail, n, c);
    }
  }

  lemma {:induction false} RawChars(p: Param, rest: string, n: nat, c: char)
    requires WellCut(p, rest) && |p.value| < n
    ensures c in NewRaw(p) ==> Added(c) || c in p.raw
    decreases n, 0, 0
  {
    hide RedactPasswords, EscapeValue, WellCut, STARS;
    StarsAre();
    EscapeKeeps(RedactPasswords(p.value), c);
    RedactedChars(p.value, c);
    if c in p.value {
      ValueChars(p, rest, c);
    }
  }

  /** Redaction brings in no characters but asterisks and single quotes. */
  lemma {:induction false} RedactedChars(s: string, c: char)
    ensures c in RedactPasswords(s) ==> Added(c) || c in s
    decreases |s|, 1, 0
  {
    hide RedactUri, Parse, HasUriPrefix;
    StarsAre();
    if HasUriPrefix(s) {
      UriChars(s, c);
    } else if Parse(s).Pairs? {
      ParseCut(s);
      ValuesShorter(Parse(s).params, |s|);
      RenderChars(Parse(s).params, Parse(s).trail, |s|, c);
    }
  }
}
