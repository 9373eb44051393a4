/**
 What stays visible of a connection string: the stretches of text between the placeholders, found from
 the string itself.
 */
module ConnStringKept {
  import opened Text
  import opened ConnString
  import opened ConnStringLaws
  import opened ConnStringEscape
  import opened ConnStringUri
  import opened ConnStringGrowth

  /** The stretches with the placeholder between them. */
  function JoinStars(ks: seq<string>): string
    requires ks != []
  {
    if |ks| == 1 then ks[0] else ks[0] + (STARS + JoinStars(ks[1..]))
  }

  /** The last stretch of `a` goes on with the first one of `b`. */
  function Glue(a: seq<string>, b: seq<string>): (r: seq<string>)
    requires a != [] && b != []
    ensures r != []
  {
    if |a| == 1 then [a[0] + b[0]] + b[1..] else [a[0]] + Glue(a[1..], b)
  }

  lemma {:induction false} JoinGlue(a: seq<string>, b: seq<string>)
    requires a != [] && b != []
    ensures JoinStars(Glue(a, b)) == JoinStars(a) + JoinStars(b)
    decreases |a|
  {
    hide STARS;
    var g := Glue(a, b);
    if |a| == 1 {
      assert g[1..] == b[1..] && g[0] == a[0] + b[0];
      if |b| > 1 {
        Associate(a[0], b[0], STARS + JoinStars(b[1..]));
      }
    } else {
      assert g[1..] == Glue(a[1..], b) && g[0] == a[0];
      JoinGlue(a[1..], b);
      Associate(a[0], STARS + JoinStars(a[1..]), JoinStars(b));
      Associate(STARS, JoinStars(a[1..]), JoinStars(b));
    }
  }

  // URIs

  /** A stretch with a hidden one behind it. */
  function KeptParam(param: string): (ks: seq<string>)
    ensures ks != []
  {
    if HidesValue(param) then [param[..Find(param, "=") + 1], ""] else [param]
  }

  function KeptQuery(ps: seq<string>): (ks: seq<string>)
    requires ps != []
    ensures ks != []
  {
    if |ps| == 1 then KeptParam(ps[0]) else Glue(KeptParam(ps[0]), Glue(["&"], KeptQuery(ps[1..])))
  }

  function KeptHosts(rest: string): (ks: seq<string>)
    ensures ks != []
  {
    var q := QueryStart(rest, false);
    if q < 0 then [rest] else Glue([rest[..q + 1]], KeptQuery(SplitAmp(rest[q + 1..])))
  }

  function KeptUser(user: string): (ks: seq<string>)
    ensures ks != []
  {
    var colon := Find(user, ":");
    if 0 <= colon < |user| - 1 then [user[..colon + 1], ""] else [user]
  }

  function KeptUri(s: string): (ks: seq<string>)
    requires HasUriPrefix(s)
    ensures ks != []
  {
    var n := UriPrefixLen(s);
    var rest := s[n..];
    var at := Run(NotUserEnd, rest);
    if at < |rest| && rest[at] == '@' then
      Glue([s[..n]], Glue(KeptUser(rest[..at]), Glue(["@"], KeptHosts(rest[at + 1..]))))
    else Glue([s[..n]], KeptHosts(rest))
  }

  // Keyword strings

  /** What stays of a string. */
  function Kept(s: string): (ks: seq<string>)
    ensures ks != []
    decreases |s|, 2, 0
  {
    if HasUriPrefix(s) then KeptUri(s)
    else match Parse(s)
      case Malformed => ["", ""]
      case Pairs(ps, trail) => KeptParams(ps, trail)
  }

  function KeptParams(ps: seq<Param>, trail: string): (ks: seq<string>)
    ensures ks != []
    decreases MaxValue(ps), 1, |ps|
  {
    if ps == [] then [trail] else Glue([ps[0].Head()], Glue(KeptValue(ps[0]), KeptParams(ps[1..], trail)))
  }

  /** What stays of a value; a nested connection string is printed anew between quotes. */
  function KeptValue(p: Param): (ks: seq<string>)
    ensures ks != []
    decreases |p.value| + 1, 0, 0
  {
    if IsPasswordKey(p.key) then ["", ""]
    else if IsRewritten(p) then Glue(["'"], Glue(EscapeAll(Kept(p.value)), ["'"]))
    else [p.raw]
  }

  function EscapeAll(ks: seq<string>): (es: seq<string>)
    ensures |es| == |ks| && forall i :: 0 <= i < |ks| ==> es[i] == EscapeValue(ks[i])
  {
    seq(|ks|, i requires 0 <= i < |ks| => EscapeValue(ks[i]))
  }

  // The stretches make up the redaction

  lemma {:induction false} JoinOne(a: string)
    ensures JoinStars([a]) == a && JoinStars([a, ""]) == a + STARS
  {
    assert [a, ""][1..] == [""] && STARS + "" == STARS;
  }

  lemma {:induction false} ParamKept(param: string)
    ensures JoinStars(KeptParam(param)) == RedactParam(param)
  {
    hide FindFrom, DecodedKey, IsPasswordKey, JoinStars, STARS;
    JoinOne(param);
    if HidesValue(param) {
      assert At(param, "=", Find(param, "="));
      JoinOne(param[..Find(param, "=") + 1]);
    }
  }

  lemma {:induction false} QueryKept(ps: seq<string>)
    requires ps != []
    ensures JoinStars(KeptQuery(ps)) == JoinAmp(RedactAll(ps))
    decreases |ps|
  {
    hide JoinStars, Glue, KeptParam, RedactParam;
    ParamKept(ps[0]);
    if |ps| > 1 {
      assert RedactAll(ps)[1..] == RedactAll(ps[1..]);
      QueryKept(ps[1..]);
      JoinOne("&");
      JoinGlue(["&"], KeptQuery(ps[1..]));
      JoinGlue(KeptParam(ps[0]), Glue(["&"], KeptQuery(ps[1..])));
      Associate(RedactParam(ps[0]), "&", JoinAmp(RedactAll(ps[1..])));
    }
  }

  lemma {:induction false} HostsKept(rest: string)
    ensures JoinStars(KeptHosts(rest)) == RedactHosts(rest)
  {
    hide JoinStars, Glue, QueryStart, SplitAmp, JoinAmp, RedactAll, KeptQuery;
    var q := QueryStart(rest, false);
    JoinOne(rest);
    if q >= 0 {
      QueryKept(SplitAmp(rest[q + 1..]));
      JoinOne(rest[..q + 1]);
      JoinGlue([rest[..q + 1]], KeptQuery(SplitAmp(rest[q + 1..])));
    }
  }

  lemma {:induction false} UriKept(s: string)
    requires HasUriPrefix(s)
    ensures JoinStars(KeptUri(s)) == RedactUri(s)
  {
    hide JoinStars, Glue, KeptHosts, RedactHosts, Find, Run, HasUriPrefix;
    var n := UriPrefixLen(s);
    var rest := s[n..];
    var at := Run(NotUserEnd, rest);
    JoinOne(s[..n]);
    if at < |rest| && rest[at] == '@' {
      var user, hosts := rest[..at], rest[at + 1..];
      HostsKept(hosts);
      JoinOne("@");
      JoinOne(user);
      JoinOne(user[..if 0 <= Find(user, ":") < |user| then Find(user, ":") + 1 else 0]);
      JoinGlue(["@"], KeptHosts(hosts));
      JoinGlue(KeptUser(user), Glue(["@"], KeptHosts(hosts)));
      JoinGlue([s[..n]], Glue(KeptUser(user), Glue(["@"], KeptHosts(hosts))));
      Associate(RedactUserInfo(user), "@", RedactHosts(hosts));
    } else {
      HostsKept(rest);
      JoinGlue([s[..n]], KeptHosts(rest));
    }
  }

  lemma {:induction false} EscapeKept(ks: seq<string>)
    requires ks != []
    ensures JoinStars(EscapeAll(ks)) == EscapeValue(JoinStars(ks))
    decreases |ks|
  {
    hide EscapeValue, STARS;
    if |ks| > 1 {
      assert EscapeAll(ks)[1..] == EscapeAll(ks[1..]);
      EscapeKept(ks[1..]);
      EscapeAppend(ks[0], STARS + JoinStars(ks[1..]));
      EscapeAppend(STARS, JoinStars(ks[1..]));
      EscapeStars();
    }
  }

  lemma {:induction false} EscapeStars()
    ensures EscapeValue(STARS) == STARS
  {
    hide STARS;
    StarsAre();
    DoubleNone(STARS, '\\');
    DoubleNone(STARS, '\'');
  }

  lemma {:induction false} ValueKept(p: Param, n: nat)
    requires |p.value| < n
    ensures JoinStars(KeptValue(p)) == NewRaw(p)
    decreases n, 0, 0
  {
    hide JoinStars, Glue, RedactPasswords, EscapeValue, IsPasswordKey, Kept, IsNested;
    JoinOne(p.raw);
    JoinOne("");
    assert "" + STARS == STARS;
    if IsRewritten(p) {
      KeptRedacts(p.value);
      EscapeKept(Kept(p.value));
      JoinOne("'");
      JoinGlue(EscapeAll(Kept(p.value)), ["'"]);
      JoinGlue(["'"], Glue(EscapeAll(Kept(p.value)), ["'"]));
      Associate("'", EscapeValue(RedactPasswords(p.value)), "'");
    }
  }

  lemma {:induction false} ParamsKept(ps: seq<Param>, trail: string, n: nat)
    requires forall i :: 0 <= i < |ps| ==> |ps[i].value| < n
    ensures JoinStars(KeptParams(ps, trail)) == Render(ps) + trail
    decreases n, 0, |ps|
  {
    hide JoinStars, Glue, NewRaw, KeptValue, Param.Head;
    if ps == [] {
      JoinOne(trail);
      assert "" + trail == trail;
    } else {
      var p, more := ps[0], KeptParams(ps[1..], trail);
      assert forall i :: 0 <= i < |ps[1..]| ==> ps[1..][i] == ps[i + 1];
      ParamsKept(ps[1..], trail, n);
      ValueKept(p, n);
      JoinOne(p.Head());
      JoinGlue(KeptValue(p), more);
      JoinGlue([p.Head()], Glue(KeptValue(p), more));
      Pieces(p.Head(), NewRaw(p), Render(ps[1..]), trail);
    }
  }

  /** The redacted string is what stays of it, with the placeholder for each hidden stretch. */
  lemma {:induction false} KeptRedacts(s: string)
    ensures RedactPasswords(s) == JoinStars(Kept(s))
    decreases |s|, 1, 0
  {
    hide JoinStars, KeptUri, KeptParams, RedactUri, Parse, HasUriPrefix;
    if HasUriPrefix(s) {
      UriKept(s);
    } else if Parse(s).Malformed? {
      JoinOne("");
      assert "" + STARS == STARS;
    } else {
      ValuesShorter(Parse(s).params, |s|);
      ParamsKept(Parse(s).params, Parse(s).trail, |s|);
    }
  }
}
