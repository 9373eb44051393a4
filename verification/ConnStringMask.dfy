/**
 Redaction of a connection string only puts the placeholder for some stretches of it.
 */
module ConnStringMask {
  import opened Text
  import opened ConnString
  import opened ConnStringLaws
  import opened ConnStringUri

  /** A stretch of text that is kept, the one after it, which is replaced, and what is put for that. */
  datatype Stretch = Stretch(keep: string, drop: string, put: string)

  function Before(cuts: seq<Stretch>, last: string): string {
    if cuts == [] then last else cuts[0].keep + (cuts[0].drop + Before(cuts[1..], last))
  }

  function Masked(cuts: seq<Stretch>, last: string): string {
    if cuts == [] then last else cuts[0].keep + (cuts[0].put + Masked(cuts[1..], last))
  }

  ghost predicate AllOk(ok: (string, string) -> bool, cuts: seq<Stretch>) {
    forall i :: 0 <= i < |cuts| ==> ok(cuts[i].drop, cuts[i].put)
  }

  /** `t` is `s` with other text in place of some disjoint stretches, each as `ok` allows. */
  ghost predicate MaskBy(ok: (string, string) -> bool, s: string, t: string) {
    exists cuts: seq<Stretch>, last: string :: s == Before(cuts, last) && t == Masked(cuts, last) && AllOk(ok, cuts)
  }

  /** The placeholder is put for anything. */
  predicate Stars(drop: string, put: string) { put == STARS }

  /** The placeholder is put for anything, or a value read from `drop` is redacted and put back. */
  ghost predicate StarsOrNested(drop: string, put: string) {
    put == STARS || exists v :: ScanValue(drop) == Some(Value(|drop|, v)) && put == Requoted(v)
  }

  /** `t` is `s` with the placeholder in place of some disjoint stretches. */
  ghost predicate MaskOf(s: string, t: string) { MaskBy(Stars, s, t) }

  lemma {:induction false} MaskNone(ok: (string, string) -> bool, s: string)
    ensures MaskBy(ok, s, s)
  {
    assert s == Before([], s) && s == Masked([], s) && AllOk(ok, []);
  }

  lemma {:induction false} MaskOne(ok: (string, string) -> bool, s: string, put: string)
    requires ok(s, put)
    ensures MaskBy(ok, s, put)
  {
    var cuts := [Stretch("", s, put)];
    assert cuts[1..] == [];
    assert Before([], "") == "" && Masked([], "") == "";
    assert Before(cuts, "") == "" + (s + "") == s;
    assert Masked(cuts, "") == "" + (put + "") == put;
    assert AllOk(ok, cuts);
  }

  lemma {:induction false} MaskPrefix(ok: (string, string) -> bool, k: string, cuts: seq<Stretch>, last: string)
    requires AllOk(ok, cuts)
    ensures MaskBy(ok, k + Before(cuts, last), k + Masked(cuts, last))
  {
    if cuts == [] {
      MaskNone(ok, k + last);
    } else {
      var more := [cuts[0].(keep := k + cuts[0].keep)] + cuts[1..];
      assert more[1..] == cuts[1..];
      Associate(k, cuts[0].keep, cuts[0].drop + Before(cuts[1..], last));
      Associate(k, cuts[0].keep, cuts[0].put + Masked(cuts[1..], last));
      assert k + Before(cuts, last) == Before(more, last) && k + Masked(cuts, last) == Masked(more, last);
      assert AllOk(ok, more) by {
        assert forall i :: 0 < i < |more| ==> more[i] == cuts[i];
      }
    }
  }

  lemma {:induction false} MaskAppend(ok: (string, string) -> bool, a: string, a': string, b: string, b': string)
    requires MaskBy(ok, a, a') && MaskBy(ok, b, b')
    ensures MaskBy(ok, a + b, a' + b')
  {
    hide AllOk;
    var cuts, last :| a == Before(cuts, last) && a' == Masked(cuts, last) && AllOk(ok, cuts);
    MaskOnto(ok, cuts, last, b, b');
  }

  lemma {:induction false} MaskOnto(ok: (string, string) -> bool, cuts: seq<Stretch>, last: string, b: string, b': string)
    requires MaskBy(ok, b, b') && AllOk(ok, cuts)
    ensures MaskBy(ok, Before(cuts, last) + b, Masked(cuts, last) + b')
    decreases |cuts|
  {
    hide AllOk;
    if cuts == [] {
      var more, end :| b == Before(more, end) && b' == Masked(more, end) && AllOk(ok, more);
      MaskPrefix(ok, last, more, end);
    } else {
      OkParts(ok, cuts);
      MaskOnto(ok, cuts[1..], last, b, b');
      var x, x' := Before(cuts[1..], last) + b, Masked(cuts[1..], last) + b';
      var more, end :| x == Before(more, end) && x' == Masked(more, end) && AllOk(ok, more);
      var all := [cuts[0]] + more;
      assert all[1..] == more;
      OkCons(ok, cuts[0], more);
      var k, d, p := cuts[0].keep, cuts[0].drop, cuts[0].put;
      Associate(k, d + Before(cuts[1..], last), b);
      Associate(d, Before(cuts[1..], last), b);
      Associate(k, p + Masked(cuts[1..], last), b');
      Associate(p, Masked(cuts[1..], last), b');
      assert Before(cuts, last) + b == Before(all, end) && Masked(cuts, last) + b' == Masked(all, end);
    }
  }

  lemma {:induction false} OkParts(ok: (string, string) -> bool, cuts: seq<Stretch>)
    requires cuts != [] && AllOk(ok, cuts)
    ensures ok(cuts[0].drop, cuts[0].put) && AllOk(ok, cuts[1..])
  {
    assert forall i :: 0 <= i < |cuts[1..]| ==> cuts[1..][i] == cuts[i + 1];
  }

  lemma {:induction false} OkCons(ok: (string, string) -> bool, x: Stretch, cuts: seq<Stretch>)
    requires ok(x.drop, x.put) && AllOk(ok, cuts)
    ensures AllOk(ok, [x] + cuts)
  {
    var all := [x] + cuts;
    assert forall i :: 0 < i < |all| ==> all[i] == cuts[i - 1];
  }

  // Keyword strings

  /** What is put for a value: the same, the placeholder, or the value redacted. */
  lemma {:induction false} ValueMask(p: Param, rest: string)
    requires WellCut(p, rest)
    ensures MaskBy(StarsOrNested, p.raw, NewRaw(p))
  {
    hide MaskBy, ScanValue, RedactPasswords;
    MaskNone(StarsOrNested, p.raw);
    if NewRaw(p) != p.raw {
      ScanSwap(p.raw, p.value, rest, "");
      assert p.raw + "" == p.raw;
      assert StarsOrNested(p.raw, NewRaw(p));
      MaskOne(StarsOrNested, p.raw, NewRaw(p));
    }
  }

  lemma {:induction false} RenderMask(ps: seq<Param>, trail: string)
    requires AllCut(ps, trail)
    ensures MaskBy(StarsOrNested, Unparse(ps) + trail, Render(ps) + trail)
    decreases |ps|
  {
    hide MaskBy, Param.Head, NewRaw, WellCut;
    if ps == [] {
      MaskNone(StarsOrNested, trail);
      assert "" + trail == trail;
    } else {
      var p := ps[0];
      RenderMask(ps[1..], trail);
      MaskNone(StarsOrNested, p.Head());
      ValueMask(p, Unparse(ps[1..]) + trail);
      MaskAppend(StarsOrNested, p.Head(), p.Head(), p.raw, NewRaw(p));
      MaskAppend(StarsOrNested, p.Head() + p.raw, p.Head() + NewRaw(p), Unparse(ps[1..]) + trail, Render(ps[1..]) + trail);
      Associate(p.Head() + p.raw, Unparse(ps[1..]), trail);
      Associate(p.Head() + NewRaw(p), Render(ps[1..]), trail);
    }
  }

  // URIs

  lemma {:induction false} CutMask(s: string, k: nat)
    requires k <= |s|
    ensures MaskOf(s, s[..k] + STARS)
  {
    hide MaskBy;
    MaskNone(Stars, s[..k]);
    MaskOne(Stars, s[k..], STARS);
    MaskAppend(Stars, s[..k], s[..k], s[k..], STARS);
    assert s == s[..k] + s[k..];
  }

  lemma {:induction false} UserInfoMask(user: string)
    ensures MaskOf(user, RedactUserInfo(user))
  {
    hide MaskBy, Find;
    var colon := Find(user, ":");
    MaskNone(Stars, user);
    if 0 <= colon < |user| - 1 {
      CutMask(user, colon + 1);
    }
  }

  lemma {:induction false} ParamMask(param: string)
    ensures MaskOf(param, RedactParam(param))
  {
    hide MaskBy, DecodedKey, IsPasswordKey, FindFrom;
    var eq := Find(param, "=");
    MaskNone(Stars, param);
    if eq >= 0 {
      assert At(param, "=", eq);
      CutMask(param, eq + 1);
    }
  }

  lemma {:induction false} ParamsMask(ps: seq<string>)
    ensures MaskOf(JoinAmp(ps), JoinAmp(RedactAll(ps)))
  {
    hide MaskBy, RedactParam;
    if ps == [] {
      MaskNone(Stars, "");
    } else {
      ParamMask(ps[0]);
      if |ps| > 1 {
        assert RedactAll(ps)[1..] == RedactAll(ps[1..]);
        ParamsMask(ps[1..]);
        MaskNone(Stars, "&");
        MaskAppend(Stars, ps[0], RedactParam(ps[0]), "&", "&");
        MaskAppend(Stars, ps[0] + "&", RedactParam(ps[0]) + "&", JoinAmp(ps[1..]), JoinAmp(RedactAll(ps[1..])));
      }
    }
  }

  lemma {:induction false} HostsMask(rest: string)
    ensures MaskOf(rest, RedactHosts(rest))
  {
    hide MaskBy, QueryStart, SplitAmp, JoinAmp, RedactAll;
    var q := QueryStart(rest, false);
    MaskNone(Stars, rest);
    if q >= 0 {
      var query := rest[q + 1..];
      ParamsMask(SplitAmp(query));
      JoinSplit(query);
      MaskNone(Stars, rest[..q + 1]);
      MaskAppend(Stars, rest[..q + 1], rest[..q + 1], query, JoinAmp(RedactAll(SplitAmp(query))));
      assert rest == rest[..q + 1] + query;
    }
  }

  lemma {:induction false} UriMask(s: string)
    requires HasUriPrefix(s)
    ensures MaskOf(s, RedactUri(s))
  {
    hide MaskBy, RedactHosts, RedactUserInfo, Run, HasUriPrefix;
    var n := UriPrefixLen(s);
    var rest := s[n..];
    var at := Run(NotUserEnd, rest);
    MaskNone(Stars, s[..n]);
    HostsMask(rest);
    if at < |rest| && rest[at] == '@' {
      UserInfoMask(rest[..at]);
      MaskNone(Stars, "@");
      HostsMask(rest[at + 1..]);
      MaskAppend(Stars, rest[..at], RedactUserInfo(rest[..at]), "@", "@");
      MaskAppend(Stars, rest[..at] + "@", RedactUserInfo(rest[..at]) + "@", rest[at + 1..], RedactHosts(rest[at + 1..]));
      assert rest == rest[..at] + "@" + rest[at + 1..];
    }
    MaskAppend(Stars, s[..n], s[..n], rest, RedactAuthority(rest));
    assert s == s[..n] + rest;
  }

  /** Redaction keeps every character in place, except that it puts the placeholder for some stretches
      and a redacted copy for the value of a nested connection string. */
  lemma {:induction false} RedactionMasks(s: string)
    ensures MaskBy(StarsOrNested, s, RedactPasswords(s))
    ensures HasUriPrefix(s) || Parse(s).Malformed? ==> MaskOf(s, RedactPasswords(s))
  {
    hide MaskBy, RedactUri, Parse, HasUriPrefix;
    if HasUriPrefix(s) {
      UriMask(s);
      MaskWider(s, RedactPasswords(s));
    } else if Parse(s).Malformed? {
      MaskOne(Stars, s, STARS);
      MaskOne(StarsOrNested, s, STARS);
    } else {
      ParseCut(s);
      RenderMask(Parse(s).params, Parse(s).trail);
    }
  }

  lemma {:induction false} MaskWider(s: string, t: string)
    requires MaskOf(s, t)
    ensures MaskBy(StarsOrNested, s, t)
  {
    var cuts, last :| s == Before(cuts, last) && t == Masked(cuts, last) && AllOk(Stars, cuts);
    assert AllOk(StarsOrNested, cuts);
  }
}
