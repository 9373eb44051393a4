/**
 The strings that redaction leaves as they are: those in which no password is left to hide.
 */
module ConnStringClean {
  import opened Text
  import opened ConnString
  import opened ConnStringLaws
  import opened ConnStringUri
  import opened ConnStringGrowth

  /** No password can be seen in the user information or in the query. */
  predicate CleanHosts(rest: string) {
    var q := QueryStart(rest, false);
    q >= 0 ==> var ps := SplitAmp(rest[q + 1..]); forall i :: 0 <= i < |ps| ==> !OpenPassword(ps[i])
  }

  predicate CleanUri(rest: string) {
    if HasUser(rest) then
      var at := Run(NotUserEnd, rest);
      !OpenUser(rest[..at]) && CleanHosts(rest[at + 1..])
    else CleanHosts(rest)
  }

  /** The value is the placeholder, or is no password and has none nested in it. */
  predicate CleanParam(p: Param)
    decreases |p.value| + 1, 0, 0
  {
    if IsPasswordKey(p.key) then p.raw == STARS else IsNested(p) ==> Clean(p.value)
  }

  predicate AllClean(ps: seq<Param>)
    decreases MaxValue(ps), 1, |ps|
  {
    ps == [] || (CleanParam(ps[0]) && AllClean(ps[1..]))
  }

  /** The text is a keyword string in which no password can be seen. */
  predicate CleanKeywords(s: string)
    decreases |s|, 2, 0
  {
    match Parse(s)
    case Malformed => false
    case Pairs(ps, _) => AllClean(ps)
  }

  /** The text is a connection string in which no password can be seen, or the placeholder. */
  predicate Clean(s: string)
    decreases |s|, 3, 0
  {
    if HasUriPrefix(s) then CleanUri(s[UriPrefixLen(s)..]) else s == STARS || CleanKeywords(s)
  }

  // URIs

  lemma {:induction false} HostsFixed(rest: string)
    ensures RedactHosts(rest) == rest <==> CleanHosts(rest)
  {
    hide QueryStart, SplitAmp, JoinAmp, RedactParam, OpenPassword;
    var q := QueryStart(rest, false);
    if q >= 0 {
      var ps := SplitAmp(rest[q + 1..]);
      JoinSplit(rest[q + 1..]);
      SplitParts(rest[q + 1..]);
      forall i | 0 <= i < |ps| ensures All(NotAmp, RedactParam(ps[i])) && (RedactParam(ps[i]) == ps[i] <==> !OpenPassword(ps[i])) {
        ParamAgain(ps[i]);
        OpenChanges(ps[i]);
      }
      assert rest == rest[..q + 1] + rest[q + 1..];
      if RedactHosts(rest) == rest {
        assert RedactHosts(rest)[q + 1..] == JoinAmp(RedactAll(ps));
        SplitJoin(RedactAll(ps));
      }
      if CleanHosts(rest) {
        assert RedactAll(ps) == ps;
      }
    }
  }

  lemma {:induction false} UriFixed(s: string)
    requires HasUriPrefix(s)
    ensures RedactUri(s) == s <==> Clean(s)
  {
    hide RedactAuthority, HasUriPrefix, CleanUri;
    var n := UriPrefixLen(s);
    AuthorityFixed(s[n..]);
    assert s == s[..n] + s[n..];
    if RedactAuthority(s[n..]) != s[n..] {
      Cancel(s[..n], RedactAuthority(s[n..]), s[n..]);
    }
  }

  lemma {:induction false} AuthorityFixed(rest: string)
    ensures RedactAuthority(rest) == rest <==> CleanUri(rest)
  {
    hide Run, RedactUserInfo, RedactHosts, OpenUser, CleanHosts;
    if HasUser(rest) {
      var at := Run(NotUserEnd, rest);
      var u, h := rest[..at], rest[at + 1..];
      assert rest == u + "@" + h;
      UserOpen(u);
      HostsFixed(h);
      UserInfoAgain(u);
      if RedactAuthority(rest) == rest {
        SameSplit(RedactUserInfo(u), RedactHosts(h), u, h);
      }
    } else {
      HostsFixed(rest);
    }
  }

  // Keyword strings

  /** What is put for a nested connection string is not what was there, whatever follows. */
  lemma {:induction false} NestedDiffers(p: Param, rest: string, x: string)
    requires WellCut(p, rest) && RedactPasswords(p.value) != p.value
    ensures p.raw + rest != Requoted(p.value) + x
  {
    hide EscapeValue, QuotedValue, BareValue, RedactPasswords;
    var red := RedactPasswords(p.value);
    var s, t := p.raw + rest, Requoted(p.value) + x;
    if s == t {
      assert t[0] == '\'' && t[1..] == EscapeValue(red) + ("'" + x);
      PrintedReads(red, x);
      RedactionGrows(p.value);
    }
  }

  lemma {:induction false} PasswordDiffers(p: Param, rest: string, x: string)
    requires WellCut(p, rest) && p.raw != STARS
    requires rest == "" || IsConnSpace(rest[0]) ==> x == "" || IsConnSpace(x[0])
    ensures p.raw + rest != STARS + x
  {
    hide QuotedValue, BareValue;
    var s, t := p.raw + rest, STARS + x;
    assert t[0] == '*' && s[..|p.raw|] == p.raw && t[..|STARS|] == STARS;
    assert rest != "" ==> rest[0] == s[|p.raw|];
    if s == t {
      assert !IsQuoted(s);
      StarsScan(x);
    }
  }

  /** A parameter in front of other text stays as it is if and only if it is clean and the text stays. */
  lemma {:induction false} ParamFixed(ps: seq<Param>, trail: string, n: nat)
    requires ps != [] && AllCut(ps, trail) && |ps[0].value| < n
    ensures var rest, x := Unparse(ps[1..]) + trail, Render(ps[1..]) + trail;
            ps[0].raw + rest == NewRaw(ps[0]) + x <==> CleanParam(ps[0]) && rest == x
    decreases n, 0, 0
  {
    hide ScanValue, Unparse, Render, RedactPasswords, EscapeValue, IsPasswordKey, IsNested, AllCut, Clean, STARS;
    var p := ps[0];
    var rest, x := Unparse(ps[1..]) + trail, Render(ps[1..]) + trail;
    FirstCut(ps, trail);
    if NewRaw(p) == p.raw && rest != x {
      Cancel(p.raw, rest, x);
    }
    if IsPasswordKey(p.key) {
      if p.raw != STARS {
        SameStart(ps[1..], trail);
        PasswordDiffers(p, rest, x);
      }
    } else if IsNested(p) {
      FixedExactly(p.value);
      if RedactPasswords(p.value) != p.value {
        NestedDiffers(p, rest, x);
      }
    }
  }

  lemma {:induction false} FirstCut(ps: seq<Param>, trail: string)
    requires ps != [] && AllCut(ps, trail)
    ensures WellCut(ps[0], Unparse(ps[1..]) + trail) && AllCut(ps[1..], trail)
  {
  }

  lemma {:induction false} ParamsFixed(ps: seq<Param>, trail: string, n: nat)
    requires AllCut(ps, trail) && forall i :: 0 <= i < |ps| ==> |ps[i].value| < n
    ensures Render(ps) + trail == Unparse(ps) + trail <==> AllClean(ps)
    decreases n, 1, |ps|
  {
    hide NewRaw, Param.Head, CleanParam, AllCut;
    if ps == [] {
      assert Render(ps) == Unparse(ps);
    } else {
      var p := ps[0];
      var a, b := p.raw + (Unparse(ps[1..]) + trail), NewRaw(p) + (Render(ps[1..]) + trail);
      Pieces(p.Head(), p.raw, Unparse(ps[1..]), trail);
      Pieces(p.Head(), NewRaw(p), Render(ps[1..]), trail);
      if a != b {
        Cancel(p.Head(), a, b);
      }
      ParamFixed(ps, trail, n);
      FirstCut(ps, trail);
      assert forall i :: 0 <= i < |ps[1..]| ==> ps[1..][i] == ps[i + 1];
      ParamsFixed(ps[1..], trail, n);
    }
  }

  lemma {:induction false} KeywordsFixed(s: string)
    requires Parse(s).Pairs?
    ensures Render(Parse(s).params) + Parse(s).trail == s <==> CleanKeywords(s)
    decreases |s|, 2, 0
  {
    hide Parse, AllCut, AllClean;
    ParseCut(s);
    ValuesShorter(Parse(s).params, |s|);
    ParamsFixed(Parse(s).params, Parse(s).trail, |s|);
  }

  /** Redaction leaves a string as it is if and only if no password can be seen in it, or it is the
      placeholder. */
  lemma {:induction false} FixedExactly(s: string)
    ensures RedactPasswords(s) == s <==> Clean(s)
    decreases |s|, 3, 0
  {
    hide Parse, HasUriPrefix, RedactUri, CleanUri, Render, AllClean;
    if HasUriPrefix(s) {
      UriFixed(s);
    } else if Parse(s).Pairs? {
      KeywordsFixed(s);
      StarsMalformed();
    }
  }

  lemma {:induction false} StarsMalformed()
    ensures !HasUriPrefix(STARS) && Parse(STARS).Malformed?
  {
    hide Run, ScanValue;
    CutRun(IsConnSpace, "", STARS);
    CutRun(IsKeyChar, STARS, "");
    CutRun(IsConnSpace, "", "");
    assert STARS + "" == STARS && "" + STARS == STARS && "" + "" == "";
  }
}
