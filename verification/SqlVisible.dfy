/**
 What can be seen of a redacted connection string in a constant: whether it mentions a secret, and
 whether it is a URI cut off in its host, both read off the stretches that stay.
 */
module SqlVisible {
  import opened Text
  import opened SqlRedact
  import ConnString
  import opened ConnStringLaws
  import opened ConnStringEscape
  import opened ConnStringTags
  import opened ConnStringKept

  /** The text behind the first occurrence of `f`, in any case, if there is one. */
  function BehindOf(s: string, f: string): (r: Option<string>)
    ensures r.Some? <==> Contains(Lower(s), f)
  {
    var i := Find(Lower(s), f);
    if i < 0 then None else assert At(Lower(s), f, i); Some(s[i + |f|..])
  }

  lemma {:induction false} BehindNone(f: string)
    requires f != ""
    ensures BehindOf("", f) == None
  {
    hide FindFrom;
    if Contains(Lower(""), f) {
      ContainsHead(Lower(""), f);
    }
  }

  /** The occurrence is here, or it is found further on. */
  lemma {:induction false} BehindStep(s: string, f: string)
    requires s != "" && f != ""
    ensures BehindOf(s, f) == if f <= Lower(s) then Some(s[|f|..]) else BehindOf(s[1..], f)
  {
    hide Find, Lower;
    if f <= Lower(s) {
      FoundHere(Lower(s), f);
    } else {
      FoundLater(Lower(s), f);
      LowerRest(s);
      var k := Find(Lower(s[1..]), f);
      if k >= 0 {
        FoundIn(Lower(s[1..]), f);
        DropBoth(s, k + |f|);
      }
    }
  }

  lemma {:induction false} LowerRest(s: string)
    requires s != ""
    ensures Lower(s)[1..] == Lower(s[1..])
  {
  }

  lemma {:induction false} DropBoth(s: string, n: nat)
    requires n + 1 <= |s|
    ensures s[1..][n..] == s[1 + n..]
  {
  }

  lemma {:induction false} FoundHere(l: string, f: string)
    requires f <= l
    ensures Find(l, f) == 0
  {
    hide Find;
    assert l[0..|f|] == f;
    FindIs(l, f, 0);
  }

  lemma {:induction false} FoundLater(l: string, f: string)
    requires l != "" && !(f <= l)
    ensures var k := Find(l[1..], f); Find(l, f) == if k < 0 then -1 else 1 + k
  {
    hide Find;
    assert !At(l, f, 0) by { assert |f| <= |l| ==> l[0..|f|] == l[..|f|]; }
    OccursFrom(l, f, 1);
    var k := Find(l[1..], f);
    FindIs(l, f, if k < 0 then -1 else 1 + k);
  }

  lemma {:induction false} FoundIn(s: string, f: string)
    requires Find(s, f) >= 0
    ensures Find(s, f) + |f| <= |s|
  {
    hide FindFrom;
    assert At(s, f, Find(s, f));
  }

  lemma {:induction false} PrefixBefore(k: string, x: string, f: string)
    requires x != "" && x[0] !in f
    ensures f <= k + x <==> f <= k
  {
    assert (k + x)[|k|] == x[0];
    if |f| > |k| {
      assert f[|k|] in f;
      assert f[|k|] != (k + x)[|k|];
    } else {
      assert (k + x)[..|f|] == k[..|f|];
    }
  }

  lemma {:induction false} LowerBefore(k: string, x: string)
    requires x != "" && x[0] == '*'
    ensures Lower(k + x) == Lower(k) + Lower(x) && Lower(x) != "" && Lower(x)[0] == '*'
  {
  }

  /** Nothing is found across the placeholder. */
  lemma {:induction false} BehindStars(k: string, x: string, f: string)
    requires IsTag(f) && x != "" && x[0] == '*'
    ensures BehindOf(k + x, f) == match BehindOf(k, f) case None => BehindOf(x, f) case Some(y) => Some(y + x)
    decreases |k|
  {
    hide BehindOf, Lower;
    if k == "" {
      assert k + x == x;
      BehindNone(f);
    } else {
      BehindStep(k, f);
      BehindStep(k + x, f);
      LowerBefore(k, x);
      PrefixBefore(Lower(k), Lower(x), f);
      assert (k + x)[1..] == k[1..] + x;
      BehindStars(k[1..], x, f);
      if f <= Lower(k) {
        CutAppend(k, x, |f|);
      }
    }
  }

  lemma {:induction false} BehindSkip(n: nat, t: string, f: string)
    requires IsTag(f) && n <= |ConnString.STARS|
    ensures BehindOf(ConnString.STARS[n..] + t, f) == BehindOf(t, f)
    decreases |ConnString.STARS| - n
  {
    hide BehindOf, Lower, ConnString.STARS;
    StarsAre();
    var s := ConnString.STARS[n..] + t;
    if n == |ConnString.STARS| {
      assert s == t;
    } else {
      assert s[0] == ConnString.STARS[n];
      BehindStep(s, f);
      assert s[1..] == ConnString.STARS[n + 1..] + t;
      StarFirst(s, f);
      BehindSkip(n + 1, t, f);
    }
  }

  lemma {:induction false} StarFirst(s: string, f: string)
    requires IsTag(f) && s != "" && s[0] == '*'
    ensures !(f <= Lower(s))
  {
    assert Lower(s)[0] == '*';
    assert f[0] in f;
  }

  // Stretches

  /** The stretches behind the first occurrence of `f` in one of them. */
  function SeenBehind(ks: seq<string>, f: string): (r: Option<seq<string>>)
    ensures r.Some? ==> r.value != []
    decreases |ks|
  {
    if ks == [] then None
    else match BehindOf(ks[0], f)
      case Some(x) => Some([x] + ks[1..])
      case None => SeenBehind(ks[1..], f)
  }

  lemma {:induction false} SeenBehindIs(ks: seq<string>, f: string)
    requires IsTag(f) && ks != []
    ensures BehindOf(JoinStars(ks), f) == match SeenBehind(ks, f) case None => None case Some(rs) => Some(JoinStars(rs))
    decreases |ks|
  {
    hide BehindOf, ConnString.STARS;
    if |ks| == 1 {
      assert ks[1..] == [];
    } else {
      var t := JoinStars(ks[1..]);
      StarsAre();
      assert (ConnString.STARS + t)[0] == '*';
      BehindStars(ks[0], ConnString.STARS + t, f);
      assert ConnString.STARS[0..] == ConnString.STARS;
      BehindSkip(0, t, f);
      SeenBehindIs(ks[1..], f);
      match BehindOf(ks[0], f)
      case None =>
      case Some(x) =>
        assert ([x] + ks[1..])[1..] == ks[1..];
    }
  }

  predicate NoneEnds(rs: seq<string>) { forall i :: 0 <= i < |rs| ==> !HasHostEnd(rs[i]) }

  lemma {:induction false} HostEndIn(rs: seq<string>)
    requires rs != []
    ensures HasHostEnd(JoinStars(rs)) <==> !NoneEnds(rs)
    decreases |rs|
  {
    hide ConnString.STARS;
    if |rs| > 1 {
      StarsAre();
      HostEndIn(rs[1..]);
      assert NoneEnds(rs) <==> !HasHostEnd(rs[0]) && NoneEnds(rs[1..]) by {
        assert forall i :: 0 < i < |rs| ==> rs[i] == rs[1..][i - 1];
        assert forall i :: 0 <= i < |rs[1..]| ==> rs[1..][i] == rs[i + 1];
      }
      assert HasHostEnd(JoinStars(rs)) <==> HasHostEnd(rs[0]) || HasHostEnd(JoinStars(rs[1..]));
    }
  }

  /** What stays mentions a password or is a connection URI. */
  predicate SeenMentions(ks: seq<string>) {
    SeenBehind(ks, "password").Some? || SeenBehind(ks, "postgres://").Some? || SeenBehind(ks, "postgresql://").Some?
  }

  /** What stays is a URI with no end of its host or user information. */
  predicate SeenCut(ks: seq<string>) {
    match SeenBehind(ks, "postgresql://")
    case Some(rs) => NoneEnds(rs)
    case None =>
      match SeenBehind(ks, "postgres://")
      case Some(rs) => NoneEnds(rs)
      case None => false
  }

  lemma {:induction false} TruncatedIs(s: string)
    ensures TruncatedInHost(s) <==>
            match BehindOf(s, "postgresql://")
            case Some(x) => !HasHostEnd(x)
            case None => (match BehindOf(s, "postgres://") case Some(x) => !HasHostEnd(x) case None => false)
  {
    hide FindFrom, Contains, HasHostEnd, Lower;
  }

  lemma {:induction false} SeenIs(ks: seq<string>)
    requires ks != []
    ensures MentionsConnSecret(JoinStars(ks)) <==> SeenMentions(ks)
    ensures TruncatedInHost(JoinStars(ks)) <==> SeenCut(ks)
  {
    hide BehindOf, SeenBehind, HasHostEnd, NoneEnds, TruncatedInHost, Contains;
    var s := JoinStars(ks);
    SeenBehindIs(ks, "password");
    SeenBehindIs(ks, "postgres://");
    SeenBehindIs(ks, "postgresql://");
    TruncatedIs(s);
    if SeenBehind(ks, "postgresql://").Some? {
      HostEndIn(SeenBehind(ks, "postgresql://").value);
    }
    if SeenBehind(ks, "postgres://").Some? {
      HostEndIn(SeenBehind(ks, "postgres://").value);
    }
  }

  // Doubled quotes

  lemma {:induction false} DoublePrefixes(x: string, f: string, q: char)
    requires q !in f && f <= x
    ensures f <= ConnString.Double(x, q) && ConnString.Double(x, q)[|f|..] == ConnString.Double(x[|f|..], q)
  {
    hide ConnString.Double;
    var r := x[|f|..];
    assert x == f + r;
    DoubleAppend(f, r, q);
    DoubleNone(f, q);
  }

  lemma {:induction false} LowerDouble(s: string, q: char)
    requires q < 'A'
    ensures Lower(ConnString.Double(s, q)) == ConnString.Double(Lower(s), q)
    decreases |s|
  {
    if s != "" {
      LowerDouble(s[1..], q);
      assert Lower(s)[1..] == Lower(s[1..]);
      var d := ConnString.Double(s[1..], q);
      assert Lower((if s[0] == q then [q, q] else [s[0]]) + d) == (if s[0] == q then [q, q] else [LowerChar(s[0])]) + Lower(d);
    }
  }

  lemma {:induction false} StepInDouble(s: string, f: string, q: char)
    requires q < 'A' && q !in f && f != "" && s != ""
    ensures f <= Lower(ConnString.Double(s, q)) <==> f <= Lower(s)
    ensures f <= Lower(s) ==> ConnString.Double(s, q)[|f|..] == ConnString.Double(s[|f|..], q)
  {
    hide ConnString.Double;
    LowerDouble(s, q);
    if f <= ConnString.Double(Lower(s), q) {
      DoublePrefix(Lower(s), f, q);
    }
    if f <= Lower(s) {
      DoublePrefixes(Lower(s), f, q);
      assert q !in s[..|f|] by {
        assert forall i :: 0 <= i < |f| ==> LowerChar(s[i]) == f[i];
        assert forall i :: 0 <= i < |f| ==> f[i] in f;
      }
      DoublePrefixes(s, s[..|f|], q);
    }
  }

  lemma {:induction false} BehindDouble(s: string, f: string, q: char)
    requires q < 'A' && q !in f && f != ""
    ensures BehindOf(ConnString.Double(s, q), f) ==
            match BehindOf(s, f) case None => None case Some(x) => Some(ConnString.Double(x, q))
    decreases |s|
  {
    hide BehindOf, Lower;
    var d := ConnString.Double(s, q);
    if s == "" {
      BehindNone(f);
    } else {
      BehindStep(s, f);
      BehindStep(d, f);
      StepInDouble(s, f, q);
      BehindDouble(s[1..], f, q);
      if s[0] == q {
        assert d[1..] == [q] + ConnString.Double(s[1..], q);
        BehindStep(d[1..], f);
        assert d[1..][1..] == ConnString.Double(s[1..], q);
        QuoteFirst(d[1..], f, q);
      } else {
        assert d[1..] == ConnString.Double(s[1..], q);
      }
    }
  }

  lemma {:induction false} QuoteFirst(s: string, f: string, q: char)
    requires q < 'A' && q !in f && f != "" && s != "" && s[0] == q
    ensures !(f <= Lower(s))
  {
    assert Lower(s)[0] == q;
    assert f[0] in f;
  }

  lemma {:induction false} HostEndDouble(x: string, q: char)
    ensures HasHostEnd(ConnString.Double(x, q)) <==> HasHostEnd(x)
  {
    DoubleKeeps(x, q, '@');
    DoubleKeeps(x, q, '/');
  }

  /** Doubling quotes changes neither. */
  lemma {:induction false} SeenDouble(s: string)
    ensures MentionsConnSecret(ConnString.Double(s, '\'')) <==> MentionsConnSecret(s)
    ensures TruncatedInHost(ConnString.Double(s, '\'')) <==> TruncatedInHost(s)
  {
    hide BehindOf, HasHostEnd, TruncatedInHost, Contains, ConnString.Double, Lower;
    var d := ConnString.Double(s, '\'');
    BehindDouble(s, "password", '\'');
    BehindDouble(s, "postgres://", '\'');
    BehindDouble(s, "postgresql://", '\'');
    TruncatedIs(s);
    TruncatedIs(d);
    if BehindOf(s, "postgresql://").Some? {
      HostEndDouble(BehindOf(s, "postgresql://").value, '\'');
    }
    if BehindOf(s, "postgres://").Some? {
      HostEndDouble(BehindOf(s, "postgres://").value, '\'');
    }
  }
}
