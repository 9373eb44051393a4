/**
 The loops of pkg/connstring: scanning by index, collecting replacements, and printing. Each is
 proved to compute what `ConnString` says.
 */
module ConnStringScan {
  import opened Text
  import opened ConnString
  import opened Splicing
  import opened ConnStringPrint

  /** The place of one value, with its decoded form. */
  datatype Span = Span(start: nat, end: nat, decoded: string)

  // Values

  /** A value of which `n` characters, standing for `d`, have been read already. */
  function Extend(n: nat, d: string, r: Option<Value>): Option<Value> {
    match r
    case None => None
    case Some(v) => Some(Value(n + v.len, d + v.decoded))
  }

  lemma {:induction false} ExtendNone(n: nat, d: string, r: Option<Value>)
    ensures Extend(0, "", r) == r && Extend(n, d, Some(Value(0, ""))) == Some(Value(n, d))
  {
    assert d + "" == d && forall x: string :: "" + x == x;
  }

  lemma {:induction false} QuotedStep(s: string, i: nat, n: nat, d: string)
    requires i < |s|
    ensures var r := Extend(n, d, QuotedValue(s[i..]));
            if s[i] == '\\' then
              r == (if i + 1 == |s| then None else Extend(n + 2, d + [s[i + 1]], QuotedValue(s[i + 2..])))
            else if s[i] == '\'' then r == Some(Value(n + 1, d))
            else r == Extend(n + 1, d + [s[i]], QuotedValue(s[i + 1..]))
  {
    var rest := s[i..];
    assert rest[1..] == s[i + 1..];
    assert i + 1 < |s| ==> rest[2..] == s[i + 2..] && rest[1] == s[i + 1];
    assert d + "" == d;
    assert forall x: string, c: char :: d + ([c] + x) == (d + [c]) + x;
  }

  lemma {:induction false} BareStep(s: string, i: nat, n: nat, d: string)
    requires i < |s|
    ensures var r := Extend(n, d, Some(BareValue(s[i..])));
            if IsConnSpace(s[i]) then r == Some(Value(n, d))
            else if s[i] == '\\' then
              r == (if i + 1 == |s| then Some(Value(n + 1, d)) else Extend(n + 2, d + [s[i + 1]], Some(BareValue(s[i + 2..]))))
            else r == Extend(n + 1, d + [s[i]], Some(BareValue(s[i + 1..])))
  {
    var rest := s[i..];
    assert rest[1..] == s[i + 1..];
    assert i + 1 < |s| ==> rest[2..] == s[i + 2..] && rest[1] == s[i + 1];
    assert d + "" == d;
    assert forall x: string, c: char :: d + ([c] + x) == (d + [c]) + x;
  }

  method ScanQuoted(s: string, start: nat) returns (r: Option<Span>)
    requires start < |s| && s[start] == '\''
    ensures r == ValueSpan(s, start)
  {
    hide QuotedValue;
    var n, i, dec := |s|, start + 1, "";
    ghost var all := QuotedValue(s[i..]);
    assert s[start..][1..] == s[i..];
    ExtendNone(0, "", all);
    while true
      invariant start < i <= n
      invariant all == Extend(i - start - 1, dec, QuotedValue(s[i..]))
      decreases n - i
    {
      if i >= n {
        QuotedNone();
        assert s[i..] == "";
        return None;
      }
      QuotedStep(s, i, i - start - 1, dec);
      if s[i] == '\\' {
        i := i + 1;
        if i < n {
          dec := dec + [s[i]];
          i := i + 1;
        } else {
          QuotedNone();
          assert s[i..] == "";
        }
      } else if s[i] == '\'' {
        i := i + 1;
        return Some(Span(start, i, dec));
      } else {
        dec := dec + [s[i]];
        i := i + 1;
      }
    }
  }

  lemma {:induction false} QuotedNone()
    ensures QuotedValue("") == None
  {
  }

  /** Where the value that starts at `i` lies; None when its closing quote is missing. */
  function ValueSpan(s: string, i: nat): Option<Span>
    requires i <= |s|
  {
    match ScanValue(s[i..])
    case None => None
    case Some(v) => Some(Span(i, i + v.len, v.decoded))
  }

  method ScanKeywordValue(s: string, start: nat) returns (r: Option<Span>)
    requires start <= |s|
    ensures r == ValueSpan(s, start)
  {
    hide QuotedValue, BareValue;
    if start < |s| && s[start] == '\'' {
      r := ScanQuoted(s, start);
      return;
    }
    var n, i, dec := |s|, start, "";
    ghost var all := BareValue(s[start..]);
    BareNone();
    ExtendNone(0, "", Some(all));
    while i < n && !IsConnSpace(s[i])
      invariant start <= i <= n
      invariant Some(all) == Extend(i - start, dec, Some(BareValue(s[i..])))
    {
      BareStep(s, i, i - start, dec);
      if s[i] == '\\' {
        i := i + 1;
        if i >= n {
          break;
        }
      }
      dec := dec + [s[i]];
      i := i + 1;
    }
    if i < n {
      BareStep(s, i, i - start, dec);
    } else {
      assert s[i..] == "";
      ExtendNone(i - start, dec, None);
    }
    r := Some(Span(start, i, dec));
  }

  lemma {:induction false} BareNone()
    ensures BareValue("") == Value(0, "")
  {
  }

  // Keyword strings

  /** The redacted keyword string, or None for one that libpq rejects. */
  function Keywords(s: string): Option<string> {
    match Parse(s)
    case Malformed => None
    case Pairs(ps, trail) => Some(Render(ps) + trail)
  }

  /** What is left to read when the parameters `done` have been read. */
  function Resume(done: seq<Param>, r: Parsed): Parsed {
    match r
    case Malformed => Malformed
    case Pairs(ps, trail) => Pairs(done + ps, trail)
  }

  lemma {:induction false} ResumeNext(done: seq<Param>, s: string)
    ensures ParseOne(s) == Bad ==> Parse(s) == Malformed
    ensures ParseOne(s) == End ==> Parse(s) == Pairs([], s)
    ensures ParseOne(s).Got? ==> Resume(done, Parse(s)) == Resume(done + [ParseOne(s).param], Parse(ParseOne(s).rest))
  {
    hide ParseOne;
    assert forall p: Param, ps: seq<Param> :: done + ([p] + ps) == (done + [p]) + ps;
  }

  lemma {:induction false} RenderLast(ps: seq<Param>, p: Param)
    ensures Render(ps + [p]) == Render(ps) + (p.Head() + NewRaw(p))
    decreases |ps|
  {
    hide NewRaw, Param.Head;
    if ps == [] {
      assert ps + [p] == [p] && [p][1..] == [];
      assert p.Head() + NewRaw(p) + "" == p.Head() + NewRaw(p);
    } else {
      assert (ps + [p])[1..] == ps[1..] + [p] && (ps + [p])[0] == ps[0];
      RenderLast(ps[1..], p);
    }
  }

  method Skip(s: string, i: nat, p: char -> bool) returns (j: nat)
    requires i <= |s|
    ensures i <= j <= |s| && s[i..j] == TakeRun(p, s[i..]) && s[j..] == DropRun(p, s[i..])
  {
    j := i;
    while j < |s| && p(s[j])
      invariant i <= j <= |s|
      invariant forall k :: i <= k < j ==> p(s[k])
    {
      j := j + 1;
    }
    RunIs(p, s[i..], j - i);
  }

  /** The places of one parameter, or why there is none. */
  datatype Place = NoMore | Reject | Found(keyStart: nat, keyEnd: nat, value: Span)

  /** The places at `i` are those of the parameter read there. */
  predicate IsPlace(s: string, i: nat, at: Place)
    requires i <= |s|
  {
    match ParseOne(s[i..])
    case End => at == NoMore
    case Bad => at == Reject
    case Got(p, rest) =>
      && at.Found? && i <= at.keyStart <= at.keyEnd <= at.value.start <= at.value.end <= |s|
      && s[at.keyStart..at.keyEnd] == p.key && at.value.decoded == p.value
      && s[i..at.value.start] == p.Head() && s[at.value.start..at.value.end] == p.raw && s[at.value.end..] == rest
  }

  /** Finds the parameter that starts at `i`. */
  method ScanParam(s: string, start: nat) returns (at: Place)
    requires start <= |s|
    ensures IsPlace(s, start, at)
  {
    hide Run, TakeRun, DropRun, ScanValue, Param.Head;
    var n := |s|;
    var i := Skip(s, start, IsConnSpace);
    if i >= n {
      assert s[i..] == "";
      return NoMore;
    }
    var keyStart := i;
    i := Skip(s, i, IsKeyChar);
    var keyEnd := i;
    i := Skip(s, i, IsConnSpace);
    ghost var eq := i;
    if i >= n || s[i] != '=' {
      return Reject;
    }
    i := i + 1;
    assert s[eq..][1..] == s[i..];
    i := Skip(s, i, IsConnSpace);
    var val := ScanKeywordValue(s, i);
    if val.None? {
      return Reject;
    }
    at := Found(keyStart, keyEnd, val.value);
    PlaceFound(s, start, keyStart, keyEnd, eq, val.value);
  }

  lemma {:induction false} PlaceFound(s: string, start: nat, keyStart: nat, keyEnd: nat, eq: nat, v: Span)
    requires start <= keyStart <= keyEnd <= eq < v.start <= v.end <= |s| && keyStart < |s| && s[eq] == '='
    requires s[start..keyStart] == TakeRun(IsConnSpace, s[start..]) && s[keyStart..] == DropRun(IsConnSpace, s[start..])
    requires s[keyStart..keyEnd] == TakeRun(IsKeyChar, s[keyStart..]) && s[keyEnd..] == DropRun(IsKeyChar, s[keyStart..])
    requires s[keyEnd..eq] == TakeRun(IsConnSpace, s[keyEnd..]) && s[eq..] == DropRun(IsConnSpace, s[keyEnd..])
    requires s[eq + 1..v.start] == TakeRun(IsConnSpace, s[eq + 1..]) && s[v.start..] == DropRun(IsConnSpace, s[eq + 1..])
    requires Some(v) == ValueSpan(s, v.start)
    ensures IsPlace(s, start, Found(keyStart, keyEnd, v))
  {
    hide Run, TakeRun, DropRun, ValueSpan, ParseOne, IsPlace;
    var p := PlaceParam(s, start, keyStart, keyEnd, eq, v);
    HeadIn(s, start, keyStart, keyEnd, eq, v.start);
    PlaceIs(s, start, keyStart, keyEnd, v, p);
  }

  lemma {:induction false} PlaceParam(s: string, start: nat, keyStart: nat, keyEnd: nat, eq: nat, v: Span) returns (p: Param)
    requires start <= keyStart <= keyEnd <= eq < v.start <= v.end <= |s| && keyStart < |s| && s[eq] == '='
    requires s[start..keyStart] == TakeRun(IsConnSpace, s[start..]) && s[keyStart..] == DropRun(IsConnSpace, s[start..])
    requires s[keyStart..keyEnd] == TakeRun(IsKeyChar, s[keyStart..]) && s[keyEnd..] == DropRun(IsKeyChar, s[keyStart..])
    requires s[keyEnd..eq] == TakeRun(IsConnSpace, s[keyEnd..]) && s[eq..] == DropRun(IsConnSpace, s[keyEnd..])
    requires s[eq + 1..v.start] == TakeRun(IsConnSpace, s[eq + 1..]) && s[v.start..] == DropRun(IsConnSpace, s[eq + 1..])
    requires Some(v) == ValueSpan(s, v.start)
    ensures p == Param(s[start..keyStart], s[keyStart..keyEnd], s[keyEnd..eq], s[eq + 1..v.start], s[v.start..v.end], v.decoded)
    ensures ParseOne(s[start..]) == Got(p, s[v.end..])
  {
    hide Run, TakeRun, DropRun, ScanValue, ParseOne, ValueSpan, IsKeyChar, IsConnSpace;
    CutBehind(s, eq);
    SomeText(s, keyStart);
    SpanRead(s, v);
    PlaceParsed(s[start..], s[keyStart..], s[keyEnd..], s[eq..], s[eq + 1..], s[v.start..], s[v.start..v.end], s[v.end..], v.decoded);
    p := ParseOne(s[start..]).param;
  }

  lemma {:induction false} SomeText(s: string, i: nat)
    requires i < |s|
    ensures s[i..] != ""
  {
  }

  lemma {:induction false} CutBehind(s: string, eq: nat)
    requires eq < |s|
    ensures s[eq..] != "" && s[eq..][0] == s[eq] && s[eq..][1..] == s[eq + 1..]
  {
  }

  lemma {:induction false} SpanRead(s: string, v: Span)
    requires v.start <= v.end <= |s| && Some(v) == ValueSpan(s, v.start)
    ensures var x := s[v.start..]; var a := s[v.start..v.end];
            ScanValue(x) == Some(Value(|a|, v.decoded)) && |a| <= |x| && x[..|a|] == a && x[|a|..] == s[v.end..]
  {
    hide ScanValue;
  }

  lemma {:induction false} PlaceIs(s: string, start: nat, keyStart: nat, keyEnd: nat, v: Span, p: Param)
    requires start <= keyStart <= keyEnd <= v.start <= v.end <= |s| && ParseOne(s[start..]) == Got(p, s[v.end..])
    requires s[keyStart..keyEnd] == p.key && v.decoded == p.value && s[start..v.start] == p.lead + p.key + p.pre + "=" + p.post
    requires s[v.start..v.end] == p.raw
    ensures IsPlace(s, start, Found(keyStart, keyEnd, v))
  {
    hide ParseOne;
  }

  /** The first parameter, from the texts behind each of its parts. */
  lemma {:induction false} PlaceParsed(x: string, s1: string, s2: string, s3: string, s3': string, s4: string, raw: string, rest: string, d: string)
    requires s1 == DropRun(IsConnSpace, x) && s1 != "" && s2 == DropRun(IsKeyChar, s1) && s3 == DropRun(IsConnSpace, s2)
    requires s3 != "" && s3[0] == '=' && s3[1..] == s3' && s4 == DropRun(IsConnSpace, s3')
    requires ScanValue(s4) == Some(Value(|raw|, d)) && |raw| <= |s4| && s4[..|raw|] == raw && s4[|raw|..] == rest
    ensures ParseOne(x) == Got(Param(TakeRun(IsConnSpace, x), TakeRun(IsKeyChar, s1), TakeRun(IsConnSpace, s2),
                                     TakeRun(IsConnSpace, s3'), raw, d), rest)
  {
    hide Run, TakeRun, DropRun, ScanValue;
  }

  lemma {:induction false} HeadIn(s: string, a: nat, b: nat, c: nat, eq: nat, d: nat)
    requires a <= b <= c <= eq < d <= |s| && s[eq] == '='
    ensures s[a..b] + s[b..c] + s[c..eq] + "=" + s[eq + 1..d] == s[a..d]
  {
    assert s[a..b] + s[b..c] == s[a..c];
    assert s[a..c] + s[c..eq] == s[a..eq];
    assert s[a..eq] + "=" == s[a..eq + 1];
  }

  /** The parameters read so far are `done`, and `reps` rewrites them. */
  ghost predicate Scanned(s: string, i: nat, reps: seq<Replacement>, done: seq<Param>) {
    && i <= |s| && InOrder(reps, 0, i) && Spliced(s, reps, 0, i) == Render(done)
    && Parse(s) == Resume(done, Parse(s[i..]))
  }

  lemma {:induction false} ScannedNext(s: string, i: nat, reps: seq<Replacement>, done: seq<Param>, at: Place, now: seq<Replacement>)
    requires Scanned(s, i, reps, done) && at.Found? && IsPlace(s, i, at)
    requires var p := ParseOne(s[i..]).param;
             if NewRaw(p) == p.raw then now == reps || now == reps + [Replacement(at.value.start, at.value.end, p.raw)]
             else now == reps + [Replacement(at.value.start, at.value.end, NewRaw(p))]
    ensures Scanned(s, at.value.end, now, done + [ParseOne(s[i..]).param])
  {
    hide ParseOne, NewRaw, Parse, Render, Spliced, InOrder;
    var p, v := ParseOne(s[i..]).param, at.value;
    RenderLast(done, p);
    ResumeNext(done, s[i..]);
    SplicedLonger(s, reps, 0, i, v.start);
    if now == reps {
      SplicedLonger(s, reps, 0, v.start, v.end);
    } else {
      SplicedLast(s, reps, 0, Replacement(v.start, v.end, NewRaw(p)));
    }
    var done' := Render(done);
    assert done' + p.Head() + NewRaw(p) == done' + (p.Head() + NewRaw(p));
  }

  lemma {:induction false} ScannedAll(s: string, i: nat, reps: seq<Replacement>, done: seq<Param>)
    requires Scanned(s, i, reps, done) && ParseOne(s[i..]) == End
    ensures InOrder(reps, 0, |s|) && Keywords(s) == Some(Spliced(s, reps, 0, |s|))
  {
    hide ParseOne, Render, Spliced, InOrder, Parse;
    ResumeNext(done, s[i..]);
    assert done + [] == done;
    assert s[i..|s|] == s[i..];
    SplicedLonger(s, reps, 0, i, |s|);
  }

  lemma {:induction false} ScannedBad(s: string, i: nat, reps: seq<Replacement>, done: seq<Param>)
    requires Scanned(s, i, reps, done) && ParseOne(s[i..]) == Bad
    ensures Keywords(s) == None
  {
    hide ParseOne, Render, Spliced, InOrder;
    ResumeNext(done, s[i..]);
  }

  lemma {:induction false} ScannedStart(s: string)
    ensures Scanned(s, 0, [], [])
  {
    hide Parse;
    assert s[0..] == s && s[0..0] == "";
    assert forall ps: seq<Param> :: [] + ps == ps;
  }

  /** The replacement for the value of one parameter. */
  method Replace(s: string, at: Place, reps: seq<Replacement>, ghost p: Param) returns (now: seq<Replacement>)
    requires at.Found? && at.keyStart <= at.keyEnd <= |s| && s[at.keyStart..at.keyEnd] == p.key && at.value.decoded == p.value
    requires |p.value| < |s|
    ensures if NewRaw(p) == p.raw then now == reps || now == reps + [Replacement(at.value.start, at.value.end, p.raw)]
            else now == reps + [Replacement(at.value.start, at.value.end, NewRaw(p))]
    decreases |s|, 0
  {
    hide RedactPasswords, EscapeValue, LooksLikeConnString, IsPasswordKey, EqualFold;
    now := reps;
    var key, val := s[at.keyStart..at.keyEnd], at.value;
    if IsPasswordKey(key) {
      now := reps + [Replacement(val.start, val.end, STARS)];
    } else if EqualFold(key, "dbname") && LooksLikeConnString(val.decoded) {
      var inner := Redact(val.decoded);
      if inner != val.decoded {
        now := reps + [Replacement(val.start, val.end, "'" + EscapeValue(inner) + "'")];
      }
    }
  }

  method RedactKeywordValue(s: string) returns (out: Option<string>)
    ensures out == Keywords(s)
    decreases |s|, 1
  {
    hide Parse, Render, Spliced, InOrder, NewRaw, Scanned, Keywords;
    var reps, i := [], 0;
    ghost var done := [];
    ScannedStart(s);
    while true
      invariant 0 <= i <= |s| && Scanned(s, i, reps, done)
      decreases |s| - i
    {
      var at := ScanParam(s, i);
      if at == NoMore {
        break;
      }
      if at == Reject {
        ScannedBad(s, i, reps, done);
        return None;
      }
      ghost var p := ParseOne(s[i..]).param;
      var now := Replace(s, at, reps, p);
      ScannedNext(s, i, reps, done, at, now);
      done, reps, i := done + [p], now, at.value.end;
    }
    ScannedAll(s, i, reps, done);
    var text := MakeReplacements(s, reps);
    out := Some(text);
  }

  method MakeReplacements(s: string, reps: seq<Replacement>) returns (out: string)
    requires InOrder(reps, 0, |s|)
    ensures out == Spliced(s, reps, 0, |s|)
  {
    if reps == [] {
      return s;
    }
    var last := 0;
    out := "";
    for j := 0 to |reps|
      invariant 0 <= last && InOrder(reps[j..], last, |s|) && last <= |s|
      invariant out + Spliced(s, reps[j..], last, |s|) == Spliced(s, reps, 0, |s|)
    {
      var r := reps[j];
      assert reps[j..][1..] == reps[j + 1..];
      InOrderEnd(reps[j + 1..], r.end, |s|);
      out := out + s[last..r.start] + r.with;
      last := r.end;
    }
    out := out + s[last..];
  }

  method Redact(s: string) returns (out: string)
    ensures out == RedactPasswords(s)
    decreases |s|, 2
  {
    if HasUriPrefix(s) {
      out := RedactUriIn(s);
    } else {
      var r := RedactKeywordValue(s);
      out := if r.None? then STARS else r.value;
    }
  }

  // URIs

  lemma {:induction false} QueryStep(s: string, i: nat, inBrackets: bool)
    requires i < |s|
    ensures if s[i] == '?' && !inBrackets then QueryStart(s[i..], inBrackets) == 0
            else var q := QueryStart(s[i + 1..], s[i] == '[' || (inBrackets && s[i] != ']'));
              QueryStart(s[i..], inBrackets) == if q < 0 then -1 else q + 1
  {
    assert s[i..][1..] == s[i + 1..];
  }

  method FindQuery(s: string) returns (q: int)
    ensures q == QueryStart(s, false)
  {
    hide QueryStart;
    var inBrackets := false;
    assert s[0..] == s;
    for i := 0 to |s|
      invariant var r := QueryStart(s[i..], inBrackets);
                QueryStart(s, false) == if r < 0 then -1 else i + r
    {
      QueryStep(s, i, inBrackets);
      match s[i] {
        case '[' => inBrackets := true;
        case ']' => inBrackets := false;
        case '?' =>
          if !inBrackets {
            return i;
          }
        case _ =>
      }
    }
    assert s[|s|..] == "";
    q := -1;
  }

  method RedactUriIn(s: string) returns (out: string)
    requires HasUriPrefix(s)
    ensures out == RedactUri(s)
  {
    hide QueryStart, Run, RedactUserInfo, SplitAmp, JoinAmp, RedactParam;
    var prefixLen := UriPrefixLen(s);
    var rest := s[prefixLen..];
    out := s[..prefixLen];
    var at := Run(NotUserEnd, rest);
    ghost var hosts := rest;
    if at < |rest| && rest[at] == '@' {
      var user := rest[..at];
      out := out + RedactUserInfo(user) + "@";
      rest := rest[at + 1..];
      assert s[..prefixLen] + (RedactUserInfo(user) + "@" + RedactHosts(rest)) == out + RedactHosts(rest);
    }
    assert out + RedactHosts(rest) == RedactUri(s);
    var q := FindQuery(rest);
    if q < 0 {
      return out + rest;
    }
    out := out + rest[..q + 1];
    var params := SplitAmp(rest[q + 1..]);
    ghost var was := params;
    for i := 0 to |params|
      invariant |params| == |was|
      invariant forall k :: 0 <= k < i ==> params[k] == RedactParam(was[k])
      invariant forall k :: i <= k < |was| ==> params[k] == was[k]
    {
      var param := RedactOne(params[i]);
      params := params[i := param];
    }
    assert params == RedactAll(was);
    out := out + JoinAmp(params);
  }

  method RedactOne(param: string) returns (out: string)
    ensures out == RedactParam(param)
  {
    hide FindFrom, PathUnescape, IsPasswordKey;
    var eq := Find(param, "=");
    if eq < 0 {
      return param;
    }
    var key := param[..eq];
    var decoded := PathUnescape(key);
    if decoded.Some? {
      key := decoded.value;
    }
    out := if IsPasswordKey(key) then param[..eq + 1] + STARS else param;
  }

  // Printing

  /** The parameters, in the order of their keys in `order`. */
  function PairsIn(params: map<string, string>, order: seq<string>): (pairs: seq<(string, string)>)
    requires forall k :: k in order ==> k in params
    ensures |pairs| == |order|
  {
    seq(|order|, i requires 0 <= i < |order| => (order[i], params[order[i]]))
  }

  function PrintParts(pairs: seq<(string, string)>): seq<string> {
    seq(|pairs|, i requires 0 <= i < |pairs| => PrintPair(pairs[i]))
  }

  lemma {:induction false} JoinPrints(pairs: seq<(string, string)>)
    ensures JoinSpace(PrintParts(pairs)) == Print(pairs)
    decreases |pairs|
  {
    hide PrintPair;
    if |pairs| > 1 {
      assert PrintParts(pairs)[1..] == PrintParts(pairs[1..]);
      JoinPrints(pairs[1..]);
    }
  }

  /** The keys of the parameters, each once, in some order. */
  ghost predicate VisitsAll(params: map<string, string>, order: seq<string>) {
    && (forall k :: k in order <==> k in params)
    && (forall i, j :: 0 <= i < j < |order| ==> order[i] != order[j])
  }

  /** `out` prints the parameters in the given order, and reads back as what was printed if and only if
      no value has a single quote. */
  ghost predicate Prints(params: map<string, string>, order: seq<string>, out: string) {
    VisitsAll(params, order) &&
    var pairs := PairsIn(params, order);
    out == Print(pairs) && (KeysPlain(pairs) ==> (ReadsBack(out, pairs) <==> NoQuotes(pairs)))
  }

  /** Prints the parameters in whatever order the map is visited; with keys the tokenizer can read, the
      result reads back as exactly those parameters if and only if no value has a single quote. */
  method Build(params: map<string, string>) returns (out: string)
    ensures exists order :: Prints(params, order, out)
  {
    hide PrintPair, ReadsBack, Print, JoinSpace, KeysPlain, NoQuotes;
    var parts, todo := [], params.Keys;
    ghost var order := [];
    while todo != {}
      invariant todo <= params.Keys
      invariant forall k :: k in order <==> k in params && k !in todo
      invariant forall i, j :: 0 <= i < j < |order| ==> order[i] != order[j]
      invariant parts == PrintParts(PairsIn(params, order))
      decreases |todo|
    {
      var key :| key in todo;
      parts := parts + [key + "='" + EscapeValue(params[key]) + "'"];
      order := order + [key];
      PartOf(key, params[key]);
      todo := todo - {key};
    }
    JoinPrints(PairsIn(params, order));
    out := JoinSpace(parts);
    if KeysPlain(PairsIn(params, order)) {
      BuildRoundTrip(PairsIn(params, order));
    }
    assert Prints(params, order, out);
  }

  lemma {:induction false} PartOf(key: string, value: string)
    ensures PrintPair((key, value)) == key + "='" + EscapeValue(value) + "'"
  {
  }
}
