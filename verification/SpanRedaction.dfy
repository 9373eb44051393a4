/**
 The literal pass of pkg/redact/provider.go: secrets are found in a message, in spite of control and
 formatting characters, and each covered stretch is replaced by one marker.

 A string is a sequence of code points here. Which of them are formatting characters is a
 parameter, `fmt`.
 */
module SpanRedaction {
  import opened Text

  const MARKER := "[REDACTED]"

  const MIN_LEN := 4

  datatype Span = Span(start: nat, end: nat)

  // Deleting characters

  function Delete(fmt: char -> bool, s: string): string {
    if s == "" then "" else Delete(fmt, s[..|s| - 1]) + (if fmt(s[|s| - 1]) then "" else [s[|s| - 1]])
  }

  /** The positions before `n` of the characters that are not deleted. */
  function Kept(fmt: char -> bool, s: string, n: nat): (ks: seq<nat>)
    requires n <= |s|
    ensures forall q :: 0 <= q < |ks| ==> ks[q] < n && !fmt(s[ks[q]])
    ensures forall p, q :: 0 <= p < q < |ks| ==> ks[p] < ks[q]
  {
    if n == 0 then [] else Kept(fmt, s, n - 1) + (if fmt(s[n - 1]) then [] else [n - 1])
  }

  /** The deleted text, character by character. */
  lemma {:induction false} DeletedAt(fmt: char -> bool, s: string, n: nat)
    requires n <= |s|
    ensures |Delete(fmt, s[..n])| == |Kept(fmt, s, n)|
    ensures forall q :: 0 <= q < |Kept(fmt, s, n)| ==> Delete(fmt, s[..n])[q] == s[Kept(fmt, s, n)[q]]
  {
    if n > 0 {
      assert s[..n][..n - 1] == s[..n - 1];
      DeletedAt(fmt, s, n - 1);
    }
  }

  /** A kept character comes after those kept before it. */
  lemma {:induction false} KeptAt(fmt: char -> bool, s: string, j: nat, n: nat)
    requires j < n <= |s| && !fmt(s[j])
    ensures |Kept(fmt, s, j)| < |Kept(fmt, s, n)| && Kept(fmt, s, n)[|Kept(fmt, s, j)|] == j
    decreases n
  {
    if j < n - 1 {
      KeptAt(fmt, s, j, n - 1);
    }
  }

  lemma {:induction false} DeleteAppend(fmt: char -> bool, a: string, b: string)
    ensures Delete(fmt, a + b) == Delete(fmt, a) + Delete(fmt, b)
    decreases |b|
  {
    if b == "" {
      assert a + b == a;
    } else {
      var n := |b| - 1;
      assert (a + b)[..|a + b| - 1] == a + b[..n];
      DeleteAppend(fmt, a, b[..n]);
    }
  }

  lemma {:induction false} DeleteNone(fmt: char -> bool, s: string)
    requires forall i :: 0 <= i < |s| ==> !fmt(s[i])
    ensures Delete(fmt, s) == s
    decreases |s|
  {
    if s != "" {
      DeleteNone(fmt, s[..|s| - 1]);
    }
  }

  // Masking

  /** Some span covers position `j`. */
  predicate Covers(spans: seq<Span>, j: nat) {
    exists k :: 0 <= k < |spans| && spans[k].start <= j < spans[k].end
  }

  /** The positions before `n` that are covered. */
  ghost function Covered(spans: seq<Span>, n: nat): set<nat> {
    set j: nat | j < n && Covers(spans, j)
  }

  /** What stands in the masked text for position `j`: its character, or one marker where a covered
      stretch begins. */
  ghost function Emit(s: string, hidden: set<nat>, j: nat): string
    requires j < |s|
  {
    if j !in hidden then [s[j]] else if j > 0 && j - 1 in hidden then "" else MARKER
  }

  ghost function Masked(s: string, hidden: set<nat>, j: nat): string
    requires j <= |s|
    decreases |s| - j
  {
    if j == |s| then "" else Emit(s, hidden, j) + Masked(s, hidden, j + 1)
  }

  lemma {:induction false} MaskedKeeps(s: string, hidden: set<nat>, i: nat, j: nat)
    requires i <= j <= |s| && forall k :: i <= k < j ==> k !in hidden
    ensures Masked(s, hidden, i) == s[i..j] + Masked(s, hidden, j)
    decreases j - i
  {
    hide MARKER;
    if i == j {
      assert s[i..j] == "";
    } else {
      MaskedKeeps(s, hidden, i + 1, j);
      assert Emit(s, hidden, i) == [s[i]];
      FirstOff(s, i, j, Masked(s, hidden, j));
    }
  }

  lemma {:induction false} FirstOff(s: string, i: nat, j: nat, r: string)
    requires i < j <= |s|
    ensures [s[i]] + (s[i + 1..j] + r) == s[i..j] + r
  {
    assert s[i..j] == [s[i]] + s[i + 1..j];
  }

  lemma {:induction false} MaskedSkips(s: string, hidden: set<nat>, i: nat, j: nat)
    requires 0 < i <= j <= |s| && forall k :: i - 1 <= k < j ==> k in hidden
    ensures Masked(s, hidden, i) == Masked(s, hidden, j)
    decreases j - i
  {
    if i < j {
      MaskedSkips(s, hidden, i + 1, j);
    }
  }

  /** A covered stretch is one marker. */
  lemma {:induction false} MaskedRun(s: string, hidden: set<nat>, i: nat, j: nat)
    requires i < j <= |s| && (i > 0 ==> i - 1 !in hidden) && forall k :: i <= k < j ==> k in hidden
    ensures Masked(s, hidden, i) == MARKER + Masked(s, hidden, j)
  {
    hide MARKER;
    MaskedSkips(s, hidden, i + 1, j);
  }

  // Replacing spans

  predicate Ascending(spans: seq<Span>) {
    forall i, j :: 0 <= i < j < |spans| ==> spans[i].start <= spans[j].start
  }

  predicate InBounds(spans: seq<Span>, n: nat) {
    forall k :: 0 <= k < |spans| ==> spans[k].start < spans[k].end <= n
  }

  /** Sorts by start; spans with the same start end up in any order. */
  method SortByStart(spans: seq<Span>) returns (sorted: seq<Span>)
    ensures Ascending(sorted) && multiset(sorted) == multiset(spans)
  {
    hide Ascending;
    sorted := [];
    NoneAscending();
    for i := 0 to |spans|
      invariant Ascending(sorted) && multiset(sorted) == multiset(spans[..i])
    {
      sorted := InsertSpan(sorted, spans[i]);
      NextSpan(spans, i);
    }
    assert spans[..|spans|] == spans;
  }

  method InsertSpan(sorted: seq<Span>, x: Span) returns (r: seq<Span>)
    requires Ascending(sorted)
    ensures Ascending(r) && multiset(r) == multiset(sorted) + multiset{x}
  {
    hide Ascending;
    var k := |sorted|;
    while k > 0 && sorted[k - 1].start > x.start
      invariant 0 <= k <= |sorted|
      invariant forall j :: k <= j < |sorted| ==> x.start < sorted[j].start
    {
      k := k - 1;
    }
    Inserted(sorted, k, x);
    r := sorted[..k] + [x] + sorted[k..];
  }

  lemma {:induction false} NoneAscending()
    ensures Ascending([])
  {
  }

  lemma {:induction false} NextSpan(spans: seq<Span>, i: nat)
    requires i < |spans|
    ensures multiset(spans[..i + 1]) == multiset(spans[..i]) + multiset{spans[i]}
  {
    assert spans[..i + 1] == spans[..i] + [spans[i]];
  }

  lemma {:induction false} Inserted(sorted: seq<Span>, k: nat, x: Span)
    requires k <= |sorted| && Ascending(sorted)
    requires k > 0 ==> sorted[k - 1].start <= x.start
    requires forall j :: k <= j < |sorted| ==> x.start < sorted[j].start
    ensures Ascending(sorted[..k] + [x] + sorted[k..])
    ensures multiset(sorted[..k] + [x] + sorted[k..]) == multiset(sorted) + multiset{x}
  {
    hide Ascending;
    assert sorted == sorted[..k] + sorted[k..];
    InsertedAscends(sorted[..k], x, sorted[k..]);
    InsertedCount(sorted[..k], x, sorted[k..]);
  }

  lemma {:induction false} InsertedCount(a: seq<Span>, x: Span, b: seq<Span>)
    ensures multiset(a + [x] + b) == multiset(a + b) + multiset{x}
  {
  }

  lemma {:induction false} InsertedAscends(a: seq<Span>, x: Span, b: seq<Span>)
    requires Ascending(a + b) && (a != [] ==> a[|a| - 1].start <= x.start) && forall j :: 0 <= j < |b| ==> x.start < b[j].start
    ensures Ascending(a + [x] + b)
  {
    var s, t := a + [x] + b, a + b;
    forall i, j | 0 <= i < j < |s| ensures s[i].start <= s[j].start {
      var i', j' := if i < |a| then i else i - 1, if j < |a| then j else j - 1;
      assert i < |a| ==> s[i] == t[i] == a[i];
      assert i > |a| ==> s[i] == t[i - 1];
      assert j < |a| ==> s[j] == t[j];
      assert j > |a| ==> s[j] == t[j - 1] == b[j - |a| - 1];
      if j == |a| {
        assert i < |a| - 1 ==> t[i].start <= t[|a| - 1].start;
      } else if i != |a| && i' < j' {
        assert t[i'].start <= t[j'].start;
      }
    }
  }

  lemma {:induction false} SameCover(a: seq<Span>, b: seq<Span>, n: nat)
    requires forall x :: x in a <==> x in b
    ensures Covered(a, n) == Covered(b, n)
  {
    forall j: nat | j in Covered(a, n) ensures j in Covered(b, n) {
      var k :| 0 <= k < |a| && a[k].start <= j < a[k].end;
      assert a[k] in b;
    }
    forall j: nat | j in Covered(b, n) ensures j in Covered(a, n) {
      var k :| 0 <= k < |b| && b[k].start <= j < b[k].end;
      assert b[k] in a;
    }
  }

  /** The spans before `i` reach no further than `end`, and the others start behind it. */
  ghost predicate SplitAt(spans: seq<Span>, i: nat, end: nat) {
    && i <= |spans| && (forall k :: 0 <= k < i ==> spans[k].end <= end)
    && (forall k :: i <= k < |spans| ==> spans[k].start > end || (end == 0 && i == 0))
  }

  /** Replaces sorted spans in one sweep: whatever order the spans came in, each covered stretch
      becomes one marker and the rest of the text is kept. */
  method Sweep(s: string, spans: seq<Span>) returns (out: string)
    requires Ascending(spans) && InBounds(spans, |s|)
    ensures out == Masked(s, Covered(spans, |s|), 0)
  {
    hide Masked, Covered, MARKER;
    ghost var hidden := Covered(spans, |s|);
    out := "";
    var pos, i := 0, 0;
    while i < |spans|
      invariant 0 <= i <= |spans| && 0 <= pos <= |s| && SplitAt(spans, i, pos)
      invariant out + Masked(s, hidden, pos) == Masked(s, hidden, 0)
      decreases |spans| - i
    {
      var start, end := spans[i].start, spans[i].end;
      ghost var first := i;
      i := i + 1;
      while i < |spans| && spans[i].start <= end
        invariant first < i <= |spans| && start < end <= |s|
        invariant forall k :: first <= k < i ==> spans[k].end <= end
        invariant InCover(spans, start, end)
        decreases |spans| - i
      {
        Joins(spans, start, end, i);
        end := if end < spans[i].end then spans[i].end else end;
        i := i + 1;
      }
      GapOpen(spans, |s|, first, pos, start);
      RunClosed(spans, |s|, i, start, end);
      MaskedKeeps(s, hidden, pos, start);
      MaskedRun(s, hidden, start, end);
      Appended(out, s[pos..start], MARKER, Masked(s, hidden, end));
      out := out + s[pos..start] + MARKER;
      pos := end;
    }
    GapOpen(spans, |s|, i, pos, |s|);
    MaskedKeeps(s, hidden, pos, |s|);
    MaskedEnd(s, hidden);
    assert s[pos..|s|] == s[pos..];
    out := out + s[pos..];
  }

  lemma {:induction false} MaskedEnd(s: string, hidden: set<nat>)
    ensures Masked(s, hidden, |s|) == ""
  {
  }

  lemma {:induction false} Appended(out: string, a: string, b: string, r: string)
    ensures out + (a + (b + r)) == (out + a + b) + r
  {
  }

  /** Every position of the stretch is covered. */
  ghost predicate InCover(spans: seq<Span>, start: nat, end: nat) {
    forall j: nat :: start <= j < end ==> Covers(spans, j)
  }

  lemma {:induction false} Joins(spans: seq<Span>, start: nat, end: nat, i: nat)
    requires i < |spans| && InCover(spans, start, end) && spans[i].start <= end
    ensures InCover(spans, start, if end < spans[i].end then spans[i].end else end)
  {
  }

  lemma {:induction false} GapOpen(spans: seq<Span>, n: nat, i: nat, pos: nat, start: nat)
    requires Ascending(spans) && SplitAt(spans, i, pos) && start <= n && (i < |spans| ==> start == spans[i].start)
    ensures forall j :: pos <= j < start ==> j !in Covered(spans, n)
    ensures i < |spans| ==> pos <= start
    ensures i > 0 || pos > 0 ==> (i < |spans| ==> pos < start)
  {
  }

  lemma {:induction false} RunClosed(spans: seq<Span>, n: nat, i: nat, start: nat, end: nat)
    requires Ascending(spans) && InCover(spans, start, end) && start < end <= n && i <= |spans|
    requires forall k :: 0 <= k < i ==> spans[k].end <= end
    requires i < |spans| ==> spans[i].start > end
    ensures SplitAt(spans, i, end)
    ensures forall j :: start <= j < end ==> j in Covered(spans, n)
  {
  }

  /** The result depends on nothing but the set of positions that the spans cover. */
  method ReplaceSpans(s: string, spans: seq<Span>) returns (out: string)
    requires InBounds(spans, |s|)
    ensures out == Masked(s, Covered(spans, |s|), 0)
  {
    hide Masked, Covered;
    var sorted := SortByStart(spans);
    SameElements(spans, sorted);
    SameCover(spans, sorted, |s|);
    assert forall k :: 0 <= k < |sorted| ==> sorted[k] in spans;
    out := Sweep(s, sorted);
  }

  lemma {:induction false} SameElements(a: seq<Span>, b: seq<Span>)
    requires multiset(a) == multiset(b)
    ensures forall x :: x in a <==> x in b
  {
    assert forall x :: x in a <==> x in multiset(a);
    assert forall x :: x in b <==> x in multiset(b);
  }

  // Matching

  /** The spans of all occurrences of `sub`, overlapping ones included, from left to right. */
  method MatchSpans(s: string, sub: string) returns (spans: seq<Span>)
    ensures forall k :: 0 <= k < |spans| ==> At(s, sub, spans[k].start) && spans[k].end == spans[k].start + |sub|
    ensures forall i: nat :: At(s, sub, i) && i < |s| ==> Span(i, i + |sub|) in spans
    ensures forall j, k :: 0 <= j < k < |spans| ==> spans[j].start < spans[k].start
  {
    hide FindFrom;
    spans := [];
    var start := 0;
    while start < |s|
      invariant 0 <= start <= |s|
      invariant forall k :: 0 <= k < |spans| ==> At(s, sub, spans[k].start) && spans[k].end == spans[k].start + |sub|
      invariant forall k :: 0 <= k < |spans| ==> spans[k].start < start
      invariant forall j, k :: 0 <= j < k < |spans| ==> spans[j].start < spans[k].start
      invariant forall i: nat :: At(s, sub, i) && i < start ==> Span(i, i + |sub|) in spans
    {
      var i := Find(s[start..], sub);
      OccursFrom(s, sub, start);
      assert sub == "" ==> At(s, sub, start);
      if i < 0 {
        break;
      }
      start := start + i;
      spans := spans + [Span(start, start + |sub|)];
      start := start + 1;
    }
  }

  // The literal pass

  function RuneLen(c: char): nat {
    if c as int < 0x80 then 1 else if c as int < 0x800 then 2 else if c as int < 0x10000 then 3 else 4
  }

  /** The length of the text in UTF-8. */
  function ByteLen(s: string): nat {
    if s == "" then 0 else RuneLen(s[0]) + ByteLen(s[1..])
  }

  /** The secret is looked for without its formatting characters. */
  predicate UsesForm(fmt: char -> bool, secret: string) {
    var form := Delete(fmt, secret);
    form != "" && (ByteLen(form) >= MIN_LEN || form == secret)
  }

  /** The bytes of a character in UTF-8. */
  function Utf8(c: char): seq<int> {
    var x := c as int;
    if x < 128 then [x]
    else if x < 2048 then [192 + x / 64, 128 + x % 64]
    else if x < 65536 then [224 + x / 4096, 128 + x / 64 % 64, 128 + x % 64]
    else [240 + x / 262144, 128 + x / 4096 % 64, 128 + x / 64 % 64, 128 + x % 64]
  }

  function Encoded(s: string): seq<int> {
    if s == "" then [] else Utf8(s[0]) + Encoded(s[1..])
  }

  lemma {:induction false} EncodedLen(s: string)
    ensures ByteLen(s) == |Encoded(s)|
  {
    if s != "" {
      EncodedLen(s[1..]);
    }
  }

  /** Formatting characters of a secret are passed over if there are others, which take at least four bytes or are
      all it has. */
  lemma {:induction false} FormExactly(fmt: char -> bool, secret: string)
    ensures UsesForm(fmt, secret) <==>
            && (exists i :: 0 <= i < |secret| && !fmt(secret[i]))
            && ((forall i :: 0 <= i < |secret| ==> !fmt(secret[i])) || |Encoded(Delete(fmt, secret))| >= 4)
  {
    hide Delete, Kept, ByteLen, Encoded;
    EncodedLen(Delete(fmt, secret));
    DeletedShorter(fmt, secret);
    if forall i :: 0 <= i < |secret| ==> !fmt(secret[i]) {
      DeleteNone(fmt, secret);
    }
  }

  lemma {:induction false} DeletedShorter(fmt: char -> bool, s: string)
    ensures Delete(fmt, s) != "" <==> exists i :: 0 <= i < |s| && !fmt(s[i])
    ensures |Delete(fmt, s)| <= |s| && ((exists i :: 0 <= i < |s| && fmt(s[i])) ==> |Delete(fmt, s)| < |s|)
    decreases |s|
  {
    if s != "" {
      var n := |s| - 1;
      DeletedShorter(fmt, s[..n]);
      assert forall i :: 0 <= i < n ==> s[..n][i] == s[i];
    }
  }

  /** Position `j` of the message lies in the occurrence of `form` at `k` in the deleted text, whose
      characters were at the positions `kept`. */
  predicate InForm(kept: seq<nat>, form: string, k: nat, j: nat) {
    form != "" && k + |form| <= |kept| && kept[k] <= j <= kept[k + |form| - 1]
  }

  ghost predicate FormHits(deleted: string, kept: seq<nat>, form: string, j: nat) {
    exists k: nat :: At(deleted, form, k) && InForm(kept, form, k, j)
  }

  ghost predicate VerbatimHits(msg: string, secret: string, j: nat) {
    secret != "" && exists k: nat :: At(msg, secret, k) && k <= j < k + |secret|
  }

  /** Position `j` lies in an occurrence of the secret, in the form in which it is looked for. */
  ghost predicate Hits(fmt: char -> bool, msg: string, secret: string, j: nat) {
    if UsesForm(fmt, secret) then FormHits(Delete(fmt, msg), Kept(fmt, msg, |msg|), Delete(fmt, secret), j)
    else VerbatimHits(msg, secret, j)
  }

  ghost predicate Hit(fmt: char -> bool, msg: string, secrets: seq<string>, j: nat) {
    exists i :: 0 <= i < |secrets| && Hits(fmt, msg, secrets[i], j)
  }

  ghost function Hidden(fmt: char -> bool, msg: string, secrets: seq<string>): set<nat> {
    set j: nat | j < |msg| && Hit(fmt, msg, secrets, j)
  }

  /** What stands in the result for position `j`: a character that is neither hidden nor deleted, or a
      marker where a hidden stretch begins. */
  ghost function Shown(fmt: char -> bool, s: string, hidden: set<nat>, j: nat): string
    requires j < |s|
  {
    if j in hidden then (if j > 0 && j - 1 in hidden then "" else MARKER)
    else if fmt(s[j]) then "" else [s[j]]
  }

  ghost function Result(fmt: char -> bool, s: string, hidden: set<nat>, j: nat): string
    requires j <= |s|
    decreases |s| - j
  {
    if j == |s| then "" else Shown(fmt, s, hidden, j) + Result(fmt, s, hidden, j + 1)
  }

  predicate MarkerKept(fmt: char -> bool) { forall i :: 0 <= i < |MARKER| ==> !fmt(MARKER[i]) }

  lemma {:induction false} DeleteMasked(fmt: char -> bool, s: string, hidden: set<nat>, j: nat)
    requires j <= |s| && MarkerKept(fmt)
    ensures Delete(fmt, Masked(s, hidden, j)) == Result(fmt, s, hidden, j)
    decreases |s| - j
  {
    hide Emit, Shown, Delete;
    if j == |s| {
      DeleteOne(fmt, ' ');
    } else {
      DeleteAppend(fmt, Emit(s, hidden, j), Masked(s, hidden, j + 1));
      DeleteMasked(fmt, s, hidden, j + 1);
      DeleteEmit(fmt, s, hidden, j);
    }
  }

  lemma {:induction false} DeleteEmit(fmt: char -> bool, s: string, hidden: set<nat>, j: nat)
    requires j < |s| && MarkerKept(fmt)
    ensures Delete(fmt, Emit(s, hidden, j)) == Shown(fmt, s, hidden, j)
  {
    hide MARKER;
    DeleteNone(fmt, MARKER);
    DeleteOne(fmt, s[j]);
  }

  lemma {:induction false} DeleteOne(fmt: char -> bool, c: char)
    ensures Delete(fmt, [c]) == (if fmt(c) then "" else [c]) && Delete(fmt, "") == ""
  {
    assert [c][..0] == "";
  }

  /** The text without formatting characters, and where each of its characters was. */
  method DeleteMapped(fmt: char -> bool, s: string) returns (text: string, offsets: seq<nat>)
    ensures text == Delete(fmt, s) && offsets == Kept(fmt, s, |s|) && |text| == |offsets|
  {
    text, offsets := "", [];
    for i := 0 to |s|
      invariant text == Delete(fmt, s[..i]) && offsets == Kept(fmt, s, i)
    {
      assert s[..i + 1][..i] == s[..i];
      if fmt(s[i]) {
        continue;
      }
      offsets := offsets + [i];
      text := text + [s[i]];
    }
    assert s[..|s|] == s;
    DeletedAt(fmt, s, |s|);
  }

  /** The spans cover exactly what the first `i` secrets hit. */
  ghost predicate Marks(fmt: char -> bool, msg: string, secrets: seq<string>, i: nat, spans: seq<Span>)
    requires i <= |secrets|
  {
    InBounds(spans, |msg|) && forall j: nat :: j < |msg| ==> (Covers(spans, j) <==> Hit(fmt, msg, secrets[..i], j))
  }

  /** The spans of one secret cover exactly what it hits. */
  ghost predicate MarksOne(fmt: char -> bool, msg: string, secret: string, spans: seq<Span>) {
    InBounds(spans, |msg|) && forall j: nat :: j < |msg| ==> (Covers(spans, j) <==> Hits(fmt, msg, secret, j))
  }

  lemma {:induction false} MarksNext(fmt: char -> bool, msg: string, secrets: seq<string>, i: nat, spans: seq<Span>, more: seq<Span>)
    requires i < |secrets| && Marks(fmt, msg, secrets, i, spans) && MarksOne(fmt, msg, secrets[i], more)
    ensures Marks(fmt, msg, secrets, i + 1, spans + more)
  {
    hide Hits;
    forall j: nat | j < |msg| ensures Covers(spans + more, j) <==> Hit(fmt, msg, secrets[..i + 1], j) {
      CoversBoth(spans, more, j);
      HitLast(fmt, msg, secrets, i, j);
    }
  }

  lemma {:induction false} CoversBoth(a: seq<Span>, b: seq<Span>, j: nat)
    ensures Covers(a + b, j) <==> Covers(a, j) || Covers(b, j)
  {
    if Covers(a, j) {
      var k :| 0 <= k < |a| && a[k].start <= j < a[k].end;
      assert (a + b)[k] == a[k];
    }
    if Covers(b, j) {
      var k :| 0 <= k < |b| && b[k].start <= j < b[k].end;
      assert (a + b)[|a| + k] == b[k];
    }
  }

  lemma {:induction false} HitLast(fmt: char -> bool, msg: string, secrets: seq<string>, i: nat, j: nat)
    requires i < |secrets|
    ensures Hit(fmt, msg, secrets[..i + 1], j) <==> Hit(fmt, msg, secrets[..i], j) || Hits(fmt, msg, secrets[i], j)
  {
    hide Hits;
    var a, b := secrets[..i], secrets[..i + 1];
    if Hit(fmt, msg, a, j) {
      var k :| 0 <= k < |a| && Hits(fmt, msg, a[k], j);
      assert b[k] == a[k];
    }
    if Hits(fmt, msg, secrets[i], j) {
      assert b[i] == secrets[i];
    }
    if Hit(fmt, msg, b, j) {
      var k :| 0 <= k < |b| && Hits(fmt, msg, b[k], j);
      assert k < i ==> a[k] == b[k];
    }
  }

  /** The occurrences of `form` in the deleted text, and their places in the message, which end just
      after the last character that was kept. */
  method FormSpans(deleted: string, offsets: seq<nat>, form: string) returns (spans: seq<Span>)
    requires form != "" && |deleted| == |offsets|
    ensures exists found :: Mapping(deleted, offsets, form, found, spans)
  {
    hide At;
    var matches := MatchSpans(deleted, form);
    Within(deleted, form);
    spans := [];
    for i := 0 to |matches|
      invariant |spans| == i
      invariant forall k :: 0 <= k < i ==>
        && matches[k].start < matches[k].end <= |offsets|
        && spans[k] == Span(offsets[matches[k].start], offsets[matches[k].end - 1] + 1)
    {
      spans := spans + [Span(offsets[matches[i].start], offsets[matches[i].end - 1] + 1)];
    }
    assert Mapping(deleted, offsets, form, matches, spans);
  }

  /** The spans of one secret in the message. */
  method SecretSpans(fmt: char -> bool, msg: string, deleted: string, offsets: seq<nat>, secret: string) returns (spans: seq<Span>)
    requires deleted == Delete(fmt, msg) && offsets == Kept(fmt, msg, |msg|) && |deleted| == |offsets|
    ensures MarksOne(fmt, msg, secret, spans)
  {
    hide Delete, Kept, ByteLen, At, Covers, FormHits, VerbatimHits, Mapping;
    var form := Delete(fmt, secret);
    spans := [];
    if form != "" && (ByteLen(form) >= MIN_LEN || form == secret) {
      spans := FormSpans(deleted, offsets, form);
      ghost var found :| Mapping(deleted, offsets, form, found, spans);
      MappedMarks(deleted, offsets, |msg|, form, found, spans);
    } else if secret != "" {
      spans := MatchSpans(msg, secret);
      Within(msg, secret);
      VerbatimMarks(msg, secret, spans);
    } else {
      NoneVerbatim(msg);
    }
  }

  lemma {:induction false} NoneVerbatim(msg: string)
    ensures forall j: nat :: !Covers([], j) && !VerbatimHits(msg, "", j)
  {
  }

  lemma {:induction false} VerbatimMarks(msg: string, secret: string, spans: seq<Span>)
    requires secret != ""
    requires forall k :: 0 <= k < |spans| ==> At(msg, secret, spans[k].start) && spans[k].end == spans[k].start + |secret|
    requires forall i: nat :: At(msg, secret, i) ==> Span(i, i + |secret|) in spans
    ensures InBounds(spans, |msg|)
    ensures forall j: nat :: j < |msg| ==> (Covers(spans, j) <==> VerbatimHits(msg, secret, j))
  {
    hide At;
    Within(msg, secret);
    forall j: nat ensures Covers(spans, j) <==> VerbatimHits(msg, secret, j) {
      if VerbatimHits(msg, secret, j) {
        var k: nat :| At(msg, secret, k) && k <= j < k + |secret|;
        assert Span(k, k + |secret|) in spans;
      }
    }
  }

  lemma {:induction false} Within(s: string, f: string)
    ensures forall i: nat :: At(s, f, i) ==> i + |f| <= |s|
  {
  }

  /** `found` are the occurrences of `form` in the deleted text, and `spans` their places in the message. */
  ghost predicate Mapping(deleted: string, kept: seq<nat>, form: string, found: seq<Span>, spans: seq<Span>) {
    && form != "" && |spans| == |found| && |deleted| == |kept|
    && (forall k :: 0 <= k < |found| ==> At(deleted, form, found[k].start) && found[k].end == found[k].start + |form|)
    && (forall i: nat :: At(deleted, form, i) ==> Span(i, i + |form|) in found)
    && (forall k :: 0 <= k < |found| ==>
          found[k].start < found[k].end <= |kept| && spans[k] == Span(kept[found[k].start], kept[found[k].end - 1] + 1))
  }

  lemma {:induction false} MappedIn(deleted: string, kept: seq<nat>, n: nat, form: string, found: seq<Span>, spans: seq<Span>)
    requires Mapping(deleted, kept, form, found, spans) && forall q :: 0 <= q < |kept| ==> kept[q] < n
    requires forall p, q :: 0 <= p < q < |kept| ==> kept[p] < kept[q]
    ensures InBounds(spans, n)
  {
    hide At;
    forall k | 0 <= k < |spans| ensures spans[k].start < spans[k].end <= n {
      assert kept[found[k].start] <= kept[found[k].end - 1] < n;
    }
  }

  lemma {:induction false} MappedCover(deleted: string, kept: seq<nat>, form: string, found: seq<Span>, spans: seq<Span>, j: nat)
    requires Mapping(deleted, kept, form, found, spans)
    ensures Covers(spans, j) <==> FormHits(deleted, kept, form, j)
  {
    hide At;
    if FormHits(deleted, kept, form, j) {
      var k: nat :| At(deleted, form, k) && InForm(kept, form, k, j);
      var m :| 0 <= m < |found| && found[m] == Span(k, k + |form|);
      assert spans[m].start <= j < spans[m].end;
    }
    if Covers(spans, j) {
      var m :| 0 <= m < |spans| && spans[m].start <= j < spans[m].end;
      assert InForm(kept, form, found[m].start, j);
    }
  }

  lemma {:induction false} MappedMarks(deleted: string, kept: seq<nat>, n: nat, form: string, found: seq<Span>, spans: seq<Span>)
    requires Mapping(deleted, kept, form, found, spans) && forall q :: 0 <= q < |kept| ==> kept[q] < n
    requires forall p, q :: 0 <= p < q < |kept| ==> kept[p] < kept[q]
    ensures InBounds(spans, n)
    ensures forall j: nat :: Covers(spans, j) <==> FormHits(deleted, kept, form, j)
  {
    hide Mapping, Covers, FormHits;
    MappedIn(deleted, kept, n, form, found, spans);
    forall j: nat ensures Covers(spans, j) <==> FormHits(deleted, kept, form, j) {
      MappedCover(deleted, kept, form, found, spans, j);
    }
  }

  /** Hides the secrets in a message and deletes its formatting characters. */
  method HideSecrets(fmt: char -> bool, msg: string, secrets: seq<string>) returns (out: string)
    requires MarkerKept(fmt)
    ensures out == Result(fmt, msg, Hidden(fmt, msg, secrets), 0)
  {
    hide Masked, Delete, Result, Marks, MarksOne, Hit, Kept;
    var deleted, offsets := DeleteMapped(fmt, msg);
    var spans := [];
    NoMarks(fmt, msg, secrets);
    for i := 0 to |secrets|
      invariant Marks(fmt, msg, secrets, i, spans)
    {
      var more := SecretSpans(fmt, msg, deleted, offsets, secrets[i]);
      MarksNext(fmt, msg, secrets, i, spans, more);
      spans := spans + more;
    }
    MarksAll(fmt, msg, secrets, spans);
    var masked := ReplaceSpans(msg, spans);
    DeleteMasked(fmt, msg, Covered(spans, |msg|), 0);
    out := Delete(fmt, masked);
  }

  lemma {:induction false} NoMarks(fmt: char -> bool, msg: string, secrets: seq<string>)
    ensures Marks(fmt, msg, secrets, 0, [])
  {
    hide Hits;
  }

  lemma {:induction false} MarksAll(fmt: char -> bool, msg: string, secrets: seq<string>, spans: seq<Span>)
    requires Marks(fmt, msg, secrets, |secrets|, spans)
    ensures InBounds(spans, |msg|) && Covered(spans, |msg|) == Hidden(fmt, msg, secrets)
  {
    hide Hit, Covers;
    assert secrets[..|secrets|] == secrets;
  }

  // What the result says of the message

  /** A character that is not deleted is hidden by a secret's form exactly when it lies in an occurrence
      of the form in the deleted text. */
  lemma {:induction false} HitInDeleted(fmt: char -> bool, msg: string, form: string, j: nat)
    requires form != "" && j < |msg| && !fmt(msg[j])
    ensures var q := |Kept(fmt, msg, j)|;
            FormHits(Delete(fmt, msg), Kept(fmt, msg, |msg|), form, j) <==> exists k: nat :: At(Delete(fmt, msg), form, k) && k <= q < k + |form|
  {
    hide At, Delete;
    var kept, q := Kept(fmt, msg, |msg|), |Kept(fmt, msg, j)|;
    KeptAt(fmt, msg, j, |msg|);
    DeletedLen(fmt, msg);
    Within(Delete(fmt, msg), form);
    forall k: nat | At(Delete(fmt, msg), form, k) ensures InForm(kept, form, k, j) <==> k <= q < k + |form| {
      var last := k + |form| - 1;
      assert kept[k] <= j <==> k <= q;
      assert j <= kept[last] <==> q <= last;
    }
  }

  lemma {:induction false} DeletedLen(fmt: char -> bool, msg: string)
    ensures |Delete(fmt, msg)| == |Kept(fmt, msg, |msg|)|
  {
    assert msg[..|msg|] == msg;
    DeletedAt(fmt, msg, |msg|);
  }

  /** No stretch of the message between two markers holds a secret, in the form in which it is looked for. */
  lemma {:induction false} BetweenMarkers(fmt: char -> bool, msg: string, secrets: seq<string>, a: nat, b: nat, i: nat)
    requires a <= b <= |msg| && i < |secrets| && secrets[i] != ""
    requires forall j :: a <= j < b ==> j !in Hidden(fmt, msg, secrets)
    ensures if UsesForm(fmt, secrets[i]) then !Contains(Delete(fmt, msg[a..b]), Delete(fmt, secrets[i]))
            else !Contains(msg[a..b], secrets[i])
  {
    hide Delete, Kept, ByteLen, Contains;
    var form := Delete(fmt, secrets[i]);
    if UsesForm(fmt, secrets[i]) {
      if Contains(Delete(fmt, msg[a..b]), form) {
        var j := FoundBetween(fmt, msg, form, a, b);
        FormHidden(fmt, msg, secrets, i, j);
      }
    } else if Contains(msg[a..b], secrets[i]) {
      var j := VerbatimBetween(msg, secrets[i], a, b);
      VerbatimHidden(fmt, msg, secrets, i, j);
    }
  }

  lemma {:induction false} VerbatimHidden(fmt: char -> bool, msg: string, secrets: seq<string>, i: nat, j: nat)
    requires i < |secrets| && j < |msg| && !UsesForm(fmt, secrets[i]) && VerbatimHits(msg, secrets[i], j)
    ensures j in Hidden(fmt, msg, secrets)
  {
    hide VerbatimHits, UsesForm;
  }

  lemma {:induction false} VerbatimBetween(msg: string, secret: string, a: nat, b: nat) returns (j: nat)
    requires a <= b <= |msg| && secret != "" && Contains(msg[a..b], secret)
    ensures a <= j < b && VerbatimHits(msg, secret, j)
  {
    var k: nat :| k <= b - a && At(msg[a..b], secret, k);
    SliceOfSlice(msg, a, b, k, |secret|);
    assert At(msg, secret, a + k);
    j := a + k;
  }

  lemma {:induction false} FormHidden(fmt: char -> bool, msg: string, secrets: seq<string>, i: nat, j: nat)
    requires i < |secrets| && j < |msg| && UsesForm(fmt, secrets[i])
    requires FormHits(Delete(fmt, msg), Kept(fmt, msg, |msg|), Delete(fmt, secrets[i]), j)
    ensures j in Hidden(fmt, msg, secrets)
  {
    hide FormHits, UsesForm;
  }

  lemma {:induction false} FoundBetween(fmt: char -> bool, msg: string, form: string, a: nat, b: nat) returns (j: nat)
    requires a <= b <= |msg| && form != "" && Contains(Delete(fmt, msg[a..b]), form)
    ensures a <= j < b && FormHits(Delete(fmt, msg), Kept(fmt, msg, |msg|), form, j)
  {
    hide Delete, At, Kept;
    var front, mid, back := Delete(fmt, msg[..a]), Delete(fmt, msg[a..b]), Delete(fmt, msg[b..]);
    DeleteParts(fmt, msg, a, b);
    var k: nat :| k <= |mid| && At(mid, form, k);
    AtFits(mid, form, k);
    var n, kept := |front| + k, Kept(fmt, msg, |msg|);
    Occurs(front, mid, back, form, k);
    DeletedLen(fmt, msg);
    KeptBetween(fmt, msg, a, b, n);
    j := kept[n];
    KeptRises(fmt, msg, n, n + |form| - 1);
    assert InForm(kept, form, n, j);
  }

  lemma {:induction false} DeleteParts(fmt: char -> bool, msg: string, a: nat, b: nat)
    requires a <= b <= |msg|
    ensures Delete(fmt, msg) == Delete(fmt, msg[..a]) + Delete(fmt, msg[a..b]) + Delete(fmt, msg[b..])
    ensures Delete(fmt, msg[..b]) == Delete(fmt, msg[..a]) + Delete(fmt, msg[a..b])
  {
    hide Delete;
    assert msg == msg[..b] + msg[b..] && msg[..b] == msg[..a] + msg[a..b];
    DeleteAppend(fmt, msg[..a], msg[a..b]);
    DeleteAppend(fmt, msg[..b], msg[b..]);
  }

  lemma {:induction false} KeptRises(fmt: char -> bool, msg: string, i: nat, j: nat)
    requires i <= j < |Kept(fmt, msg, |msg|)|
    ensures Kept(fmt, msg, |msg|)[i] <= Kept(fmt, msg, |msg|)[j]
  {
  }

  lemma {:induction false} AtFits(s: string, f: string, k: nat)
    requires At(s, f, k)
    ensures k + |f| <= |s|
  {
  }

  lemma {:induction false} Occurs(front: string, mid: string, back: string, form: string, k: nat)
    requires At(mid, form, k)
    ensures At(front + mid + back, form, |front| + k)
  {
    var s, n := front + mid + back, |front| + k;
    assert s[n..n + |form|] == mid[k..k + |form|];
  }

  lemma {:induction false} KeptBetween(fmt: char -> bool, msg: string, a: nat, b: nat, n: nat)
    requires a <= b <= |msg|
    requires |Delete(fmt, msg[..a])| <= n < |Delete(fmt, msg[..b])|
    ensures n < |Kept(fmt, msg, |msg|)| && a <= Kept(fmt, msg, |msg|)[n] < b
  {
    hide Delete;
    DeletedAt(fmt, msg, a);
    DeletedAt(fmt, msg, b);
    KeptGrows(fmt, msg, b, |msg|);
    KeptGrows(fmt, msg, a, b);
    var j := Kept(fmt, msg, b)[n];
    if j < a {
      KeptAt(fmt, msg, j, a);
    }
  }

  lemma {:induction false} KeptGrows(fmt: char -> bool, s: string, m: nat, n: nat)
    requires m <= n <= |s|
    ensures Kept(fmt, s, m) <= Kept(fmt, s, n)
    decreases n
  {
    if m < n {
      KeptGrows(fmt, s, m, n - 1);
    }
  }
}
