/**
 The string operations of Go's standard library that the modelled packages call.

 A Go string is a sequence of bytes. Here it is a Dafny `string` whose characters are the
 bytes; every operation is total, so what is proved for all strings holds for all byte strings.
 Case is folded for ASCII letters only.
 */
module Text {

  datatype Option<+T> = None | Some(value: T)

  function LowerChar(c: char): char {
    if 'A' <= c <= 'Z' then (c as int + 32) as char else c
  }

  function Lower(s: string): (r: string)
    ensures |r| == |s|
    ensures forall i :: 0 <= i < |s| ==> r[i] == LowerChar(s[i])
  {
    seq(|s|, i requires 0 <= i < |s| => LowerChar(s[i]))
  }

  predicate EqualFold(a: string, b: string) {
    Lower(a) == Lower(b)
  }

  predicate IsHex(c: char) { '0' <= c <= '9' || 'a' <= c <= 'f' || 'A' <= c <= 'F' }

  function HexValue(c: char): (v: nat)
    requires IsHex(c)
    ensures v < 16
  {
    if c <= '9' then c as int - '0' as int
    else if c <= 'F' then c as int - 'A' as int + 10
    else c as int - 'a' as int + 10
  }

  /** `f` occurs in `s` at position `i`. */
  predicate At(s: string, f: string, i: nat) {
    i + |f| <= |s| && s[i..i + |f|] == f
  }

  predicate Contains(s: string, f: string) {
    exists i :: 0 <= i <= |s| && At(s, f, i)
  }

  /** The first position from `i` on at which `f` occurs in `s`, or -1. */
  function FindFrom(s: string, f: string, i: nat): (r: int)
    ensures r < 0 ==> r == -1 && forall j: nat :: i <= j ==> !At(s, f, j)
    ensures r >= 0 ==> i <= r && At(s, f, r) && forall j: nat :: i <= j < r ==> !At(s, f, j)
    decreases |s| - i
  {
    if |s| < i + |f| then -1 else if At(s, f, i) then i else if i == |s| then -1 else FindFrom(s, f, i + 1)
  }

  function Find(s: string, f: string): (r: int)
    ensures r < 0 ==> r == -1 && !Contains(s, f)
    ensures r >= 0 ==> At(s, f, r) && forall j: nat :: j < r ==> !At(s, f, j)
  {
    FindFrom(s, f, 0)
  }

  /** `Find` is determined by its contract. */
  lemma {:induction false} FindIs(s: string, f: string, r: int)
    requires if r < 0 then r == -1 && forall j: nat :: !At(s, f, j) else At(s, f, r) && forall j: nat :: j < r ==> !At(s, f, j)
    ensures Find(s, f) == r
  {
    hide FindFrom;
    var k := Find(s, f);
    if k >= 0 && r >= 0 {
      assert !(r < k) && !(k < r);
    }
  }

  /** Occurrences in what follows position `start`. */
  lemma {:induction false} OccursFrom(s: string, sub: string, start: nat)
    requires start <= |s|
    ensures var i := Find(s[start..], sub);
            if i < 0 then forall j: nat :: start <= j ==> !At(s, sub, j)
            else At(s, sub, start + i) && forall j: nat :: start <= j < start + i ==> !At(s, sub, j)
  {
    hide FindFrom;
    forall j: nat | start <= j ensures At(s, sub, j) == At(s[start..], sub, j - start) {
      assert j + |sub| <= |s| ==> s[start..][j - start..j - start + |sub|] == s[j..j + |sub|];
    }
    var i := Find(s[start..], sub);
    if i < 0 {
      assert forall j: nat :: At(s[start..], sub, j) ==> 0 <= j <= |s[start..]|;
    }
  }

  /** The parts with a space between them. */
  function JoinSpace(parts: seq<string>): string {
    if parts == [] then "" else if |parts| == 1 then parts[0] else parts[0] + " " + JoinSpace(parts[1..])
  }

  /** The length of the longest prefix of `s` whose characters all satisfy `p`. */
  function Run(p: char -> bool, s: string): (n: nat)
    ensures n <= |s|
    ensures forall i :: 0 <= i < n ==> p(s[i])
    ensures n < |s| ==> !p(s[n])
  {
    if s == "" || !p(s[0]) then 0 else 1 + Run(p, s[1..])
  }

  /** The characters of that prefix, and what follows them. */
  function TakeRun(p: char -> bool, s: string): (a: string)
    ensures |a| == Run(p, s)
  {
    s[..Run(p, s)]
  }

  function DropRun(p: char -> bool, s: string): (b: string)
    ensures |b| == |s| - Run(p, s)
    ensures b != "" ==> !p(b[0])
  {
    s[Run(p, s)..]
  }

  lemma {:induction false} CutAtRun(p: char -> bool, s: string)
    ensures s == TakeRun(p, s) + DropRun(p, s)
    ensures All(p, TakeRun(p, s))
  {
  }

  predicate All(p: char -> bool, s: string) {
    forall i :: 0 <= i < |s| ==> p(s[i])
  }

  /** A run of `p` is cut off a text that goes on with something else. */
  lemma {:induction false} CutRun(p: char -> bool, a: string, b: string)
    requires All(p, a) && (b != "" ==> !p(b[0]))
    ensures TakeRun(p, a + b) == a && DropRun(p, a + b) == b
  {
    hide Run;
    RunIs(p, a + b, |a|);
  }

  /** `Run` is determined by its contract. */
  lemma {:induction false} RunIs(p: char -> bool, s: string, n: nat)
    requires n <= |s|
    requires forall i :: 0 <= i < n ==> p(s[i])
    requires n < |s| ==> !p(s[n])
    ensures Run(p, s) == n
  {
    var r := Run(p, s);
    assert r <= |s| && (r < |s| ==> !p(s[r]));
  }

  lemma {:induction false} SliceOfSlice(s: string, lo: nat, hi: nat, i: nat, n: nat)
    requires lo <= hi <= |s| && i + n <= hi - lo
    ensures s[lo..hi][i..i + n] == s[lo + i..lo + i + n]
  {
    var t, u := s[lo..hi][i..i + n], s[lo + i..lo + i + n];
    forall k | 0 <= k < n ensures t[k] == u[k] {
      assert t[k] == s[lo..hi][i + k] == s[lo + i + k];
    }
  }

  lemma {:induction false} ContainsSlice(s: string, lo: nat, hi: nat, f: string)
    requires lo <= hi <= |s|
    requires Contains(s[lo..hi], f)
    ensures Contains(s, f)
  {
    var i :| 0 <= i <= |s[lo..hi]| && At(s[lo..hi], f, i);
    SliceOfSlice(s, lo, hi, i, |f|);
    assert At(s, f, lo + i);
  }

  lemma {:induction false} ContainsTrans(s: string, f: string, g: string)
    requires Contains(s, f) && Contains(f, g)
    ensures Contains(s, g)
  {
    var i :| 0 <= i <= |s| && At(s, f, i);
    assert s[i..i + |f|] == f;
    ContainsSlice(s, i, i + |f|, g);
  }

  lemma {:induction false} ContainsPrefix(s: string, f: string)
    requires f <= s
    ensures Contains(s, f)
  {
    assert s[0..|f|] == f;
    assert At(s, f, 0);
  }

  lemma {:induction false} ContainsRest(u: string, f: string)
    requires Contains(u, f) && !(f <= u)
    ensures u != "" && Contains(u[1..], f)
  {
    var i :| 0 <= i <= |u| && At(u, f, i);
    assert |f| <= |u| ==> u[0..|f|] == u[..|f|];
    var t := u[1..];
    assert t[i - 1..i - 1 + |f|] == u[i..i + |f|];
    assert At(t, f, i - 1);
  }

  /** What contains `f` contains its first character. */
  lemma {:induction false} ContainsHead(s: string, f: string)
    requires f != "" && Contains(s, f)
    ensures f[0] in s
  {
    var i :| 0 <= i <= |s| && At(s, f, i);
    assert s[i] == s[i..i + |f|][0];
  }

  lemma {:induction false} LowerSlice(s: string, lo: nat, hi: nat)
    requires lo <= hi <= |s|
    ensures Lower(s[lo..hi]) == Lower(s)[lo..hi]
  {
  }

  // Cutting concatenations

  lemma {:induction false} Associate(a: string, b: string, c: string)
    ensures a + b + c == a + (b + c)
  {
  }

  lemma {:induction false} Cancel(a: string, x: string, y: string)
    requires x != y
    ensures a + x != a + y
  {
    assert (a + x)[|a|..] == x && (a + y)[|a|..] == y;
  }

  lemma {:induction false} CutAppend(a: string, r: string, k: nat)
    requires k <= |a|
    ensures (a + r)[k..] == a[k..] + r
    ensures (a + r)[..k] == a[..k]
  {
  }

  // Searches in a changed text

  lemma {:induction false} RunRefit(p: char -> bool, a: string, r: string, r': string)
    requires Run(p, a + r) == |a|
    requires r' == "" || !p(r'[0])
    ensures Run(p, a + r') == |a|
  {
    forall i | 0 <= i < |a| ensures p((a + r')[i]) {
      assert (a + r)[i] == a[i];
    }
    RunIs(p, a + r', |a|);
  }

  lemma {:induction false} FindRefit(b: string, f: string, r: string, r': string)
    requires Find(b + f + r, f) == |b|
    ensures Find(b + f + r', f) == |b|
  {
    var s, s' := b + f + r, b + f + r';
    assert s'[|b|..|b| + |f|] == f;
    assert At(s', f, |b|);
    forall j: nat | j < |b| ensures !At(s', f, j) {
      assert s'[j..j + |f|] == s[j..j + |f|];
      assert !At(s, f, j);
    }
    var k := Find(s', f);
    assert k >= 0 && !(k < |b|) && !(|b| < k);
  }
}
