/**
 Replacements made in a text, as the redactors of keyword strings and of SQL statements make them: one
 behind another, with everything between them copied.
 */
module Splicing {
  import opened Text

  datatype Replacement = Replacement(start: nat, end: nat, with: string)

  /** Replacements that lie one behind another in `s[last..upto]`. */
  predicate InOrder(reps: seq<Replacement>, last: nat, upto: nat) {
    if reps == [] then last <= upto
    else last <= reps[0].start <= reps[0].end && InOrder(reps[1..], reps[0].end, upto)
  }

  /** `s[last..upto]` with the replacements made. */
  function Spliced(s: string, reps: seq<Replacement>, last: nat, upto: nat): string
    requires InOrder(reps, last, upto) && upto <= |s|
    decreases |reps|
  {
    if reps == [] then s[last..upto]
    else
      InOrderEnd(reps[1..], reps[0].end, upto);
      s[last..reps[0].start] + reps[0].with + Spliced(s, reps[1..], reps[0].end, upto)
  }

  lemma {:induction false} InOrderEnd(reps: seq<Replacement>, last: nat, upto: nat)
    requires InOrder(reps, last, upto)
    ensures last <= upto
    decreases |reps|
  {
    if reps != [] {
      InOrderEnd(reps[1..], reps[0].end, upto);
    }
  }

  lemma {:induction false} SplicedLonger(s: string, reps: seq<Replacement>, last: nat, upto: nat, end: nat)
    requires InOrder(reps, last, upto) && upto <= end <= |s|
    ensures InOrder(reps, last, end)
    ensures Spliced(s, reps, last, end) == Spliced(s, reps, last, upto) + s[upto..end]
    decreases |reps|
  {
    if reps == [] {
      assert s[last..end] == s[last..upto] + s[upto..end];
    } else {
      InOrderEnd(reps[1..], reps[0].end, upto);
      SplicedLonger(s, reps[1..], reps[0].end, upto, end);
      var a, b := s[last..reps[0].start] + reps[0].with, Spliced(s, reps[1..], reps[0].end, upto);
      assert a + (b + s[upto..end]) == (a + b) + s[upto..end];
    }
  }

  lemma {:induction false} SplicedLast(s: string, reps: seq<Replacement>, last: nat, r: Replacement)
    requires InOrder(reps, last, r.start) && r.start <= r.end <= |s|
    ensures InOrder(reps + [r], last, r.end)
    ensures Spliced(s, reps + [r], last, r.end) == Spliced(s, reps, last, r.start) + r.with
    decreases |reps|
  {
    if reps == [] {
      assert reps + [r] == [r] && [r][1..] == [] && s[r.end..r.end] == "";
      assert InOrder([r][1..], r.end, r.end);
      assert s[last..r.start] + r.with + "" == s[last..r.start] + r.with;
    } else {
      InOrderEnd(reps[1..], reps[0].end, r.start);
      assert (reps + [r])[1..] == reps[1..] + [r] && (reps + [r])[0] == reps[0];
      SplicedLast(s, reps[1..], reps[0].end, r);
    }
  }

  /** Text in front of the first replacement is copied. */
  lemma {:induction false} SplicedEarlier(s: string, reps: seq<Replacement>, last: nat, from: nat, upto: nat)
    requires last <= from && InOrder(reps, from, upto) && upto <= |s|
    ensures from <= upto && InOrder(reps, last, upto)
    ensures Spliced(s, reps, last, upto) == s[last..from] + Spliced(s, reps, from, upto)
  {
    InOrderEnd(reps, from, upto);
    if reps == [] {
      assert s[last..upto] == s[last..from] + s[from..upto];
    } else {
      InOrderEnd(reps[1..], reps[0].end, upto);
      var a, r := reps[0].start, reps[0].with + Spliced(s, reps[1..], reps[0].end, upto);
      assert s[last..a] == s[last..from] + s[from..a];
      Associate(s[last..from], s[from..a], r);
      Associate(s[last..a], reps[0].with, Spliced(s, reps[1..], reps[0].end, upto));
      Associate(s[from..a], reps[0].with, Spliced(s, reps[1..], reps[0].end, upto));
    }
  }
}
