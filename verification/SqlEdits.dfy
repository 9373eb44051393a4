/**
 The edits that redaction makes in a statement: ordered, disjoint, from one token boundary to another,
 and nothing else is changed.
 */
module SqlEdits {
  import opened Text
  import opened Splicing
  import opened SqlLexer
  import opened SqlRedact
  import opened SqlGate
  import opened SqlRelex
  import opened SqlRewriting

  /** The edits that the walk makes from piece `k` on. */
  function Edits(s: Script, k: nat, c: Context): seq<Replacement>
    requires WellFormed(s.pieces) && k <= |s.pieces|
    decreases |s.pieces| - k
  {
    var ps := s.pieces;
    if k == |ps| then []
    else
      match Decide(c, Toks(ps[k..]))
      case Keep => Edits(s, k + 1, Next(c, ps[k].tok))
      case Edit(from, to, repl, toEnd) =>
        [Replacement(TokenAt(ps, k + from), if toEnd then |Join(Ungroup(s))| else Offset(ps, k + to), repl.text)]
        + if toEnd then [] else Edits(s, k + to, After(c, Toks(ps)[k..k + from] + [repl]))
  }

  /** Where the token of a piece starts. */
  function TokenAt(ps: seq<Piece>, k: nat): nat
    requires k < |ps|
  {
    Offset(ps, k) + |Join(ps[k].gap)|
  }

  function EditsOf(query: string): seq<Replacement> { Edits(Statement(query), 0, START) }

  /** A position between two tokens, or at an end of the text. */
  ghost predicate IsBoundary(ts: seq<Lexeme>, x: nat) {
    exists n :: 0 <= n <= |ts| && |Join(ts[..n])| == x
  }

  ghost predicate Aligned(ts: seq<Lexeme>, reps: seq<Replacement>) {
    forall i :: 0 <= i < |reps| ==> reps[i].start < reps[i].end && IsBoundary(ts, reps[i].start) && IsBoundary(ts, reps[i].end)
  }

  // Positions

  lemma {:induction false} PrefixBoundary(a: seq<Lexeme>, b: seq<Lexeme>)
    ensures IsBoundary(a + b, |Join(a)|)
  {
    hide Join;
    assert (a + b)[..|a|] == a;
  }

  lemma {:induction false} OffsetBoundary(s: Script, k: nat)
    requires k <= |s.pieces|
    ensures IsBoundary(Ungroup(s), Offset(s.pieces, k))
  {
    hide Flatten, Join, IsBoundary;
    var ps := s.pieces;
    assert ps == ps[..k] + ps[k..];
    FlattenAppend(ps[..k], ps[k..]);
    assert Ungroup(s) == Flatten(ps[..k]) + (Flatten(ps[k..]) + s.tail);
    PrefixBoundary(Flatten(ps[..k]), Flatten(ps[k..]) + s.tail);
  }

  lemma {:induction false} TokenBoundary(s: Script, k: nat)
    requires k < |s.pieces|
    ensures IsBoundary(Ungroup(s), TokenAt(s.pieces, k))
  {
    hide Flatten, Join, IsBoundary;
    var ps := s.pieces;
    FrontSplit(ps, k, k + 1, s.tail);
    var rest := [ps[k].tok] + (Flatten(ps[k + 1..k + 1]) + (Flatten(ps[k + 1..]) + s.tail));
    PrefixBoundary(Front(ps, k), rest);
    JoinAppend(Flatten(ps[..k]), ps[k].gap);
  }

  lemma {:induction false} WholeBoundary(ts: seq<Lexeme>)
    ensures IsBoundary(ts, |Join(ts)|)
  {
    assert ts[..|ts|] == ts;
  }

  /** Positions of pieces are in order. */
  lemma {:induction false} OffsetsGrow(s: Script, i: nat, j: nat)
    requires i <= j <= |s.pieces| && WellFormed(s.pieces)
    ensures Offset(s.pieces, i) <= Offset(s.pieces, j) <= |Join(Ungroup(s))|
    ensures i < j ==> TokenAt(s.pieces, i) < Offset(s.pieces, i + 1) <= Offset(s.pieces, j)
    decreases j - i
  {
    hide Flatten, Join, Offset;
    if i < j {
      OffsetStep(s.pieces, i);
      OffsetsGrow(s, i + 1, j);
    } else {
      TextFrom(s.pieces, s.tail, Join(Ungroup(s)), i);
    }
  }

  // The edits make the redaction

  lemma {:induction false} EditsMake(query: string, s: Script, k: nat, c: Context)
    requires query == Join(Ungroup(s)) && WellFormed(s.pieces) && k <= |s.pieces|
    ensures var reps := Edits(s, k, c);
            && InOrder(reps, Offset(s.pieces, k), |query|) && Aligned(Ungroup(s), reps)
            && Spliced(query, reps, Offset(s.pieces, k), |query|) == Rest(s, k, c)
    decreases |s.pieces| - k
  {
    hide Flatten, Join, Offset, Decide, Next, After, Walk, InOrder, Spliced, Aligned, Ungroup, TokenAt;
    var ps := s.pieces;
    OffsetsGrow(s, k, |ps|);
    if k == |ps| {
      End(query, s, c);
      NoEdits(query, Offset(ps, k), Ungroup(s));
    } else if Decide(c, Toks(ps[k..])) == Keep {
      EditsMake(query, s, k + 1, Next(c, ps[k].tok));
      OffsetsGrow(s, k, k + 1);
      SplicedEarlier(query, Edits(s, k + 1, Next(c, ps[k].tok)), Offset(ps, k), Offset(ps, k + 1), |query|);
      KeepText(query, s, k, c);
    } else {
      EditMakes(query, s, k, c);
    }
  }

  lemma {:induction false} NoEdits(query: string, from: nat, ts: seq<Lexeme>)
    requires from <= |query|
    ensures InOrder([], from, |query|) && Aligned(ts, []) && Spliced(query, [], from, |query|) == query[from..]
  {
  }

  lemma {:induction false} EditMakes(query: string, s: Script, k: nat, c: Context)
    requires query == Join(Ungroup(s)) && WellFormed(s.pieces) && k < |s.pieces| && Decide(c, Toks(s.pieces[k..])).Edit?
    ensures var reps := Edits(s, k, c);
            && InOrder(reps, Offset(s.pieces, k), |query|) && Aligned(Ungroup(s), reps)
            && Spliced(query, reps, Offset(s.pieces, k), |query|) == Rest(s, k, c)
    decreases |s.pieces| - k, 0
  {
    hide Join, Offset, Decide, After, InOrder, Spliced, Ungroup, IsBoundary, Aligned, Edits, Rest, Toks, TokenAt;
    var ps, e := s.pieces, Decide(c, Toks(s.pieces[k..]));
    var c' := After(c, Toks(ps)[k..k + e.from] + [e.repl]);
    var lo, hi := TokenAt(ps, k + e.from), if e.toEnd then |query| else Offset(ps, k + e.to);
    var more := if e.toEnd then [] else Edits(s, k + e.to, c');
    EditRest(query, s, k, c, e);
    EditsHere(s, k, c, e);
    OffsetsGrow(s, k + e.from, k + e.to);
    TokenBoundary(s, k + e.from);
    if e.toEnd {
      WholeBoundary(Ungroup(s));
      NoEdits(query, |query|, Ungroup(s));
      NoText(query);
    } else {
      OffsetBoundary(s, k + e.to);
      EditsMake(query, s, k + e.to, c');
    }
    OneMore(query, lo, hi, e.repl.text, more, Offset(ps, k), Ungroup(s));
  }

  lemma {:induction false} NoText(query: string)
    ensures query[|query|..] == ""
  {
  }

  lemma {:induction false} EditsHere(s: Script, k: nat, c: Context, e: Step)
    requires WellFormed(s.pieces) && k < |s.pieces| && Decide(c, Toks(s.pieces[k..])) == e && e.Edit?
    ensures k + e.from < k + e.to <= |s.pieces|
    ensures var ps := s.pieces;
            Edits(s, k, c) ==
              [Replacement(TokenAt(ps, k + e.from), if e.toEnd then |Join(Ungroup(s))| else Offset(ps, k + e.to), e.repl.text)]
              + if e.toEnd then [] else Edits(s, k + e.to, After(c, Toks(ps)[k..k + e.from] + [e.repl]))
  {
    hide Decide, After, Join, Ungroup, Offset, TokenAt;
  }

  lemma {:induction false} EditRest(query: string, s: Script, k: nat, c: Context, e: Step)
    requires query == Join(Ungroup(s)) && WellFormed(s.pieces) && k < |s.pieces|
    requires Decide(c, Toks(s.pieces[k..])) == e && e.Edit?
    ensures k + e.from < k + e.to <= |s.pieces|
    ensures var ps := s.pieces;
            && Offset(ps, k) <= TokenAt(ps, k + e.from) <= |query|
            && Rest(s, k, c) == query[Offset(ps, k)..TokenAt(ps, k + e.from)] + (e.repl.text +
                 if e.toEnd then "" else Rest(s, k + e.to, After(c, Toks(ps)[k..k + e.from] + [e.repl])))
  {
    hide Decide, After, Join, Ungroup, Offset, Walk;
    EditText(query, s, k, c, e);
  }

  lemma {:induction false} OneMore(query: string, lo: nat, hi: nat, text: string, more: seq<Replacement>, from: nat, ts: seq<Lexeme>)
    requires from <= lo < hi <= |query| && InOrder(more, hi, |query|) && Aligned(ts, more) && IsBoundary(ts, lo) && IsBoundary(ts, hi)
    ensures var reps := [Replacement(lo, hi, text)] + more;
            && InOrder(reps, from, |query|) && Aligned(ts, reps)
            && Spliced(query, reps, from, |query|) == query[from..lo] + (text + Spliced(query, more, hi, |query|))
  {
    hide IsBoundary;
    var reps := [Replacement(lo, hi, text)] + more;
    assert reps[1..] == more && reps[0] == Replacement(lo, hi, text);
    Associate(query[from..lo], text, Spliced(query, more, hi, |query|));
    assert forall i :: 0 < i < |reps| ==> reps[i] == more[i - 1];
  }

  /** Redaction replaces disjoint stretches of the statement, one behind another, each from one token
      boundary to another, and keeps every other character. */
  lemma {:induction false} RedactionEdits(query: string)
    ensures InOrder(EditsOf(query), 0, |query|) && Aligned(Lex(query), EditsOf(query))
    ensures RedactQuery(query) == Spliced(query, EditsOf(query), 0, |query|)
  {
    hide Lex, Edits, Aligned, Statement, Offset, Rest, InOrder, Spliced, Join, Ungroup, Progress, RedactQuery, Rewritten;
    GateSound(query);
    StatementText(query);
    NoOffset(Statement(query).pieces);
    BeginProgress(query);
    EditsMake(query, Statement(query), 0, START);
  }

  lemma {:induction false} NoOffset(ps: seq<Piece>)
    ensures Offset(ps, 0) == 0
  {
    assert ps[..0] == [];
    FlattenNone();
    JoinNone();
  }
}
