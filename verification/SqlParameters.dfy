/**
 What becomes of parameters such as $1, which pg_stat_statements leaves in place of constants.
 */
module SqlParameters {
  import opened Splicing
  import opened SqlLexer
  import SqlGate
  import opened SqlRedact
  import opened SqlRewriting
  import opened SqlEdits

  /** A placeholder such as $1. */
  predicate IsParameter(t: Lexeme) { t.kind == Other && |t.text| > 1 && t.text[0] == '$' && IsDigit(t.text[1]) }

  /** A SET command's value of more than one token, which starts with no constant. */
  predicate LongSetValue(c: Context, ts: seq<Lexeme>)
    requires ts != []
  {
    && IsSecret(ts[0]) && |ts| > 2 && IsSeparator(ts[1]) && c.target
    && !ts[2].IsLiteral() && ts[2].kind != QuotedIdent && UpToSemicolon(ts[2..]) > 1
  }

  predicate InSetValue(c: Context, ts: seq<Lexeme>, j: nat)
    requires ts != []
  {
    LongSetValue(c, ts) && 2 <= j < 2 + UpToSemicolon(ts[2..])
  }

  /** One turn of the loop replaces a parameter if and only if it replaces a SET command's value of more
      than one token that holds the parameter. */
  lemma {:induction false} StepReplaces(c: Context, ts: seq<Lexeme>, j: nat)
    requires j < |ts| && ts[0].WellFormed() && IsParameter(ts[j])
    ensures Decide(c, ts).Edit? && Decide(c, ts).from <= j < Decide(c, ts).to <==>
            InSetValue(c, ts, j)
  {
    hide DecideName, DecideLiteral, IsSecret, UpToSemicolon, IsSeparator;
    if IsSecret(ts[0]) {
      ParameterAsValue(c, ts, j);
    } else if ts[0].IsLiteral() {
      ParameterNoLiteral(ts, j);
    }
  }

  lemma {:induction false} ParameterAsValue(c: Context, ts: seq<Lexeme>, j: nat)
    requires j < |ts| && IsParameter(ts[j]) && IsSecret(ts[0])
    ensures DecideName(c, ts).Edit? && DecideName(c, ts).from <= j < DecideName(c, ts).to <==>
            InSetValue(c, ts, j)
  {
    hide IsSecret, Lexeme.Is, IsSeparator, AmbiguousEscapes, UpToSemicolon, Literals;
    var e := DecideName(c, ts);
    if e.Edit? && e.from <= j < e.to {
      assert ts[e.from..][j - e.from] == ts[j];
    }
    assert |ts| > 2 ==> ts[2..][0] == ts[2];
  }

  lemma {:induction false} ParameterNoLiteral(ts: seq<Lexeme>, j: nat)
    requires j < |ts| && ts[0].WellFormed() && ts[0].IsLiteral() && IsParameter(ts[j])
    ensures !(DecideLiteral(ts).Edit? && DecideLiteral(ts).from <= j < DecideLiteral(ts).to)
  {
    hide IsSecretName, Lexeme.Is, ConnRewrite, IsConstantName, AmbiguousEscapes, Literals;
    assert |ts| > 2 && 2 <= j ==> ts[2..][j - 2] == ts[j];
  }

  // The statement

  /** The walk from piece `k` on replaces or drops the token of piece `n`. */
  predicate Touched(s: Script, k: nat, c: Context, n: nat)
    requires WellFormed(s.pieces) && k <= n < |s.pieces|
    decreases |s.pieces| - k
  {
    var ps := s.pieces;
    match Decide(c, Toks(ps[k..]))
    case Keep => n > k && Touched(s, k + 1, Next(c, ps[k].tok), n)
    case Edit(from, to, repl, toEnd) =>
      if toEnd || n < k + to then k + from <= n
      else Touched(s, k + to, After(c, Toks(ps)[k..k + from] + [repl]), n)
  }

  /** It comes to a SET command whose value has more than one token, among them the token of piece `n`. */
  predicate InLongSet(s: Script, k: nat, c: Context, n: nat)
    requires WellFormed(s.pieces) && k <= n < |s.pieces|
    decreases |s.pieces| - k
  {
    var ps := s.pieces;
    var ts := Toks(ps[k..]);
    || InSetValue(c, ts, n - k)
    || match Decide(c, ts)
       case Keep => n > k && InLongSet(s, k + 1, Next(c, ps[k].tok), n)
       case Edit(from, to, repl, toEnd) =>
         !toEnd && k + to <= n && InLongSet(s, k + to, After(c, Toks(ps)[k..k + from] + [repl]), n)
  }

  /** It makes an edit that runs to the end of the text, in front of the token of piece `n` or at it. */
  predicate BehindEnd(s: Script, k: nat, c: Context, n: nat)
    requires WellFormed(s.pieces) && k <= n < |s.pieces|
    decreases |s.pieces| - k
  {
    var ps := s.pieces;
    match Decide(c, Toks(ps[k..]))
    case Keep => n > k && BehindEnd(s, k + 1, Next(c, ps[k].tok), n)
    case Edit(from, to, repl, toEnd) =>
      if toEnd then k + from <= n
      else k + to <= n && BehindEnd(s, k + to, After(c, Toks(ps)[k..k + from] + [repl]), n)
  }

  lemma {:induction false} ParameterTouched(s: Script, k: nat, c: Context, n: nat)
    requires WellFormed(s.pieces) && k <= n < |s.pieces| && IsParameter(s.pieces[n].tok)
    ensures Touched(s, k, c, n) <==> InLongSet(s, k, c, n) || BehindEnd(s, k, c, n)
    decreases |s.pieces| - k
  {
    hide Decide, Next, After, IsParameter, InSetValue, Toks;
    var ps := s.pieces;
    var e := Decide(c, Toks(ps[k..]));
    HeadTouched(s, k, c, n);
    if e == Keep {
      if n > k {
        ParameterTouched(s, k + 1, Next(c, ps[k].tok), n);
      }
    } else if !e.toEnd && k + e.to <= n {
      ParameterTouched(s, k + e.to, After(c, Toks(ps)[k..k + e.from] + [e.repl]), n);
    }
  }

  lemma {:induction false} HeadTouched(s: Script, k: nat, c: Context, n: nat)
    requires WellFormed(s.pieces) && k <= n < |s.pieces| && IsParameter(s.pieces[n].tok)
    ensures var ts := Toks(s.pieces[k..]); var e := Decide(c, ts);
            && (InSetValue(c, ts, n - k) <==> e.Edit? && k + e.from <= n < k + e.to)
            && (InSetValue(c, ts, n - k) ==> !e.toEnd)
  {
    hide Decide, IsParameter, UpToSemicolon;
    var ts := Toks(s.pieces[k..]);
    assert ts[n - k] == s.pieces[n].tok;
    StepReplaces(c, ts, n - k);
    LongIsShort(c, ts);
  }

  /** A SET command's value is replaced by the placeholder, and the text goes on behind it. */
  lemma {:induction false} LongIsShort(c: Context, ts: seq<Lexeme>)
    requires ts != [] && ts[0].WellFormed()
    ensures LongSetValue(c, ts) ==> Decide(c, ts) == Edit(2, 2 + UpToSemicolon(ts[2..]), REDACTED, false)
  {
    hide IsSecret, UpToSemicolon, IsSeparator, HoldsNoSecret, DecideLiteral;
  }

  /** An edit reaches into the stretch from `lo` to `hi`. */
  predicate Hit(reps: seq<Replacement>, lo: nat, hi: nat) {
    exists i :: 0 <= i < |reps| && reps[i].start < hi && lo < reps[i].end
  }

  lemma {:induction false} HitCons(r: Replacement, reps: seq<Replacement>, lo: nat, hi: nat)
    ensures Hit([r] + reps, lo, hi) <==> (r.start < hi && lo < r.end) || Hit(reps, lo, hi)
  {
    var all := [r] + reps;
    assert all[0] == r;
    if Hit(reps, lo, hi) {
      var i :| 0 <= i < |reps| && reps[i].start < hi && lo < reps[i].end;
      assert all[i + 1] == reps[i];
    }
    if Hit(all, lo, hi) {
      var i :| 0 <= i < |all| && all[i].start < hi && lo < all[i].end;
      assert i > 0 ==> all[i] == reps[i - 1];
    }
  }

  /** Edits behind a stretch do not reach into it. */
  lemma {:induction false} NotHit(reps: seq<Replacement>, last: nat, upto: nat, lo: nat, hi: nat)
    requires InOrder(reps, last, upto) && hi <= last
    ensures !Hit(reps, lo, hi)
    decreases |reps|
  {
    if reps != [] {
      NotHit(reps[1..], reps[0].end, upto, lo, hi);
      HitCons(reps[0], reps[1..], lo, hi);
      assert [reps[0]] + reps[1..] == reps;
    }
  }

  /** The edits reach into a token exactly when the walk touches it. */
  lemma {:induction false} TouchedIsHit(query: string, s: Script, k: nat, c: Context, n: nat)
    requires query == Join(Ungroup(s)) && WellFormed(s.pieces) && k <= n < |s.pieces|
    ensures Hit(Edits(s, k, c), TokenAt(s.pieces, n), Offset(s.pieces, n + 1)) <==> Touched(s, k, c, n)
    decreases |s.pieces| - k
  {
    hide Join, Offset, TokenAt, Ungroup, Decide, Next, After, Hit, InOrder, Toks, Spliced, Aligned, Rest;
    var ps := s.pieces;
    var e := Decide(c, Toks(ps[k..]));
    if e == Keep {
      var c1 := Next(c, ps[k].tok);
      if n > k {
        TouchedIsHit(query, s, k + 1, c1, n);
      } else {
        EditsMake(query, s, k + 1, c1);
        NotHit(Edits(s, k + 1, c1), Offset(ps, k + 1), |query|, TokenAt(ps, n), Offset(ps, n + 1));
      }
    } else {
      HitByEdit(query, s, k, c, n, e);
    }
  }

  lemma {:induction false} HitByEdit(query: string, s: Script, k: nat, c: Context, n: nat, e: Step)
    requires query == Join(Ungroup(s)) && WellFormed(s.pieces) && k <= n < |s.pieces| && Decide(c, Toks(s.pieces[k..])) == e && e.Edit?
    ensures Hit(Edits(s, k, c), TokenAt(s.pieces, n), Offset(s.pieces, n + 1)) <==> Touched(s, k, c, n)
    decreases |s.pieces| - k, 0
  {
    hide Join, Offset, TokenAt, Ungroup, Decide, Next, After, Hit, InOrder, Toks, Spliced, Aligned, Rest, Edits;
    var ps := s.pieces;
    EditsHere(s, k, c, e);
    var lo, hi, a := TokenAt(ps, n), Offset(ps, n + 1), k + e.from;
    var r := Edits(s, k, c)[0];
    OffsetsGrow(s, n, n + 1);
    if n >= a {
      OffsetsGrow(s, a, n + 1);
      StartsGrow(s, a, n);
    } else {
      OffsetsGrow(s, n + 1, a);
      StartAfter(ps, a);
    }
    if e.toEnd {
      OffsetsGrow(s, n + 1, |ps|);
      HitCons(r, [], lo, hi);
      NoHit(lo, hi);
      assert [r] + [] == Edits(s, k, c);
    } else {
      var c' := After(c, Toks(ps)[k..k + e.from] + [e.repl]);
      var more := Edits(s, k + e.to, c');
      assert Edits(s, k, c) == [r] + more;
      HitCons(r, more, lo, hi);
      if n < k + e.to {
        EditsMake(query, s, k + e.to, c');
        OffsetsGrow(s, n + 1, k + e.to);
        NotHit(more, Offset(ps, k + e.to), |query|, lo, hi);
      } else {
        TouchedIsHit(query, s, k + e.to, c', n);
        OffsetsGrow(s, k + e.to, n);
        StartAfter(ps, n);
      }
    }
  }

  lemma {:induction false} NoHit(lo: nat, hi: nat)
    ensures !Hit([], lo, hi)
  {
  }

  lemma {:induction false} StartAfter(ps: seq<Piece>, k: nat)
    requires k < |ps|
    ensures Offset(ps, k) <= TokenAt(ps, k)
  {
    hide Offset, Join;
  }

  lemma {:induction false} StartsGrow(s: Script, i: nat, j: nat)
    requires i <= j < |s.pieces| && WellFormed(s.pieces)
    ensures TokenAt(s.pieces, i) <= TokenAt(s.pieces, j)
  {
    hide Offset, TokenAt, Join, Ungroup;
    if i < j {
      OffsetsGrow(s, i, j);
      StartAfter(s.pieces, j);
    }
  }

  /** A parameter of a statement survives, untouched by any edit, exactly when it is in no SET command's
      value of more than one token and behind no edit that runs to the end of the text. */
  lemma {:induction false} ParameterSurvives(query: string, n: nat)
    requires n < |Statement(query).pieces| && IsParameter(Statement(query).pieces[n].tok)
    ensures var s := Statement(query);
            !Hit(EditsOf(query), TokenAt(s.pieces, n), Offset(s.pieces, n + 1)) <==>
            !InLongSet(s, 0, START, n) && !BehindEnd(s, 0, START, n)
  {
    hide Statement, IsParameter, Touched, InLongSet, BehindEnd, Edits, Hit, Offset, TokenAt;
    SqlGate.StatementText(query);
    TouchedIsHit(query, Statement(query), 0, START, n);
    ParameterTouched(Statement(query), 0, START, n);
  }
}
