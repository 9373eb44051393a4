/**
 What redaction is for, told in the letters of a statement: which of its tokens are replaced or dropped, and that a
 constant which is the value of a secret is among them.
 */
module SqlSecrets {
  import opened Splicing
  import opened Spelling
  import opened SecretWords
  import opened SqlLexer
  import opened SqlRedact
  import opened SqlTokens
  import opened SqlDecisions
  import opened SqlRewriting
  import opened SqlEdits
  import opened SqlParameters
  import SqlGate

  /** The constant at `i` is the value of the name at `p`, or continues it. */
  predicate Gives(ts: seq<Lexeme>, p: nat, i: nat) {
    || (ValueAt(ts, p, p + 1) && Continues(ts, p + 1, i))
    || (ValueAt(ts, p, p + 2) && Continues(ts, p + 2, i))
    || (ArgumentAt(ts, p, p + 2) && Continues(ts, p + 2, i))
  }

  ghost predicate IsTarget(ts: seq<Lexeme>, p: nat)
    requires p <= |ts|
  {
    exists j :: 0 <= j <= p && Dotted(ts, j, p) && BehindSet(ts, j)
  }

  /** The token at `i` belongs to what stands for the value of the name at `p`: constants, a quoted identifier or what a
      SET command assigns. */
  ghost predicate Put(ts: seq<Lexeme>, p: nat, i: nat)
    requires p <= |ts|
  {
    Gives(ts, p, i) || QuotedAt(ts, p, i) || (IsTarget(ts, p) && AssignedAt(ts, p, i))
  }

  /** At `m` the value of the name at `p` starts, with a backslash of which nobody knows what it does. */
  predicate UnclearAt(ts: seq<Lexeme>, p: nat, m: nat) {
    (ValueAt(ts, p, m) || ArgumentAt(ts, p, m)) && Unclear(ts[m])
  }

  /** What the token at `p` has for its value drops the rest of the statement, from `i` or before. */
  ghost predicate Drops(ts: seq<Lexeme>, p: nat, i: nat) {
    || (UnclearAt(ts, p, p + 1) && p + 1 <= i)
    || (UnclearAt(ts, p, p + 2) && p + 2 <= i)
    || (RewrittenAt(ts, p) && DropsRest(ts[p]))
  }

  /** What is done for the token at `p` replaces or drops the one at `i`. */
  ghost predicate Reaches(ts: seq<Lexeme>, p: nat, i: nat) {
    p < i < |ts| && (Put(ts, p, i) || Drops(ts, p, i))
  }

  /** The token goes with what is done for one in front of it, which is still there. */
  ghost predicate Lost(ts: seq<Lexeme>, i: nat) {
    exists p :: 0 <= p < i && Reaches(ts, p, i) && !Lost(ts, p)
  }

  // One turn of the loop

  lemma {:induction false} Seen(ts: seq<Lexeme>, k: nat, m: nat)
    requires k <= m <= |ts|
    ensures ValueAt(ts[k..], 0, m - k) <==> ValueAt(ts, k, m)
    ensures ArgumentAt(ts[k..], 0, m - k) <==> ArgumentAt(ts, k, m)
    ensures QuotedAt(ts[k..], 0, m - k) <==> QuotedAt(ts, k, m)
  {
    hide TellsSecret, Separates, IsNameConstant, NamesSecret;
  }

  lemma {:induction false} SeenRun(ts: seq<Lexeme>, k: nat, m: nat, j: nat)
    requires k <= m && k <= j < |ts|
    ensures Continues(ts[k..], m - k, j - k) <==> Continues(ts, m, j)
  {
    var vs := ts[k..];
    assert forall i :: k <= i < |ts| ==> vs[i - k] == ts[i];
    assert forall i :: 0 <= i < |vs| ==> vs[i] == ts[i + k];
  }

  lemma {:induction false} SeenAssigned(ts: seq<Lexeme>, k: nat, j: nat)
    requires k <= j < |ts|
    ensures AssignedAt(ts[k..], 0, j - k) <==> AssignedAt(ts, k, j)
  {
    hide TellsSecret, Separates, IsHarmless, IsSign;
    var vs := ts[k..];
    assert forall i :: k <= i < |ts| ==> vs[i - k] == ts[i];
    assert forall i :: 0 <= i < |vs| ==> vs[i] == ts[i + k];
  }

  lemma {:induction false} SeenRewritten(ts: seq<Lexeme>, k: nat)
    requires k < |ts|
    ensures RewrittenAt(ts[k..], 0) <==> RewrittenAt(ts, k)
  {
    hide Rewrites, ArgumentAt, NamesNoSecret;
    if k + 2 <= |ts| {
      Seen(ts, k, k + 2);
    } else {
      NoArgument(ts, k);
      NoArgument(ts[k..], 0);
    }
  }

  lemma {:induction false} NoArgument(ts: seq<Lexeme>, k: nat)
    requires |ts| < k + 3
    ensures !ArgumentAt(ts, k, k + 2)
  {
  }

  /** The decision at `k`, with the context that the tokens before it make. */
  function Turn(ts: seq<Lexeme>, k: nat): Step
    requires k < |ts| && ts[k].WellFormed()
  {
    Decide(After(START, ts[..k]), ts[k..])
  }

  lemma {:induction false} EditedExactly(ts: seq<Lexeme>, k: nat, j: nat)
    requires k <= j < |ts| && ts[k].WellFormed()
    ensures Edited(Turn(ts, k), j - k) <==>
            Put(ts, k, j) || (j == k && RewrittenAt(ts, k))
  {
    hide Decide, After, ValueAt, ArgumentAt, QuotedAt, Continues, AssignedAt, RewrittenAt, Dotted, BehindSet, Edited;
    StepExactly(After(START, ts[..k]), ts[k..], j - k);
    TargetExactly(ts, k);
    Seen(ts, k, j);
    SeenAssigned(ts, k, j);
    SeenRewritten(ts, k);
    RunSeen(ts, k, j, 1);
    RunSeen(ts, k, j, 2);
  }

  lemma {:induction false} RunSeen(ts: seq<Lexeme>, k: nat, j: nat, d: nat)
    requires k <= j < |ts|
    ensures ValueAt(ts[k..], 0, d) && Continues(ts[k..], d, j - k) <==> ValueAt(ts, k, k + d) && Continues(ts, k + d, j)
    ensures ArgumentAt(ts[k..], 0, d) && Continues(ts[k..], d, j - k) <==> ArgumentAt(ts, k, k + d) && Continues(ts, k + d, j)
  {
    hide ValueAt, ArgumentAt;
    if k + d <= |ts| {
      Seen(ts, k, k + d);
    }
    SeenRun(ts, k, k + d, j);
  }

  /** A value starts where it is first continued from. */
  lemma {:induction false} StartsAt(ts: seq<Lexeme>, p: nat, f: nat)
    requires p < f < |ts| && Put(ts, p, f) && (f == p + 1 || !Put(ts, p, f - 1))
    ensures f == p + 1 || f == p + 2
    ensures Unclear(ts[f]) <==> UnclearAt(ts, p, f)
  {
    hide TellsSecret, Separates, IsNameConstant, NamesSecret, IsHarmless, IsTarget;
  }

  /** Where the edit made at `k` starts, what it puts and when it drops the rest. */
  lemma {:induction false} EditStarts(ts: seq<Lexeme>, k: nat)
    requires k < |ts| && ts[k].WellFormed() && Turn(ts, k).Edit?
    ensures var e := Turn(ts, k); var f := k + e.from;
            && f < k + e.to <= |ts|
            && (f == k ==> e.to == 1 && RewrittenAt(ts, k) && (e.toEnd <==> DropsRest(ts[k])) && (e.toEnd ==> e.repl.text == "'********'"))
            && (f > k ==> f <= k + 2 && (e.toEnd <==> UnclearAt(ts, k, f)))
            && (f > k && ts[f].kind != QuotedIdent ==> e.repl.text == "'********'")
            && (f > k && ts[f].kind == QuotedIdent ==> e.to == e.from + 1)
  {
    hide Decide, After, ValueAt, ArgumentAt, QuotedAt, AssignedAt, RewrittenAt, DropsRest, Dotted, BehindSet, Rewrites, Gives, ConnRewrite, Unclear, Continues;
    var c, vs, e := After(START, ts[..k]), ts[k..], Turn(ts, k);
    var f := k + e.from;
    StepPuts(c, vs);
    SeenRewritten(ts, k);
    EditedExactly(ts, k, f);
    assert vs[0] == ts[k] && vs[e.from] == ts[f];
    if f == k {
      RewrittenConstant(ts, k);
      ConnExactly(ts[k]);
    } else {
      if f > k + 1 {
        EditedExactly(ts, k, f - 1);
      }
      StartsAt(ts, k, f);
    }
  }

  lemma {:induction false} RewrittenConstant(ts: seq<Lexeme>, k: nat)
    requires RewrittenAt(ts, k)
    ensures IsConstant(ts[k])
  {
    hide Rewrites;
  }

  /** A token has one kind of value. */
  lemma {:induction false} OneValue(ts: seq<Lexeme>, k: nat)
    ensures ValueAt(ts, k, k + 1) ==> !ValueAt(ts, k, k + 2) && !RewrittenAt(ts, k)
    ensures ValueAt(ts, k, k + 1) || ValueAt(ts, k, k + 2) ==> !ArgumentAt(ts, k, k + 2)
    ensures ValueAt(ts, k, k + 2) || ArgumentAt(ts, k, k + 2) ==> !RewrittenAt(ts, k) && (k < |ts| ==> !Put(ts, k, k + 1))
    ensures !ArgumentAt(ts, k, k + 1)
  {
    hide NamesSecret, Rewrites, IsTarget, Undouble, Spells, IsHarmless;
  }

  /** What the edit made at `k` replaces or drops. */
  lemma {:induction false} Reached(ts: seq<Lexeme>, k: nat, j: nat)
    requires k <= j < |ts| && ts[k].WellFormed()
    ensures var e := Turn(ts, k);
            e.Edit? && k + e.from <= j && (e.toEnd || j < k + e.to) <==> if j == k then RewrittenAt(ts, k) else Reaches(ts, k, j)
  {
    hide Turn, ValueAt, ArgumentAt, RewrittenAt, DropsRest, Put, Unclear;
    EditedExactly(ts, k, j);
    EditedExactly(ts, k, k);
    OneValue(ts, k);
    PutLater(ts, k);
    var e := Turn(ts, k);
    if e.Edit? {
      EditStarts(ts, k);
    }
    if UnclearAt(ts, k, k + 1) {
      UnclearPut(ts, k, k + 1);
      EditedExactly(ts, k, k + 1);
    }
    if UnclearAt(ts, k, k + 2) {
      UnclearPut(ts, k, k + 2);
      EditedExactly(ts, k, k + 2);
      EditedExactly(ts, k, k + 1);
    }
  }

  lemma {:induction false} PutLater(ts: seq<Lexeme>, k: nat)
    requires k < |ts|
    ensures !Put(ts, k, k)
  {
    hide TellsSecret, Separates, IsTarget;
  }

  lemma {:induction false} UnclearPut(ts: seq<Lexeme>, k: nat, m: nat)
    requires UnclearAt(ts, k, m)
    ensures m < |ts| && Put(ts, k, m)
  {
    hide TellsSecret, Separates, IsTarget, IsNameConstant, NamesSecret;
    assert Continues(ts, m, m);
  }

  // The loop

  /** The edits made before `k` leave what follows alone. */
  ghost predicate Clear(ts: seq<Lexeme>, k: nat) {
    forall p, i :: 0 <= p < k <= i < |ts| && Reaches(ts, p, i) ==> Lost(ts, p)
  }

  lemma {:induction false} NotLost(ts: seq<Lexeme>, k: nat)
    requires k < |ts| && Clear(ts, k)
    ensures !Lost(ts, k)
  {
    hide Reaches;
  }

  lemma {:induction false} LostFrom(ts: seq<Lexeme>, p: nat, i: nat)
    requires p < i && Reaches(ts, p, i) && !Lost(ts, p)
    ensures Lost(ts, i)
  {
    hide Reaches;
  }

  /** What stands between a name and its value has no value. */
  lemma {:induction false} BetweenIdle(ts: seq<Lexeme>, k: nat, i: nat)
    requires k + 2 < |ts| && (Separates(ts[k + 1]) || IsSign(ts[k + 1], ','))
    ensures !Reaches(ts, k + 1, i) && !RewrittenAt(ts, k + 1)
  {
    hide NamesSecret, Undouble, IsTarget, InWord, Rewrites;
    if Separates(ts[k + 1]) {
      SeparatorNoSecret(ts[k + 1]);
    }
  }

  lemma {:induction false} SeparatorNoSecret(t: Lexeme)
    requires Separates(t)
    ensures !TellsSecret(t)
  {
    hide HasPart, Spells, Undouble;
    if t.kind == Ident {
      ToShort(t.text);
    }
  }

  lemma {:induction false} ToShort(name: string)
    requires Spells(name, "to")
    ensures !NamesSecret(name)
  {
    hide SameLetter;
    assert |name| == 2;
  }

  /** What stands in front of an edit has a separator or a comma behind it. */
  lemma {:induction false} BetweenIs(ts: seq<Lexeme>, k: nat)
    requires k < |ts| && ts[k].WellFormed() && Turn(ts, k).Edit? && Turn(ts, k).from == 2
    ensures k + 2 < |ts| && (Separates(ts[k + 1]) || IsSign(ts[k + 1], ','))
  {
    hide Turn, TellsSecret, Separates, IsTarget, IsNameConstant, NamesSecret, IsHarmless, RewrittenAt, UnclearAt, DropsRest;
    EditStarts(ts, k);
    EditedExactly(ts, k, k + 2);
    EditedExactly(ts, k, k + 1);
  }

  /** The next turn of the loop. */
  lemma {:induction false} ClearNext(ts: seq<Lexeme>, k: nat)
    requires k < |ts| && ts[k].WellFormed() && Clear(ts, k)
    ensures var e := Turn(ts, k); if e == Keep then Clear(ts, k + 1) else k + e.to <= |ts| && (!e.toEnd ==> Clear(ts, k + e.to))
  {
    hide Turn, Reaches, Lost, RewrittenAt;
    var e := Turn(ts, k);
    NotLost(ts, k);
    if e.Edit? {
      EditStarts(ts, k);
    }
    if e == Keep || !e.toEnd {
      var next := if e == Keep then k + 1 else k + e.to;
      forall p, i | 0 <= p < next <= i < |ts| && Reaches(ts, p, i) ensures Lost(ts, p) {
        if p == k {
          Reached(ts, k, i);
        } else if p > k {
          Reached(ts, k, p);
          if p < k + e.from {
            BetweenIs(ts, k);
            BetweenIdle(ts, k, i);
          } else {
            LostFrom(ts, k, p);
          }
        }
      }
    }
  }

  /** The tokens in front of the edit made at `k` are neither rewritten nor lost. */
  lemma {:induction false} FrontStays(ts: seq<Lexeme>, k: nat, n: nat)
    requires k <= n < |ts| && ts[k].WellFormed() && Clear(ts, k)
    requires var e := Turn(ts, k); if e == Keep then n == k else n < k + e.from
    ensures !Lost(ts, n) && !RewrittenAt(ts, n)
  {
    hide Turn, Reaches, RewrittenAt, Lost;
    NotLost(ts, k);
    Reached(ts, k, k);
    Reached(ts, k, n);
    if n > k {
      EditStarts(ts, k);
      BetweenIs(ts, k);
      BetweenIdle(ts, k, n);
      OnlyFrom(ts, k, n);
    }
  }

  lemma {:induction false} OnlyFrom(ts: seq<Lexeme>, k: nat, n: nat)
    requires k < |ts| && Clear(ts, k) && n == k + 1 < |ts| && !Reaches(ts, k, n)
    ensures !Lost(ts, n)
  {
    hide Reaches;
  }

  lemma {:induction false} TouchedStep(s: Script, k: nat, c: Context, n: nat, e: Step)
    requires WellFormed(s.pieces) && k <= n < |s.pieces| && Decide(c, Toks(s.pieces[k..])) == e
    ensures e == Keep ==> (Touched(s, k, c, n) <==> n > k && Touched(s, k + 1, Next(c, s.pieces[k].tok), n))
    ensures e.Edit? ==>
              && k + e.from < k + e.to <= |s.pieces|
              && (Touched(s, k, c, n) <==>
                  if e.toEnd || n < k + e.to then k + e.from <= n
                  else Touched(s, k + e.to, After(c, Toks(s.pieces)[k..k + e.from] + [e.repl]), n))
  {
    hide Decide, Next, After;
  }

  /** From `k` on, the walk replaces or drops exactly the tokens that are lost, and those that are rewritten. */
  lemma {:induction false} TouchedFrom(s: Script, k: nat, c: Context, n: nat)
    requires WellFormed(s.pieces) && k <= n < |s.pieces| && Agrees(c, Toks(s.pieces), k) && Clear(Toks(s.pieces), k)
    ensures var ts := Toks(s.pieces); Touched(s, k, c, n) <==> Lost(ts, n) || RewrittenAt(ts, n)
    decreases |s.pieces| - k
  {
    hide Decide, Next, After, Agrees, Clear, Lost, Reaches, RewrittenAt, Toks, Touched;
    var ps, ts := s.pieces, Toks(s.pieces);
    ToksFrom(ps, k);
    DecideAgrees(c, ts, k);
    var e := Turn(ts, k);
    TouchedStep(s, k, c, n, e);
    ClearNext(ts, k);
    NotLost(ts, k);
    if e == Keep {
      if n == k {
        FrontStays(ts, k, k);
      } else {
        AgreesKeep(c, ts, k);
        TouchedFrom(s, k + 1, Next(c, ps[k].tok), n);
      }
    } else if n < k + e.from {
      FrontStays(ts, k, n);
    } else if e.toEnd || n < k + e.to {
      Reached(ts, k, n);
      if n > k {
        LostFrom(ts, k, n);
      }
    } else {
      AgreesEdit(c, ts, k, e);
      TouchedFrom(s, k + e.to, After(c, ts[k..k + e.from] + [e.repl]), n);
    }
  }

  /** Redaction replaces or drops a token if and only if it is lost or rewritten in this sense. */
  lemma {:induction false} TouchedExactly(query: string, n: nat)
    requires n < |Solid(Lex(query))|
    ensures |Statement(query).pieces| == |Solid(Lex(query))|
    ensures var ps, ts := Statement(query).pieces, Solid(Lex(query));
            Hit(EditsOf(query), TokenAt(ps, n), Offset(ps, n + 1)) <==> Lost(ts, n) || RewrittenAt(ts, n)
  {
    hide Lex, Statement, Touched, Edits, Hit, Offset, TokenAt, Solid, Lost, RewrittenAt, Toks, Agrees, Reaches;
    var s := Statement(query);
    SolidTokens(query);
    SqlGate.StatementText(query);
    TouchedIsHit(query, s, 0, START, n);
    Begin(query);
    TouchedFrom(s, 0, START, n);
  }

  lemma {:induction false} SolidTokens(query: string)
    ensures Toks(Statement(query).pieces) == Solid(Lex(query)) && |Statement(query).pieces| == |Solid(Lex(query))|
    ensures WellFormed(Statement(query).pieces)
  {
    hide Lex, Group, Solid;
    SolidIs(Lex(query));
  }

  /** One edit takes the whole stretch away and puts the placeholder. */
  predicate Masks(reps: seq<Replacement>, lo: nat, hi: nat) {
    exists i :: 0 <= i < |reps| && reps[i].start <= lo && hi <= reps[i].end && reps[i].with == "'********'"
  }

  lemma {:induction false} MasksCons(r: Replacement, reps: seq<Replacement>, lo: nat, hi: nat)
    ensures Masks([r] + reps, lo, hi) <==> (r.start <= lo && hi <= r.end && r.with == "'********'") || Masks(reps, lo, hi)
  {
    var all := [r] + reps;
    assert all[0] == r;
    if Masks(reps, lo, hi) {
      var i :| 0 <= i < |reps| && reps[i].start <= lo && hi <= reps[i].end && reps[i].with == "'********'";
      assert all[i + 1] == reps[i];
    }
    if Masks(all, lo, hi) {
      var i :| 0 <= i < |all| && all[i].start <= lo && hi <= all[i].end && all[i].with == "'********'";
      assert i > 0 ==> all[i] == reps[i - 1];
    }
  }

  /** The edit made at `k` puts the placeholder for a constant that it takes away. */
  lemma {:induction false} PutsStars(ts: seq<Lexeme>, k: nat, n: nat)
    requires k < n < |ts| && ts[k].WellFormed() && IsConstant(ts[n])
    requires var e := Turn(ts, k); e.Edit? && k + e.from <= n && (e.toEnd || n < k + e.to)
    ensures Turn(ts, k).repl.text == "'********'"
  {
    hide Turn, RewrittenAt, DropsRest, ValueAt, ArgumentAt;
    EditStarts(ts, k);
  }

  lemma {:induction false} LostMasked(s: Script, k: nat, c: Context, n: nat)
    requires WellFormed(s.pieces) && k <= n < |s.pieces| && Agrees(c, Toks(s.pieces), k) && Clear(Toks(s.pieces), k)
    requires IsConstant(s.pieces[n].tok) && Lost(Toks(s.pieces), n)
    ensures Masks(Edits(s, k, c), TokenAt(s.pieces, n), Offset(s.pieces, n + 1))
    decreases |s.pieces| - k
  {
    hide Decide, Next, After, Agrees, Clear, Lost, Reaches, RewrittenAt, Toks, Masks, TokenAt, Offset, Join, Ungroup, IsConstant, Edits;
    var ps, ts := s.pieces, Toks(s.pieces);
    ToksFrom(ps, k);
    DecideAgrees(c, ts, k);
    var e := Turn(ts, k);
    ClearNext(ts, k);
    NotLost(ts, k);
    if e == Keep {
      AgreesKeep(c, ts, k);
      LostMasked(s, k + 1, Next(c, ps[k].tok), n);
      EditsKeep(s, k, c);
    } else {
      if n < k + e.from {
        FrontStays(ts, k, n);
      }
      if e.toEnd || n < k + e.to {
        MaskedHere(s, k, c, n, e);
      } else {
        AgreesEdit(c, ts, k, e);
        LostMasked(s, k + e.to, After(c, ts[k..k + e.from] + [e.repl]), n);
        MaskedLater(s, k, c, n, e);
      }
    }
  }

  lemma {:induction false} EditsKeep(s: Script, k: nat, c: Context)
    requires WellFormed(s.pieces) && k < |s.pieces| && Decide(c, Toks(s.pieces[k..])) == Keep
    ensures Edits(s, k, c) == Edits(s, k + 1, Next(c, s.pieces[k].tok))
  {
    hide Decide, Next, After, Toks, TokenAt, Offset, Join, Ungroup;
  }

  /** By the edit made here. */
  lemma {:induction false} MaskedHere(s: Script, k: nat, c: Context, n: nat, e: Step)
    requires WellFormed(s.pieces) && k < n < |s.pieces| && Agrees(c, Toks(s.pieces), k) && IsConstant(s.pieces[n].tok)
    requires Decide(c, Toks(s.pieces[k..])) == e && e.Edit? && k + e.from <= n && (e.toEnd || n < k + e.to)
    ensures Masks(Edits(s, k, c), TokenAt(s.pieces, n), Offset(s.pieces, n + 1))
  {
    hide Decide, After, Agrees, Toks, Masks, TokenAt, Offset, Join, Ungroup, IsConstant, Edits;
    var ps, ts := s.pieces, Toks(s.pieces);
    ToksFrom(ps, k);
    ToksFrom(ps, n);
    DecideAgrees(c, ts, k);
    PutsStars(ts, k, n);
    EditsHere(s, k, c, e);
    StartsGrow(s, k + e.from, n);
    OffsetsGrow(s, n + 1, if e.toEnd then |ps| else k + e.to);
    var r, more := Edits(s, k, c)[0], Edits(s, k, c)[1..];
    assert Edits(s, k, c) == [r] + more;
    MasksCons(r, more, TokenAt(ps, n), Offset(ps, n + 1));
  }

  /** Or by one of those behind it. */
  lemma {:induction false} MaskedLater(s: Script, k: nat, c: Context, n: nat, e: Step)
    requires WellFormed(s.pieces) && k <= n < |s.pieces| && Decide(c, Toks(s.pieces[k..])) == e && e.Edit? && !e.toEnd
    requires k + e.to <= |s.pieces| && Masks(Edits(s, k + e.to, After(c, Toks(s.pieces)[k..k + e.from] + [e.repl])), TokenAt(s.pieces, n), Offset(s.pieces, n + 1))
    ensures Masks(Edits(s, k, c), TokenAt(s.pieces, n), Offset(s.pieces, n + 1))
  {
    hide Decide, After, Toks, Masks, TokenAt, Offset, Join, Ungroup, Edits;
    var ps := s.pieces;
    EditsHere(s, k, c, e);
    var r, more := Edits(s, k, c)[0], Edits(s, k + e.to, After(c, Toks(ps)[k..k + e.from] + [e.repl]));
    assert Edits(s, k, c) == [r] + more;
    MasksCons(r, more, TokenAt(ps, n), Offset(ps, n + 1));
  }

  /** A constant that is lost is under the placeholder. */
  lemma {:induction false} LostHidden(query: string, n: nat)
    requires n < |Solid(Lex(query))| && IsConstant(Solid(Lex(query))[n]) && Lost(Solid(Lex(query)), n)
    ensures |Statement(query).pieces| == |Solid(Lex(query))|
    ensures var ps := Statement(query).pieces; Masks(EditsOf(query), TokenAt(ps, n), Offset(ps, n + 1))
  {
    hide Lex, Statement, Edits, Masks, Offset, TokenAt, Solid, Lost, Toks, Agrees, Reaches, IsConstant;
    SolidTokens(query);
    Begin(query);
    ToksFrom(Statement(query).pieces, n);
    LostMasked(Statement(query), 0, START, n);
  }

  /** The value of a secret's name, in every statement: it is under the placeholder, unless the name is itself a
      quoted identifier or a constant that is replaced as the value of another name. */
  lemma {:induction false} SecretHidden(query: string, i: nat, n: nat)
    requires Gives(Solid(Lex(query)), i, n)
    ensures n < |Statement(query).pieces| == |Solid(Lex(query))|
    ensures var ps, ts := Statement(query).pieces, Solid(Lex(query));
            || Masks(EditsOf(query), TokenAt(ps, n), Offset(ps, n + 1))
            || exists p :: 0 <= p < i && (QuotedAt(ts, p, i) || Gives(ts, p, i)) && !Lost(ts, p)
  {
    hide Lex, Statement, Masks, Offset, TokenAt, Solid, Lost;
    var ts := Solid(Lex(query));
    SolidTokens(query);
    GivenConstant(ts, i, n);
    if !Lost(ts, n) {
      NameTaken(ts, i, n);
    } else {
      LostHidden(query, n);
    }
  }

  lemma {:induction false} GivenConstant(ts: seq<Lexeme>, i: nat, n: nat)
    requires Gives(ts, i, n)
    ensures i < n < |ts| && IsConstant(ts[n])
  {
    hide TellsSecret, Separates, IsNameConstant, NamesSecret;
  }

  /** A value that is not lost has a name that is the value of another. */
  lemma {:induction false} NameTaken(ts: seq<Lexeme>, i: nat, n: nat)
    requires Gives(ts, i, n) && !Lost(ts, n)
    ensures exists p :: 0 <= p < i && (QuotedAt(ts, p, i) || Gives(ts, p, i)) && !Lost(ts, p)
  {
    hide Gives, Drops, QuotedAt, AssignedAt, IsTarget;
    GivenConstant(ts, i, n);
    assert Reaches(ts, i, n);
    var p :| 0 <= p < i && Reaches(ts, p, i) && !Lost(ts, p);
    assert !Reaches(ts, p, n);
    DropsOn(ts, p, i, n);
    if IsTarget(ts, p) && AssignedAt(ts, p, i) {
      AssignedOn(ts, p, i, n);
    }
  }

  lemma {:induction false} DropsOn(ts: seq<Lexeme>, p: nat, i: nat, n: nat)
    requires i <= n
    ensures Drops(ts, p, i) ==> Drops(ts, p, n)
  {
    hide UnclearAt, RewrittenAt, DropsRest;
  }

  /** What is assigned goes on to the end of a value that starts in it. */
  lemma {:induction false} AssignedOn(ts: seq<Lexeme>, p: nat, i: nat, n: nat)
    requires AssignedAt(ts, p, i) && Gives(ts, i, n)
    ensures AssignedAt(ts, p, n)
  {
    hide TellsSecret, IsNameConstant, NamesSecret, IsHarmless;
    GivenConstant(ts, i, n);
    assert forall k :: i < k <= n ==> !IsSign(ts[k], ';');
  }
}
