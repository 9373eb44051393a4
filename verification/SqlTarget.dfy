/**
 Whether a name is the target of a SET command, found by looking back from it as the source does.
 */
module SqlTarget {
  import opened Text
  import opened SqlLexer
  import opened SqlRedact

  /** Where a dotted name that has its last part at `k` starts. */
  function NameStart(ts: seq<Lexeme>, k: nat): (j: nat)
    requires k <= |ts|
    ensures j <= k
  {
    if k >= 2 && ts[k - 1].Is(Other, ".") && ts[k - 2].IsName() then NameStart(ts, k - 2) else k
  }

  predicate IsScope(t: Lexeme) { t.Is(Ident, "local") || t.Is(Ident, "session") }

  /** A SET command's target starts where the name at `k` does. */
  predicate LooksBack(ts: seq<Lexeme>, k: nat)
    requires k <= |ts|
  {
    var j := NameStart(ts, k);
    var i := if j >= 1 && IsScope(ts[j - 1]) then j - 1 else j;
    i >= 1 && ts[i - 1].Is(Ident, "set")
  }

  lemma {:induction false} AfterLast(c: Context, ts: seq<Lexeme>, t: Lexeme)
    ensures After(c, ts + [t]) == Next(After(c, ts), t)
    decreases |ts|
  {
    hide Next;
    if ts == [] {
      assert ts + [t] == [t] && [t][1..] == [];
    } else {
      assert (ts + [t])[1..] == ts[1..] + [t];
      AfterLast(Next(c, ts[0]), ts[1..], t);
    }
  }

  lemma {:induction false} AfterStep(ts: seq<Lexeme>, k: nat)
    requires 0 < k <= |ts|
    ensures After(START, ts[..k]) == Next(After(START, ts[..k - 1]), ts[k - 1])
  {
    hide Next;
    assert ts[..k] == ts[..k - 1] + [ts[k - 1]];
    AfterLast(START, ts[..k - 1], ts[k - 1]);
  }

  lemma {:induction false} WordsDiffer(t: Lexeme)
    ensures t.Is(Ident, "set") ==> !IsScope(t)
  {
    assert |Lower("set")| == 3 && |Lower("local")| == 5 && |Lower("session")| == 7;
  }

  /** Looking back finds what the forward context knows. */
  lemma {:induction false} ContextLooksBack(ts: seq<Lexeme>, k: nat)
    requires k <= |ts|
    ensures After(START, ts[..k]).target == LooksBack(ts, k)
    ensures After(START, ts[..k]).afterSet == (k >= 1 && ts[k - 1].Is(Ident, "set"))
    ensures After(START, ts[..k]).name == (k >= 1 && ts[k - 1].IsName())
    ensures After(START, ts[..k]).targetBefore == (k >= 1 && ts[k - 1].IsName() && LooksBack(ts, k - 1))
    decreases k
  {
    hide Lexeme.Is, Lexeme.IsName, LooksBack;
    if k == 0 {
      assert ts[..0] == [];
      NothingBehind(ts);
    } else {
      AfterStep(ts, k);
      ContextLooksBack(ts, k - 1);
      LooksBackStep(ts, k);
    }
  }

  lemma {:induction false} NothingBehind(ts: seq<Lexeme>)
    ensures !LooksBack(ts, 0)
  {
  }

  /** Looking back, one token at a time. */
  lemma {:induction false} LooksBackStep(ts: seq<Lexeme>, k: nat)
    requires 0 < k <= |ts|
    ensures var t := ts[k - 1];
            LooksBack(ts, k) ==
            if t.Is(Other, ".") then k >= 2 && ts[k - 2].IsName() && LooksBack(ts, k - 2)
            else if IsScope(t) then k >= 2 && ts[k - 2].Is(Ident, "set")
            else t.Is(Ident, "set")
  {
    hide EqualFold;
    WordsDiffer(ts[k - 1]);
  }

  // Contexts after an edit

  lemma {:induction false} AfterAppend(c: Context, a: seq<Lexeme>, b: seq<Lexeme>)
    ensures After(c, a + b) == After(After(c, a), b)
    decreases |a|
  {
    hide Next;
    if a == [] {
      assert a + b == b;
    } else {
      assert (a + b)[1..] == a[1..] + b;
      AfterAppend(Next(c, a[0]), a[1..], b);
    }
  }

  lemma {:induction false} AfterLiteral(c: Context, t: Lexeme)
    requires t.IsLiteral()
    ensures Next(c, t) == START
  {
  }

  lemma {:induction false} AfterSemicolon(c: Context, t: Lexeme)
    requires t.Is(Other, ";")
    ensures Next(c, t) == START
  {
    assert Lower(t.text) == Lower(";");
    assert Lower(";")[0] == ';' && Lower(".")[0] == '.';
  }
}
