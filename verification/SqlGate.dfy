/**
 The cheap gate of pkg/sqlredact never hides a statement the rewriting loop would change.
 */
module SqlGate {
  import opened Text
  import opened SqlLexer
  import opened SqlRedact

  // What names a secret holds a trigger

  lemma {:induction false} FragmentsTrigger(f: string)
    requires f in SECRET_FRAGMENTS || f in WHOLE_VALUE_SETTINGS || f == "password"
    ensures exists i :: 0 <= i < |TRIGGERS| && Contains(f, TRIGGERS[i])
  {
    if f in WHOLE_VALUE_SETTINGS {
      var i :| 0 <= i < |WHOLE_VALUE_SETTINGS| && WHOLE_VALUE_SETTINGS[i] == f;
      assert TRIGGERS[i + 7] == f;
      ContainsSelf(f);
    } else if f in ["password", "passwd", "passphrase"] {
      assert f[0..4] == "pass";
      assert At(f, "pass", 0);
      assert TRIGGERS[0] == "pass";
      assert Contains(f, TRIGGERS[0]);
    } else {
      ContainsSelf(f);
      assert TRIGGERS[1] == "secret" && TRIGGERS[2] == "token" && TRIGGERS[3] == "credential"
          && TRIGGERS[4] == "private_key";
    }
  }

  lemma {:induction false} ContainsSelf(f: string)
    ensures Contains(f, f)
  {
    assert f[0..|f|] == f;
    assert At(f, f, 0);
  }

  lemma {:induction false} TriggerInside(s: string, f: string)
    requires Contains(s, f) && exists i :: 0 <= i < |TRIGGERS| && Contains(f, TRIGGERS[i])
    ensures ContainsAny(s, TRIGGERS)
  {
    hide Contains;
    var i :| 0 <= i < |TRIGGERS| && Contains(f, TRIGGERS[i]);
    ContainsTrans(s, f, TRIGGERS[i]);
  }

  lemma {:induction false} SecretNameTriggers(name: string)
    requires IsSecretName(name)
    ensures ContainsAny(Lower(name), TRIGGERS)
  {
    hide Contains, Lower;
    var n := Lower(name);
    if n in WHOLE_VALUE_SETTINGS {
      FragmentsTrigger(n);
      ContainsSelf(n);
      TriggerInside(n, n);
    } else {
      var i :| 0 <= i < |SECRET_FRAGMENTS| && Contains(n, SECRET_FRAGMENTS[i]);
      FragmentsTrigger(SECRET_FRAGMENTS[i]);
      TriggerInside(n, SECRET_FRAGMENTS[i]);
    }
  }

  lemma {:induction false} MentionTriggers(body: string)
    requires MentionsConnSecret(body)
    ensures ContainsAny(Lower(body), TRIGGERS)
  {
    hide Contains, Lower;
    var n := Lower(body);
    if Contains(n, "password") {
      FragmentsTrigger("password");
      TriggerInside(n, "password");
    } else {
      assert TRIGGERS[5] == "postgres://" && TRIGGERS[6] == "postgresql://";
    }
  }

  // Doubled quotes in a name hide no trigger

  lemma {:induction false} LowerUndouble(s: string, q: char)
    requires q < 'A'
    ensures Lower(Undouble(s, q)) == Undouble(Lower(s), q)
    decreases |s|
  {
    if s != "" {
      var k := if |s| > 1 && s[0] == q && s[1] == q then 2 else 1;
      LowerUndouble(s[k..], q);
      assert Lower(s)[k..] == Lower(s[k..]);
      var t := Undouble(s[k..], q);
      assert Lower([s[0]] + t) == [LowerChar(s[0])] + Lower(t);
    }
  }

  lemma {:induction false} UndoubledPrefix(s: string, f: string, q: char)
    requires q !in f && f <= Undouble(s, q)
    ensures f <= s
    decreases |s|
  {
    if f != "" {
      assert Undouble(s, q)[0] == f[0] == s[0];
      assert f[1..] <= Undouble(s[1..], q);
      UndoubledPrefix(s[1..], f[1..], q);
      assert s == [s[0]] + s[1..] && f == [f[0]] + f[1..];
    }
  }

  lemma {:induction false} UndoubledContains(s: string, f: string, q: char)
    requires q !in f && Contains(Undouble(s, q), f)
    ensures Contains(s, f)
    decreases |s|
  {
    hide Contains;
    var u := Undouble(s, q);
    if f <= u {
      UndoubledPrefix(s, f, q);
      ContainsPrefix(s, f);
    } else {
      ContainsRest(u, f);
      var k := if |s| > 1 && s[0] == q && s[1] == q then 2 else 1;
      assert u[1..] == Undouble(s[k..], q);
      UndoubledContains(s[k..], f, q);
      assert s[k..] == s[k..|s|];
      ContainsSlice(s, k, |s|, f);
    }
  }

  // Tokens without a trigger

  lemma {:induction false} SliceQuiet(s: string, lo: nat, hi: nat)
    requires lo <= hi <= |s| && !MightContainSecret(s)
    ensures !MightContainSecret(s[lo..hi])
  {
    hide Contains;
    if MightContainSecret(s[lo..hi]) {
      var i :| 0 <= i < |TRIGGERS| && Contains(Lower(s[lo..hi]), TRIGGERS[i]);
      LowerSlice(s, lo, hi);
      ContainsSlice(Lower(s), lo, hi, TRIGGERS[i]);
      assert false;
    }
  }

  lemma {:induction false} NoQuoteInTriggers(i: nat)
    requires i < |TRIGGERS|
    ensures '"' !in TRIGGERS[i]
  {
  }

  lemma {:induction false} QuotedNameQuiet(body: string)
    requires !MightContainSecret(body)
    ensures !IsSecretName(Undouble(body, '"'))
  {
    hide Contains, Lower, Undouble;
    if IsSecretName(Undouble(body, '"')) {
      SecretNameTriggers(Undouble(body, '"'));
      LowerUndouble(body, '"');
      var i :| 0 <= i < |TRIGGERS| && Contains(Undouble(Lower(body), '"'), TRIGGERS[i]);
      NoQuoteInTriggers(i);
      UndoubledContains(Lower(body), TRIGGERS[i], '"');
      assert false;
    }
  }

  /** The walk keeps a token whose text holds no trigger. */
  lemma {:induction false} QuietKept(c: Context, ts: seq<Lexeme>)
    requires ts != [] && ts[0].WellFormed() && !MightContainSecret(ts[0].text)
    ensures Decide(c, ts) == Keep
  {
    hide MightContainSecret, IsSecretName, Undouble, MentionsConnSecret;
    var t := ts[0];
    SliceQuiet(t.text, t.lo, t.hi);
    QuotedNameQuiet(t.Body());
    NameQuiet(t.text);
    NameQuiet(t.Body());
    BodyQuiet(t.Body());
  }

  lemma {:induction false} NameQuiet(name: string)
    requires !MightContainSecret(name)
    ensures !IsSecretName(name)
  {
    if IsSecretName(name) {
      SecretNameTriggers(name);
    }
  }

  lemma {:induction false} BodyQuiet(body: string)
    requires !MightContainSecret(body)
    ensures !MentionsConnSecret(body)
  {
    if MentionsConnSecret(body) {
      MentionTriggers(body);
    }
  }

  // The statement

  predicate AllQuiet(ts: seq<Lexeme>) {
    forall i :: 0 <= i < |ts| ==> !MightContainSecret(ts[i].text)
  }

  lemma {:induction false} LexQuiet(s: string)
    requires !MightContainSecret(s)
    ensures AllQuiet(Lex(s))
    decreases |s|
  {
    hide MightContainSecret, First;
    if s != "" {
      var n := |First(s).text|;
      SliceQuiet(s, 0, n);
      SliceQuiet(s, n, |s|);
      assert s[n..] == s[n..|s|] && First(s).text == s[0..n];
      LexQuiet(s[n..]);
    }
  }

  lemma {:induction false} GroupQuiet(ts: seq<Lexeme>)
    requires AllQuiet(ts)
    ensures AllQuiet(Toks(Group(ts).pieces))
  {
    hide MightContainSecret, Group;
    if ts == [] {
      GroupNothing(ts);
    } else {
      GroupQuiet(ts[1..]);
      GroupToks(ts);
    }
  }

  lemma {:induction false} GroupNothing(ts: seq<Lexeme>)
    requires ts == []
    ensures Group(ts) == Script([], []) && Toks(Group(ts).pieces) == []
  {
  }

  lemma {:induction false} GroupToks(ts: seq<Lexeme>)
    requires ts != []
    ensures var rest := Toks(Group(ts[1..]).pieces);
            Toks(Group(ts).pieces) == if ts[0].Significant() then [ts[0]] + rest else rest
  {
    hide Group;
    GroupFirst(ts);
    var rest := Group(ts[1..]).pieces;
    if ts[0].Significant() {
      assert Toks([Piece([], ts[0])] + rest) == [ts[0]] + Toks(rest);
    } else if rest != [] {
      assert rest == [rest[0]] + rest[1..];
      assert Toks([Piece([ts[0]] + rest[0].gap, rest[0].tok)] + rest[1..]) == Toks(rest);
    }
  }

  lemma {:induction false} GroupFirst(ts: seq<Lexeme>)
    requires ts != []
    ensures var rest := Group(ts[1..]).pieces;
            Group(ts).pieces ==
            if ts[0].Significant() then [Piece([], ts[0])] + rest
            else if rest == [] then []
            else [Piece([ts[0]] + rest[0].gap, rest[0].tok)] + rest[1..]
  {
  }

  lemma {:induction false} WalkQuiet(c: Context, s: Script)
    requires WellFormed(s.pieces) && AllQuiet(Toks(s.pieces))
    ensures Walk(c, s) == s
    decreases |s.pieces|
  {
    hide MightContainSecret, Decide, Next, After;
    var ps := s.pieces;
    if ps != [] {
      QuietKept(c, Toks(ps));
      assert Toks(ps[1..]) == Toks(ps)[1..];
      assert [ps[0]] + ps[1..] == ps;
      WalkQuiet(Next(c, ps[0].tok), Script(ps[1..], s.tail));
    }
  }

  lemma {:induction false} UngroupGroup(ts: seq<Lexeme>)
    ensures Ungroup(Group(ts)) == ts
  {
    if ts != [] {
      UngroupGroup(ts[1..]);
      var rest := Group(ts[1..]);
      if ts[0].Significant() {
        assert Group(ts).pieces[1..] == rest.pieces;
      } else if rest.pieces != [] {
        assert Group(ts).pieces[1..] == rest.pieces[1..];
      }
    }
  }

  /** The gate is a sound filter: without it, redaction would be the same function. */
  lemma {:induction false} GateSound(query: string)
    ensures !MightContainSecret(query) ==> Rewritten(query) == query
    ensures RedactQuery(query) == Rewritten(query)
  {
    hide MightContainSecret;
    if !MightContainSecret(query) {
      var ts := Lex(query);
      LexQuiet(query);
      GroupQuiet(ts);
      GroupWellFormed(ts);
      WalkQuiet(START, Statement(query));
      UngroupGroup(ts);
      LexCovers(query);
    }
  }

  /** The tokens of a statement, and their text. */
  lemma {:induction false} StatementText(query: string)
    ensures Ungroup(Statement(query)) == Lex(query) && Join(Lex(query)) == query
  {
    hide Lex, Group, Flatten;
    UngroupGroup(Lex(query));
    LexCovers(query);
  }
}
