/**
 The printer of pkg/connstring/connstring.go against the tokenizer of pkg/connstring/redact.go.
 */
module ConnStringPrint {
  import opened Text
  import opened ConnString
  import opened ConnStringLaws
  import opened ConnStringEscape

  /** The parameter the printer writes for a pair, after the separator `lead`. */
  function Printed(lead: string, pair: (string, string)): Param {
    Param(lead, pair.0, "", "", "'" + Double(pair.1, '\\') + "'", pair.1)
  }

  predicate KeysPlain(pairs: seq<(string, string)>) {
    forall i :: 0 <= i < |pairs| ==> All(IsKeyChar, pairs[i].0)
  }

  predicate NoQuotes(pairs: seq<(string, string)>) {
    forall i :: 0 <= i < |pairs| ==> '\'' !in pairs[i].1
  }

  /** What a tokenized string says: its keys and decoded values, in order. */
  function KeyValues(ps: seq<Param>): (r: seq<(string, string)>)
    ensures |r| == |ps|
  {
    seq(|ps|, i requires 0 <= i < |ps| => (ps[i].key, ps[i].value))
  }

  /** The text of the printed pairs, the first of them after `lead`. */
  function PrintAfter(lead: string, pairs: seq<(string, string)>): string {
    if pairs == [] then "" else lead + Print(pairs)
  }

  /** Cut the first pair off a printed list. */
  lemma {:induction false} PrintCons(lead: string, pairs: seq<(string, string)>)
    requires pairs != []
    ensures PrintAfter(lead, pairs)
         == lead + pairs[0].0 + "=" + ("'" + EscapeValue(pairs[0].1) + ("'" + PrintAfter(" ", pairs[1..])))
  {
    hide EscapeValue;
    var k, e := pairs[0].0, EscapeValue(pairs[0].1);
    if |pairs| == 1 {
      assert pairs[1..] == [];
    }
    assert Print(pairs) == PrintPair(pairs[0]) + PrintAfter(" ", pairs[1..]) by {
      Associate(PrintPair(pairs[0]), " ", Print(pairs[1..]));
      assert PrintPair(pairs[0]) + "" == PrintPair(pairs[0]);
    }
    Reassociate(lead, k, e, PrintAfter(" ", pairs[1..]));
  }

  lemma {:induction false} Reassociate(lead: string, k: string, e: string, r: string)
    ensures lead + ((k + "='" + e + "'") + r) == lead + k + "=" + ("'" + e + ("'" + r))
  {
    assert "='" == "=" + "'";
    Associate(k, "=", "'");
    Associate(k + "=", "'", e);
    Associate(k + "=", "'" + e, "'");
    Associate(k + "=", ("'" + e) + "'", r);
    Associate("'" + e, "'", r);
    Associate(lead, k + "=", "'" + e + ("'" + r));
    Associate(lead, k, "=");
  }

  /** Reading a printed pair: its value ends at the first quote of what was printed for it. */
  lemma {:induction false} ReadPair(lead: string, key: string, a: string, rest: string)
    requires All(IsConnSpace, lead) && All(IsKeyChar, key) && '\'' !in a
    ensures var p := Printed(lead, (key, a));
            ParseOne(lead + key + "=" + ("'" + Double(a, '\\') + ("'" + rest))) == Got(p, rest)
  {
    hide QuotedValue, ParseOne, Double;
    var p := Printed(lead, (key, a));
    var d := Double(a, '\\');
    QuotedDoubled(a, rest);
    assert p.raw + rest == "'" + (d + ("'" + rest));
    assert (p.raw + rest)[1..] == d + ("'" + rest);
    assert WellCut(p, rest);
    ParseOneIs(p, rest);
    assert p.Text() + rest == lead + key + "=" + ("'" + d + ("'" + rest)) by {
      assert p.Head() == lead + key + "=";
      Associate(p.Head(), p.raw, rest);
    }
  }

  /** `s` tokenizes to exactly the given keys and values. */
  predicate ReadsBack(s: string, pairs: seq<(string, string)>) {
    Parse(s).Pairs? && KeyValues(Parse(s).params) == pairs
  }

  lemma {:induction false} ReadsBackCons(s: string, p: Param, rest: string, pairs: seq<(string, string)>)
    requires ParseOne(s) == Got(p, rest) && pairs != []
    ensures ReadsBack(s, pairs) <==> (p.key, p.value) == pairs[0] && ReadsBack(rest, pairs[1..])
  {
    hide ParseOne;
    if Parse(rest).Pairs? {
      var qs := Parse(rest).params;
      assert KeyValues([p] + qs) == [(p.key, p.value)] + KeyValues(qs);
      assert pairs == [pairs[0]] + pairs[1..];
      if KeyValues([p] + qs) == pairs {
        assert KeyValues(qs) == pairs[1..];
      }
    }
  }

  /** A value with a quote is cut short there. */
  lemma {:induction false} QuoteLost(lead: string, pairs: seq<(string, string)>, rest: string)
    requires All(IsConnSpace, lead) && pairs != [] && All(IsKeyChar, pairs[0].0) && '\'' in pairs[0].1
    ensures !ReadsBack(lead + pairs[0].0 + "=" + ("'" + EscapeValue(pairs[0].1) + ("'" + rest)), pairs)
  {
    hide ParseOne, ReadsBack, EscapeValue, Double;
    var (key, v) := pairs[0];
    var k :| 0 <= k < |v| && v[k] == '\'' && '\'' !in v[..k] by { FirstQuote(v); }
    assert v == v[..k] + "'" + v[k + 1..];
    var e := EscapeQuote(v[..k], v[k + 1..]);
    var d, rest' := Double(v[..k], '\\'), e + ("'" + rest);
    Associate("'", d, "'" + e);
    Associate("'" + d, "'" + e, "'" + rest);
    Associate("'", e, "'" + rest);
    ReadPair(lead, key, v[..k], rest');
    ReadsBackCons(lead + key + "=" + ("'" + d + ("'" + rest')), Printed(lead, (key, v[..k])), rest', pairs);
  }

  lemma {:induction false} RoundTripAfter(lead: string, pairs: seq<(string, string)>)
    requires All(IsConnSpace, lead) && KeysPlain(pairs)
    ensures ReadsBack(PrintAfter(lead, pairs), pairs) <==> NoQuotes(pairs)
    decreases |pairs|
  {
    hide ParseOne, ReadsBack, EscapeValue, Double;
    if pairs == [] {
      ReadsBackNone();
    } else {
      var (key, v) := pairs[0];
      var s, rest := PrintAfter(lead, pairs), PrintAfter(" ", pairs[1..]);
      PrintCons(lead, pairs);
      if '\'' in v {
        QuoteLost(lead, pairs, rest);
      } else {
        EscapePlain(v);
        ReadPair(lead, key, v, rest);
        ReadsBackCons(s, Printed(lead, (key, v)), rest, pairs);
        RoundTripAfter(" ", pairs[1..]);
        assert forall i :: 0 <= i < |pairs[1..]| ==> pairs[1..][i] == pairs[i + 1];
        assert NoQuotes(pairs) <==> NoQuotes(pairs[1..]) by {
          assert forall i :: 0 <= i < |pairs| ==> pairs[i] == if i == 0 then pairs[0] else pairs[1..][i - 1];
        }
      }
    }
  }

  lemma {:induction false} ReadsBackNone()
    ensures ReadsBack("", [])
  {
    hide Run;
    ParseSpaces("");
  }

  /** In whatever order the parameters are printed, tokenizing gives them back, backslashes included,
      exactly when no value holds a single quote. */
  lemma {:induction false} BuildRoundTrip(pairs: seq<(string, string)>)
    requires KeysPlain(pairs)
    ensures ReadsBack(Print(pairs), pairs) <==> NoQuotes(pairs)
  {
    hide ReadsBack;
    RoundTripAfter("", pairs);
    assert "" + Print(pairs) == Print(pairs);
  }
}
