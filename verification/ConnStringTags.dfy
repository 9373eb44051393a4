/**
 When a text that does not occur in a connection string does not occur in its redaction either.
 */
module ConnStringTags {
  import opened Text
  import opened ConnString
  import opened ConnStringLaws
  import opened ConnStringGrowth
  import opened ConnStringMask

  /** `tag` does not occur in `b + end` at any position of `b`. */
  predicate Avoids(b: string, end: string, tag: string) { forall i :: 0 <= i < |b| ==> !At(b + end, tag, i) }

  lemma {:induction false} AvoidsSuffix(a: string, b: string, end: string, tag: string)
    requires Avoids(a + b, end, tag)
    ensures Avoids(b, end, tag)
  {
    forall i | 0 <= i < |b| ensures !At(b + end, tag, i) {
      assert !At(a + b + end, tag, |a| + i);
      assert i + |tag| <= |b + end| ==> (a + b + end)[|a| + i..|a| + i + |tag|] == (b + end)[i..i + |tag|];
    }
  }

  lemma {:induction false} AvoidsPrefix(k: string, b: string, end: string, tag: string)
    requires Avoids(k + b, end, tag) && tag != ""
    ensures forall i :: 0 <= i && i + |tag| <= |k| ==> !At(k, tag, i)
  {
    forall i | 0 <= i && i + |tag| <= |k| ensures !At(k, tag, i) {
      assert !At(k + b + end, tag, i);
      assert (k + b + end)[i..i + |tag|] == k[i..i + |tag|];
    }
  }

  lemma {:induction false} AvoidsContains(b: string, tag: string)
    requires tag != ""
    ensures Avoids(b, "", tag) <==> !Contains(b, tag)
  {
    assert b + "" == b;
  }

  /** An occurrence inside a stretch of a text. */
  lemma {:induction false} AtInside(s: string, off: nat, t: string, tag: string, i: nat)
    requires off + |t| <= |s| && s[off..off + |t|] == t && i + |tag| <= |t|
    ensures At(s, tag, off + i) <==> At(t, tag, i)
  {
    SliceOfSlice(s, off, off + |t|, i, |tag|);
  }

  /** The characters of an occurrence are the tag's. */
  lemma {:induction false} AtChars(s: string, tag: string, i: nat, j: nat)
    requires i <= j < i + |tag| && j < |s| && s[j] !in tag
    ensures !At(s, tag, i)
  {
    assert i + |tag| <= |s| ==> s[i..i + |tag|][j - i] == s[j];
  }

  /** A text can be put in that begins and ends with characters the tag does not have. */
  lemma {:induction false} AvoidsPut(k: string, put: string, b: string, end: string, tag: string)
    requires tag != "" && Avoids(b, end, tag) && Lacks(put, tag)
    requires forall i :: 0 <= i && i + |tag| <= |k| ==> !At(k, tag, i)
    ensures Avoids(k + (put + b), end, tag)
  {
    hide At, Lacks, Contains;
    var s := k + (put + b) + end;
    PutParts(k, put, b, end);
    forall i | 0 <= i < |k + (put + b)| ensures !At(s, tag, i) {
      PutHere(s, k, put, b, end, tag, i);
    }
  }

  lemma {:induction false} PutParts(k: string, put: string, b: string, end: string)
    ensures var s, n, m := k + (put + b) + end, |k|, |k| + |put|;
            && |s| == m + |b + end| && |k + (put + b)| == m + |b|
            && s[0..|k|] == k && s[n..m] == put && s[m..m + |b + end|] == b + end
  {
  }

  lemma {:induction false} PutHere(s: string, k: string, put: string, b: string, end: string, tag: string, i: nat)
    requires tag != "" && Avoids(b, end, tag) && Lacks(put, tag) && i < |k| + |put| + |b|
    requires forall i :: 0 <= i && i + |tag| <= |k| ==> !At(k, tag, i)
    requires var n, m := |k|, |k| + |put|; |s| == m + |b + end| && s[0..n] == k && s[n..m] == put && s[m..m + |b + end|] == b + end
    ensures !At(s, tag, i)
  {
    hide Contains, At;
    var n, m := |k|, |k| + |put|;
    if i + |tag| <= n {
      AtInside(s, 0, k, tag, i);
    } else if i <= n {
      assert s[n] == s[n..m][0] == put[0];
      AtChars(s, tag, i, n);
    } else if i + |tag| <= m {
      AtInside(s, n, put, tag, i - n);
      NotInPut(put, tag, i - n);
    } else if i < m {
      assert s[m - 1] == s[n..m][|put| - 1] == put[|put| - 1];
      AtChars(s, tag, i, m - 1);
    } else {
      AtBehind(s, m, b + end, tag, i - m);
      assert !At(b + end, tag, i - m);
    }
  }

  lemma {:induction false} NotInPut(put: string, tag: string, i: nat)
    requires !Contains(put, tag) && i <= |put|
    ensures !At(put, tag, i)
  {
  }

  lemma {:induction false} AtBehind(s: string, off: nat, t: string, tag: string, i: nat)
    requires off + |t| == |s| && s[off..off + |t|] == t && i <= |t|
    ensures At(s, tag, off + i) ==> At(t, tag, i)
  {
    if i + |tag| <= |t| {
      AtInside(s, off, t, tag, i);
    }
  }

  /** A text that the tag can neither be in nor reach into. */
  predicate Lacks(put: string, tag: string) {
    put != "" && put[0] !in tag && put[|put| - 1] !in tag && !Contains(put, tag)
  }

  function Free(tag: string): (string, string) -> bool { (drop, put) => Lacks(put, tag) }

  /** A tag without the characters that redaction puts in. */
  predicate IsTag(tag: string) { tag != "" && '*' !in tag && '\'' !in tag && '\\' !in tag }

  lemma {:induction false} StarsLackTag(tag: string)
    requires IsTag(tag)
    ensures Lacks(STARS, tag)
  {
    hide Contains, STARS;
    StarsAre();
    if Contains(STARS, tag) {
      ContainsHead(STARS, tag);
    }
  }

  lemma {:induction false} MaskedAvoids(cuts: seq<Stretch>, last: string, end: string, tag: string)
    requires tag != "" && AllOk(Free(tag), cuts) && Avoids(Before(cuts, last), end, tag)
    ensures Avoids(Masked(cuts, last), end, tag)
    decreases |cuts|
  {
    hide Avoids, Lacks, AllOk;
    if cuts != [] {
      OkParts(Free(tag), cuts);
      var k, d, b := cuts[0].keep, cuts[0].drop, Before(cuts[1..], last);
      AvoidsPrefix(k, d + b, end, tag);
      AvoidsSuffix(k, d + b, end, tag);
      AvoidsSuffix(d, b, end, tag);
      MaskedAvoids(cuts[1..], last, end, tag);
      AvoidsPut(k, cuts[0].put, Masked(cuts[1..], last), end, tag);
    }
  }

  // Doubling

  lemma {:induction false} DoublePrefix(x: string, f: string, q: char)
    requires q !in f && f <= Double(x, q)
    ensures f <= x
    decreases |x|
  {
    if f != "" {
      assert Double(x, q)[0] == f[0] == x[0];
      assert Double(x, q)[1..] == Double(x[1..], q);
      assert f[1..] <= Double(x[1..], q);
      DoublePrefix(x[1..], f[1..], q);
      assert x == [x[0]] + x[1..] && f == [f[0]] + f[1..];
    }
  }

  lemma {:induction false} DoubleContains(x: string, f: string, q: char)
    requires q !in f && f != "" && Contains(Double(x, q), f)
    ensures Contains(x, f)
    decreases |x|
  {
    hide Contains;
    var d := Double(x, q);
    if f <= d {
      DoublePrefix(x, f, q);
      ContainsPrefix(x, f);
    } else {
      ContainsRest(d, f);
      var d1 := d[1..];
      if x[0] == q {
        assert d1[0] == q && f[0] in f;
        ContainsRest(d1, f);
        assert d1[1..] == Double(x[1..], q);
      } else {
        assert d1 == Double(x[1..], q);
      }
      DoubleContains(x[1..], f, q);
      assert x[1..] == x[1..|x|];
      ContainsSlice(x, 1, |x|, f);
    }
  }

  lemma {:induction false} RequotedLacks(e: string, tag: string)
    requires IsTag(tag) && !Contains(e, tag)
    ensures Lacks("'" + EscapeValue(e) + "'", tag)
  {
    hide EscapeValue, Contains, Avoids;
    var d, put := EscapeValue(e), "'" + EscapeValue(e) + "'";
    if Contains(d, tag) {
      EscapeContains(e, tag);
    }
    Bracketed(d, tag);
  }

  lemma {:induction false} EscapeContains(e: string, tag: string)
    requires IsTag(tag) && Contains(EscapeValue(e), tag)
    ensures Contains(e, tag)
  {
    hide Contains, Double;
    DoubleContains(Double(e, '\\'), tag, '\'');
    DoubleContains(e, tag, '\\');
  }

  lemma {:induction false} Bracketed(d: string, tag: string)
    requires tag != "" && '\'' !in tag && !Contains(d, tag)
    ensures !Contains("'" + d + "'", tag)
  {
    var put := "'" + d + "'";
    forall i: nat | i <= |put| ensures !At(put, tag, i) {
      if i + |tag| <= |put| {
        assert put[i..i + |tag|][0] == put[i] && put[i..i + |tag|][|tag| - 1] == put[i + |tag| - 1];
        if 0 < i && i + |tag| < |put| {
          assert put[i..i + |tag|] == d[i - 1..i - 1 + |tag|];
          assert !At(d, tag, i - 1);
        }
      }
    }
  }

  // Connection strings

  /** The tag occurs neither in the string nor in what stands for a nested connection string that is
      rewritten. */
  predicate TagFree(s: string, end: string, tag: string)
    decreases |s|, 2, 0
  {
    Avoids(s, end, tag) &&
    (HasUriPrefix(s) ||
     match Parse(s)
     case Malformed => true
     case Pairs(ps, _) => ValuesFree(ps, tag))
  }

  predicate ValuesFree(ps: seq<Param>, tag: string)
    decreases MaxValue(ps), 1, |ps|
  {
    ps == [] || (ValueFree(ps[0], tag) && ValuesFree(ps[1..], tag))
  }

  predicate ValueFree(p: Param, tag: string)
    decreases |p.value| + 1, 0, 0
  {
    IsRewritten(p) ==> TagFree(p.value, "", tag)
  }

  lemma {:induction false} ValueMaskFree(p: Param, tag: string, n: nat)
    requires IsTag(tag) && ValueFree(p, tag) && |p.value| < n
    ensures MaskBy(Free(tag), p.raw, NewRaw(p))
    decreases n, 0, 0
  {
    hide MaskBy, Lacks, RedactPasswords, EscapeValue, IsPasswordKey, IsNested, TagFree;
    MaskNone(Free(tag), p.raw);
    if IsPasswordKey(p.key) {
      StarsLackTag(tag);
      MaskOne(Free(tag), p.raw, STARS);
    } else if NewRaw(p) != p.raw {
      RedactedAvoids(p.value, "", tag);
      AvoidsContains(RedactPasswords(p.value), tag);
      RequotedLacks(RedactPasswords(p.value), tag);
      MaskOne(Free(tag), p.raw, NewRaw(p));
    }
  }

  lemma {:induction false} RenderMaskFree(ps: seq<Param>, trail: string, tag: string, n: nat)
    requires IsTag(tag) && ValuesFree(ps, tag) && forall i :: 0 <= i < |ps| ==> |ps[i].value| < n
    ensures MaskBy(Free(tag), Unparse(ps) + trail, Render(ps) + trail)
    decreases n, 0, |ps|
  {
    hide MaskBy, NewRaw, Param.Head, ValueFree;
    if ps == [] {
      assert Unparse(ps) + trail == trail == Render(ps) + trail;
      MaskNone(Free(tag), trail);
    } else {
      var p, b, b' := ps[0], Unparse(ps[1..]) + trail, Render(ps[1..]) + trail;
      assert forall i :: 0 <= i < |ps[1..]| ==> ps[1..][i] == ps[i + 1];
      RenderMaskFree(ps[1..], trail, tag, n);
      ValueMaskFree(p, tag, n);
      MaskNone(Free(tag), p.Head());
      MaskAppend(Free(tag), p.raw, NewRaw(p), b, b');
      MaskAppend(Free(tag), p.Head(), p.Head(), p.raw + b, NewRaw(p) + b');
      Pieces(p.Head(), p.raw, Unparse(ps[1..]), trail);
      Pieces(p.Head(), NewRaw(p), Render(ps[1..]), trail);
    }
  }

  lemma {:induction false} StarsFree(s: string, t: string, tag: string)
    requires IsTag(tag) && MaskOf(s, t)
    ensures MaskBy(Free(tag), s, t)
  {
    hide Lacks, Before, Masked;
    var cuts, last :| s == Before(cuts, last) && t == Masked(cuts, last) && AllOk(Stars, cuts);
    StarsLackTag(tag);
    assert AllOk(Free(tag), cuts);
  }

  /** A tag that occurs neither in a string nor in its nested values does not occur in its redaction. */
  lemma {:induction false} RedactedAvoids(s: string, end: string, tag: string)
    requires IsTag(tag) && TagFree(s, end, tag)
    ensures Avoids(RedactPasswords(s), end, tag)
    decreases |s|, 1, 0
  {
    hide Avoids, MaskBy, Parse, HasUriPrefix, RedactUri, ValuesFree;
    if HasUriPrefix(s) || Parse(s).Malformed? {
      RedactionMasks(s);
      StarsFree(s, RedactPasswords(s), tag);
    } else {
      ParseCut(s);
      ValuesShorter(Parse(s).params, |s|);
      RenderMaskFree(Parse(s).params, Parse(s).trail, tag, |s|);
    }
    MaskByAvoids(s, RedactPasswords(s), end, tag);
  }

  lemma {:induction false} MaskByAvoids(s: string, t: string, end: string, tag: string)
    requires tag != "" && MaskBy(Free(tag), s, t) && Avoids(s, end, tag)
    ensures Avoids(t, end, tag)
  {
    hide Avoids, AllOk;
    var cuts, last :| s == Before(cuts, last) && t == Masked(cuts, last) && AllOk(Free(tag), cuts);
    MaskedAvoids(cuts, last, end, tag);
  }
}
