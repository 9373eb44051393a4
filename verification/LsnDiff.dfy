/**
 The SQL expression of pkg/anomaly/metrics.go for the distance between two LSNs kept as text, and its
 value under SQL's rules: strings are indexed from 1, and integers have the range of their type.
 */
module LsnDiff {
  import opened Text

  // Expressions

  datatype TextExpr =
    | Column(text: string)                  // what the column holds
    | SplitPart(of: TextExpr, part: nat)    // split_part(of, '/', part)
    | Upper(of: TextExpr)
    | PadLeft(of: TextExpr)                 // lpad(of, 8, '0')
    | CharAt(of: TextExpr, at: nat)         // substr(of, at, 1)

  datatype IntExpr =
    | Position(digits: string, of: TextExpr)  // strpos(digits, of) - 1, an int4
    | Number(n: int)
    | Add(left: IntExpr, right: IntExpr)      // bigint
    | Sub(left: IntExpr, right: IntExpr)
    | Mul(left: IntExpr, right: IntExpr)

  const DIGITS := "0123456789ABCDEF"

  function UpperChar(c: char): char { if 'a' <= c <= 'z' then (c as int - 32) as char else c }

  function UpperText(s: string): (r: string)
    ensures |r| == |s| && forall i :: 0 <= i < |s| ==> r[i] == UpperChar(s[i])
  {
    seq(|s|, i requires 0 <= i < |s| => UpperChar(s[i]))
  }

  predicate NotSlash(c: char) { c != '/' }

  function Split(s: string, part: nat): string {
    if part <= 1 then TakeRun(NotSlash, s)
    else var rest := DropRun(NotSlash, s); if rest == "" then "" else Split(rest[1..], part - 1)
  }

  function Zeros(n: nat): (z: string)
    ensures |z| == n && forall i :: 0 <= i < n ==> z[i] == '0'
  {
    seq(n, _ => '0')
  }

  /** lpad cuts a text that is too long. */
  function Pad(s: string): (r: string)
    ensures |r| == 8
  {
    if |s| >= 8 then s[..8] else Zeros(8 - |s|) + s
  }

  function TextValue(e: TextExpr): string {
    match e
    case Column(text) => text
    case SplitPart(of, part) => Split(TextValue(of), part)
    case Upper(of) => UpperText(TextValue(of))
    case PadLeft(of) => Pad(TextValue(of))
    case CharAt(of, at) => var s := TextValue(of); if 1 <= at <= |s| then [s[at - 1]] else ""
  }

  predicate IsBigint(n: int) { -0x8000_0000_0000_0000 <= n < 0x8000_0000_0000_0000 }

  /** The value as a bigint, or None where one of the steps overflows. */
  function Checked(n: int): Option<int> { if IsBigint(n) then Some(n) else None }

  function Value(e: IntExpr): Option<int> {
    match e
    case Position(digits, of) => Some(Find(digits, TextValue(of)))
    case Number(n) => Checked(n)
    case Add(l, r) => if Value(l).None? || Value(r).None? then None else Checked(Value(l).value + Value(r).value)
    case Sub(l, r) => if Value(l).None? || Value(r).None? then None else Checked(Value(l).value - Value(r).value)
    case Mul(l, r) => if Value(l).None? || Value(r).None? then None else Checked(Value(l).value * Value(r).value)
  }

  lemma {:induction false} ValueOf(l: IntExpr, r: IntExpr, a: int, b: int)
    requires Value(l) == Some(a) && Value(r) == Some(b)
    ensures Value(Add(l, r)) == Checked(a + b)
    ensures Value(Sub(l, r)) == Checked(a - b)
  {
  }

  lemma {:induction false} ValueScaled(l: IntExpr, n: int, a: int)
    requires Value(l) == Some(a) && IsBigint(n)
    ensures Value(Mul(l, Number(n))) == Checked(a * n)
  {
  }

  // What the source generates

  function Pow16(n: nat): nat { if n == 0 then 1 else 16 * Pow16(n - 1) }

  function Padded(col: string, part: nat): TextExpr { PadLeft(Upper(SplitPart(Column(col), part))) }

  function Term(col: string, part: nat, i: nat): IntExpr
    requires 1 <= i <= 8
  {
    Mul(Position(DIGITS, CharAt(Padded(col, part), i)), Number(Pow16(8 - i)))
  }

  /** The first `n` terms added up from the left. */
  function Terms(col: string, part: nat, n: nat): IntExpr
    requires 1 <= n <= 8
  {
    if n == 1 then Term(col, part, 1) else Add(Terms(col, part, n - 1), Term(col, part, n))
  }

  method HalfSql(col: string, part: nat) returns (e: IntExpr)
    ensures e == Terms(col, part, 8)
  {
    hide Pow16;
    var weight := 0x1000_0000;
    Weights();
    e := Mul(Position(DIGITS, CharAt(Padded(col, part), 1)), Number(weight));
    for i := 2 to 9
      invariant e == Terms(col, part, i - 1) && weight == Pow16(9 - i)
    {
      PowStep(9 - i);
      weight := weight / 16;
      e := Add(e, Mul(Position(DIGITS, CharAt(Padded(col, part), i)), Number(weight)));
    }
  }

  lemma {:induction false} Weights()
    ensures Pow16(7) == 0x1000_0000 && Pow16(8) == 0x1_0000_0000 && Pow16(0) == 1
  {
    assert Pow16(1) == 16 && Pow16(2) == 256 && Pow16(3) == 4096 && Pow16(4) == 65536;
    assert Pow16(5) == 1048576 && Pow16(6) == 16777216;
  }

  lemma {:induction false} PowStep(n: nat)
    requires n > 0
    ensures Pow16(n) == 16 * Pow16(n - 1) && Pow16(n) / 16 == Pow16(n - 1)
  {
  }

  function DiffExpr(from: string, to: string): IntExpr {
    Add(Mul(Sub(Terms(from, 1, 8), Terms(to, 1, 8)), Number(4294967296)),
        Sub(Terms(from, 2, 8), Terms(to, 2, 8)))
  }

  // What an LSN means

  function Hex(s: string): nat
    requires All(IsHex, s)
  {
    if s == "" then 0 else Hex(s[..|s| - 1]) * 16 + HexValue(s[|s| - 1])
  }

  /** One half of an LSN: up to eight hex digits, in either case. */
  predicate IsHalf(s: string) { |s| <= 8 && All(IsHex, s) }

  function Lsn(high: string, low: string): nat
    requires IsHalf(high) && IsHalf(low)
  {
    Hex(high) * 0x1_0000_0000 + Hex(low)
  }

  // The value of a half

  lemma {:induction false} DigitFound(c: char)
    requires IsHex(c)
    ensures Find(DIGITS, [UpperChar(c)]) == HexValue(c)
  {
    hide FindFrom;
    var u, d := UpperChar(c), HexValue(c);
    assert DIGITS[d] == u;
    assert At(DIGITS, [u], d);
    forall j: nat | j < d ensures !At(DIGITS, [u], j) {
      assert DIGITS[j] != u;
      assert DIGITS[j..j + 1][0] == DIGITS[j];
    }
    var k := Find(DIGITS, [u]);
    assert k >= 0 && !(d < k) && !(k < d);
  }

  lemma {:induction false} HexPadded(s: string, n: nat)
    requires All(IsHex, s)
    ensures All(IsHex, Zeros(n) + s) && Hex(Zeros(n) + s) == Hex(s)
    decreases n + |s|
  {
    var p := Zeros(n) + s;
    if s != "" {
      assert p[..|p| - 1] == Zeros(n) + s[..|s| - 1];
      HexPadded(s[..|s| - 1], n);
    } else if n > 0 {
      assert p[..|p| - 1] == Zeros(n - 1) + "";
      HexPadded("", n - 1);
    } else {
      assert p == "";
    }
  }

  lemma {:induction false} HexBound(s: string)
    requires All(IsHex, s)
    ensures Hex(s) < Pow16(|s|)
    decreases |s|
  {
    if s != "" {
      HexBound(s[..|s| - 1]);
    }
  }

  lemma {:induction false} TermValue(col: string, part: nat, p: string, i: nat)
    requires TextValue(Padded(col, part)) == UpperText(p) && |p| == 8 && All(IsHex, p) && 1 <= i <= 8
    ensures Value(Term(col, part, i)) == Some(HexValue(p[i - 1]) * Pow16(8 - i))
  {
    hide Pow16, Find;
    DigitFound(p[i - 1]);
    PowBound(8 - i);
    var d, w := HexValue(p[i - 1]), Pow16(8 - i);
    assert TextValue(CharAt(Padded(col, part), i)) == [UpperChar(p[i - 1])];
    Product(d, w);
  }

  lemma {:induction false} Product(d: nat, w: nat)
    requires d < 16 && w <= 0x1_0000_0000
    ensures 0 <= d * w <= 16 * 0x1_0000_0000
  {
  }

  lemma {:induction false} PowBound(n: nat)
    requires n <= 8
    ensures 0 < Pow16(n) <= 0x1_0000_0000
    decreases 8 - n
  {
    hide Pow16;
    Weights();
    if n < 8 {
      PowBound(n + 1);
      PowStep(n + 1);
    }
  }

  lemma {:induction false} HexStep(p: string, n: nat)
    requires 1 <= n <= |p| && All(IsHex, p)
    ensures Hex(p[..n]) == Hex(p[..n - 1]) * 16 + HexValue(p[n - 1])
    ensures Hex(p[..0]) == 0
  {
    assert p[..n][..n - 1] == p[..n - 1];
  }

  /** The partial sums are the digits read so far, moved to their place. */
  lemma {:induction false} TermsValue(col: string, part: nat, p: string, n: nat)
    requires TextValue(Padded(col, part)) == UpperText(p) && |p| == 8 && All(IsHex, p) && 1 <= n <= 8
    ensures Value(Terms(col, part, n)) == Some(Hex(p[..n]) * Pow16(8 - n))
    decreases n
  {
    hide Pow16, Term, Value, TextValue, UpperText, HexValue, Hex;
    HexStep(p, n);
    TermValue(col, part, p, n);
    var d, w := HexValue(p[n - 1]), Pow16(8 - n);
    if n > 1 {
      TermsValue(col, part, p, n - 1);
      PowStep(9 - n);
      Horner(Hex(p[..n - 1]), d, w);
      HexBound(p[..n]);
      Fits(Hex(p[..n]), n);
      ValueOf(Terms(col, part, n - 1), Term(col, part, n), Hex(p[..n - 1]) * Pow16(9 - n), d * w);
    }
  }

  lemma {:induction false} Horner(h: nat, d: nat, w: nat)
    ensures h * (16 * w) + d * w == (h * 16 + d) * w
  {
  }

  lemma {:induction false} Fits(h: nat, n: nat)
    requires n <= 8 && h < Pow16(n)
    ensures h * Pow16(8 - n) < 0x1_0000_0000
  {
    hide Pow16;
    PowBound(n);
    PowBound(8 - n);
    PowAll(n);
    Times(h, Pow16(n), Pow16(8 - n));
  }

  lemma {:induction false} Times(h: nat, a: nat, b: nat)
    requires h < a && 0 < b
    ensures h * b < a * b
  {
  }

  lemma {:induction false} PowAll(n: nat)
    requires n <= 8
    ensures Pow16(n) * Pow16(8 - n) == 0x1_0000_0000
    decreases n
  {
    hide Pow16;
    Weights();
    if n > 0 {
      PowAll(n - 1);
      PowStep(n);
      PowStep(9 - n);
      Shift(Pow16(n - 1), Pow16(8 - n));
    }
  }

  lemma {:induction false} Shift(a: nat, b: nat)
    ensures (16 * a) * b == a * (16 * b)
  {
  }

  // The two halves of a text

  lemma {:induction false} Halves(high: string, low: string)
    requires IsHalf(high) && IsHalf(low)
    ensures Split(high + "/" + low, 1) == high && Split(high + "/" + low, 2) == low
  {
    var s := high + "/" + low;
    assert s == high + ("/" + low);
    CutRun(NotSlash, high, "/" + low);
    assert ("/" + low)[1..] == low;
    CutRun(NotSlash, low, "");
    assert low + "" == low;
  }

  lemma {:induction false} PaddedText(col: string, part: nat)
    ensures TextValue(Padded(col, part)) == Pad(UpperText(Split(col, part)))
  {
    hide Split, Pad, UpperText;
    var half := SplitPart(Column(col), part);
    assert TextValue(half) == Split(col, part);
    assert TextValue(Upper(half)) == UpperText(Split(col, part));
  }

  lemma {:induction false} HalfValue(col: string, part: nat, half: string)
    requires IsHalf(half) && Split(col, part) == half
    ensures Value(Terms(col, part, 8)) == Some(Hex(half)) && Hex(half) < 0x1_0000_0000
  {
    hide Terms, Pow16, Hex, Split, Run, TextValue, Value;
    var p := Zeros(8 - |half|) + half;
    HexPadded(half, 8 - |half|);
    PaddedText(col, part);
    assert UpperText(p) == Pad(UpperText(half));
    TermsValue(col, part, p, 8);
    assert p[..8] == p;
    Weights();
    HexBound(p);
  }

  /** Where the expression has a value: the halves may be apart as far as a bigint allows. */
  predicate InRange(highs: int, lows: int) {
    -0x8000_0000 <= highs < 0x8000_0000 && (highs == -0x8000_0000 ==> lows >= 0)
  }

  /** The generated expression is the difference of the two 64-bit LSNs, exactly, and it has that value
      exactly when no step of it leaves the range of a bigint. */
  lemma {:induction false} DiffIsExact(h1: string, l1: string, h2: string, l2: string)
    requires IsHalf(h1) && IsHalf(l1) && IsHalf(h2) && IsHalf(l2)
    ensures Value(DiffExpr(h1 + "/" + l1, h2 + "/" + l2)) ==
            if InRange(Hex(h1) - Hex(h2), Hex(l1) - Hex(l2)) then Some(Lsn(h1, l1) - Lsn(h2, l2)) else None
  {
    hide Terms, Hex, Split, Value;
    var from, to := h1 + "/" + l1, h2 + "/" + l2;
    Halves(h1, l1);
    Halves(h2, l2);
    HalfValue(from, 1, h1);
    HalfValue(from, 2, l1);
    HalfValue(to, 1, h2);
    HalfValue(to, 2, l2);
    var highs, lows := Hex(h1) - Hex(h2), Hex(l1) - Hex(l2);
    var high, low := Sub(Terms(from, 1, 8), Terms(to, 1, 8)), Sub(Terms(from, 2, 8), Terms(to, 2, 8));
    ValueOf(Terms(from, 1, 8), Terms(to, 1, 8), Hex(h1), Hex(h2));
    ValueOf(Terms(from, 2, 8), Terms(to, 2, 8), Hex(l1), Hex(l2));
    ValueScaled(high, 4294967296, highs);
    var scaled := Mul(high, Number(4294967296));
    if IsBigint(highs * 4294967296) {
      ValueOf(scaled, low, highs * 4294967296, lows);
    } else {
      ValueNone(scaled, low);
    }
  }

  lemma {:induction false} ValueNone(l: IntExpr, r: IntExpr)
    requires Value(l) == None
    ensures Value(Add(l, r)) == None
  {
  }

  /** In particular whenever the high halves differ by at most 2^31 - 1. */
  lemma {:induction false} DiffInRange(h1: string, l1: string, h2: string, l2: string)
    requires IsHalf(h1) && IsHalf(l1) && IsHalf(h2) && IsHalf(l2)
    requires -0x7fff_ffff <= Hex(h1) - Hex(h2) <= 0x7fff_ffff
    ensures Value(DiffExpr(h1 + "/" + l1, h2 + "/" + l2)) == Some(Lsn(h1, l1) - Lsn(h2, l2))
  {
    hide DiffExpr, Hex;
    DiffIsExact(h1, l1, h2, l2);
  }
}
