/** Decimal strings: the parser and the printers of packages/lib-base/src/Decimal.ts. */
module DecimalText {
  import opened Outcomes
  import opened Numbers
  import opened Decimals

  // ----- Digit strings -----

  predicate IsDigit(c: char) {
    '0' <= c <= '9'
  }

  predicate AllDigits(s: string) {
    forall i :: 0 <= i < |s| ==> IsDigit(s[i])
  }

  function DigitValue(c: char): (r: nat)
    requires IsDigit(c)
    ensures r < 10
  {
    c as int - '0' as int
  }

  function DigitChar(v: nat): (c: char)
    requires v < 10
    ensures IsDigit(c) && DigitValue(c) == v
  {
    '0' + v as char
  }

  /** The number a digit string denotes; leading zeros are allowed. */
  function NatOf(s: string): (r: nat)
    requires AllDigits(s)
  {
    if s == "" then 0 else NatOf(s[..|s| - 1]) * 10 + DigitValue(s[|s| - 1])
  }

  /** Big-number construction from text, which rejects the empty string. */
  function BigNumberFrom(s: string): (r: Result<nat>) {
    if s != "" && AllDigits(s) then Ok(NatOf(s)) else Err(BadDecimalFormat)
  }

  /** Big-number printing, without leading zeros. */
  function DigitsOf(n: nat): (s: string)
    ensures s != "" && AllDigits(s) && NatOf(s) == n
  {
    if n < 10 then
      DigitAppended("", DigitChar(n));
      [DigitChar(n)]
    else
      DigitAppended(DigitsOf(n / 10), DigitChar(n % 10));
      DigitsOf(n / 10) + [DigitChar(n % 10)]
  }

  lemma DigitAppended(front: string, c: char)
    requires AllDigits(front) && IsDigit(c)
    ensures AllDigits(front + [c]) && NatOf(front + [c]) == NatOf(front) * 10 + DigitValue(c)
    ensures front == "" ==> front + [c] == [c]
  {
    assert (front + [c])[..|front|] == front;
  }

  function Zeros(n: nat): (s: string)
    ensures |s| == n && AllDigits(s)
    ensures forall i :: 0 <= i < n ==> s[i] == '0'
  {
    seq(n, _ => '0')
  }

  function PadStart(s: string, n: nat): (r: string) {
    Zeros(if |s| < n then n - |s| else 0) + s
  }

  function TrimTrailingZeros(s: string): (r: string) {
    if s != "" && s[|s| - 1] == '0' then TrimTrailingZeros(s[..|s| - 1]) else s
  }

  lemma ConcatAssoc(a: string, b: string, c: string)
    ensures (a + b) + c == a + (b + c)
  {
  }

  lemma SplitText(s: string, k: nat)
    requires k <= |s|
    ensures s == s[..k] + s[k..]
  {
  }

  // ----- Shifting by digits -----

  /** n followed by k zeros: n * 10^k. */
  function AppendZeros(n: nat, k: nat): (r: nat) {
    if k == 0 then n else 10 * AppendZeros(n, k - 1)
  }

  /** n without its last k digits: the floor of n / 10^k. */
  function DropDigits(n: nat, k: nat): (r: nat) {
    if k == 0 then n else DropDigits(n, k - 1) / 10
  }

  lemma {:induction false} AppendZerosIsProduct(n: nat, k: nat)
    ensures AppendZeros(n, k) == n * Exp(10, k)
  {
    if k == 0 {
    } else {
      AppendZerosIsProduct(n, k - 1);
      Swap(n, 10, Exp(10, k - 1));
      Assoc(n, 10, Exp(10, k - 1));
    }
  }

  lemma {:induction false} DropDigitsIsFloor(n: nat, k: nat)
    ensures 0 < Exp(10, k)
    ensures DropDigits(n, k) == n / Exp(10, k)
  {
    ExpPositive(10, k);
    if k == 0 {
    } else {
      DropDigitsIsFloor(n, k - 1);
      FloorFloor(n, Exp(10, k - 1), 10);
    }
  }

  lemma {:induction false} AppendZerosTwice(n: nat, j: nat, k: nat)
    ensures AppendZeros(AppendZeros(n, j), k) == AppendZeros(n, j + k)
  {
    if k == 0 {
    } else {
      AppendZerosTwice(n, j, k - 1);
    }
  }

  lemma {:induction false} DropDigitsTwice(n: nat, j: nat, k: nat)
    ensures DropDigits(DropDigits(n, j), k) == DropDigits(n, j + k)
  {
    if k == 0 {
    } else {
      DropDigitsTwice(n, j, k - 1);
    }
  }

  lemma {:induction false} AppendZerosAdds(m: nat, n: nat, k: nat)
    ensures AppendZeros(m + n, k) == AppendZeros(m, k) + AppendZeros(n, k)
  {
    if k == 0 {
    } else {
      AppendZerosAdds(m, n, k - 1);
    }
  }

  /** Dropping digits undoes appending zeros, whatever was added in the dropped places. */
  lemma {:induction false} DropAppended(h: nat, t: nat, k: nat)
    ensures DropDigits(AppendZeros(h, k) + t, k) == h + DropDigits(t, k)
    decreases k
  {
    if k == 0 {
    } else {
      AppendZerosTwice(h, 1, k - 1);
      assert AppendZeros(h, 1) == 10 * h by { assert AppendZeros(h, 0) == h; }
      DropAppended(10 * h, t, k - 1);
    }
  }

  lemma {:induction false} AppendZerosPositive(n: nat, k: nat)
    ensures AppendZeros(n, k) == 0 <==> n == 0
  {
    if k == 0 {
    } else {
      AppendZerosPositive(n, k - 1);
    }
  }

  /** Appending and then dropping leaves the difference. */
  lemma AppendThenDrop(n: nat, j: nat, k: nat)
    ensures j <= k ==> DropDigits(AppendZeros(n, j), k) == DropDigits(n, k - j)
    ensures k <= j ==> DropDigits(AppendZeros(n, j), k) == AppendZeros(n, j - k)
  {
    if j <= k {
      DropDigitsTwice(AppendZeros(n, j), j, k - j);
      DropAppended(n, 0, j);
      DropZero(j);
    } else {
      AppendZerosTwice(n, j - k, k);
      DropAppended(AppendZeros(n, j - k), 0, k);
      DropZero(k);
    }
  }

  lemma {:induction false} DropZero(k: nat)
    ensures DropDigits(0, k) == 0
  {
    if k == 0 {
    } else {
      DropZero(k - 1);
    }
  }

  lemma AppendFour(n: nat)
    ensures AppendZeros(n, 4) == 10000 * n
  {
    assert AppendZeros(n, 0) == n;
    assert AppendZeros(n, 1) == 10 * n;
    assert AppendZeros(n, 2) == 100 * n;
    assert AppendZeros(n, 3) == 1000 * n;
  }

  lemma AppendEight(n: nat)
    ensures AppendZeros(n, PRECISION) == n * DIGITS
  {
    AppendFour(n);
    AppendFour(10000 * n);
    AppendZerosTwice(n, 4, 4);
  }

  /** A number in units, cut after k of its places. */
  lemma UnitsThenDrop(n: nat, k: nat)
    ensures k <= PRECISION ==> DropDigits(n * DIGITS, k) == AppendZeros(n, PRECISION - k)
    ensures PRECISION <= k ==> DropDigits(n * DIGITS, k) == DropDigits(n, k - PRECISION)
  {
    AppendEight(n);
    AppendThenDrop(n, PRECISION, k);
  }

  lemma {:induction false} NatOfConcat(a: string, b: string)
    requires AllDigits(a) && AllDigits(b)
    ensures AllDigits(a + b)
    ensures NatOf(a + b) == AppendZeros(NatOf(a), |b|) + NatOf(b)
  {
    if b == "" {
      assert a + b == a;
    } else {
      var front, last := b[..|b| - 1], b[|b| - 1];
      NatOfConcat(a, front);
      assert (a + b)[..|a + b| - 1] == a + front && (a + b)[|a + b| - 1] == last;
    }
  }

  lemma {:induction false} NatOfDropped(s: string)
    requires AllDigits(s)
    ensures DropDigits(NatOf(s), |s|) == 0
  {
    if s == "" {
    } else {
      var front := s[..|s| - 1];
      NatOfDropped(front);
      DropDigitsTwice(NatOf(s), 1, |s| - 1);
      assert DropDigits(NatOf(s), 1) == NatOf(front) by { assert DropDigits(NatOf(s), 0) == NatOf(s); }
    }
  }

  /** Dropping as many digits as the second part has leaves the first part. */
  lemma DropSecondPart(a: string, b: string)
    requires AllDigits(a) && AllDigits(b)
    ensures AllDigits(a + b) && DropDigits(NatOf(a + b), |b|) == NatOf(a)
  {
    NatOfConcat(a, b);
    NatOfDropped(b);
    DropAppended(NatOf(a), NatOf(b), |b|);
  }

  /** A digit string denotes zero exactly when all its digits are zero. */
  lemma {:induction false} NatOfZero(s: string)
    requires AllDigits(s)
    ensures NatOf(s) == 0 <==> forall i :: 0 <= i < |s| ==> s[i] == '0'
  {
    if s == "" {
    } else {
      var front, last := s[..|s| - 1], s[|s| - 1];
      NatOfZero(front);
      assert DigitValue(last) == 0 <==> last == '0';
      assert forall i :: 0 <= i < |front| ==> front[i] == s[i];
    }
  }

  lemma NatOfZeros(n: nat)
    ensures NatOf(Zeros(n)) == 0
  {
    NatOfZero(Zeros(n));
  }

  lemma {:induction false} TrimResult(s: string)
    ensures |TrimTrailingZeros(s)| <= |s| && TrimTrailingZeros(s) == s[..|TrimTrailingZeros(s)|]
    ensures s == TrimTrailingZeros(s) + Zeros(|s| - |TrimTrailingZeros(s)|)
  {
    if s == "" || s[|s| - 1] != '0' {
    } else {
      TrimResult(s[..|s| - 1]);
      var t := TrimTrailingZeros(s);
      assert s == s[..|s| - 1] + "0";
      assert Zeros(|s| - |t|) == Zeros(|s| - 1 - |t|) + "0";
    }
  }

  // ----- The accepted format -----

  function DigitRun(s: string): (n: nat)
    ensures n <= |s| && AllDigits(s[..n])
    ensures n < |s| ==> !IsDigit(s[n])
  {
    if s != "" && IsDigit(s[0]) then 1 + DigitRun(s[1..]) else 0
  }

  predicate MatchesExponent(t: string) {
    && t != "" && t[0] == 'e'
    && var digits := if 1 < |t| && (t[1] == '+' || t[1] == '-') then t[2..] else t[1..];
       digits != "" && AllDigits(digits)
  }

  /** The string format: digits, an optional point with digits, an optional exponent. */
  predicate Matches(s: string) {
    var rest := s[DigitRun(s)..];
    var tail := if rest != "" && rest[0] == '.' then rest[1..][DigitRun(rest[1..])..] else rest;
    tail == "" || MatchesExponent(tail)
  }

  function IndexOf(s: string, c: char): (i: nat)
    ensures i <= |s| && (i < |s| <==> c in s)
    ensures i < |s| ==> s[i] == c
    ensures c !in s[..i]
  {
    if s == "" || s[0] == c then 0 else 1 + IndexOf(s[1..], c)
  }

  /** The part of s before the first c. */
  function Before(s: string, c: char): (r: string)
    ensures |r| <= |s| && (c in s ==> |r| < |s|)
  {
    s[..IndexOf(s, c)]
  }

  /** The part of s between its first c and the next one. */
  function After(s: string, c: char): (r: string)
    requires c in s
  {
    Before(s[IndexOf(s, c) + 1..], c)
  }

  function PadOrTruncate(mantissa: string): (r: string)
    ensures |r| == PRECISION
  {
    if |mantissa| < PRECISION then mantissa + Zeros(PRECISION - |mantissa|)
    else mantissa[..PRECISION]
  }

  /** The part of the parser for strings without an exponent. */
  function FromCoefficient(s: string): (r: Result<Decimal>) {
    if s == "" || !Matches(s) then Err(BadDecimalFormat)
    else if '.' !in s then
      var n :- BigNumberFrom(s);
      Ok(n * DIGITS)
    else FromParts(Before(s, '.'), After(s, '.'))
  }

  function FromParts(characteristic: string, mantissa: string): (r: Result<Decimal>) {
    var whole :- if characteristic == "" then Ok(0) else BigNumberFrom(characteristic);
    var fraction :- BigNumberFrom(PadOrTruncate(mantissa));
    Ok(whole * DIGITS + fraction)
  }

  /** What precedes the first e has no e itself, so the source's one recursive call ends there. */
  function FromString(s: string): (r: Result<Decimal>) {
    if s == "" || !Matches(s) then Err(BadDecimalFormat)
    else if 'e' !in s then FromCoefficient(s)
    else
      var coefficient :- FromCoefficient(Before(s, 'e'));
      var exponent := After(s, 'e');
      if exponent != "" && exponent[0] == '-' then
        var e :- BigNumberFrom(exponent[1..]);
        Ok(DropDigits(coefficient, e))
      else
        var e :- BigNumberFrom(if exponent != "" && exponent[0] == '+' then exponent[1..] else exponent);
        Ok(AppendZeros(coefficient, e))
  }

  // ----- What an accepted string denotes -----

  datatype Exponent = Unsigned(digits: string) | Plus(digits: string) | Minus(digits: string)

  /** The syntax of a decimal: its digit strings, apart from the punctuation. */
  datatype Literal = Literal(whole: string, fraction: Option<string>, exponent: Option<Exponent>) {

    predicate Valid() {
      && AllDigits(whole)
      && (fraction.Some? ==> AllDigits(fraction.value))
      && (exponent.Some? ==> exponent.value.digits != "" && AllDigits(exponent.value.digits))
    }

    function Coefficient(): (s: string) {
      match fraction
      case None => whole
      case Some(f) => whole + "." + f
    }

    function Render(): (s: string) {
      match exponent
      case None => Coefficient()
      case Some(e) => Coefficient() + "e" + RenderExponent(e)
    }

    function FractionDigits(): (s: string) {
      if fraction.Some? then fraction.value else ""
    }

    /** All digits of the coefficient read as one number. */
    function Significand(): (n: nat)
      requires Valid()
    {
      NatOfConcat(whole, FractionDigits());
      NatOf(whole + FractionDigits())
    }

    function PowerOfTen(): (n: int)
      requires Valid()
    {
      match exponent
      case None => 0
      case Some(Minus(d)) => 0 - NatOf(d)
      case Some(e) => NatOf(e.digits)
    }

    /**
     * The denoted rational is significand * 10^(power - fraction digits); this is its value
     * in units of 10^-8, rounded down.
     */
    function FlooredUnits(): (n: nat)
      requires Valid()
    {
      var p, f := PowerOfTen(), |FractionDigits()|;
      if p < 0 then DropDigits(Significand() * DIGITS, f - p)
      else DropDigits(AppendZeros(Significand() * DIGITS, p), f)
    }
  }

  /** The same value as a quotient of powers of ten. */
  lemma FlooredUnitsIsFloor(lit: Literal)
    requires lit.Valid()
    ensures var p, f := lit.PowerOfTen(), |lit.FractionDigits()|;
            var up, down := if p < 0 then 0 else p, if p < 0 then f - p else f;
            0 < Exp(10, down) && lit.FlooredUnits() == lit.Significand() * DIGITS * Exp(10, up) / Exp(10, down)
  {
    var p, f, n := lit.PowerOfTen(), |lit.FractionDigits()|, lit.Significand();
    var up, down := if p < 0 then 0 else p, if p < 0 then f - p else f;
    AppendEight(n);
    AppendZerosIsProduct(n * DIGITS, up);
    DropDigitsIsFloor(AppendZeros(n * DIGITS, up), down);
  }

  function RenderExponent(e: Exponent): (s: string) {
    match e
    case Unsigned(d) => d
    case Plus(d) => "+" + d
    case Minus(d) => "-" + d
  }

  lemma {:induction false} DigitRunOf(a: string, t: string)
    requires AllDigits(a) && (t == "" || !IsDigit(t[0]))
    ensures DigitRun(a + t) == |a|
  {
    if a == "" {
      assert a + t == t;
    } else {
      assert (a + t)[1..] == a[1..] + t;
      DigitRunOf(a[1..], t);
    }
  }

  lemma ExponentRenders(e: Exponent)
    requires e.digits != "" && AllDigits(e.digits)
    ensures MatchesExponent("e" + RenderExponent(e))
  {
    var t := "e" + RenderExponent(e);
    assert t[1..] == RenderExponent(e);
    if !e.Unsigned? {
      assert t[2..] == e.digits;
    }
  }

  function RenderTail(exponent: Option<Exponent>): (t: string) {
    match exponent
    case None => ""
    case Some(e) => "e" + RenderExponent(e)
  }

  lemma RenderIsCoefficientAndTail(lit: Literal)
    ensures lit.Render() == lit.Coefficient() + RenderTail(lit.exponent)
  {
    if lit.exponent.Some? {
      var x := RenderExponent(lit.exponent.value);
      assert lit.Coefficient() + "e" + x == lit.Coefficient() + ("e" + x);
    }
  }

  lemma RenderedMatches(lit: Literal)
    requires lit.Valid()
    ensures Matches(lit.Render())
  {
    var tail := RenderTail(lit.exponent);
    if lit.exponent.Some? { ExponentRenders(lit.exponent.value); }
    var s := lit.Render();
    match lit.fraction {
      case None =>
        assert s == lit.whole + tail;
        DigitRunOf(lit.whole, tail);
        assert s[DigitRun(s)..] == tail;
      case Some(f) =>
        assert s == lit.whole + ("." + (f + tail));
        DigitRunOf(lit.whole, "." + (f + tail));
        var rest := s[DigitRun(s)..];
        assert rest == "." + (f + tail) && rest[1..] == f + tail;
        DigitRunOf(f, tail);
        assert rest[1..][DigitRun(rest[1..])..] == tail;
    }
  }

  function ExponentOf(t: string): (e: Exponent)
    requires MatchesExponent(t)
    ensures e.digits != "" && AllDigits(e.digits)
    ensures "e" + RenderExponent(e) == t
  {
    if 1 < |t| && t[1] == '+' then
      assert t == "e" + ("+" + t[2..]);
      Plus(t[2..])
    else if 1 < |t| && t[1] == '-' then
      assert t == "e" + ("-" + t[2..]);
      Minus(t[2..])
    else Unsigned(t[1..])
  }

  function TailOf(t: string): (x: Option<Exponent>)
    requires t == "" || MatchesExponent(t)
    ensures RenderTail(x) == t
    ensures x.Some? ==> x.value.digits != "" && AllDigits(x.value.digits)
  {
    if t == "" then None else Some(ExponentOf(t))
  }

  /** Every string of the format is the rendering of a literal. */
  lemma MatchedIsRendered(s: string) returns (lit: Literal)
    requires Matches(s)
    ensures lit.Valid() && lit.Render() == s
  {
    var n := DigitRun(s);
    var rest := s[n..];
    if rest != "" && rest[0] == '.' {
      var m := DigitRun(rest[1..]);
      lit := Literal(s[..n], Some(rest[1..][..m]), TailOf(rest[1..][m..]));
      SplitText(rest[1..], m);
      assert rest == "." + rest[1..];
      ConcatAssoc(".", rest[1..][..m], rest[1..][m..]);
      ConcatAssoc(s[..n], ".", rest[1..][..m]);
      ConcatAssoc(s[..n], "." + rest[1..][..m], rest[1..][m..]);
    } else {
      lit := Literal(s[..n], None, TailOf(rest));
    }
    SplitText(s, n);
    RenderIsCoefficientAndTail(lit);
  }

  lemma {:induction false} IndexAfter(a: string, c: char, b: string)
    requires c !in a
    ensures IndexOf(a + [c] + b, c) == |a|
  {
    var s := a + [c] + b;
    if a == "" {
    } else {
      assert s[1..] == a[1..] + [c] + b;
      assert s[0] == a[0] && a[0] in a;
      IndexAfter(a[1..], c, b);
    }
  }

  lemma SplitsAt(a: string, c: char, b: string)
    requires c !in a && c !in b
    ensures c in a + [c] + b
    ensures Before(a + [c] + b, c) == a && After(a + [c] + b, c) == b
  {
    IndexAfter(a, c, b);
    var s := a + [c] + b;
    assert s[|a|] == c;
    assert s[|a| + 1..] == b;
    assert IndexOf(b, c) == |b|;
  }

  lemma NotInDigits(s: string, c: char)
    requires AllDigits(s) && !IsDigit(c)
    ensures c !in s
  {
  }

  // ----- The value of a coefficient -----

  lemma EightPlaces(whole: string, m: string)
    requires AllDigits(whole) && AllDigits(m) && |m| == PRECISION
    ensures AllDigits(whole + m) && NatOf(whole) * DIGITS + NatOf(m) == NatOf(whole + m)
  {
    NatOfConcat(whole, m);
    AppendEight(NatOf(whole));
  }

  lemma PaddedPlaces(whole: string, f: string, k: nat)
    requires AllDigits(whole) && AllDigits(f)
    ensures AllDigits(whole + f) && AllDigits(whole + (f + Zeros(k)))
    ensures NatOf(whole + (f + Zeros(k))) == AppendZeros(NatOf(whole + f), k)
  {
    ConcatAssoc(whole, f, Zeros(k));
    NatOfConcat(whole + f, Zeros(k));
    NatOfZeros(k);
  }

  lemma CutPlaces(whole: string, f: string, k: nat)
    requires AllDigits(whole) && AllDigits(f) && k <= |f|
    ensures AllDigits(whole + f) && AllDigits(whole + f[..k])
    ensures NatOf(whole + f[..k]) == DropDigits(NatOf(whole + f), |f| - k)
  {
    SplitText(f, k);
    ConcatAssoc(whole, f[..k], f[k..]);
    DropSecondPart(whole + f[..k], f[k..]);
  }

  /** Eight places of the fraction are kept: the rest is rounded down. */
  lemma CoefficientValue(whole: string, f: string)
    requires AllDigits(whole) && AllDigits(f)
    ensures AllDigits(PadOrTruncate(f)) && AllDigits(whole + f)
    ensures NatOf(whole) * DIGITS + NatOf(PadOrTruncate(f))
         == DropDigits(NatOf(whole + f) * DIGITS, |f|)
  {
    PlacesKept(whole, f);
    EightPlaces(whole, PadOrTruncate(f));
    UnitsThenDrop(NatOf(whole + f), |f|);
  }

  /** All digits with eight places, by those of the whole coefficient. */
  lemma PlacesKept(whole: string, f: string)
    requires AllDigits(whole) && AllDigits(f)
    ensures AllDigits(PadOrTruncate(f)) && AllDigits(whole + f) && AllDigits(whole + PadOrTruncate(f))
    ensures |f| <= PRECISION ==>
              NatOf(whole + PadOrTruncate(f)) == AppendZeros(NatOf(whole + f), PRECISION - |f|)
    ensures PRECISION <= |f| ==>
              NatOf(whole + PadOrTruncate(f)) == DropDigits(NatOf(whole + f), |f| - PRECISION)
  {
    if |f| < PRECISION {
      PaddedPlaces(whole, f, PRECISION - |f|);
    } else {
      CutPlaces(whole, f, PRECISION);
    }
  }

  /** The eight-place floor of a literal without its exponent. */
  function PlainUnits(lit: Literal): (n: nat)
    requires lit.Valid()
  {
    DropDigits(lit.Significand() * DIGITS, |lit.FractionDigits()|)
  }

  lemma CoefficientParses(lit: Literal)
    requires lit.Valid() && lit.exponent.None? && lit.Coefficient() != ""
    ensures 'e' !in lit.Render()
    ensures FromCoefficient(lit.Render()) == Ok(PlainUnits(lit))
  {
    NotInDigits(lit.whole, 'e');
    NotInDigits(lit.FractionDigits(), 'e');
    if lit.fraction.Some? {
      PointedParses(lit);
    } else {
      PointFreeParses(lit);
    }
  }

  lemma PointedParses(lit: Literal)
    requires lit.Valid() && lit.exponent.None? && lit.fraction.Some?
    ensures FromCoefficient(lit.Render()) == Ok(PlainUnits(lit))
  {
    RenderedMatches(lit);
    PointSplits(lit);
    assert FromCoefficient(lit.Render()) == FromParts(lit.whole, lit.fraction.value);
    PartsRead(lit.whole, lit.fraction.value);
  }

  lemma PartsRead(whole: string, f: string)
    requires AllDigits(whole) && AllDigits(f)
    ensures AllDigits(whole + f)
    ensures FromParts(whole, f) == Ok(DropDigits(NatOf(whole + f) * DIGITS, |f|))
  {
    CoefficientValue(whole, f);
    PartsAdd(whole, f, DropDigits(NatOf(whole + f) * DIGITS, |f|));
  }

  lemma PartsAdd(whole: string, f: string, units: nat)
    requires AllDigits(whole) && AllDigits(PadOrTruncate(f))
    requires NatOf(whole) * DIGITS + NatOf(PadOrTruncate(f)) == units
    ensures FromParts(whole, f) == Ok(units)
  {
    assert BigNumberFrom(PadOrTruncate(f)) == Ok(NatOf(PadOrTruncate(f)));
  }

  lemma PointFreeParses(lit: Literal)
    requires lit.Valid() && lit.exponent.None? && lit.fraction.None? && lit.whole != ""
    ensures FromCoefficient(lit.Render()) == Ok(PlainUnits(lit))
  {
    RenderedMatches(lit);
    NotInDigits(lit.whole, '.');
    AppendEight(NatOf(lit.whole));
    assert lit.whole + "" == lit.whole;
  }

  lemma PointSplits(lit: Literal)
    requires lit.Valid() && lit.fraction.Some?
    ensures var s := lit.Coefficient();
            '.' in s && Before(s, '.') == lit.whole && After(s, '.') == lit.fraction.value
  {
    NotInDigits(lit.whole, '.');
    NotInDigits(lit.fraction.value, '.');
    assert lit.Coefficient() == lit.whole + ['.'] + lit.fraction.value;
    SplitsAt(lit.whole, '.', lit.fraction.value);
  }

  function Scaled(c: nat, e: Exponent): (r: nat)
    requires AllDigits(e.digits)
  {
    if e.Minus? then DropDigits(c, NatOf(e.digits)) else AppendZeros(c, NatOf(e.digits))
  }

  lemma ExponentSplits(lit: Literal)
    requires lit.Valid() && lit.exponent.Some?
    ensures var s := lit.Render();
            'e' in s && Before(s, 'e') == lit.Coefficient() && After(s, 'e') == RenderExponent(lit.exponent.value)
  {
    var c, x := lit.Coefficient(), RenderExponent(lit.exponent.value);
    NotInDigits(lit.whole, 'e');
    NotInDigits(lit.FractionDigits(), 'e');
    NotInDigits(lit.exponent.value.digits, 'e');
    assert lit.Render() == c + ['e'] + x;
    SplitsAt(c, 'e', x);
  }

  /** The rendered exponent is split off and read back. */
  lemma ExponentParses(lit: Literal)
    requires lit.Valid() && lit.exponent.Some?
    ensures FromString(lit.Render()) ==
            match FromCoefficient(lit.Coefficient())
            case Err(e) => Err(e)
            case Ok(c) => Ok(Scaled(c, lit.exponent.value))
  {
    RenderedMatches(lit);
    ExponentSplits(lit);
    ExponentReads(lit.exponent.value);
  }

  lemma ExponentReads(e: Exponent)
    requires e.digits != "" && AllDigits(e.digits)
    ensures var x := RenderExponent(e);
            && x != "" && (x[0] == '-' <==> e.Minus?)
            && BigNumberFrom(if e.Unsigned? then x else x[1..]) == Ok(NatOf(e.digits))
            && (x[0] == '+' <==> e.Plus?)
  {
    if e.Unsigned? {
      assert IsDigit(e.digits[0]);
    } else {
      assert RenderExponent(e)[1..] == e.digits;
    }
  }

  lemma CoefficientOutcome(lit: Literal)
    requires lit.Valid() && lit.exponent.None?
    ensures 'e' !in lit.Render()
    ensures FromCoefficient(lit.Render()) ==
            if lit.Coefficient() == "" then Err(BadDecimalFormat) else Ok(PlainUnits(lit))
  {
    if lit.Coefficient() != "" {
      CoefficientParses(lit);
    }
  }

  // ----- Soundness of the parser -----

  /** What the parser returns on every literal: the floor of the coefficient, then the exponent. */
  function ParsedUnits(lit: Literal): (r: nat)
    requires lit.Valid()
  {
    if lit.exponent.None? then PlainUnits(lit) else Scaled(PlainUnits(lit), lit.exponent.value)
  }

  lemma ParserResult(lit: Literal)
    requires lit.Valid()
    ensures FromString(lit.Render()) ==
            if lit.Coefficient() == "" then Err(BadDecimalFormat) else Ok(ParsedUnits(lit))
  {
    var plain := lit.(exponent := None);
    CoefficientOutcome(plain);
    assert plain.Render() == lit.Coefficient() && PlainUnits(plain) == PlainUnits(lit);
    if lit.exponent.Some? {
      ExponentParses(lit);
    }
  }

  /**
   * A positive exponent is applied after the fraction was cut to eight digits, so the floor of the
   * denoted value is kept exactly when the digits that the exponent would shift back in are zero.
   */
  ghost predicate NothingShiftedIn(lit: Literal)
    requires lit.Valid()
  {
    var f := lit.FractionDigits();
    forall i :: PRECISION <= i < |f| && i < PRECISION + lit.PowerOfTen() ==> f[i] == '0'
  }

  lemma ParsedUnitsSound(lit: Literal)
    requires lit.Valid()
    ensures ParsedUnits(lit) == lit.FlooredUnits() <==> NothingShiftedIn(lit)
  {
    var n, f, p := lit.Significand(), lit.FractionDigits(), lit.PowerOfTen();
    if lit.exponent.Some? && lit.exponent.value.Minus? {
      DropDigitsTwice(n * DIGITS, |f|, 0 - p);
    } else {
      ShiftedFloor(lit.whole, f, p);
    }
  }

  /** The parser returns the floor of the denoted value exactly on these literals. */
  lemma ParserSound(lit: Literal)
    requires lit.Valid() && lit.Coefficient() != ""
    ensures FromString(lit.Render()) == Ok(lit.FlooredUnits()) <==> NothingShiftedIn(lit)
  {
    ParserResult(lit);
    ParsedUnitsSound(lit);
  }

  /** Scaling up after the floor equals scaling up before it exactly when the cut digits allow it. */
  lemma ShiftedFloor(whole: string, f: string, p: nat)
    requires AllDigits(whole) && AllDigits(f)
    ensures AllDigits(whole + f)
    ensures var n := NatOf(whole + f) * DIGITS;
            AppendZeros(DropDigits(n, |f|), p) == DropDigits(AppendZeros(n, p), |f|)
            <==> forall i :: PRECISION <= i < |f| && i < PRECISION + p ==> f[i] == '0'
  {
    NatOfConcat(whole, f);
    var n := NatOf(whole + f);
    UnitsThenDrop(n, |f|);
    if |f| <= PRECISION {
      AppendEight(n);
      AppendZerosTwice(n, PRECISION, p);
      AppendThenDrop(n, PRECISION + p, |f|);
      AppendZerosTwice(n, PRECISION - |f|, p);
    } else {
      ScaleBeforeDrop(n, p, |f|);
      CutPlaces(whole, f, PRECISION);
      assert whole + f == whole + f[..PRECISION] + f[PRECISION..] by {
        SplitText(f, PRECISION);
        ConcatAssoc(whole, f[..PRECISION], f[PRECISION..]);
      }
      ShiftedTail(whole + f[..PRECISION], f[PRECISION..], p);
      assert forall i :: PRECISION <= i < |f| ==> f[i] == f[PRECISION..][i - PRECISION];
    }
  }

  lemma ScaleBeforeDrop(n: nat, p: nat, k: nat)
    requires PRECISION <= k
    ensures DropDigits(AppendZeros(n * DIGITS, p), k) == DropDigits(AppendZeros(n, p), k - PRECISION)
  {
    AppendEight(n);
    AppendZerosTwice(n, PRECISION, p);
    AppendZerosTwice(n, p, PRECISION);
    AppendThenDrop(AppendZeros(n, p), PRECISION, k);
  }

  /** What the cut tail contributes once it is scaled up: its first p digits. */
  lemma ShiftedTail(head: string, t: string, p: nat)
    requires AllDigits(head) && AllDigits(t)
    ensures AllDigits(head + t)
    ensures AppendZeros(NatOf(head), p) == DropDigits(AppendZeros(NatOf(head + t), p), |t|)
            <==> forall i :: 0 <= i < |t| && i < p ==> t[i] == '0'
  {
    NatOfConcat(head, t);
    ShiftedParts(NatOf(head), NatOf(t), |t|, p);
    ShiftedOut(t, p);
  }

  /** The digits of t that scaling by 10^p moves past its own length. */
  lemma ShiftedOut(t: string, p: nat)
    requires AllDigits(t)
    ensures DropDigits(AppendZeros(NatOf(t), p), |t|) == 0 <==> forall i :: 0 <= i < |t| && i < p ==> t[i] == '0'
  {
    AppendThenDrop(NatOf(t), p, |t|);
    if p < |t| {
      SplitText(t, p);
      DropSecondPart(t[..p], t[p..]);
      NatOfZero(t[..p]);
      assert forall i :: 0 <= i < p ==> t[..p][i] == t[i];
    } else {
      AppendZerosPositive(NatOf(t), p - |t|);
      NatOfZero(t);
    }
  }

  lemma ShiftedParts(h: nat, t: nat, k: nat, p: nat)
    ensures DropDigits(AppendZeros(AppendZeros(h, k) + t, p), k)
         == AppendZeros(h, p) + DropDigits(AppendZeros(t, p), k)
  {
    AppendZerosAdds(AppendZeros(h, k), t, p);
    AppendZerosTwice(h, k, p);
    AppendZerosTwice(h, p, k);
    DropAppended(AppendZeros(h, p), AppendZeros(t, p), k);
  }

  /** The parser accepts exactly the renderings of literals with a non-empty coefficient. */
  lemma ParserAccepts(s: string)
    ensures FromString(s).Ok? <==> exists lit: Literal :: lit.Valid() && lit.Coefficient() != "" && lit.Render() == s
  {
    if Matches(s) {
      var lit := MatchedIsRendered(s);
      ParserResult(lit);
    }
    forall lit: Literal | lit.Valid() && lit.Coefficient() != "" && lit.Render() == s
      ensures FromString(s).Ok?
    {
      ParserResult(lit);
    }
  }

  /** The floor is lost on 1.123456789e1: the ninth digit is cut before the exponent is applied. */
  lemma ParserCutsBeforeScaling()
    ensures var lit := Literal("1", Some("123456789"), Some(Unsigned("1")));
            lit.Valid() && lit.Coefficient() != "" && FromString(lit.Render()) != Ok(lit.FlooredUnits())
  {
    var lit := Literal("1", Some("123456789"), Some(Unsigned("1")));
    ParserSound(lit);
    assert NatOf("1") == 1 by { assert "1"[..0] == ""; }
    assert lit.FractionDigits()[8] == '9';
  }

  // ----- Printing -----

  const INFINITY_SIGN: string := "\U{221E}"

  function ToStringWithAutomaticPrecision(d: Decimal): (s: string) {
    var characteristic, mantissa := d / DIGITS, d % DIGITS;
    if mantissa == 0 then DigitsOf(characteristic)
    else DigitsOf(characteristic) + "." + TrimTrailingZeros(PadStart(DigitsOf(mantissa), PRECISION))
  }

  /** Half of the last printed digit is added before the rest is cut off. */
  function RoundUp(d: Decimal, precision: nat): (r: nat)
    requires precision < PRECISION
  {
    d + 5 * AppendZeros(1, PRECISION - 1 - precision)
  }

  /** The value whose leading digits are printed. */
  function Rounded(d: Decimal, precision: nat): (r: nat) {
    if precision < PRECISION then RoundUp(d, precision) else d
  }

  function ToStringWithPrecision(d: Decimal, precision: int): (r: Result<string>) {
    if precision < 0 then Err(NegativePrecision)
    else
      var value := Rounded(d, precision);
      var characteristic, mantissa := value / DIGITS, value % DIGITS;
      if precision == 0 then Ok(DigitsOf(characteristic))
      else
        var padded := PadStart(DigitsOf(mantissa), PRECISION);
        Ok(DigitsOf(characteristic) + "." + padded[..Min(precision, |padded|)])
  }

  function ToString(d: Decimal, precision: Option<int>): (r: Result<string>) {
    if d == INFINITY then Ok(INFINITY_SIGN)
    else if precision.Some? then ToStringWithPrecision(d, precision.value)
    else Ok(ToStringWithAutomaticPrecision(d))
  }

  /** A mantissa is padded to exactly eight digits. */
  lemma PaddedMantissa(m: nat)
    requires m < DIGITS
    ensures var s := PadStart(DigitsOf(m), PRECISION);
            |s| == PRECISION && AllDigits(s) && NatOf(s) == m
  {
    AppendEight(1);
    DigitsOfLength(m, PRECISION);
    var k := PRECISION - |DigitsOf(m)|;
    NatOfConcat(Zeros(k), DigitsOf(m));
    NatOfZeros(k);
    AppendZerosPositive(0, |DigitsOf(m)|);
  }

  lemma {:induction false} DigitsOfLength(n: nat, k: nat)
    requires 1 <= k && n < AppendZeros(1, k)
    ensures |DigitsOf(n)| <= k
  {
    if n < 10 {
    } else {
      assert AppendZeros(1, 0) == 1;
      assert AppendZeros(1, k) == 10 * AppendZeros(1, k - 1);
      DigitsOfLength(n / 10, k - 1);
    }
  }

  /** Characteristic and padded mantissa together hold all digits of the value. */
  lemma AllPlaces(value: nat)
    ensures var w, f := DigitsOf(value / DIGITS), PadStart(DigitsOf(value % DIGITS), PRECISION);
            |f| == PRECISION && AllDigits(f) && AllDigits(w + f) && NatOf(w + f) == value
  {
    PaddedMantissa(value % DIGITS);
    var w, f := DigitsOf(value / DIGITS), PadStart(DigitsOf(value % DIGITS), PRECISION);
    NatOfConcat(w, f);
    AppendEight(value / DIGITS);
  }

  /** The value with its last k units places set to zero. */
  function Truncated(value: nat, k: nat): (r: nat) {
    AppendZeros(DropDigits(value, k), k)
  }

  /** A characteristic with the first k places of its mantissa. */
  function PlacesText(value: nat, k: nat): (s: string)
    requires k <= PRECISION
  {
    PaddedMantissa(value % DIGITS);
    DigitsOf(value / DIGITS) + "." + PadStart(DigitsOf(value % DIGITS), PRECISION)[..k]
  }

  /** Reading a characteristic with a mantissa prefix keeps that many places of the value. */
  lemma PrefixParses(value: nat, k: nat)
    requires k <= PRECISION
    ensures FromString(PlacesText(value, k)) == Ok(Truncated(value, PRECISION - k))
  {
    AllPlaces(value);
    var w, f := DigitsOf(value / DIGITS), PadStart(DigitsOf(value % DIGITS), PRECISION);
    var lit := Literal(w, Some(f[..k]), None);
    CoefficientParses(lit);
    PrefixUnits(w, f, k);
  }

  lemma PrefixUnits(w: string, f: string, k: nat)
    requires AllDigits(w) && AllDigits(f) && |f| == PRECISION && k <= PRECISION
    ensures AllDigits(w + f[..k]) && AllDigits(w + f)
    ensures DropDigits(NatOf(w + f[..k]) * DIGITS, k) == Truncated(NatOf(w + f), PRECISION - k)
  {
    SplitText(f, k);
    ConcatAssoc(w, f[..k], f[k..]);
    DropSecondPart(w + f[..k], f[k..]);
    UnitsThenDrop(NatOf(w + f[..k]), k);
  }

  lemma WholeParses(n: nat)
    ensures FromString(DigitsOf(n)) == Ok(n * DIGITS)
  {
    var lit := Literal(DigitsOf(n), None, None);
    CoefficientParses(lit);
    assert lit.whole + "" == lit.whole;
    AppendEight(n);
  }

  lemma InfinitySignRejected()
    ensures FromString(INFINITY_SIGN).Err?
  {
    assert DigitRun(INFINITY_SIGN) == 0;
    assert INFINITY_SIGN[0..] == INFINITY_SIGN;
    assert !MatchesExponent(INFINITY_SIGN);
  }

  lemma {:induction false} NoLeadingZero(n: nat)
    ensures n == 0 ==> DigitsOf(n) == "0"
    ensures 0 < n ==> DigitsOf(n)[0] != '0'
  {
    if n < 10 {
    } else {
      NoLeadingZero(n / 10);
    }
  }

  lemma {:induction false} Trimmed(s: string)
    ensures var t := TrimTrailingZeros(s);
            t == "" || t[|t| - 1] != '0'
  {
    if s == "" || s[|s| - 1] != '0' {
    } else {
      Trimmed(s[..|s| - 1]);
    }
  }

  /**
   * The printed form is the canonical one: a whole part without leading zeros and, unless the decimal is
   * whole, at most eight fraction digits of which the last is not zero.
   */
  lemma PrintCanonical(d: Decimal)
    ensures var s, w := ToStringWithAutomaticPrecision(d), DigitsOf(d / DIGITS);
            && AllDigits(w) && (w == "0" || w[0] != '0')
            && (d % DIGITS == 0 ==> s == w)
            && (d % DIGITS != 0 ==>
                  && '.' in s && Before(s, '.') == w
                  && var f := After(s, '.');
                     AllDigits(f) && 0 < |f| <= PRECISION && f[|f| - 1] != '0')
  {
    NoLeadingZero(d / DIGITS);
    if d % DIGITS != 0 {
      var f := PadStart(DigitsOf(d % DIGITS), PRECISION);
      PaddedMantissa(d % DIGITS);
      TrimResult(f);
      Trimmed(f);
      PrefixDigits(f, |TrimTrailingZeros(f)|);
      TrimmedNotEmpty(f);
      PointSplits(Literal(DigitsOf(d / DIGITS), Some(TrimTrailingZeros(f)), None));
    }
  }

  lemma TrimmedNotEmpty(f: string)
    requires AllDigits(f) && NatOf(f) != 0
    ensures TrimTrailingZeros(f) != ""
  {
    TrimResult(f);
    NatOfZero(f);
    NatOfZeros(|f|);
  }

  /** Printing with automatic precision is undone by parsing, for every decimal but infinity. */
  lemma PrintParse(d: Decimal)
    ensures ToString(d, None).Ok?
    ensures FromString(ToString(d, None).value) == Ok(d) <==> d != INFINITY
  {
    if d == INFINITY {
      InfinitySignRejected();
    } else if d % DIGITS == 0 {
      WholeParses(d / DIGITS);
    } else {
      TrimmedParses(d);
    }
  }

  lemma TrimmedParses(d: Decimal)
    ensures var t := TrimTrailingZeros(PadStart(DigitsOf(d % DIGITS), PRECISION));
            FromString(DigitsOf(d / DIGITS) + "." + t) == Ok(d)
  {
    AllPlaces(d);
    var f := PadStart(DigitsOf(d % DIGITS), PRECISION);
    TrimResult(f);
    PrefixParses(d, |TrimTrailingZeros(f)|);
    PrefixDigits(f, |TrimTrailingZeros(f)|);
    TrailingZerosTruncate(DigitsOf(d / DIGITS), TrimTrailingZeros(f), PRECISION - |TrimTrailingZeros(f)|);
  }

  lemma PrefixDigits(s: string, k: nat)
    requires AllDigits(s) && k <= |s|
    ensures AllDigits(s[..k])
  {
  }

  lemma TrailingZerosTruncate(w: string, t: string, k: nat)
    requires AllDigits(w) && AllDigits(t)
    ensures AllDigits(w + (t + Zeros(k)))
    ensures Truncated(NatOf(w + (t + Zeros(k))), k) == NatOf(w + (t + Zeros(k)))
  {
    ConcatAssoc(w, t, Zeros(k));
    DropSecondPart(w + t, Zeros(k));
    NatOfConcat(w + t, Zeros(k));
    NatOfZeros(k);
  }

  lemma PrintedPlaces(d: Decimal, precision: nat)
    requires 0 < precision
    ensures ToStringWithPrecision(d, precision) == Ok(PlacesText(Rounded(d, precision), Min(precision, PRECISION)))
  {
    PaddedMantissa(Rounded(d, precision) % DIGITS);
  }

  lemma PrintedWhole(d: Decimal)
    ensures ToStringWithPrecision(d, 0) == Ok(DigitsOf(Rounded(d, 0) / DIGITS))
  {
  }

  /**
   * The shape of what is printed with a precision: no point for none, else as many fraction digits as
   * asked for, up to eight; a negative precision is rejected.
   */
  lemma PrintedShape(d: Decimal, precision: int)
    ensures var r := ToStringWithPrecision(d, precision);
            && (r.Err? <==> precision < 0)
            && (precision == 0 ==> AllDigits(r.value) && (r.value == "0" || r.value[0] != '0'))
            && (0 < precision ==>
                  && '.' in r.value && |After(r.value, '.')| == Min(precision, PRECISION)
                  && AllDigits(After(r.value, '.'))
                  && (Before(r.value, '.') == "0" || (Before(r.value, '.') != "" && Before(r.value, '.')[0] != '0')))
  {
    if precision == 0 {
      PrintedWhole(d);
      NoLeadingZero(Rounded(d, 0) / DIGITS);
    } else if 0 < precision {
      var value := Rounded(d, precision);
      var f := PadStart(DigitsOf(value % DIGITS), PRECISION);
      PrintedPlaces(d, precision);
      NoLeadingZero(value / DIGITS);
      PaddedMantissa(value % DIGITS);
      PrefixDigits(f, Min(precision, PRECISION));
      PointSplits(Literal(DigitsOf(value / DIGITS), Some(f[..Min(precision, PRECISION)]), None));
    }
  }

  /** What is read back after printing with a precision, before looking at the rounding. */
  lemma PrecisionParses(d: Decimal, precision: nat)
    ensures ToStringWithPrecision(d, precision).Ok?
    ensures FromString(ToStringWithPrecision(d, precision).value)
            == Ok(Truncated(Rounded(d, precision), PRECISION - Min(precision, PRECISION)))
  {
    if precision == 0 {
      PrintedWhole(d);
      NoPlacesParse(Rounded(d, 0));
    } else {
      PrintedPlaces(d, precision);
      PrefixParses(Rounded(d, precision), Min(precision, PRECISION));
    }
  }

  lemma NoPlacesParse(value: nat)
    ensures FromString(DigitsOf(value / DIGITS)) == Ok(Truncated(value, PRECISION))
  {
    WholeParses(value / DIGITS);
    AppendEight(DropDigits(value, PRECISION));
    DropEight(value);
  }

  lemma DropEight(n: nat)
    ensures DropDigits(n, PRECISION) == n / DIGITS
  {
    DropFour(n);
    DropFour(n / 10000);
    DropDigitsTwice(n, 4, 4);
  }

  lemma DropFour(n: nat)
    ensures DropDigits(n, 4) == n / 10000
  {
    assert DropDigits(n, 0) == n;
    assert DropDigits(n, 1) == n / 10;
    assert DropDigits(n, 2) == n / 100;
    assert DropDigits(n, 3) == n / 1000;
  }

  lemma {:induction false} TruncatedBounds(value: nat, k: nat)
    ensures Truncated(value, k) <= value < Truncated(value, k) + AppendZeros(1, k)
  {
    if k == 0 {
    } else {
      TruncatedBounds(value, k - 1);
      var q := DropDigits(value, k - 1);
      assert q == 10 * (q / 10) + q % 10;
      AppendZerosAdds(10 * (q / 10), q % 10, k - 1);
      AppendZerosTwice(q / 10, 1, k - 1);
      assert AppendZeros(q / 10, 1) == 10 * (q / 10) by { assert AppendZeros(q / 10, 0) == q / 10; }
      LastDigitFits(q % 10, k - 1);
    }
  }

  lemma LastDigitFits(d: nat, k: nat)
    requires d < 10
    ensures AppendZeros(d, k) + AppendZeros(1, k) <= AppendZeros(1, k + 1)
  {
    AppendZerosAdds(d, 1, k);
    AppendZerosAdds(d + 1, 9 - d, k);
    AppendZerosTwice(1, 1, k);
    assert AppendZeros(1, 1) == 10 by { assert AppendZeros(1, 0) == 1; }
  }

  /** r is the multiple of the last printed place nearest to d, the upper one on a tie; from eight places on, d. */
  predicate RoundsTo(d: Decimal, precision: nat, r: Decimal) {
    if PRECISION <= precision then r == d
    else
      var k := PRECISION - precision;
      var place := AppendZeros(1, k);
      r == Truncated(r, k) && 2 * r <= 2 * d + place < 2 * r + 2 * place
  }

  lemma TruncatedRounds(d: Decimal, precision: nat)
    ensures RoundsTo(d, precision, Truncated(Rounded(d, precision), PRECISION - Min(precision, PRECISION)))
  {
    if precision < PRECISION {
      var value, k := Rounded(d, precision), PRECISION - precision;
      TruncatedBounds(value, k);
      assert AppendZeros(1, k) == 10 * AppendZeros(1, k - 1);
      TruncatedTwice(value, k);
    }
  }

  /** Printing with a chosen precision and reading back rounds half up to the last printed place. */
  lemma PrintParseRounded(d: Decimal, precision: nat)
    ensures ToStringWithPrecision(d, precision).Ok?
    ensures var r := FromString(ToStringWithPrecision(d, precision).value);
            r.Ok? && RoundsTo(d, precision, r.value)
  {
    PrecisionParses(d, precision);
    TruncatedRounds(d, precision);
  }

  lemma TruncatedTwice(value: nat, k: nat)
    ensures Truncated(Truncated(value, k), k) == Truncated(value, k)
  {
    AppendThenDrop(DropDigits(value, k), k, k);
  }
}
