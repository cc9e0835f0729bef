/** Numeric literals: the ordered choice of DOUBLE, DECIMAL and INTEGER against their productions. */
module Numbers {
  import opened Terms
  import opened Labels
  import opened Peg
  import opened PegLaws
  import opened Names

  predicate IsSign(c: char) { c == '+' || c == '-' }

  predicate IsE(c: char) { c == 'e' || c == 'E' }

  // ---- The rules, as in the grammar.

  const SIGN := Opt(Class(IsSign))
  const DIGITS := Plus(DIGIT)
  const EXPONENT := Then(Class(IsE), Then(SIGN, DIGITS))
  const INTEGER := Then(SIGN, DIGITS)
  const UNSIGNED_DECIMAL := Then(Star(DIGIT), Then(One('.'), DIGITS))
  const DECIMAL := Then(SIGN, UNSIGNED_DECIMAL)
  const UNSIGNED_DOUBLE :=
    Else(Then(DIGITS, Then(One('.'), Then(Star(DIGIT), EXPONENT))),
         Else(Then(One('.'), Then(DIGITS, EXPONENT)),
              Then(DIGITS, EXPONENT)))
  const DOUBLE := Then(SIGN, UNSIGNED_DOUBLE)
  const NUMERIC := Else(DOUBLE, Else(DECIMAL, INTEGER))

  // ---- The productions, as in the standard.

  const SIGN_R := Maybe(Letter(IsSign))
  const DIGIT_R := Letter(IsDigit)
  const DIGITS_R := Some1(DIGIT_R)
  const EXPONENT_R := Cat(Letter(IsE), Cat(SIGN_R, DIGITS_R))
  const INTEGER_R := Cat(SIGN_R, DIGITS_R)
  const UNSIGNED_DECIMAL_R := Cat(Rep(DIGIT_R), Cat(Char('.'), DIGITS_R))
  const DECIMAL_R := Cat(SIGN_R, UNSIGNED_DECIMAL_R)
  const UNSIGNED_DOUBLE_R :=
    Alt(Cat(DIGITS_R, Cat(Char('.'), Cat(Rep(DIGIT_R), EXPONENT_R))),
        Alt(Cat(Char('.'), Cat(DIGITS_R, EXPONENT_R)),
            Cat(DIGITS_R, EXPONENT_R)))
  const DOUBLE_R := Cat(SIGN_R, UNSIGNED_DOUBLE_R)

  // ---- The same, as scans: where the run of digits ends, and what follows it.

  function DigitRun(s: string): (n: nat)
    ensures n <= |s|
  {
    if s == [] || !IsDigit(s[0]) then 0 else 1 + DigitRun(s[1..])
  }

  function SignRun(s: string): (n: nat)
    ensures n <= |s|
  {
    if s != [] && IsSign(s[0]) then 1 else 0
  }

  predicate AllDigits(s: string) {
    forall i :: 0 <= i < |s| ==> IsDigit(s[i])
  }

  function DigitsEnd(s: string): (r: Option<nat>)
    ensures r.Some? ==> r.value <= |s|
  {
    if DigitRun(s) > 0 then Some(DigitRun(s)) else None
  }

  function Shift(n: nat, r: Option<nat>): Option<nat> {
    if r.None? then None else Some(n + r.value)
  }

  function SignedEnd(s: string): (r: Option<nat>)
    ensures r.Some? ==> r.value <= |s|
  {
    Shift(SignRun(s), DigitsEnd(s[SignRun(s)..]))
  }

  function ExponentEnd(s: string): (r: Option<nat>)
    ensures r.Some? ==> r.value <= |s|
  {
    if s != [] && IsE(s[0]) then Shift(1, SignedEnd(s[1..])) else None
  }

  function DecimalEnd(s: string): (r: Option<nat>)
    ensures r.Some? ==> r.value <= |s|
  {
    var d := DigitRun(s);
    if d < |s| && s[d] == '.' then Shift(d + 1, DigitsEnd(s[d + 1..])) else None
  }

  /** Digits, perhaps none, and an exponent. */
  function ScaledEnd(s: string): (r: Option<nat>)
    ensures r.Some? ==> r.value <= |s|
  {
    Shift(DigitRun(s), ExponentEnd(s[DigitRun(s)..]))
  }

  /** After digits and perhaps a dot with more digits, an exponent; some digit must stand before it. */
  function DoubleEnd(s: string): (r: Option<nat>)
    ensures r.Some? ==> r.value <= |s|
  {
    var d := DigitRun(s);
    if d < |s| && s[d] == '.' then
      if d > 0 || DigitRun(s[d + 1..]) > 0 then Shift(d + 1, ScaledEnd(s[d + 1..])) else None
    else if d > 0 then ScaledEnd(s)
    else None
  }

  lemma {:induction false} DigitRunEnds(s: string)
    ensures AllDigits(s[..DigitRun(s)])
    ensures DigitRun(s) < |s| ==> !IsDigit(s[DigitRun(s)])
    decreases |s|
  {
    if s != [] && IsDigit(s[0]) {
      DigitRunEnds(s[1..]);
      assert s[..DigitRun(s)] == [s[0]] + s[1..][..DigitRun(s[1..])];
    }
  }

  lemma {:induction false} StarReadsDigits(s: string)
    ensures Match(Star(DIGIT), s) == Some(DigitRun(s))
    decreases |s|
  {
    if s != [] && IsDigit(s[0]) {
      StarReadsDigits(s[1..]);
      StarOnce(DIGIT, s, 1);
    }
  }

  lemma PlusReadsDigits(s: string)
    ensures Match(DIGITS, s) == DigitsEnd(s)
  {
    if s != [] && IsDigit(s[0]) {
      StarReadsDigits(s[1..]);
      ThenFrom(DIGIT, Star(DIGIT), s, 1);
    }
  }

  lemma SignReads(p: Peg, s: string)
    ensures Match(Then(SIGN, p), s) == Shift(SignRun(s), Match(p, s[SignRun(s)..]))
  {
    ThenFrom(SIGN, p, s, SignRun(s));
  }

  lemma ExponentReads(s: string)
    ensures Match(EXPONENT, s) == ExponentEnd(s)
  {
    if s != [] && IsE(s[0]) {
      ThenFrom(Class(IsE), Then(SIGN, DIGITS), s, 1);
      SignReads(DIGITS, s[1..]);
      PlusReadsDigits(s[1..][SignRun(s[1..])..]);
    }
  }

  lemma DecimalReads(s: string)
    ensures Match(UNSIGNED_DECIMAL, s) == DecimalEnd(s)
  {
    var d := DigitRun(s);
    StarReadsDigits(s);
    ThenFrom(Star(DIGIT), Then(One('.'), DIGITS), s, d);
    if d < |s| && s[d] == '.' {
      ThenFrom(One('.'), DIGITS, s[d..], 1);
      assert s[d..][1..] == s[d + 1..];
      PlusReadsDigits(s[d + 1..]);
    }
  }

  lemma DigitsThenReads(p: Peg, s: string)
    ensures Match(Then(DIGITS, p), s)
         == if DigitRun(s) > 0 then Shift(DigitRun(s), Match(p, s[DigitRun(s)..])) else None
  {
    PlusReadsDigits(s);
    if DigitRun(s) > 0 {
      ThenFrom(DIGITS, p, s, DigitRun(s));
    }
  }

  lemma DotThenReads(p: Peg, s: string)
    ensures Match(Then(One('.'), p), s) == if s != [] && s[0] == '.' then Shift(1, Match(p, s[1..])) else None
  {
  }

  lemma ElseFrom(a: Peg, b: Peg, s: string)
    ensures Match(Else(a, b), s) == if Match(a, s).Some? then Match(a, s) else Match(b, s)
  {
  }

  lemma ScaledStarReads(s: string)
    ensures Match(Then(Star(DIGIT), EXPONENT), s) == ScaledEnd(s)
  {
    StarReadsDigits(s);
    ThenFrom(Star(DIGIT), EXPONENT, s, DigitRun(s));
    ExponentReads(s[DigitRun(s)..]);
  }

  lemma ScaledPlusReads(s: string)
    ensures Match(Then(DIGITS, EXPONENT), s) == if DigitRun(s) > 0 then ScaledEnd(s) else None
  {
    DigitsThenReads(EXPONENT, s);
    ExponentReads(s[DigitRun(s)..]);
  }

  /** Digits, then a dot. */
  lemma DottedChoice(s: string)
    requires var d := DigitRun(s); 0 < d < |s| && s[d] == '.'
    ensures DoubleEnd(s) == Shift(DigitRun(s) + 1, ScaledEnd(s[DigitRun(s) + 1..]))
    ensures s[0] != '.' && ScaledEnd(s).None?
  {
  }

  /** A dot first. */
  lemma BareChoice(s: string)
    requires s != [] && s[0] == '.'
    ensures DigitRun(s) == 0
    ensures DoubleEnd(s) == if DigitRun(s[1..]) > 0 then Shift(1, ScaledEnd(s[1..])) else None
  {
  }

  /** No dot after the digits. */
  lemma PlainChoice(s: string)
    requires DigitRun(s) < |s| ==> s[DigitRun(s)] != '.'
    ensures DoubleEnd(s) == if DigitRun(s) > 0 then ScaledEnd(s) else None
    ensures s != [] ==> s[0] != '.'
  {
  }

  // ---- The three alternatives of DOUBLE, in terms of the scans.

  /** Digits, a dot, and perhaps more digits. */
  function WholeEnd(s: string): Option<nat> {
    var d := DigitRun(s);
    if 0 < d < |s| && s[d] == '.' then Shift(d + 1, ScaledEnd(s[d + 1..])) else None
  }

  /** A dot and digits. */
  function BareEnd(s: string): Option<nat> {
    if s != [] && s[0] == '.' && DigitRun(s[1..]) > 0 then Shift(1, ScaledEnd(s[1..])) else None
  }

  /** Digits alone. */
  function PlainEnd(s: string): Option<nat> {
    if DigitRun(s) > 0 then ScaledEnd(s) else None
  }

  const WHOLE := Then(DIGITS, Then(One('.'), Then(Star(DIGIT), EXPONENT)))
  const BARE := Then(One('.'), Then(DIGITS, EXPONENT))

  lemma ShiftTwice(n: nat, r: Option<nat>)
    ensures Shift(n, Shift(1, r)) == Shift(n + 1, r)
  {
  }

  lemma WholeReads(s: string)
    ensures Match(WHOLE, s) == WholeEnd(s)
  {
    var d := DigitRun(s);
    var scaled := Then(Star(DIGIT), EXPONENT);
    DigitsThenReads(Then(One('.'), scaled), s);
    if d < |s| {
      DotThenReads(scaled, s[d..]);
      assert s[d..][1..] == s[d + 1..];
      ScaledStarReads(s[d + 1..]);
      ShiftTwice(d, ScaledEnd(s[d + 1..]));
    } else {
      assert s[d..] == [];
      DotThenReads(scaled, []);
    }
  }

  lemma BareReads(s: string)
    ensures Match(BARE, s) == BareEnd(s)
  {
    DotThenReads(Then(DIGITS, EXPONENT), s);
    if s != [] {
      ScaledPlusReads(s[1..]);
    }
  }

  lemma UnsignedDoubleIs()
    ensures UNSIGNED_DOUBLE == Else(WHOLE, Else(BARE, Then(DIGITS, EXPONENT)))
  {
  }

  lemma ChoiceReads(s: string)
    ensures Match(UNSIGNED_DOUBLE, s)
         == if WholeEnd(s).Some? then WholeEnd(s) else if BareEnd(s).Some? then BareEnd(s) else PlainEnd(s)
  {
    WholeReads(s);
    BareReads(s);
    ScaledPlusReads(s);
    UnsignedDoubleIs();
    ElseFrom(WHOLE, Else(BARE, Then(DIGITS, EXPONENT)), s);
    ElseFrom(BARE, Then(DIGITS, EXPONENT), s);
  }

  lemma ChoiceIsDouble(s: string)
    ensures DoubleEnd(s)
         == if WholeEnd(s).Some? then WholeEnd(s) else if BareEnd(s).Some? then BareEnd(s) else PlainEnd(s)
  {
    if s != [] && s[0] == '.' {
      BareChoice(s);
    } else if DigitRun(s) < |s| && s[DigitRun(s)] == '.' {
      DottedChoice(s);
    } else {
      PlainChoice(s);
    }
  }

  lemma DoubleReads(s: string)
    ensures Match(UNSIGNED_DOUBLE, s) == DoubleEnd(s)
  {
    ChoiceReads(s);
    ChoiceIsDouble(s);
  }

  // ---- Soundness: what is consumed lies in the production.

  lemma {:induction false} DigitsAreRep(t: string)
    ensures Matches(Rep(DIGIT_R), t) <==> AllDigits(t)
    decreases |t|
  {
    if AllDigits(t) && t != [] {
      DigitsAreRep(t[1..]);
      RepIntro(DIGIT_R, t[..1], t[1..]);
      assert t[..1] + t[1..] == t;
    }
    if Matches(Rep(DIGIT_R), t) && t != [] {
      var k := RepElim(DIGIT_R, t);
      DigitsAreRep(t[k..]);
      assert IsDigit(t[..k][0]);
      assert t == [t[0]] + t[k..];
    }
  }

  lemma DigitsAreSome(t: string)
    ensures Matches(DIGITS_R, t) <==> t != [] && AllDigits(t)
  {
    if t != [] && AllDigits(t) {
      DigitsAreRep(t[1..]);
      CatIntro(DIGIT_R, Rep(DIGIT_R), t[..1], t[1..]);
      assert t[..1] + t[1..] == t;
    }
    if Matches(DIGITS_R, t) {
      var k := CatElim(DIGIT_R, Rep(DIGIT_R), t);
      DigitsAreRep(t[k..]);
      assert IsDigit(t[..k][0]);
      assert t == [t[0]] + t[k..];
    }
  }

  lemma SignedIn(r: Regex, s: string, n: nat)
    requires SignRun(s) + n <= |s| && Matches(r, s[SignRun(s)..][..n])
    ensures Matches(Cat(SIGN_R, r), s[..SignRun(s) + n])
  {
    var p := SignRun(s);
    assert Matches(SIGN_R, s[..p]);
    CatIntro(SIGN_R, r, s[..p], s[p..][..n]);
    assert s[..p + n] == s[..p] + s[p..][..n];
  }

  lemma DigitsIn(s: string)
    requires DigitRun(s) > 0
    ensures Matches(DIGITS_R, s[..DigitRun(s)])
  {
    DigitRunEnds(s);
    DigitsAreSome(s[..DigitRun(s)]);
  }

  lemma ExponentIn(s: string)
    requires ExponentEnd(s).Some?
    ensures Matches(EXPONENT_R, s[..ExponentEnd(s).value])
  {
    var u := s[1..];
    var p := SignRun(u);
    DigitsIn(u[p..]);
    SignedIn(DIGITS_R, u, DigitRun(u[p..]));
    CatIntro(Letter(IsE), Cat(SIGN_R, DIGITS_R), s[..1], u[..p + DigitRun(u[p..])]);
    assert s[..1] + u[..p + DigitRun(u[p..])] == s[..ExponentEnd(s).value];
  }

  lemma DotIn(r: Regex, s: string, n: nat)
    requires s != [] && s[0] == '.' && n <= |s| - 1 && Matches(r, s[1..][..n])
    ensures Matches(Cat(Char('.'), r), s[..1 + n])
  {
    assert Matches(Char('.'), s[..1]);
    CatAt(Char('.'), r, s, 1, 1 + n);
  }

  /** The same further on in a text: a dot at d, and n characters of r after it. */
  lemma DotFurtherIn(r: Regex, s: string, d: nat, n: nat)
    requires d < |s| && s[d] == '.' && d + 1 + n <= |s| && Matches(r, s[d + 1..][..n])
    ensures Matches(Cat(Char('.'), r), s[d..][..1 + n])
  {
    DropOfDrop(s, d, 1);
    DotIn(r, s[d..], n);
  }

  lemma RunIn(s: string)
    ensures Matches(Rep(DIGIT_R), s[..DigitRun(s)])
  {
    DigitRunEnds(s);
    DigitsAreRep(s[..DigitRun(s)]);
  }

  lemma DecimalIn(s: string)
    requires DecimalEnd(s).Some?
    ensures Matches(UNSIGNED_DECIMAL_R, s[..DecimalEnd(s).value])
  {
    var d := DigitRun(s);
    var f := DigitRun(s[d + 1..]);
    RunIn(s);
    DigitsIn(s[d + 1..]);
    DotFurtherIn(DIGITS_R, s, d, f);
    CatAt(Rep(DIGIT_R), Cat(Char('.'), DIGITS_R), s, d, d + 1 + f);
  }

  lemma ScaledRunIn(s: string)
    requires ScaledEnd(s).Some?
    ensures Matches(Cat(Rep(DIGIT_R), EXPONENT_R), s[..ScaledEnd(s).value])
  {
    var d := DigitRun(s);
    ExponentIn(s[d..]);
    RunIn(s);
    CatAt(Rep(DIGIT_R), EXPONENT_R, s, d, ScaledEnd(s).value);
  }

  lemma ScaledDigitsIn(s: string)
    requires ScaledEnd(s).Some? && DigitRun(s) > 0
    ensures Matches(Cat(DIGITS_R, EXPONENT_R), s[..ScaledEnd(s).value])
  {
    var d := DigitRun(s);
    ExponentIn(s[d..]);
    DigitsIn(s);
    CatAt(DIGITS_R, EXPONENT_R, s, d, ScaledEnd(s).value);
  }

  lemma DottedIn(s: string)
    requires var d := DigitRun(s); 0 < d < |s| && s[d] == '.'
    requires DoubleEnd(s).Some?
    ensures Matches(UNSIGNED_DOUBLE_R, s[..DoubleEnd(s).value])
  {
    DottedChoice(s);
    DottedPartsIn(s, DigitRun(s), ScaledEnd(s[DigitRun(s) + 1..]).value, DoubleEnd(s).value);
  }

  lemma DottedPartsIn(s: string, d: nat, n: nat, end: nat)
    requires 0 < d < |s| && s[d] == '.' && DigitRun(s) == d
    requires ScaledEnd(s[d + 1..]) == Some(n) && end == d + 1 + n
    ensures Matches(UNSIGNED_DOUBLE_R, s[..end])
  {
    ScaledRunIn(s[d + 1..]);
    DigitsIn(s);
    WholeIn(s, d, n);
  }

  lemma WholeIn(s: string, d: nat, n: nat)
    requires d < |s| && s[d] == '.' && d + 1 + n <= |s|
    requires Matches(DIGITS_R, s[..d]) && Matches(Cat(Rep(DIGIT_R), EXPONENT_R), s[d + 1..][..n])
    ensures Matches(UNSIGNED_DOUBLE_R, s[..d + 1 + n])
  {
    var scaled := Cat(Rep(DIGIT_R), EXPONENT_R);
    DotFurtherIn(scaled, s, d, n);
    CatAt(DIGITS_R, Cat(Char('.'), scaled), s, d, d + 1 + n);
    AltElim(Cat(DIGITS_R, Cat(Char('.'), scaled)),
            Alt(Cat(Char('.'), Cat(DIGITS_R, EXPONENT_R)), Cat(DIGITS_R, EXPONENT_R)), s[..d + 1 + n]);
  }

  lemma BareIn(s: string)
    requires s != [] && s[0] == '.' && DoubleEnd(s).Some?
    ensures Matches(UNSIGNED_DOUBLE_R, s[..DoubleEnd(s).value])
  {
    BareChoice(s);
    ScaledDigitsIn(s[1..]);
    DotIn(Cat(DIGITS_R, EXPONENT_R), s, ScaledEnd(s[1..]).value);
    AltElim(Cat(Char('.'), Cat(DIGITS_R, EXPONENT_R)), Cat(DIGITS_R, EXPONENT_R), s[..DoubleEnd(s).value]);
  }

  lemma PlainIn(s: string)
    requires DigitRun(s) < |s| ==> s[DigitRun(s)] != '.'
    requires DoubleEnd(s).Some?
    ensures Matches(UNSIGNED_DOUBLE_R, s[..DoubleEnd(s).value])
  {
    PlainChoice(s);
    ScaledDigitsIn(s);
    AltElim(Cat(Char('.'), Cat(DIGITS_R, EXPONENT_R)), Cat(DIGITS_R, EXPONENT_R), s[..DoubleEnd(s).value]);
  }

  lemma DoubleIn(s: string)
    requires DoubleEnd(s).Some?
    ensures Matches(UNSIGNED_DOUBLE_R, s[..DoubleEnd(s).value])
  {
    if s != [] && s[0] == '.' {
      BareIn(s);
    } else if DigitRun(s) < |s| && s[DigitRun(s)] == '.' {
      DottedIn(s);
    } else {
      PlainIn(s);
    }
  }

  // ---- Completeness: whatever follows a text of the production, the scan reaches at least its end.

  lemma {:induction false} RunOver(a: string, w: string)
    requires AllDigits(a)
    ensures DigitRun(a + w) == |a| + DigitRun(w)
  {
    if a == [] {
      assert a + w == w;
    } else {
      assert (a + w)[1..] == a[1..] + w;
      RunOver(a[1..], w);
    }
  }

  /** The end of a scan of t + w is at or beyond t. */
  ghost predicate Covers(end: Option<nat>, t: string) {
    end.Some? && end.value >= |t|
  }

  lemma DigitsCover(t: string, w: string)
    requires Matches(DIGITS_R, t)
    ensures Covers(DigitsEnd(t + w), t) && t != [] && !IsSign(t[0])
  {
    DigitsAreSome(t);
    RunOver(t, w);
  }

  lemma SignSplits(a: string, b: string, w: string)
    requires Matches(SIGN_R, a) && b != [] && !IsSign(b[0])
    ensures SignRun(a + b + w) == |a| && (a + b + w)[|a|..] == b + w
  {
    AltElim(Letter(IsSign), Nothing, a);
    if a == [] {
      assert (a + b + w)[0] == b[0];
    }
  }

  lemma ExponentCovers(t: string, w: string)
    requires Matches(EXPONENT_R, t)
    ensures Covers(ExponentEnd(t + w), t) && t != [] && IsE(t[0])
  {
    var i := CatElim(Letter(IsE), Cat(SIGN_R, DIGITS_R), t);
    var u := t[i..];
    var j := CatElim(SIGN_R, DIGITS_R, u);
    DigitsCover(u[j..], w);
    SignSplits(u[..j], u[j..], w);
    assert u[..j] + u[j..] + w == u + w;
    assert t[..1][0] == t[0] && (t + w)[1..] == u + w;
  }

  lemma DecimalSplits(t: string) returns (a: string, b: string)
    requires Matches(UNSIGNED_DECIMAL_R, t)
    ensures t == a + "." + b && AllDigits(a) && Matches(DIGITS_R, b)
  {
    var i := CatElim(Rep(DIGIT_R), Cat(Char('.'), DIGITS_R), t);
    var u := t[i..];
    var j := CatElim(Char('.'), DIGITS_R, u);
    DigitsAreRep(t[..i]);
    a, b := t[..i], u[j..];
    assert u[..j] == ".";
  }

  lemma DecimalCovers(t: string, w: string)
    requires Matches(UNSIGNED_DECIMAL_R, t)
    ensures Covers(DecimalEnd(t + w), t) && t != [] && !IsSign(t[0])
  {
    var a, b := DecimalSplits(t);
    assert a + "." + (b + w) == t + w;
    RunToDot(a, b + w);
    DigitsCover(b, w);
    assert a != [] ==> IsDigit(a[0]) && t[0] == a[0];
  }

  lemma ScaledCovers(a: string, b: string, w: string)
    requires AllDigits(a) && Matches(EXPONENT_R, b)
    ensures DigitRun(a + b + w) == |a| && Covers(ScaledEnd(a + b + w), a + b)
  {
    ExponentCovers(b, w);
    assert a + (b + w) == a + b + w;
    RunOver(a, b + w);
    assert (b + w)[0] == b[0];
    assert (a + b + w)[|a|..] == b + w;
  }

  lemma RunToDot(a: string, r: string)
    requires AllDigits(a)
    ensures DigitRun(a + "." + r) == |a| && (a + "." + r)[|a|] == '.' && (a + "." + r)[|a| + 1..] == r
  {
    RunOver(a, "." + r);
    assert a + ("." + r) == a + "." + r;
  }

  lemma DottedCovers(a: string, b: string, c: string, w: string)
    requires Matches(DIGITS_R, a) && AllDigits(b) && Matches(EXPONENT_R, c)
    ensures Covers(DoubleEnd(a + "." + (b + c + w)), a + "." + b + c)
  {
    DigitsAreSome(a);
    RunToDot(a, b + c + w);
    DottedChoice(a + "." + (b + c + w));
    ScaledCovers(b, c, w);
  }

  lemma BareCovers(b: string, c: string, w: string)
    requires Matches(DIGITS_R, b) && Matches(EXPONENT_R, c)
    ensures Covers(DoubleEnd("." + b + c + w), "." + b + c)
  {
    DigitsAreSome(b);
    ScaledCovers(b, c, w);
    AfterDot(b + c + w, b + c);
    BareText(b, c, w);
  }

  lemma BareText(b: string, c: string, w: string)
    ensures "." + (b + c + w) == "." + b + c + w && "." + (b + c) == "." + b + c
  {
  }

  lemma AfterDot(rest: string, t: string)
    requires DigitRun(rest) > 0 && Covers(ScaledEnd(rest), t)
    ensures Covers(DoubleEnd("." + rest), "." + t)
  {
    BareChoice("." + rest);
    assert ("." + rest)[1..] == rest;
  }

  lemma PlainCovers(a: string, c: string, w: string)
    requires Matches(DIGITS_R, a) && Matches(EXPONENT_R, c)
    ensures Covers(DoubleEnd(a + c + w), a + c)
  {
    var s := a + c + w;
    DigitsAreSome(a);
    ScaledCovers(a, c, w);
    ExponentCovers(c, w);
    assert s[|a|] == c[0];
    PlainChoice(s);
  }

  const WHOLE_R := Cat(DIGITS_R, Cat(Char('.'), Cat(Rep(DIGIT_R), EXPONENT_R)))
  const BARE_R := Cat(Char('.'), Cat(DIGITS_R, EXPONENT_R))
  const PLAIN_R := Cat(DIGITS_R, EXPONENT_R)

  lemma WholeSplits(t: string) returns (a: string, b: string, c: string)
    requires Matches(WHOLE_R, t)
    ensures t == a + "." + (b + c) && Matches(DIGITS_R, a) && AllDigits(b) && Matches(EXPONENT_R, c)
  {
    var i := CatElim(DIGITS_R, Cat(Char('.'), Cat(Rep(DIGIT_R), EXPONENT_R)), t);
    var u := t[i..];
    var j := CatElim(Char('.'), Cat(Rep(DIGIT_R), EXPONENT_R), u);
    var v := u[j..];
    var k := CatElim(Rep(DIGIT_R), EXPONENT_R, v);
    DigitsAreRep(v[..k]);
    a, b, c := t[..i], v[..k], v[k..];
    assert u[..j] == ".";
    assert v == b + c && u == "." + v;
  }

  lemma WholeCovers(t: string, w: string)
    requires Matches(WHOLE_R, t)
    ensures Covers(DoubleEnd(t + w), t) && t != [] && !IsSign(t[0])
  {
    var a, b, c := WholeSplits(t);
    DigitsAreSome(a);
    DottedCovers(a, b, c, w);
    Reassemble(a, b, c, w);
  }

  lemma Reassemble(a: string, b: string, c: string, w: string)
    ensures a + "." + (b + c + w) == a + "." + (b + c) + w
    ensures a + "." + b + c == a + "." + (b + c)
  {
  }

  lemma BareTextCovers(t: string, w: string)
    requires Matches(BARE_R, t)
    ensures Covers(DoubleEnd(t + w), t) && t != [] && !IsSign(t[0])
  {
    var j := CatElim(Char('.'), Cat(DIGITS_R, EXPONENT_R), t);
    var k := CatElim(DIGITS_R, EXPONENT_R, t[j..]);
    assert t[..j] == ".";
    assert "." + t[j..][..k] + t[j..][k..] == t;
    BareCovers(t[j..][..k], t[j..][k..], w);
  }

  lemma PlainTextCovers(t: string, w: string)
    requires Matches(PLAIN_R, t)
    ensures Covers(DoubleEnd(t + w), t) && t != [] && !IsSign(t[0])
  {
    var k := CatElim(DIGITS_R, EXPONENT_R, t);
    DigitsAreSome(t[..k]);
    assert t[..k] + t[k..] == t;
    PlainCovers(t[..k], t[k..], w);
  }

  lemma DoubleCovers(t: string, w: string)
    requires Matches(UNSIGNED_DOUBLE_R, t)
    ensures Covers(DoubleEnd(t + w), t) && t != [] && !IsSign(t[0])
  {
    AltElim(WHOLE_R, Alt(BARE_R, PLAIN_R), t);
    AltElim(BARE_R, PLAIN_R, t);
    if Matches(WHOLE_R, t) {
      WholeCovers(t, w);
    } else if Matches(BARE_R, t) {
      BareTextCovers(t, w);
    } else {
      PlainTextCovers(t, w);
    }
  }

  // ---- The ordered choice.

  /** What one alternative finds is never shorter than what the later ones would find. */
  lemma ChoiceIsLongest(s: string)
    ensures DecimalEnd(s).Some? ==> DecimalEnd(s).value >= DigitRun(s)
    ensures DoubleEnd(s).Some? ==> DoubleEnd(s).value >= DigitRun(s)
    ensures DoubleEnd(s).Some? && DecimalEnd(s).Some? ==> DoubleEnd(s).value >= DecimalEnd(s).value
  {
  }

  const NUMERIC_R := Alt(DOUBLE_R, Alt(DECIMAL_R, INTEGER_R))

  lemma NumericReads(s: string)
    ensures var p := SignRun(s);
            var u := s[p..];
            && Match(DOUBLE, s) == Shift(p, DoubleEnd(u))
            && Match(DECIMAL, s) == Shift(p, DecimalEnd(u))
            && Match(INTEGER, s) == Shift(p, DigitsEnd(u))
  {
    var u := s[SignRun(s)..];
    SignReads(UNSIGNED_DOUBLE, s);
    DoubleReads(u);
    SignReads(UNSIGNED_DECIMAL, s);
    DecimalReads(u);
    SignReads(DIGITS, s);
    PlusReadsDigits(u);
  }

  lemma DoubleMatchIn(s: string)
    ensures Match(DOUBLE, s).Some? ==> Matches(DOUBLE_R, s[..Match(DOUBLE, s).value])
  {
    var u := s[SignRun(s)..];
    SignReads(UNSIGNED_DOUBLE, s);
    DoubleReads(u);
    if DoubleEnd(u).Some? {
      DoubleIn(u);
      SignedIn(UNSIGNED_DOUBLE_R, s, DoubleEnd(u).value);
    }
  }

  lemma DecimalMatchIn(s: string)
    ensures Match(DECIMAL, s).Some? ==> Matches(DECIMAL_R, s[..Match(DECIMAL, s).value])
  {
    var u := s[SignRun(s)..];
    SignReads(UNSIGNED_DECIMAL, s);
    DecimalReads(u);
    if DecimalEnd(u).Some? {
      DecimalIn(u);
      SignedIn(UNSIGNED_DECIMAL_R, s, DecimalEnd(u).value);
    }
  }

  lemma IntegerMatchIn(s: string)
    ensures Match(INTEGER, s).Some? ==> Matches(INTEGER_R, s[..Match(INTEGER, s).value])
  {
    var u := s[SignRun(s)..];
    SignReads(DIGITS, s);
    PlusReadsDigits(u);
    if DigitRun(u) > 0 {
      DigitsIn(u);
      SignedIn(DIGITS_R, s, DigitRun(u));
    }
  }

  lemma DoubleMatchCovers(t: string, w: string)
    requires Matches(DOUBLE_R, t)
    ensures Covers(Match(DOUBLE, t + w), t)
  {
    var i := CatElim(SIGN_R, UNSIGNED_DOUBLE_R, t);
    DoubleCovers(t[i..], w);
    SignedCovers(t[..i], t[i..], w);
    assert t[..i] + t[i..] == t;
  }

  lemma SignedCovers(a: string, b: string, w: string)
    requires Matches(SIGN_R, a) && b != [] && !IsSign(b[0]) && Covers(DoubleEnd(b + w), b)
    ensures Covers(Match(DOUBLE, a + b + w), a + b)
  {
    SignSplits(a, b, w);
    NumericReads(a + b + w);
  }

  lemma DecimalMatchCovers(t: string, w: string)
    requires Matches(DECIMAL_R, t)
    ensures Covers(Match(DECIMAL, t + w), t)
  {
    var i := CatElim(SIGN_R, UNSIGNED_DECIMAL_R, t);
    DecimalCovers(t[i..], w);
    SignSplits(t[..i], t[i..], w);
    assert t[..i] + t[i..] + w == t + w;
    NumericReads(t + w);
  }

  lemma IntegerMatchCovers(t: string, w: string)
    requires Matches(INTEGER_R, t)
    ensures Covers(Match(INTEGER, t + w), t)
  {
    var i := CatElim(SIGN_R, DIGITS_R, t);
    DigitsCover(t[i..], w);
    SignSplits(t[..i], t[i..], w);
    assert t[..i] + t[i..] + w == t + w;
    NumericReads(t + w);
  }

  /** A text of any class is covered by that class's own rule. */
  lemma ClassCovers(t: string, w: string)
    ensures Matches(DOUBLE_R, t) ==> Covers(Match(DOUBLE, t + w), t)
    ensures Matches(DECIMAL_R, t) ==> Covers(Match(DECIMAL, t + w), t)
    ensures Matches(INTEGER_R, t) ==> Covers(Match(INTEGER, t + w), t)
  {
    if Matches(DOUBLE_R, t) { DoubleMatchCovers(t, w); }
    if Matches(DECIMAL_R, t) { DecimalMatchCovers(t, w); }
    if Matches(INTEGER_R, t) { IntegerMatchCovers(t, w); }
  }

  lemma NumericOrder(s: string)
    ensures var n := Match(NUMERIC, s);
            && (Match(DOUBLE, s).Some? ==> n == Match(DOUBLE, s))
            && (Match(DOUBLE, s).None? && Match(DECIMAL, s).Some? ==> n == Match(DECIMAL, s))
            && (Match(DOUBLE, s).None? && Match(DECIMAL, s).None? ==> n == Match(INTEGER, s))
            && (Match(DECIMAL, s).Some? ==> n.Some? && n.value >= Match(DECIMAL, s).value)
            && (Match(INTEGER, s).Some? ==> n.Some? && n.value >= Match(INTEGER, s).value)
  {
    NumericReads(s);
    ChoiceIsLongest(s[SignRun(s)..]);
    ElseFrom(DOUBLE, Else(DECIMAL, INTEGER), s);
    ElseFrom(DECIMAL, INTEGER, s);
  }

  /** Main result: the ordered choice consumes the longest prefix that lies in any of the three productions. */
  lemma NumericIsLongest(s: string)
    ensures Longest(NUMERIC, NUMERIC_R, s)
  {
    NumericOrder(s);
    DoubleMatchIn(s);
    DecimalMatchIn(s);
    IntegerMatchIn(s);
    forall k | 0 <= k <= |s|
      ensures Matches(NUMERIC_R, s[..k]) ==> Covers(Match(NUMERIC, s), s[..k])
    {
      AltElim(DOUBLE_R, Alt(DECIMAL_R, INTEGER_R), s[..k]);
      AltElim(DECIMAL_R, INTEGER_R, s[..k]);
      ClassCovers(s[..k], s[k..]);
      assert s[..k] + s[k..] == s;
    }
    var n := Match(NUMERIC, s);
    if n.Some? {
      AltElim(DOUBLE_R, Alt(DECIMAL_R, INTEGER_R), s[..n.value]);
      AltElim(DECIMAL_R, INTEGER_R, s[..n.value]);
    }
  }
}
