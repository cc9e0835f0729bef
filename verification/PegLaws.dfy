/** Laws of tokens, greedy repetition and dotted tails, for any rule and production that meet their conditions. */
module PegLaws {
  import opened Terms
  import opened Peg

  lemma CatIntro(left: Regex, right: Regex, a: string, b: string)
    requires Matches(left, a) && Matches(right, b)
    ensures Matches(Cat(left, right), a + b)
  {
    assert (a + b)[..|a|] == a && (a + b)[|a|..] == b;
    assert CatSplit(left, right, a + b, |a|);
  }

  // ---- Slices of slices.

  lemma TakeOfTake(s: string, k: nat, j: nat)
    requires j <= k <= |s|
    ensures s[..k][..j] == s[..j] && s[..k][j..] == s[j..][..k - j]
  {
  }

  lemma DropOfDrop(s: string, i: nat, j: nat)
    requires i + j <= |s|
    ensures s[i..][j..] == s[i + j..]
  {
  }

  lemma TakeSplits(s: string, i: nat, n: nat)
    requires i <= n <= |s|
    ensures s[..n] == s[..i] + s[i..][..n - i]
  {
  }

  lemma TakeAll(s: string)
    ensures s[..|s|] == s && s[0..] == s && s[..0] == []
  {
  }

  /** A prefix in a concatenation, seen from the text it is a prefix of. */
  lemma CatWithin(left: Regex, right: Regex, s: string, n: nat) returns (i: nat)
    requires n <= |s| && Matches(Cat(left, right), s[..n])
    ensures i <= n && Matches(left, s[..i]) && Matches(right, s[i..][..n - i])
  {
    i := CatElim(left, right, s[..n]);
    TakeOfTake(s, n, i);
  }

  lemma CatAt(left: Regex, right: Regex, s: string, i: nat, n: nat)
    requires i <= n <= |s| && Matches(left, s[..i]) && Matches(right, s[i..][..n - i])
    ensures Matches(Cat(left, right), s[..n])
  {
    CatIntro(left, right, s[..i], s[i..][..n - i]);
    TakeSplits(s, i, n);
  }

  lemma CatElim(left: Regex, right: Regex, s: string) returns (k: nat)
    requires Matches(Cat(left, right), s)
    ensures k <= |s| && Matches(left, s[..k]) && Matches(right, s[k..])
  {
    k :| CatSplit(left, right, s, k);
  }

  lemma RepIntro(part: Regex, a: string, b: string)
    requires Matches(part, a) && a != [] && Matches(Rep(part), b)
    ensures Matches(Rep(part), a + b)
  {
    assert (a + b)[..|a|] == a && (a + b)[|a|..] == b;
    assert RepSplit(part, a + b, |a|);
  }

  lemma RepElim(part: Regex, s: string) returns (k: nat)
    requires Matches(Rep(part), s) && s != []
    ensures 0 < k <= |s| && Matches(part, s[..k]) && Matches(Rep(part), s[k..])
  {
    k :| RepSplit(part, s, k);
  }

  lemma TokenClass(f: char -> bool)
    ensures Token(Class(f), Letter(f))
  {
  }

  lemma TokenThen(a: Peg, b: Peg, ar: Regex, br: Regex)
    requires Token(a, ar) && Token(b, br)
    ensures Token(Then(a, b), Cat(ar, br))
  {
    forall s: string
      ensures TokenAt(Then(a, b), Cat(ar, br), s)
    {
      TokenThenAt(a, b, ar, br, s);
    }
  }

  lemma TokenThenAt(a: Peg, b: Peg, ar: Regex, br: Regex, s: string)
    requires Token(a, ar) && Token(b, br)
    ensures TokenAt(Then(a, b), Cat(ar, br), s)
  {
    forall k | 0 <= k <= |s| && Matches(Cat(ar, br), s[..k])
      ensures Match(Then(a, b), s) == Some(k)
    {
      ThenReadsToken(a, b, ar, br, s, k);
    }
    if Match(Then(a, b), s).Some? {
      ThenIsToken(a, b, ar, br, s);
    }
  }

  lemma TokenIsRead(p: Peg, r: Regex, s: string, k: nat)
    requires Token(p, r) && k <= |s| && Matches(r, s[..k])
    ensures Match(p, s) == Some(k) && k > 0
  {
    assert TokenAt(p, r, s);
  }

  lemma ReadIsToken(p: Peg, r: Regex, s: string)
    requires Token(p, r) && Match(p, s).Some?
    ensures Match(p, s).value > 0 && Matches(r, s[..Match(p, s).value])
  {
    assert TokenAt(p, r, s);
  }

  lemma ThenReadsToken(a: Peg, b: Peg, ar: Regex, br: Regex, s: string, k: nat)
    requires Token(a, ar) && Token(b, br) && k <= |s| && Matches(Cat(ar, br), s[..k])
    ensures Match(Then(a, b), s) == Some(k)
  {
    var j := CatWithin(ar, br, s, k);
    PartsAreRead(a, b, ar, br, s, j, k);
  }

  lemma PartsAreRead(a: Peg, b: Peg, ar: Regex, br: Regex, s: string, j: nat, k: nat)
    requires Token(a, ar) && Token(b, br) && j <= k <= |s| && Matches(ar, s[..j]) && Matches(br, s[j..][..k - j])
    ensures Match(Then(a, b), s) == Some(k)
  {
    TokenIsRead(a, ar, s, j);
    TokenIsRead(b, br, s[j..], k - j);
    ThenFrom(a, b, s, j);
  }

  lemma ThenSplits(a: Peg, b: Peg, s: string)
    requires Match(Then(a, b), s).Some?
    ensures Match(a, s).Some?
    ensures var rest := s[Match(a, s).value..];
            Match(b, rest).Some? && Match(Then(a, b), s).value == Match(a, s).value + Match(b, rest).value
  {
  }

  lemma ThenIsToken(a: Peg, b: Peg, ar: Regex, br: Regex, s: string)
    requires Token(a, ar) && Token(b, br) && Match(Then(a, b), s).Some?
    ensures Match(Then(a, b), s).value > 0 && Matches(Cat(ar, br), s[..Match(Then(a, b), s).value])
  {
    ThenSplits(a, b, s);
    PartsAreTokens(a, b, ar, br, s, Match(a, s).value, Match(Then(a, b), s).value);
  }

  lemma PartsAreTokens(a: Peg, b: Peg, ar: Regex, br: Regex, s: string, i: nat, n: nat)
    requires Token(a, ar) && Token(b, br) && i <= n <= |s| && Match(a, s) == Some(i) && Match(b, s[i..]) == Some(n - i)
    ensures n > 0 && Matches(Cat(ar, br), s[..n])
  {
    ReadIsToken(a, ar, s);
    ReadIsToken(b, br, s[i..]);
    CatAt(ar, br, s, i, n);
  }

  /** Every character a production may use satisfies f. */
  ghost predicate Over(r: Regex, f: char -> bool) {
    match r
    case Nothing => true
    case Letter(member) => forall c :: member(c) ==> f(c)
    case Cat(left, right) => Over(left, f) && Over(right, f)
    case Alt(one, two) => Over(one, f) && Over(two, f)
    case Rep(part) => Over(part, f)
  }

  lemma OverLetter(member: char -> bool, f: char -> bool)
    requires forall c :: member(c) ==> f(c)
    ensures Over(Letter(member), f)
  {
  }

  lemma OverChar(c: char, f: char -> bool)
    requires f(c)
    ensures Over(Char(c), f)
  {
  }

  lemma OverCat(left: Regex, right: Regex, f: char -> bool)
    requires Over(left, f) && Over(right, f)
    ensures Over(Cat(left, right), f)
  {
  }

  lemma OverAlt(one: Regex, two: Regex, f: char -> bool)
    requires Over(one, f) && Over(two, f)
    ensures Over(Alt(one, two), f)
  {
  }

  lemma OverRep(part: Regex, f: char -> bool)
    requires Over(part, f)
    ensures Over(Rep(part), f) && Over(Some1(part), f) && Over(Maybe(part), f)
  {
  }

  predicate AllOf(s: string, f: char -> bool) {
    forall i :: 0 <= i < |s| ==> f(s[i])
  }

  lemma {:induction false} CharactersOf(r: Regex, f: char -> bool, s: string)
    requires Over(r, f) && Matches(r, s)
    ensures AllOf(s, f)
    decreases r, |s|
  {
    match r
    case Nothing =>
    case Letter(_) =>
    case Cat(left, right) =>
      var k := CatElim(left, right, s);
      CharactersOf(left, f, s[..k]);
      CharactersOf(right, f, s[k..]);
      AllOfParts(s, f, k);
    case Alt(one, two) =>
      if Matches(one, s) {
        CharactersOf(one, f, s);
      } else {
        CharactersOf(two, f, s);
      }
    case Rep(part) =>
      if s != [] {
        var k := RepElim(part, s);
        CharactersOf(part, f, s[..k]);
        CharactersOf(r, f, s[k..]);
        AllOfParts(s, f, k);
      }
  }

  lemma AllOfParts(s: string, f: char -> bool, k: nat)
    requires k <= |s| && AllOf(s[..k], f) && AllOf(s[k..], f)
    ensures AllOf(s, f)
  {
  }

  /** A text of single characters that a part may be is a repetition of that part. */
  lemma {:induction false} RepOfLetters(f: char -> bool, part: Regex, s: string)
    requires AllOf(s, f)
    requires forall c :: f(c) ==> Matches(part, [c])
    ensures Matches(Rep(part), s)
    decreases |s|
  {
    if s != [] {
      RepOfLetters(f, part, s[1..]);
      RepIntro(part, [s[0]], s[1..]);
      assert [s[0]] + s[1..] == s;
    }
  }

  /** Two tokens that never match at the same place. */
  ghost predicate Apart(a: Peg, b: Peg) {
    forall s: string :: Match(a, s).None? || Match(b, s).None?
  }

  lemma TokenElse(a: Peg, b: Peg, ar: Regex, br: Regex)
    requires Token(a, ar) && Token(b, br) && Apart(a, b)
    ensures Token(Else(a, b), Alt(ar, br))
  {
    forall s: string
      ensures TokenAt(Else(a, b), Alt(ar, br), s)
    {
      assert TokenAt(a, ar, s) && TokenAt(b, br, s);
      assert Match(a, s).None? || Match(b, s).None?;
    }
  }

  lemma LongestCovers(p: Peg, r: Regex, s: string, k: nat)
    requires Longest(p, r, s) && k <= |s| && Matches(r, s[..k])
    ensures Match(p, s).Some? && k <= Match(p, s).value
  {
  }

  lemma LongestIsIn(p: Peg, r: Regex, s: string)
    requires Longest(p, r, s) && Match(p, s).Some?
    ensures Matches(r, s[..Match(p, s).value])
  {
  }

  lemma ThenCovers(a: Peg, b: Peg, ar: Regex, br: Regex, s: string, k: nat)
    requires Token(a, ar) && k <= |s| && Matches(Cat(ar, br), s[..k])
    requires Match(a, s).Some? ==> Longest(b, br, s[Match(a, s).value..])
    ensures Match(Then(a, b), s).Some? && k <= Match(Then(a, b), s).value
  {
    var j := CatWithin(ar, br, s, k);
    PartsCover(a, b, ar, br, s, j, k);
  }

  lemma PartsCover(a: Peg, b: Peg, ar: Regex, br: Regex, s: string, j: nat, k: nat)
    requires Token(a, ar) && j <= k <= |s| && Matches(ar, s[..j]) && Matches(br, s[j..][..k - j])
    requires Match(a, s).Some? ==> Longest(b, br, s[Match(a, s).value..])
    ensures Match(Then(a, b), s).Some? && k <= Match(Then(a, b), s).value
  {
    TokenIsRead(a, ar, s, j);
    LongestCovers(b, br, s[j..], k - j);
    ThenFrom(a, b, s, j);
  }

  lemma ThenIsIn(a: Peg, b: Peg, ar: Regex, br: Regex, s: string)
    requires Token(a, ar) && Match(Then(a, b), s).Some?
    requires Match(a, s).Some? ==> Longest(b, br, s[Match(a, s).value..])
    ensures Matches(Cat(ar, br), s[..Match(Then(a, b), s).value])
  {
    ThenSplits(a, b, s);
    PartsAreIn(a, b, ar, br, s, Match(a, s).value, Match(Then(a, b), s).value);
  }

  lemma PartsAreIn(a: Peg, b: Peg, ar: Regex, br: Regex, s: string, i: nat, n: nat)
    requires Token(a, ar) && i <= n <= |s| && Match(a, s) == Some(i) && Match(b, s[i..]) == Some(n - i)
    requires Longest(b, br, s[i..])
    ensures Matches(Cat(ar, br), s[..n])
  {
    ReadIsToken(a, ar, s);
    LongestIsIn(b, br, s[i..]);
    CatAt(ar, br, s, i, n);
  }

  /** A token followed by a greedy rule is greedy. */
  lemma ThenLongest(a: Peg, b: Peg, ar: Regex, br: Regex, s: string)
    requires Token(a, ar)
    requires Match(a, s).Some? ==> Longest(b, br, s[Match(a, s).value..])
    ensures Longest(Then(a, b), Cat(ar, br), s)
  {
    forall k | 0 <= k <= |s| && Matches(Cat(ar, br), s[..k])
      ensures Match(Then(a, b), s).Some? && k <= Match(Then(a, b), s).value
    {
      ThenCovers(a, b, ar, br, s, k);
    }
    if Match(Then(a, b), s).Some? {
      ThenIsIn(a, b, ar, br, s);
    }
  }

  // ---- Tails: units with dots between them, never a dot at the end.

  function Dots(): Peg {
    Star(One('.'))
  }

  /** The tail as the grammar writes it: the unit, or a run of units, after any number of dots. */
  function TailRule(unit: Peg, runs: bool): Peg {
    Star(Then(Dots(), if runs then Plus(unit) else unit))
  }

  function TailProduction(body: Regex, unit: Regex): Regex {
    Maybe(Cat(Rep(body), unit))
  }

  ghost predicate UnitAt(unit: Peg, s: string) {
    Match(unit, s).Some? ==> Match(unit, s).value > 0 && s[0] != '.'
  }

  /** A unit consumes something and does not start with a dot. */
  ghost predicate Unit(unit: Peg) {
    forall s: string :: UnitAt(unit, s)
  }

  ghost predicate BodyAt(body: Regex, unit: Regex, t: string) {
    Matches(body, t) <==> Matches(unit, t) || t == "."
  }

  /** The conditions of a tail: a unit that is a token, and a body that is a unit or a dot. */
  ghost predicate UnitLaws(unit: Peg, unitR: Regex, body: Regex) {
    Unit(unit) && Token(unit, unitR) && forall t: string :: BodyAt(body, unitR, t)
  }

  /** The tail, read one unit or dot at a time. */
  function TailLength(unit: Peg, s: string): nat
    decreases |s|
  {
    match Match(unit, s)
    case Some(n) => if n == 0 then 0 else n + TailLength(unit, s[n..])
    case None =>
      if s == [] || s[0] != '.' then 0
      else
        var rest := TailLength(unit, s[1..]);
        if rest == 0 then 0 else 1 + rest
  }

  /** One round of the tail rule after a dot is one round after the dot, one longer. */
  lemma RoundAfterDot(unit: Peg, runs: bool, s: string)
    requires s != [] && s[0] == '.'
    ensures var round := Then(Dots(), if runs then Plus(unit) else unit);
            Match(round, s) == if Match(round, s[1..]).None? then None else Some(1 + Match(round, s[1..]).value)
  {
    var d := Match(Dots(), s[1..]).value;
    assert Match(One('.'), s) == Some(1);
    assert Match(Dots(), s) == Some(1 + d);
    assert s[1 + d..] == s[1..][d..];
  }

  lemma NoRoundBeforeOther(s: string)
    requires s == [] || s[0] != '.'
    ensures Match(Dots(), s) == Some(0)
  {
  }

  lemma StarSucceeds(item: Peg, s: string)
    ensures Match(Star(item), s).Some?
  {
  }

  lemma StarOnce(item: Peg, s: string, n: nat)
    requires Match(item, s) == Some(n) && n > 0
    ensures Match(Star(item), s) == Some(n + Match(Star(item), s[n..]).value)
  {
  }

  lemma ThenFrom(a: Peg, b: Peg, s: string, n: nat)
    requires Match(a, s) == Some(n)
    ensures Match(Then(a, b), s)
         == if Match(b, s[n..]).None? then None else Some(n + Match(b, s[n..]).value)
  {
  }

  /** A round that begins with a unit: that unit, and in a rule of runs the units right after it. */
  lemma RoundAtUnit(unit: Peg, runs: bool, s: string, first: nat)
    requires Match(unit, s) == Some(first) && s != [] && s[0] != '.'
    ensures Match(Then(Dots(), if runs then Plus(unit) else unit), s)
         == Some(first + if runs then Match(Star(unit), s[first..]).value else 0)
  {
    NoRoundBeforeOther(s);
    ThenFrom(Dots(), if runs then Plus(unit) else unit, s, 0);
    assert s[0..] == s;
    if runs {
      StarSucceeds(unit, s[first..]);
      ThenFrom(unit, Star(unit), s, first);
    }
  }

  lemma StarOnceTo(item: Peg, s: string, n: nat, rest: string)
    requires Match(item, s) == Some(n) && n > 0 && rest == s[n..]
    ensures Match(Star(item), rest).Some?
    ensures Match(Star(item), s) == Some(n + Match(Star(item), rest).value)
  {
  }

  /** Reading the first unit alone leaves the repetition where it would go on from the rest. */
  lemma UnitFirst(item: Peg, s: string, first: nat, more: nat)
    requires 0 < first <= |s| && more > 0
    requires Match(item, s) == Some(first + more) && Match(item, s[first..]) == Some(more)
    ensures Match(Star(item), s) == Some(first + Match(Star(item), s[first..]).value)
  {
    var rest, after := s[first..], s[first + more..];
    assert rest[more..] == after;
    StarOnceTo(item, s, first + more, after);
    StarOnceTo(item, rest, more, after);
  }

  /** In a rule of runs, what follows the first unit is itself a round. */
  lemma RunsContinue(unit: Peg, rest: string)
    requires Match(unit, rest).Some? ==> Match(unit, rest).value > 0 && rest[0] != '.'
    ensures var more := Match(Star(unit), rest).value;
            more > 0 ==> Match(Then(Dots(), Plus(unit)), rest) == Some(more)
  {
    var next := Match(unit, rest);
    if next.Some? {
      StarOnce(unit, rest, next.value);
      RoundAtUnit(unit, true, rest, next.value);
    }
  }

  lemma RoundIsPositive(unit: Peg, runs: bool, s: string)
    requires Unit(unit)
    ensures var round := Match(Then(Dots(), if runs then Plus(unit) else unit), s);
            round.Some? ==> round.value > 0
  {
    var d := Match(Dots(), s).value;
    assert UnitAt(unit, s[d..]);
    ThenFrom(Dots(), if runs then Plus(unit) else unit, s, d);
    if runs && Match(unit, s[d..]).Some? {
      StarSucceeds(unit, s[d..][Match(unit, s[d..]).value..]);
      ThenFrom(unit, Star(unit), s[d..], Match(unit, s[d..]).value);
    }
  }

  lemma DotFirst(item: Peg, s: string)
    requires s != []
    requires Match(item, s) == if Match(item, s[1..]).None? then None else Some(1 + Match(item, s[1..]).value)
    requires Match(item, s[1..]).Some? ==> Match(item, s[1..]).value > 0
    ensures var rest := Match(Star(item), s[1..]).value;
            Match(Star(item), s) == Some(if rest == 0 then 0 else 1 + rest)
  {
  }

  lemma {:induction false} RuleReadsTail(unit: Peg, runs: bool, s: string)
    requires Unit(unit)
    ensures Match(TailRule(unit, runs), s) == Some(TailLength(unit, s))
    decreases |s|
  {
    var u := Match(unit, s);
    if u.Some? {
      assert UnitAt(unit, s) && UnitAt(unit, s[u.value..]);
      RuleReadsTail(unit, runs, s[u.value..]);
      RuleAtUnit(unit, runs, s, u.value);
    } else if s != [] && s[0] == '.' {
      RuleReadsTail(unit, runs, s[1..]);
      RoundIsPositive(unit, runs, s[1..]);
      RuleAtDot(unit, runs, s);
    } else {
      NoRoundBeforeOther(s);
      NoUnitNoRound(unit, runs, s);
    }
  }

  lemma RuleAtUnit(unit: Peg, runs: bool, s: string, n: nat)
    requires Match(unit, s) == Some(n) && n > 0 && s[0] != '.' && UnitAt(unit, s[n..])
    requires Match(TailRule(unit, runs), s[n..]) == Some(TailLength(unit, s[n..]))
    ensures Match(TailRule(unit, runs), s) == Some(TailLength(unit, s))
  {
    LengthAtUnit(unit, s, n);
    ReadsUnit(unit, runs, s, n);
  }

  lemma RuleAtDot(unit: Peg, runs: bool, s: string)
    requires Match(unit, s).None? && s != [] && s[0] == '.'
    requires Match(TailRule(unit, runs), s[1..]) == Some(TailLength(unit, s[1..]))
    requires var round := Match(Then(Dots(), if runs then Plus(unit) else unit), s[1..]);
             round.Some? ==> round.value > 0
    ensures Match(TailRule(unit, runs), s) == Some(TailLength(unit, s))
  {
    LengthAtDot(unit, s);
    ReadsDot(unit, runs, s);
  }

  lemma LengthAtUnit(unit: Peg, s: string, n: nat)
    requires Match(unit, s) == Some(n) && n > 0
    ensures TailLength(unit, s) == n + TailLength(unit, s[n..])
  {
  }

  lemma LengthAtDot(unit: Peg, s: string)
    requires Match(unit, s).None? && s != [] && s[0] == '.'
    ensures var rest := TailLength(unit, s[1..]);
            TailLength(unit, s) == if rest == 0 then 0 else 1 + rest
  {
  }

  lemma ReadsDot(unit: Peg, runs: bool, s: string)
    requires s != [] && s[0] == '.'
    requires var round := Match(Then(Dots(), if runs then Plus(unit) else unit), s[1..]);
             round.Some? ==> round.value > 0
    ensures Match(TailRule(unit, runs), s[1..]).Some?
    ensures var rest := Match(TailRule(unit, runs), s[1..]).value;
            Match(TailRule(unit, runs), s) == Some(if rest == 0 then 0 else 1 + rest)
  {
    var round := Then(Dots(), if runs then Plus(unit) else unit);
    RoundAfterDot(unit, runs, s);
    StarSucceeds(round, s[1..]);
    DotFirst(round, s);
  }

  lemma ReadsUnit(unit: Peg, runs: bool, s: string, first: nat)
    requires Match(unit, s) == Some(first) && 0 < first && s[0] != '.'
    requires UnitAt(unit, s[first..])
    ensures Match(TailRule(unit, runs), s) == Some(first + Match(TailRule(unit, runs), s[first..]).value)
  {
    if runs {
      ReadsRun(unit, s, first);
    } else {
      RoundAtUnit(unit, false, s, first);
      StarOnce(Then(Dots(), unit), s, first);
    }
  }

  lemma ReadsRun(unit: Peg, s: string, first: nat)
    requires Match(unit, s) == Some(first) && 0 < first && s[0] != '.'
    requires UnitAt(unit, s[first..])
    ensures var round := Then(Dots(), Plus(unit));
            Match(Star(round), s) == Some(first + Match(Star(round), s[first..]).value)
  {
    var round := Then(Dots(), Plus(unit));
    StarSucceeds(unit, s[first..]);
    var more := Match(Star(unit), s[first..]).value;
    RunRound(unit, s, first, more);
    if more > 0 {
      RunsContinue(unit, s[first..]);
      UnitFirst(round, s, first, more);
    } else {
      StarOnce(round, s, first);
    }
  }

  lemma RunRound(unit: Peg, s: string, first: nat, more: nat)
    requires Match(unit, s) == Some(first) && s != [] && s[0] != '.'
    requires Match(Star(unit), s[first..]) == Some(more)
    ensures Match(Then(Dots(), Plus(unit)), s) == Some(first + more)
  {
    RoundAtUnit(unit, true, s, first);
  }

  lemma NoUnitNoRound(unit: Peg, runs: bool, s: string)
    requires Match(unit, s).None? && Match(Dots(), s) == Some(0)
    ensures Match(Then(Dots(), if runs then Plus(unit) else unit), s).None?
  {
  }

  lemma {:induction false} TailSound(unit: Peg, unitR: Regex, body: Regex, s: string)
    requires UnitLaws(unit, unitR, body) && TailLength(unit, s) > 0
    ensures TailLength(unit, s) <= |s|
    ensures Matches(Cat(Rep(body), unitR), s[..TailLength(unit, s)])
    decreases |s|
  {
    var step := TailStep(unit, unitR, body, s);
    if TailLength(unit, s[step..]) > 0 {
      TailSound(unit, unitR, body, s[step..]);
      TailExtends(unitR, body, s, step, TailLength(unit, s));
    } else {
      TailEnds(unitR, body, s, step);
    }
  }

  /** The first unit or dot of a tail, and what it leaves. */
  lemma TailStep(unit: Peg, unitR: Regex, body: Regex, s: string) returns (step: nat)
    requires UnitLaws(unit, unitR, body) && TailLength(unit, s) > 0
    ensures 0 < step <= |s| && Matches(body, s[..step])
    ensures TailLength(unit, s) == step + TailLength(unit, s[step..])
    ensures TailLength(unit, s[step..]) == 0 ==> Matches(unitR, s[..step])
  {
    var u := Match(unit, s);
    if u.Some? {
      step := u.value;
      ReadIsToken(unit, unitR, s);
    } else {
      step := 1;
      assert s[..1] == ".";
    }
    assert BodyAt(body, unitR, s[..step]);
  }

  lemma TailEnds(unitR: Regex, body: Regex, s: string, n: nat)
    requires n <= |s| && Matches(unitR, s[..n])
    ensures Matches(Cat(Rep(body), unitR), s[..n])
  {
    assert Matches(Rep(body), []);
    CatIntro(Rep(body), unitR, [], s[..n]);
    assert [] + s[..n] == s[..n];
  }

  lemma TailExtends(unitR: Regex, body: Regex, s: string, step: nat, n: nat)
    requires 0 < step <= n <= |s| && Matches(body, s[..step]) && Matches(Cat(Rep(body), unitR), s[step..][..n - step])
    ensures Matches(Cat(Rep(body), unitR), s[..n])
  {
    var head, tail := s[..step], s[step..][..n - step];
    var k := CatElim(Rep(body), unitR, tail);
    RepIntro(body, head, tail[..k]);
    CatIntro(Rep(body), unitR, head + tail[..k], tail[k..]);
    assert head + tail[..k] + tail[k..] == s[..n];
  }

  lemma RepWithin(part: Regex, s: string, n: nat) returns (i: nat)
    requires 0 < n <= |s| && Matches(Rep(part), s[..n])
    ensures 0 < i <= n && Matches(part, s[..i]) && Matches(Rep(part), s[i..][..n - i])
  {
    i := RepElim(part, s[..n]);
    TakeOfTake(s, n, i);
  }

  lemma {:induction false} TailComplete(unit: Peg, unitR: Regex, body: Regex, s: string, j: nat, k: nat)
    requires UnitLaws(unit, unitR, body) && j <= k <= |s|
    requires Matches(Rep(body), s[..j]) && Matches(unitR, s[j..][..k - j])
    ensures 0 < k <= TailLength(unit, s)
    decreases j
  {
    if j == 0 {
      TakeAll(s);
      TokenIsRead(unit, unitR, s, k);
    } else {
      var i := RepWithin(body, s, j);
      DropOfDrop(s, i, j - i);
      TailComplete(unit, unitR, body, s[i..], j - i, k - i);
      TailAfter(unit, unitR, body, s, i);
    }
  }

  lemma TailAfter(unit: Peg, unitR: Regex, body: Regex, s: string, i: nat)
    requires UnitLaws(unit, unitR, body) && i <= |s| && Matches(body, s[..i]) && TailLength(unit, s[i..]) > 0
    ensures TailLength(unit, s) == i + TailLength(unit, s[i..])
  {
    assert BodyAt(body, unitR, s[..i]);
    if Matches(unitR, s[..i]) {
      TokenIsRead(unit, unitR, s, i);
    } else {
      assert i == 1 && s[0] == s[..i][0];
      assert UnitAt(unit, s);
    }
  }

  lemma TailIsWithin(unit: Peg, unitR: Regex, body: Regex, s: string, k: nat)
    requires UnitLaws(unit, unitR, body) && k <= |s| && Matches(Cat(Rep(body), unitR), s[..k])
    ensures 0 < k <= TailLength(unit, s)
  {
    var j := CatWithin(Rep(body), unitR, s, k);
    TailComplete(unit, unitR, body, s, j, k);
  }

  /** Main law: the tail rule consumes exactly the longest tail of the production. */
  lemma TailLongest(unit: Peg, unitR: Regex, body: Regex, runs: bool, s: string)
    requires UnitLaws(unit, unitR, body)
    ensures Longest(TailRule(unit, runs), TailProduction(body, unitR), s)
  {
    RuleReadsTail(unit, runs, s);
    var n := TailLength(unit, s);
    if n > 0 {
      TailSound(unit, unitR, body, s);
    } else {
      assert s[..0] == [];
    }
    forall k | 0 <= k <= |s| && Matches(TailProduction(body, unitR), s[..k])
      ensures k <= n
    {
      assert |s[..k]| == k;
      assert Matches(Nothing, s[..k]) ==> s[..k] == [];
      if Matches(Cat(Rep(body), unitR), s[..k]) {
        TailIsWithin(unit, unitR, body, s, k);
      }
    }
  }
}
