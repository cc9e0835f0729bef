/** How rules run, one combinator at a time, and how the first character of a text decides among the rules of a term. */
module TermLaws {
  import opened Terms
  import opened Labels
  import opened Peg
  import opened PegLaws
  import opened Names
  import opened Numbers
  import opened Tokens
  import opened TermRules

  lemma PlainRuns(peg: Peg, s: string, st: Basic, n: nat)
    requires Match(peg, s) == Some(n)
    ensures Run(Plain(peg), s, st) == Matched(n, st)
  {
  }

  lemma PlainMisses(peg: Peg, s: string, st: Basic)
    requires Match(peg, s).None?
    ensures Run(Plain(peg), s, st) == Unmatched(st)
  {
  }

  lemma DoRuns(action: Action, rule: Rule, s: string, st: Basic, n: nat, mid: Basic)
    requires Run(rule, s, st) == Matched(n, mid)
    ensures n <= |s|
    ensures var done := Apply(action, s[..n], mid);
            Run(Do(action, rule), s, st) == if done.None? then Thrown else Matched(n, done.value)
  {
  }

  lemma DoPlain(action: Action, peg: Peg, s: string, st: Basic, n: nat)
    requires Match(peg, s) == Some(n)
    ensures var done := Apply(action, s[..n], st);
            Run(Do(action, Plain(peg)), s, st) == if done.None? then Thrown else Matched(n, done.value)
  {
  }

  lemma DoFails(action: Action, rule: Rule, s: string, st: Basic)
    requires !Run(rule, s, st).Matched?
    ensures Run(Do(action, rule), s, st) == Run(rule, s, st)
  {
  }

  lemma DoMisses(action: Action, peg: Peg, s: string, st: Basic)
    requires Match(peg, s).None?
    ensures Run(Do(action, Plain(peg)), s, st) == Unmatched(st)
  {
  }

  lemma EitherOther(preferred: Rule, other: Rule, s: string, st: Basic)
    requires Run(preferred, s, st) == Unmatched(st)
    ensures Run(Either(preferred, other), s, st) == Run(other, s, st)
  {
  }

  lemma EitherPreferred(preferred: Rule, other: Rule, s: string, st: Basic)
    requires !Run(preferred, s, st).Unmatched?
    ensures Run(Either(preferred, other), s, st) == Run(preferred, s, st)
  {
  }

  lemma BothRun(first: Rule, second: Rule, s: string, st: Basic, n: nat, mid: Basic, rest: string)
    requires Run(first, s, st) == Matched(n, mid) && n <= |s| && rest == s[n..]
    ensures var b := Run(second, rest, mid);
            Run(Both(first, second), s, st) == if b.Matched? then Matched(n + b.length, b.st) else b
  {
  }

  lemma BothFails(first: Rule, second: Rule, s: string, st: Basic)
    requires !Run(first, s, st).Matched?
    ensures Run(Both(first, second), s, st) == Run(first, s, st)
  {
  }

  lemma PerhapsRuns(rule: Rule, s: string, st: Basic)
    ensures var a := Run(rule, s, st);
            Run(Perhaps(rule), s, st) == if a.Unmatched? then Matched(0, a.st) else a
  {
  }

  // ---- First characters.

  predicate StartsOther(s: string, c: char) {
    s == [] || s[0] != c
  }

  lemma OneThenMisses(c: char, rest: Peg, s: string)
    requires StartsOther(s, c)
    ensures Match(Then(One(c), rest), s).None?
  {
  }

  lemma LongMisses(quote: char, part: Peg, s: string)
    requires Match(Thrice(quote), s).None?
    ensures Match(LongString(quote, part), s).None?
  {
  }

  lemma StringMisses(s: string)
    requires StartsOther(s, '"') && StartsOther(s, '\'')
    ensures Match(TURTLE_STRING, s).None?
  {
    SingleQuotesMiss(s);
    OneThenMisses('"', Then(One('"'), One('"')), s);
    LongMisses('"', Else(Class(IsLongChar), ESCAPE), s);
    OneThenMisses('"', Then(Star(STRING_PART), One('"')), s);
    StringChoice(s);
  }

  lemma SingleQuotesMiss(s: string)
    requires StartsOther(s, '\'')
    ensures Match(STRING_LITERAL_LONG_SINGLE_QUOTE, s).None?
    ensures Match(STRING_LITERAL_SINGLE_QUOTE, s).None?
  {
  }

  /** Without a single quote at its start and without three double ones, a text can only be a plain string. */
  lemma StringChoice(s: string)
    requires Match(STRING_LITERAL_LONG_QUOTE, s).None?
    requires Match(STRING_LITERAL_LONG_SINGLE_QUOTE, s).None?
    requires Match(STRING_LITERAL_SINGLE_QUOTE, s).None?
    ensures Match(TURTLE_STRING, s) == Match(STRING_LITERAL_QUOTE, s)
  {
    ElseFrom(STRING_LITERAL_SINGLE_QUOTE, STRING_LITERAL_QUOTE, s);
    ElseFrom(STRING_LITERAL_LONG_SINGLE_QUOTE, Else(STRING_LITERAL_SINGLE_QUOTE, STRING_LITERAL_QUOTE), s);
    ElseFrom(STRING_LITERAL_LONG_QUOTE,
             Else(STRING_LITERAL_LONG_SINGLE_QUOTE, Else(STRING_LITERAL_SINGLE_QUOTE, STRING_LITERAL_QUOTE)), s);
  }

  predicate StartsNumber(s: string) {
    s != [] && (IsSign(s[0]) || IsDigit(s[0]) || s[0] == '.')
  }

  lemma NumbersMiss(s: string)
    requires !StartsNumber(s)
    ensures Match(DOUBLE, s).None? && Match(DECIMAL, s).None? && Match(INTEGER, s).None?
  {
    assert s[0..] == s;
    SignReads(UNSIGNED_DOUBLE, s);
    SignReads(UNSIGNED_DECIMAL, s);
    SignReads(DIGITS, s);
    DoubleReads(s);
    DecimalReads(s);
    PlusReadsDigits(s);
  }

  lemma BooleansMiss(s: string)
    requires StartsOther(s, 't') && StartsOther(s, 'f')
    ensures Match(Else(TRUE, FALSE), s).None?
  {
    OneThenMisses('t', Then(One('r'), Then(One('u'), One('e'))), s);
    OneThenMisses('f', Then(One('a'), Then(One('l'), Then(One('s'), One('e')))), s);
    ElseFrom(TRUE, FALSE, s);
  }

  lemma RdfLiteralMisses(s: string, st: Basic)
    requires StartsOther(s, '"') && StartsOther(s, '\'')
    ensures Run(RDF_LITERAL, s, st) == Unmatched(st)
  {
    var tail := Perhaps(Either(LANG_TAG, TYPE_TAG));
    StringMisses(s);
    DoMisses(OnString, TURTLE_STRING, s, st);
    BothFails(STRING, tail, s, st);
    DoFails(OnRdfLiteral, Both(STRING, tail), s, st);
  }

  lemma NumericLiteralMisses(s: string, st: Basic)
    requires !StartsNumber(s)
    ensures Run(NUMERIC_LITERAL, s, st) == Unmatched(st)
  {
    NumbersMiss(s);
    var double, decimal := Do(OnDouble, Plain(DOUBLE)), Do(OnDecimal, Plain(DECIMAL));
    var integer := Do(OnInteger, Plain(INTEGER));
    DoMisses(OnDouble, DOUBLE, s, st);
    DoMisses(OnDecimal, DECIMAL, s, st);
    DoMisses(OnInteger, INTEGER, s, st);
    EitherOther(decimal, integer, s, st);
    EitherOther(double, Either(decimal, integer), s, st);
    DoFails(OnNumeric, Either(double, Either(decimal, integer)), s, st);
  }

  lemma LiteralMisses(s: string, st: Basic)
    requires s != [] && (s[0] == '<' || s[0] == '_' || s[0] == '[')
    ensures Run(LITERAL, s, st) == Unmatched(st)
  {
    RdfLiteralMisses(s, st);
    NumericLiteralMisses(s, st);
    BooleansMiss(s);
    DoMisses(OnBoolean, Else(TRUE, FALSE), s, st);
    EitherOther(NUMERIC_LITERAL, BOOLEAN_LITERAL, s, st);
    EitherOther(RDF_LITERAL, Either(NUMERIC_LITERAL, BOOLEAN_LITERAL), s, st);
  }

  lemma BlankNodeMisses(s: string, st: Basic)
    requires StartsOther(s, '_') && StartsOther(s, '[')
    ensures Run(BLANK_NODE, s, st) == Unmatched(st)
  {
    var byLabel, byAnon := Do(OnBlankLabel, Plain(BLANK_NODE_LABEL)), Do(OnAnon, Plain(ANON));
    OneThenMisses('_', Then(One(':'), Then(LABEL_HEAD, TailRule(PN_CHARS, false))), s);
    OneThenMisses('[', Then(Star(Class(IsAnonSpace)), One(']')), s);
    DoMisses(OnBlankLabel, BLANK_NODE_LABEL, s, st);
    DoMisses(OnAnon, ANON, s, st);
    EitherOther(byLabel, byAnon, s, st);
    DoFails(OnBlankNode, Either(byLabel, byAnon), s, st);
  }
}
