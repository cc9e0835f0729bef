/** Numbers written without quotes, and the quoted literals they stand for. */
module Abbreviations {
  import opened Terms
  import opened Peg
  import opened PegLaws
  import opened Names
  import opened Numbers
  import opened Tokens
  import opened TermRules
  import opened TermLaws
  import opened Identity
  import opened RoundTrip
  import opened Memory

  // ---- Numbers.

  /** What the class of a whole text says about its scans, after the sign. */
  lemma WholeTextEnds(t: string)
    ensures var u := t[SignRun(t)..];
            && (Matches(INTEGER_R, t) ==> DigitRun(u) == |u|)
            && (Matches(DECIMAL_R, t) ==> DecimalEnd(u) == Some(|u|))
            && (Matches(DOUBLE_R, t) ==> DoubleEnd(u).Some?)
  {
    NumericReads(t);
    WholeTextCovers(t);
    EndsAreWithin(t, t[SignRun(t)..]);
  }

  lemma WholeTextCovers(t: string)
    ensures Matches(INTEGER_R, t) ==> Covers(Match(INTEGER, t), t)
    ensures Matches(DECIMAL_R, t) ==> Covers(Match(DECIMAL, t), t)
    ensures Matches(DOUBLE_R, t) ==> Covers(Match(DOUBLE, t), t)
  {
    ClassCovers(t, "");
    assert t + "" == t;
  }

  /** A scan of what follows the sign covers the text exactly if it ends where the text does. */
  lemma EndsAreWithin(t: string, u: string)
    requires u == t[SignRun(t)..]
    ensures Covers(Shift(SignRun(t), DigitsEnd(u)), t) ==> DigitRun(u) == |u|
    ensures Covers(Shift(SignRun(t), DecimalEnd(u)), t) ==> DecimalEnd(u) == Some(|u|)
  {
  }

  lemma ScansAreApart(u: string)
    ensures DigitRun(u) == |u| ==> DecimalEnd(u).None? && DoubleEnd(u).None?
    ensures DecimalEnd(u) == Some(|u|) ==> DoubleEnd(u).None?
  {
  }

  /** No text lies in two of the three productions. */
  lemma ClassesAreApart(t: string)
    ensures !(Matches(INTEGER_R, t) && Matches(DECIMAL_R, t))
    ensures !(Matches(INTEGER_R, t) && Matches(DOUBLE_R, t))
    ensures !(Matches(DECIMAL_R, t) && Matches(DOUBLE_R, t))
  {
    WholeTextEnds(t);
    ScansAreApart(t[SignRun(t)..]);
  }

  /** The datatype stored for a number is that of its class, whichever of the three it is. */
  ghost predicate TypedByClass(lexeme: string, datatype_: string) {
    && (datatype_ == XSD_DOUBLE <==> Matches(DOUBLE_R, lexeme))
    && (datatype_ == XSD_DECIMAL <==> Matches(DECIMAL_R, lexeme))
    && (datatype_ == XSD_INTEGER <==> Matches(INTEGER_R, lexeme))
  }

  lemma TypesDiffer()
    ensures XSD_DOUBLE != XSD_DECIMAL && XSD_DECIMAL != XSD_INTEGER && XSD_DOUBLE != XSD_INTEGER
    ensures XSD_STRING != XSD_DOUBLE && XSD_STRING != XSD_DECIMAL && XSD_STRING != XSD_INTEGER
  {
  }

  lemma ClassTyped(lexeme: string)
    ensures Matches(DOUBLE_R, lexeme) ==> TypedByClass(lexeme, XSD_DOUBLE)
    ensures Matches(DECIMAL_R, lexeme) ==> TypedByClass(lexeme, XSD_DECIMAL)
    ensures Matches(INTEGER_R, lexeme) ==> TypedByClass(lexeme, XSD_INTEGER)
  {
    ClassesAreApart(lexeme);
    TypesDiffer();
  }

  /** The first rule that matches sets the type tag. */
  function ClassFound(s: string): string {
    if Match(DOUBLE, s).Some? then XSD_DOUBLE
    else if Match(DECIMAL, s).Some? then XSD_DECIMAL
    else XSD_INTEGER
  }

  lemma NumberRuns(s: string, st: Basic)
    ensures var number := Either(DOUBLE_RULE, Either(DECIMAL_RULE, INTEGER_RULE));
            var n := Match(NUMERIC, s);
            && Run(number, s, st)
               == if n.None? then Unmatched(st) else Matched(n.value, st.(tags := st.tags.(typeTag := ClassFound(s))))
  {
    var fewer := Either(DECIMAL_RULE, INTEGER_RULE);
    ElseFrom(DOUBLE, Else(DECIMAL, INTEGER), s);
    ElseFrom(DECIMAL, INTEGER, s);
    ClassRuns(OnDouble, DOUBLE, XSD_DOUBLE, s, st);
    ClassRuns(OnDecimal, DECIMAL, XSD_DECIMAL, s, st);
    ClassRuns(OnInteger, INTEGER, XSD_INTEGER, s, st);
    if Match(DOUBLE, s).Some? {
      EitherPreferred(DOUBLE_RULE, fewer, s, st);
    } else {
      EitherOther(DOUBLE_RULE, fewer, s, st);
      if Match(DECIMAL, s).Some? {
        EitherPreferred(DECIMAL_RULE, INTEGER_RULE, s, st);
      } else {
        EitherOther(DECIMAL_RULE, INTEGER_RULE, s, st);
      }
    }
  }

  lemma ClassRuns(action: Action, peg: Peg, datatype_: string, s: string, st: Basic)
    requires
      || (action == OnDouble && datatype_ == XSD_DOUBLE)
      || (action == OnDecimal && datatype_ == XSD_DECIMAL)
      || (action == OnInteger && datatype_ == XSD_INTEGER)
    ensures Run(Do(action, Plain(peg)), s, st)
         == if Match(peg, s).None? then Unmatched(st)
            else Matched(Match(peg, s).value, st.(tags := st.tags.(typeTag := datatype_)))
  {
  }

  lemma FoundIsTyped(s: string)
    ensures var n := Match(NUMERIC, s);
            n.Some? ==> TypedByClass(s[..n.value], ClassFound(s))
  {
    var n := Match(NUMERIC, s);
    NumericOrder(s);
    DoubleMatchIn(s);
    DecimalMatchIn(s);
    IntegerMatchIn(s);
    if n.Some? {
      ClassTyped(s[..n.value]);
    }
  }

  /**
   Main result: a number is read as the longest prefix in any of the three productions, with the type of its class.
   */
  lemma NumericLiteralRuns(s: string, st: Basic)
    ensures Longest(NUMERIC, NUMERIC_R, s)
    ensures var n := Match(NUMERIC, s);
            var r := Run(NUMERIC_LITERAL, s, st);
            && (n.None? ==> r == Unmatched(st))
            && (n.Some? ==>
                && r.Matched? && r.length == n.value
                && r.st.element == Literal(s[..n.value], None, Some(r.st.tags.typeTag))
                && TypedByClass(s[..n.value], r.st.tags.typeTag))
  {
    NumericIsLongest(s);
    FoundIsTyped(s);
    NumberRuns(s, st);
    NumberStored(s, st, Match(NUMERIC, s));
  }

  lemma NumberStored(s: string, st: Basic, n: Option<nat>)
    requires n.Some? ==> n.value <= |s|
    requires Run(Either(DOUBLE_RULE, Either(DECIMAL_RULE, INTEGER_RULE)), s, st)
          == if n.None? then Unmatched(st) else Matched(n.value, st.(tags := st.tags.(typeTag := ClassFound(s))))
    ensures Run(NUMERIC_LITERAL, s, st)
         == if n.None? then Unmatched(st)
            else Matched(n.value, st.(element := Literal(s[..n.value], None, Some(ClassFound(s))),
                                      tags := st.tags.(typeTag := ClassFound(s))))
  {
  }

  lemma NumberStarts(t: string)
    requires Match(NUMERIC, t).Some?
    ensures StartsNumber(t) && StartsOther(t, '"') && StartsOther(t, '\'')
  {
    if !StartsNumber(t) {
      NumbersMiss(t);
      ElseFrom(DOUBLE, Else(DECIMAL, INTEGER), t);
      ElseFrom(DECIMAL, INTEGER, t);
    }
  }

  /** A whole number text parses to the literal of that text and the type of its class. */
  lemma NumberParses(t: string, datatype_: string)
    requires Matches(NUMERIC_R, t) && TypedByClass(t, datatype_) && datatype_ in {XSD_DOUBLE, XSD_DECIMAL, XSD_INTEGER}
    ensures ParsedTerm(t) == Some(Literal(t, None, Some(datatype_)))
  {
    NumericLiteralRuns(t, INITIAL);
    LongestReadsAll(NUMERIC, NUMERIC_R, t);
    assert t[..|t|] == t;
    NumberStarts(t);
    RdfLiteralMisses(t, INITIAL);
    EitherOther(RDF_LITERAL, Either(NUMERIC_LITERAL, BOOLEAN_LITERAL), t, INITIAL);
    EitherPreferred(NUMERIC_LITERAL, BOOLEAN_LITERAL, t, INITIAL);
    EitherPreferred(LITERAL, Either(BLANK_NODE, IRI), t, INITIAL);
    AltElim(DOUBLE_R, Alt(DECIMAL_R, INTEGER_R), t);
    AltElim(DECIMAL_R, INTEGER_R, t);
    TypesDiffer();
  }

  // ---- The quoted forms they stand for.

  lemma PlainTextIsLegal(text: string)
    requires AllOf(text, IsStringChar)
    ensures LegalValue(text)
  {
    forall c | IsStringChar(c)
      ensures Matches(STRING_PART_R, [c])
    {
      AltElim(Letter(IsStringChar), Alt(ECHAR_R, UCHAR_R), [c]);
    }
    RepOfLetters(IsStringChar, STRING_PART_R, text);
  }

  lemma PlainIriIsLegal(iri: string)
    requires AllOf(iri, IsIriChar)
    ensures LegalIri(iri)
  {
    forall c | IsIriChar(c)
      ensures Matches(IRI_PART_R, [c])
    {
      AltElim(Letter(IsIriChar), UCHAR_R, [c]);
    }
    RepOfLetters(IsIriChar, IRI_PART_R, iri);
  }

  predicate IsUrlChar(c: char) {
    IsAlnum(c) || c == ':' || c == '/' || c == '.' || c == '#'
  }

  lemma UrlIsLegal(iri: string)
    requires AllOf(iri, IsUrlChar)
    ensures LegalIri(iri)
  {
    forall i | 0 <= i < |iri|
      ensures IsIriChar(iri[i])
    {
      assert IsUrlChar(iri[i]);
    }
    PlainIriIsLegal(iri);
  }

  lemma DoubleIsLegal()
    ensures LegalIri(XSD_DOUBLE)
  {
    UrlIsLegal(XSD_DOUBLE);
  }

  lemma DecimalIsLegal()
    ensures LegalIri(XSD_DECIMAL)
  {
    UrlIsLegal(XSD_DECIMAL);
  }

  lemma IntegerIsLegal()
    ensures LegalIri(XSD_INTEGER)
  {
    UrlIsLegal(XSD_INTEGER);
  }

  lemma PartsOfNumbers()
    ensures Over(SIGN_R, IsStringChar) && Over(Rep(DIGIT_R), IsStringChar) && Over(DIGITS_R, IsStringChar)
    ensures Over(EXPONENT_R, IsStringChar) && Over(Cat(Char('.'), DIGITS_R), IsStringChar)
  {
  }

  lemma DoublesUsePlainText()
    ensures Over(DOUBLE_R, IsStringChar)
  {
    PartsOfNumbers();
    OverChar('.', IsStringChar);
    OverCat(Rep(DIGIT_R), EXPONENT_R, IsStringChar);
    OverCat(Char('.'), Cat(Rep(DIGIT_R), EXPONENT_R), IsStringChar);
    OverCat(DIGITS_R, Cat(Char('.'), Cat(Rep(DIGIT_R), EXPONENT_R)), IsStringChar);
    OverCat(DIGITS_R, EXPONENT_R, IsStringChar);
    OverCat(Char('.'), Cat(DIGITS_R, EXPONENT_R), IsStringChar);
    OverAlt(Cat(Char('.'), Cat(DIGITS_R, EXPONENT_R)), Cat(DIGITS_R, EXPONENT_R), IsStringChar);
    OverAlt(Cat(DIGITS_R, Cat(Char('.'), Cat(Rep(DIGIT_R), EXPONENT_R))),
            Alt(Cat(Char('.'), Cat(DIGITS_R, EXPONENT_R)), Cat(DIGITS_R, EXPONENT_R)), IsStringChar);
    OverCat(SIGN_R, UNSIGNED_DOUBLE_R, IsStringChar);
  }

  lemma NumberIsPlainText(t: string)
    requires Matches(NUMERIC_R, t)
    ensures LegalValue(t)
  {
    PartsOfNumbers();
    DoublesUsePlainText();
    OverCat(SIGN_R, DIGITS_R, IsStringChar);
    OverCat(Rep(DIGIT_R), Cat(Char('.'), DIGITS_R), IsStringChar);
    OverCat(SIGN_R, UNSIGNED_DECIMAL_R, IsStringChar);
    OverAlt(DECIMAL_R, INTEGER_R, IsStringChar);
    OverAlt(DOUBLE_R, Alt(DECIMAL_R, INTEGER_R), IsStringChar);
    CharactersOf(NUMERIC_R, IsStringChar, t);
    PlainTextIsLegal(t);
  }

  function TypedText(value: string, iri: string): string {
    "\"" + value + "\"^^<" + iri + ">"
  }

  lemma TypedTextIs(value: string, iri: string)
    ensures TypedText(value, iri) == "\"" + value + "\"" + TagText(OfType(iri))
  {
  }

  /** A literal with its type in brackets, also where the type is xsd:string and no datatype is stored. */
  lemma TypedTextParses(value: string, iri: string)
    requires LegalValue(value) && LegalIri(iri)
    ensures ParsedTerm(TypedText(value, iri)) == Some(Literal(value, None, Some(iri)))
  {
    TypedTextIs(value, iri);
    LiteralTermRuns(value, OfType(iri), INITIAL);
    AfterLiteralIs(value, OfType(iri), INITIAL);
  }

  lemma NumberTypeIsLegal(datatype_: string)
    requires datatype_ in {XSD_DOUBLE, XSD_DECIMAL, XSD_INTEGER}
    ensures LegalIri(datatype_)
  {
    DoubleIsLegal();
    DecimalIsLegal();
    IntegerIsLegal();
  }

  /** A number is short for its text in quotes with the type of its class: both parse to one term. */
  lemma NumberAbbreviates(t: string, datatype_: string)
    requires Matches(NUMERIC_R, t) && TypedByClass(t, datatype_) && datatype_ in {XSD_DOUBLE, XSD_DECIMAL, XSD_INTEGER}
    ensures ParsedTerm(t) == ParsedTerm(TypedText(t, datatype_))
  {
    NumberParses(t, datatype_);
    NumberIsPlainText(t);
    NumberTypeIsLegal(datatype_);
    TypedTextParses(t, datatype_);
  }
}
