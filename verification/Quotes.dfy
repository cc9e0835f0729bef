/** Strings in the other quotes: consumed whole, and what is stored as their value. */
module Quotes {
  import opened Terms
  import opened Peg
  import opened PegLaws
  import opened Names
  import opened Numbers
  import opened Tokens
  import opened TermRules
  import opened TermLaws
  import opened Identity
  import opened RoundTrip

  // ---- The parts of a long string.

  const ESCAPE_R := Alt(ECHAR_R, UCHAR_R)

  function Lead(quote: char): Peg {
    Opt(Else(Then(One(quote), One(quote)), One(quote)))
  }

  function LeadR(quote: char): Regex {
    Maybe(Alt(Cat(Char(quote), Char(quote)), Char(quote)))
  }

  /** Where a long string may go on: any character but its quote and the backslash, or an escape. */
  predicate PartsOf(quote: char, f: char -> bool) {
    !f(quote) && !f('\\') && quote != '\\'
  }

  lemma PartToken(f: char -> bool)
    requires !f('\\')
    ensures Token(Else(Class(f), ESCAPE), Alt(Letter(f), ESCAPE_R))
  {
    EscapeTokens();
    TokenClass(f);
    forall s: string
      ensures Match(Class(f), s).None? || Match(ESCAPE, s).None?
    {
      SecondChar(s);
    }
    TokenElse(Class(f), ESCAPE, Letter(f), ESCAPE_R);
  }

  lemma PartStarts(quote: char, f: char -> bool, s: string)
    requires PartsOf(quote, f)
    ensures Match(Else(Class(f), ESCAPE), s).Some? ==> s != [] && s[0] != quote
  {
    SecondChar(s);
    ElseFrom(Class(f), ESCAPE, s);
  }

  /** At most two quotes. */
  function QuoteRun(quote: char, s: string): (n: nat)
    ensures n <= |s|
  {
    if s == [] || s[0] != quote then 0 else if |s| == 1 || s[1] != quote then 1 else 2
  }

  lemma LeadReads(quote: char, s: string)
    ensures Match(Lead(quote), s) == Some(QuoteRun(quote, s))
  {
    ElseFrom(Else(Then(One(quote), One(quote)), One(quote)), Empty, s);
    ElseFrom(Then(One(quote), One(quote)), One(quote), s);
    OneReads(quote, s);
    if s != [] && s[0] == quote {
      ThenFrom(One(quote), One(quote), s, 1);
      OneReads(quote, s[1..]);
    }
  }

  lemma LeadMatches(quote: char, t: string)
    ensures Matches(LeadR(quote), t) <==> t == [] || t == [quote] || t == [quote, quote]
  {
    AltElim(Alt(Cat(Char(quote), Char(quote)), Char(quote)), Nothing, t);
    AltElim(Cat(Char(quote), Char(quote)), Char(quote), t);
    if Matches(Cat(Char(quote), Char(quote)), t) {
      var k := CatElim(Char(quote), Char(quote), t);
      assert t == t[..k] + t[k..];
    }
    if t == [quote, quote] {
      assert t == [quote] + [quote];
      CatIntro(Char(quote), Char(quote), [quote], [quote]);
    }
  }

  function LongPart(quote: char, f: char -> bool): Peg {
    Then(Lead(quote), Else(Class(f), ESCAPE))
  }

  function LongPartR(quote: char, f: char -> bool): Regex {
    Cat(LeadR(quote), Alt(Letter(f), ESCAPE_R))
  }

  /** The quotes that a part begins with are all the quotes there are. */
  lemma LeadIsWhole(quote: char, f: char -> bool, s: string, i: nat)
    requires PartsOf(quote, f) && i <= |s| && Matches(LeadR(quote), s[..i])
    requires Match(Else(Class(f), ESCAPE), s[i..]).Some?
    ensures i == QuoteRun(quote, s)
  {
    LeadMatches(quote, s[..i]);
    PartStarts(quote, f, s[i..]);
    assert i < |s| && s[i] == s[i..][0];
    assert i > 0 ==> s[0] == s[..i][0];
    assert i > 1 ==> s[1] == s[..i][1];
  }

  lemma LongPartIsRead(quote: char, f: char -> bool, s: string, k: nat)
    requires PartsOf(quote, f) && k <= |s| && Matches(LongPartR(quote, f), s[..k])
    ensures Match(LongPart(quote, f), s) == Some(k) && k > 0
  {
    PartToken(f);
    var part, partR := Else(Class(f), ESCAPE), Alt(Letter(f), ESCAPE_R);
    var i := CatWithin(LeadR(quote), partR, s, k);
    TokenIsRead(part, partR, s[i..], k - i);
    LeadIsWhole(quote, f, s, i);
    LeadReads(quote, s);
    ThenFrom(Lead(quote), part, s, i);
  }

  lemma ReadIsLongPart(quote: char, f: char -> bool, s: string)
    requires PartsOf(quote, f) && Match(LongPart(quote, f), s).Some?
    ensures Matches(LongPartR(quote, f), s[..Match(LongPart(quote, f), s).value])
  {
    PartToken(f);
    var part, partR := Else(Class(f), ESCAPE), Alt(Letter(f), ESCAPE_R);
    var i := QuoteRun(quote, s);
    LeadReads(quote, s);
    ThenFrom(Lead(quote), part, s, i);
    ReadIsToken(part, partR, s[i..]);
    LeadMatches(quote, s[..i]);
    CatAt(LeadR(quote), partR, s, i, i + Match(part, s[i..]).value);
  }

  lemma LongPartToken(quote: char, f: char -> bool)
    requires PartsOf(quote, f)
    ensures Token(LongPart(quote, f), LongPartR(quote, f))
  {
    forall s: string
      ensures TokenAt(LongPart(quote, f), LongPartR(quote, f), s)
    {
      LongPartAt(quote, f, s);
    }
  }

  lemma LongPartAt(quote: char, f: char -> bool, s: string)
    requires PartsOf(quote, f)
    ensures TokenAt(LongPart(quote, f), LongPartR(quote, f), s)
  {
    forall k | 0 <= k <= |s| && Matches(LongPartR(quote, f), s[..k])
      ensures Match(LongPart(quote, f), s) == Some(k) && k > 0
    {
      LongPartIsRead(quote, f, s, k);
    }
    if Match(LongPart(quote, f), s).Some? {
      ReadIsLongPart(quote, f, s);
    }
  }

  // ---- Whole strings.

  lemma ThriceReads(quote: char, w: string)
    ensures Match(Thrice(quote), [quote, quote, quote] + w) == Some(3)
  {
    var one, two := [quote] + w, [quote, quote] + w;
    assert [quote, quote, quote] + w == [quote] + two && two == [quote] + one;
    OneReads(quote, one);
    OneThen(quote, One(quote), one);
    OneThen(quote, Then(One(quote), One(quote)), two);
  }

  /** Three quotes end a long string: no part begins with them. */
  lemma LongPartStops(quote: char, f: char -> bool, w: string)
    requires PartsOf(quote, f)
    ensures Match(LongPart(quote, f), [quote, quote, quote] + w).None?
  {
    var s := [quote, quote, quote] + w;
    LeadReads(quote, s);
    ThenFrom(Lead(quote), Else(Class(f), ESCAPE), s, 2);
    PartStarts(quote, f, s[2..]);
  }

  lemma LongTail(quote: char, f: char -> bool, v: string, end: string)
    requires PartsOf(quote, f) && Matches(Rep(LongPartR(quote, f)), v)
    requires Match(LongPart(quote, f), end).None? && Match(Thrice(quote), end) == Some(3)
    ensures Match(Then(Star(LongPart(quote, f)), Thrice(quote)), v + end) == Some(|v| + 3)
  {
    var s := v + end;
    LongPartToken(quote, f);
    assert s[..|v|] == v && s[|v|..] == end;
    StarReads(LongPart(quote, f), LongPartR(quote, f), s, |v|);
    ThenFrom(Star(LongPart(quote, f)), Thrice(quote), s, |v|);
  }

  /** A legal long text is consumed whole with its six quotes, whatever follows. */
  lemma LongReads(quote: char, f: char -> bool, v: string, w: string)
    requires PartsOf(quote, f) && Matches(Rep(LongPartR(quote, f)), v)
    ensures Match(LongString(quote, Else(Class(f), ESCAPE)),
                  [quote, quote, quote] + (v + ([quote, quote, quote] + w))) == Some(|v| + 6)
  {
    var end := [quote, quote, quote] + w;
    ThriceReads(quote, v + end);
    ThriceReads(quote, w);
    LongPartStops(quote, f, w);
    LongTail(quote, f, v, end);
    LongFrom(quote, f, v + end, |v| + 3);
  }

  lemma LongFrom(quote: char, f: char -> bool, rest: string, n: nat)
    requires Match(Thrice(quote), [quote, quote, quote] + rest) == Some(3)
    requires Match(Then(Star(LongPart(quote, f)), Thrice(quote)), rest) == Some(n)
    ensures Match(LongString(quote, Else(Class(f), ESCAPE)), [quote, quote, quote] + rest) == Some(n + 3)
  {
    var s := [quote, quote, quote] + rest;
    assert s[3..] == rest;
    ThenFrom(Thrice(quote), Then(Star(LongPart(quote, f)), Thrice(quote)), s, 3);
  }

  // ---- The four forms.

  datatype Form = Form(quote: char, long: bool)

  predicate IsForm(form: Form) {
    form.quote == '"' || form.quote == '\''
  }

  function Delimiter(form: Form): string {
    if form.long then [form.quote, form.quote, form.quote] else [form.quote]
  }

  function Quoted(form: Form, text: string): string {
    Delimiter(form) + (text + Delimiter(form))
  }

  /** The texts the grammar allows between the delimiters. */
  ghost predicate LegalIn(form: Form, text: string)
    requires IsForm(form)
  {
    if form.long then
      Matches(Rep(LongPartR(form.quote, if form.quote == '"' then IsLongChar else IsLongSingleChar)), text)
    else
      Matches(Rep(Alt(Letter(if form.quote == '"' then IsStringChar else IsSingleQuotedChar), ESCAPE_R)), text)
  }

  const SINGLE_PART := Else(Class(IsSingleQuotedChar), ESCAPE)

  lemma LongDoubleReads(text: string, w: string)
    requires LegalIn(Form('"', true), text)
    ensures Match(TURTLE_STRING, Delimiter(Form('"', true)) + (text + (Delimiter(Form('"', true)) + w)))
         == Some(|text| + 6)
  {
    var s := ['"', '"', '"'] + (text + (['"', '"', '"'] + w));
    LongReads('"', IsLongChar, text, w);
    ElseFrom(STRING_LITERAL_LONG_QUOTE,
             Else(STRING_LITERAL_LONG_SINGLE_QUOTE, Else(STRING_LITERAL_SINGLE_QUOTE, STRING_LITERAL_QUOTE)), s);
  }

  lemma LongDoubleMisses(s: string)
    requires StartsOther(s, '"')
    ensures Match(STRING_LITERAL_LONG_QUOTE, s).None?
  {
    OneThenMisses('"', Then(One('"'), One('"')), s);
    LongMisses('"', Else(Class(IsLongChar), ESCAPE), s);
  }

  lemma LongSingleReads(text: string, w: string)
    requires LegalIn(Form('\'', true), text)
    ensures Match(TURTLE_STRING, Delimiter(Form('\'', true)) + (text + (Delimiter(Form('\'', true)) + w)))
         == Some(|text| + 6)
  {
    var s := ['\'', '\'', '\''] + (text + (['\'', '\'', '\''] + w));
    LongDoubleMisses(s);
    LongReads('\'', IsLongSingleChar, text, w);
    ElseFrom(STRING_LITERAL_LONG_SINGLE_QUOTE, Else(STRING_LITERAL_SINGLE_QUOTE, STRING_LITERAL_QUOTE), s);
    ElseFrom(STRING_LITERAL_LONG_QUOTE,
             Else(STRING_LITERAL_LONG_SINGLE_QUOTE, Else(STRING_LITERAL_SINGLE_QUOTE, STRING_LITERAL_QUOTE)), s);
  }

  lemma SinglePartStarts(text: string)
    requires LegalIn(Form('\'', false), text) && text != []
    ensures text[0] != '\''
  {
    PartToken(IsSingleQuotedChar);
    var k := RepElim(Alt(Letter(IsSingleQuotedChar), ESCAPE_R), text);
    TokenIsRead(SINGLE_PART, Alt(Letter(IsSingleQuotedChar), ESCAPE_R), text, k);
    PartStarts('\'', IsSingleQuotedChar, text);
  }

  /** A short string never opens with three quotes. */
  lemma NotLongSingle(text: string, w: string)
    requires LegalIn(Form('\'', false), text) && StartsOther(w, '\'')
    ensures Match(STRING_LITERAL_LONG_SINGLE_QUOTE, ['\''] + (text + (['\''] + w))).None?
  {
    var rest := text + (['\''] + w);
    if text == [] {
      assert rest == ['\''] + w;
      OneReads('\'', w);
      OneThen('\'', One('\''), w);
    } else {
      SinglePartStarts(text);
      OneThenMisses('\'', One('\''), rest);
    }
    OneThen('\'', Then(One('\''), One('\'')), rest);
    LongMisses('\'', Else(Class(IsLongSingleChar), ESCAPE), ['\''] + rest);
  }

  lemma SingleTokenReads(text: string, w: string)
    requires LegalIn(Form('\'', false), text)
    ensures Match(STRING_LITERAL_SINGLE_QUOTE, ['\''] + text + ['\''] + w) == Some(|text| + 2)
  {
    PartToken(IsSingleQuotedChar);
    PartStarts('\'', IsSingleQuotedChar, ['\''] + w);
    EnclosedText('\'', text, '\'', w);
    EnclosedReads('\'', SINGLE_PART, Alt(Letter(IsSingleQuotedChar), ESCAPE_R), '\'',
                  ['\''] + text + ['\''] + w, |text|);
  }

  lemma SingleReads(text: string, w: string)
    requires LegalIn(Form('\'', false), text) && StartsOther(w, '\'')
    ensures Match(TURTLE_STRING, ['\''] + (text + (['\''] + w))) == Some(|text| + 2)
  {
    var s := ['\''] + (text + (['\''] + w));
    assert s == ['\''] + text + ['\''] + w;
    SingleTokenReads(text, w);
    NotLongSingle(text, w);
    LongDoubleMisses(s);
    ElseFrom(STRING_LITERAL_SINGLE_QUOTE, STRING_LITERAL_QUOTE, s);
    ElseFrom(STRING_LITERAL_LONG_SINGLE_QUOTE, Else(STRING_LITERAL_SINGLE_QUOTE, STRING_LITERAL_QUOTE), s);
    ElseFrom(STRING_LITERAL_LONG_QUOTE,
             Else(STRING_LITERAL_LONG_SINGLE_QUOTE, Else(STRING_LITERAL_SINGLE_QUOTE, STRING_LITERAL_QUOTE)), s);
  }

  lemma DoubleReadsAgain(text: string, w: string)
    requires LegalIn(Form('"', false), text) && StartsOther(w, '"')
    ensures Match(TURTLE_STRING, ['"'] + (text + (['"'] + w))) == Some(|text| + 2)
  {
    assert ['"'] + (text + (['"'] + w)) == "\"" + text + "\"" + w;
    StringTokenReads(text, w);
  }

  /** A string in any of the four forms is consumed whole. */
  lemma FormReads(form: Form, text: string, w: string)
    requires IsForm(form) && LegalIn(form, text) && StartsOther(w, form.quote)
    ensures Match(TURTLE_STRING, Delimiter(form) + (text + (Delimiter(form) + w))) == Some(|Quoted(form, text)|)
  {
    if form.long {
      if form.quote == '"' {
        LongDoubleReads(text, w);
      } else {
        LongSingleReads(text, w);
      }
    } else if form.quote == '"' {
      DoubleReadsAgain(text, w);
    } else {
      SingleReads(text, w);
    }
  }

  /** Only one quote is cut at each end: a long string keeps two there. */
  function Stored(form: Form, text: string): string {
    if form.long then [form.quote, form.quote] + text + [form.quote, form.quote] else text
  }

  lemma QuotedText(form: Form, text: string, w: string)
    ensures Delimiter(form) + (text + (Delimiter(form) + w)) == Quoted(form, text) + w
    ensures (Quoted(form, text) + w)[..|Quoted(form, text)|] == Quoted(form, text)
    ensures Inner(Quoted(form, text), 1, 1) == Stored(form, text)
  {
  }

  lemma FormRuns(form: Form, text: string, w: string, st: Basic)
    requires IsForm(form) && LegalIn(form, text) && StartsOther(w, form.quote)
    ensures Run(STRING, Quoted(form, text) + w, st)
         == Matched(|Quoted(form, text)|, st.(literal := Stored(form, text)))
  {
    FormReads(form, text, w);
    QuotedText(form, text, w);
    StringApplied(Quoted(form, text) + w, st, |Quoted(form, text)|, Stored(form, text));
  }

  lemma TagsHaveNoQuote(tag: Tag, form: Form)
    requires IsForm(form)
    ensures StartsOther(TagText(tag), form.quote)
  {
  }

  /** A literal in any of the four forms, with any tag, in any state between terms: read whole, and what is stored. */
  lemma LiteralInForm(form: Form, text: string, tag: Tag, st: Basic)
    requires IsForm(form) && LegalIn(form, text) && LegalTag(tag) && Clear(st) && (st.base == "" || tag != OfType(""))
    ensures var s := Quoted(form, text) + TagText(tag);
            var r := Run(TERM, s, st);
            r.Matched? && r.length == |s| && r.st.element == Build(Text(Stored(form, text), tag)) && Clear(r.st)
  {
    var value := Stored(form, text);
    var mid := st.(literal := value);
    TagsHaveNoQuote(tag, form);
    FormRuns(form, text, TagText(tag), st);
    TagRuns(tag, mid);
    LiteralRunsAfter(Quoted(form, text), value, TagText(tag), st, AfterTag(tag, mid));
    AfterLiteralIs(value, tag, st);
  }

  /**
   Main result: the value read is the text between the delimiters if and only if these are single characters. A long
   string is read with two quotes too many at each end of its value.
   */
  lemma ValueIsTextExactly(form: Form, text: string, tag: Tag, st: Basic)
    requires IsForm(form) && LegalIn(form, text) && LegalTag(tag) && Clear(st) && (st.base == "" || tag != OfType(""))
    ensures var r := Run(TERM, Quoted(form, text) + TagText(tag), st);
            r.Matched? && r.st.element.Valid() && (r.st.element.Value() == text <==> !form.long)
  {
    LiteralInForm(form, text, tag, st);
    LiteralViewsReadBack(Stored(form, text), tag);
    assert form.long ==> |Stored(form, text)| == |text| + 4;
  }
}
