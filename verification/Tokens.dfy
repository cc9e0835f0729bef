/** The terminals of terms, with the productions of section 6.5 of RDF 1.1 Turtle for the parts they enclose. */
module Tokens {
  import opened Terms
  import opened Peg
  import opened PegLaws
  import opened Names
  import opened Numbers

  predicate IsStringChar(c: char) {
    c != '"' && c != '\\' && c != '\r' && c != '\n'
  }

  predicate IsSingleQuotedChar(c: char) {
    c != '\'' && c != '\\' && c != '\r' && c != '\n'
  }

  predicate IsLongChar(c: char) { c != '"' && c != '\\' }

  predicate IsLongSingleChar(c: char) { c != '\'' && c != '\\' }

  predicate IsEscaped(c: char) { c in "tbnrf\"'\\" }

  predicate IsIriChar(c: char) {
    c !in "<>\"{}|^`\\" && !Between(c, 0x00, 0x20)
  }

  predicate IsAnonSpace(c: char) { c == ' ' || c == '\t' || c == '\r' || c == '\n' }

  // ---- The rules, as in the grammar.

  const ECHAR := Then(One('\\'), Class(IsEscaped))
  const HEX4 := Then(HEX, Then(HEX, Then(HEX, HEX)))
  const SHORT_UCHAR := Then(One('\\'), Then(One('u'), HEX4))
  const LONG_UCHAR := Then(One('\\'), Then(One('U'), Then(HEX4, HEX4)))
  const UCHAR := Else(SHORT_UCHAR, LONG_UCHAR)
  const ESCAPE := Else(ECHAR, UCHAR)
  const STRING_PART := Else(Class(IsStringChar), ESCAPE)
  const STRING_LITERAL_QUOTE := Then(One('"'), Then(Star(STRING_PART), One('"')))
  const STRING_LITERAL_SINGLE_QUOTE := Then(One('\''), Then(Star(Else(Class(IsSingleQuotedChar), ESCAPE)), One('\'')))

  function Thrice(quote: char): Peg {
    Then(One(quote), Then(One(quote), One(quote)))
  }

  /** One or two quotes may stand before each part of a long string. */
  function LongString(quote: char, part: Peg): Peg {
    Then(Thrice(quote), Then(Star(Then(Opt(Else(Then(One(quote), One(quote)), One(quote))), part)), Thrice(quote)))
  }

  const STRING_LITERAL_LONG_QUOTE := LongString('"', Else(Class(IsLongChar), ESCAPE))
  const STRING_LITERAL_LONG_SINGLE_QUOTE := LongString('\'', Else(Class(IsLongSingleChar), ESCAPE))
  const TURTLE_STRING :=
    Else(STRING_LITERAL_LONG_QUOTE,
         Else(STRING_LITERAL_LONG_SINGLE_QUOTE, Else(STRING_LITERAL_SINGLE_QUOTE, STRING_LITERAL_QUOTE)))
  const IRI_PART := Else(Class(IsIriChar), UCHAR)
  const IRIREF := Then(One('<'), Then(Star(IRI_PART), One('>')))
  const ALNUMS := Plus(Class(IsAlnum))
  const SUBTAG := Then(One('-'), ALNUMS)
  const LANGTAG := Then(One('@'), Then(Plus(Class(IsAlpha)), Star(SUBTAG)))
  const ANON := Then(One('['), Then(Star(Class(IsAnonSpace)), One(']')))
  const PNAME_NS := Then(Opt(PN_PREFIX), One(':'))
  const PNAME_LN := Then(PNAME_NS, PN_LOCAL)
  const PNAME := Else(PNAME_LN, PNAME_NS)
  const TRUE := Then(One('t'), Then(One('r'), Then(One('u'), One('e'))))
  const FALSE := Then(One('f'), Then(One('a'), Then(One('l'), Then(One('s'), One('e')))))
  const CARETS := Then(One('^'), One('^'))

  // ---- The productions of the parts.

  const HEX_R := Letter(IsHex)
  const HEX4_R := Cat(HEX_R, Cat(HEX_R, Cat(HEX_R, HEX_R)))
  const ECHAR_R := Cat(Char('\\'), Letter(IsEscaped))
  const SHORT_UCHAR_R := Cat(Char('\\'), Cat(Char('u'), HEX4_R))
  const LONG_UCHAR_R := Cat(Char('\\'), Cat(Char('U'), Cat(HEX4_R, HEX4_R)))
  const UCHAR_R := Alt(SHORT_UCHAR_R, LONG_UCHAR_R)
  const STRING_PART_R := Alt(Letter(IsStringChar), Alt(ECHAR_R, UCHAR_R))
  const IRI_PART_R := Alt(Letter(IsIriChar), UCHAR_R)
  const SUBTAG_R := Cat(Char('-'), Some1(Letter(IsAlnum)))
  const LANG_R := Cat(Some1(Letter(IsAlpha)), Rep(SUBTAG_R))

  /** Texts that may stand between the quotes of a string, the brackets of an IRI, after @, and after _: . */
  ghost predicate LegalValue(value: string) { Matches(Rep(STRING_PART_R), value) }

  ghost predicate LegalIri(uri: string) { Matches(Rep(IRI_PART_R), uri) }

  ghost predicate LegalLang(lang: string) { Matches(LANG_R, lang) }

  ghost predicate LegalLabel(name: string) { Matches(BLANK_NODE_LABEL_R, "_:" + name) }

  lemma EscapeTokens()
    ensures Token(UCHAR, UCHAR_R) && Token(ESCAPE, Alt(ECHAR_R, UCHAR_R))
  {
    OneToken('\\');
    OneToken('u');
    OneToken('U');
    TokenClass(IsHex);
    TokenClass(IsEscaped);
    TokenThen(HEX, HEX, HEX_R, HEX_R);
    TokenThen(HEX, Then(HEX, HEX), HEX_R, Cat(HEX_R, HEX_R));
    TokenThen(HEX, Then(HEX, Then(HEX, HEX)), HEX_R, Cat(HEX_R, Cat(HEX_R, HEX_R)));
    TokenThen(HEX4, HEX4, HEX4_R, HEX4_R);
    TokenThen(One('u'), HEX4, Char('u'), HEX4_R);
    TokenThen(One('U'), Then(HEX4, HEX4), Char('U'), Cat(HEX4_R, HEX4_R));
    TokenThen(One('\\'), Then(One('u'), HEX4), Char('\\'), Cat(Char('u'), HEX4_R));
    TokenThen(One('\\'), Then(One('U'), Then(HEX4, HEX4)), Char('\\'), Cat(Char('U'), Cat(HEX4_R, HEX4_R)));
    TokenThen(One('\\'), Class(IsEscaped), Char('\\'), Letter(IsEscaped));
    forall s: string
      ensures Match(SHORT_UCHAR, s).None? || Match(LONG_UCHAR, s).None?
      ensures Match(ECHAR, s).None? || Match(UCHAR, s).None?
    {
      SecondChar(s);
    }
    TokenElse(SHORT_UCHAR, LONG_UCHAR, SHORT_UCHAR_R, LONG_UCHAR_R);
    TokenElse(ECHAR, UCHAR, ECHAR_R, UCHAR_R);
  }

  /** Escapes start with a backslash and differ in the character after it. */
  lemma SecondChar(s: string)
    ensures Match(SHORT_UCHAR, s).Some? ==> |s| >= 2 && s[0] == '\\' && s[1] == 'u'
    ensures Match(LONG_UCHAR, s).Some? ==> |s| >= 2 && s[0] == '\\' && s[1] == 'U'
    ensures Match(ECHAR, s).Some? ==> |s| >= 2 && s[0] == '\\' && IsEscaped(s[1])
    ensures Match(UCHAR, s).Some? ==> |s| >= 2 && s[0] == '\\' && (s[1] == 'u' || s[1] == 'U')
    ensures Match(ESCAPE, s).Some? ==> s != [] && s[0] == '\\'
  {
    if s != [] && s[0] == '\\' {
      assert Match(One('\\'), s) == Some(1);
      assert Match(Then(One('u'), HEX4), s[1..]).Some? ==> Match(One('u'), s[1..]).Some?;
      assert Match(Then(One('U'), Then(HEX4, HEX4)), s[1..]).Some? ==> Match(One('U'), s[1..]).Some?;
    } else {
      assert Match(One('\\'), s).None?;
    }
    ElseFrom(SHORT_UCHAR, LONG_UCHAR, s);
    ElseFrom(ECHAR, UCHAR, s);
  }

  lemma PartTokens()
    ensures Token(STRING_PART, STRING_PART_R) && Token(IRI_PART, IRI_PART_R)
  {
    EscapeTokens();
    TokenClass(IsStringChar);
    TokenClass(IsIriChar);
    forall s: string
      ensures Match(Class(IsStringChar), s).None? || Match(ESCAPE, s).None?
      ensures Match(Class(IsIriChar), s).None? || Match(UCHAR, s).None?
    {
      SecondChar(s);
    }
    TokenElse(Class(IsStringChar), ESCAPE, Letter(IsStringChar), Alt(ECHAR_R, UCHAR_R));
    TokenElse(Class(IsIriChar), UCHAR, Letter(IsIriChar), UCHAR_R);
  }

  /** A repetition of tokens reads back a text made of them, up to where none can follow. */
  lemma {:induction false} StarReads(item: Peg, r: Regex, s: string, n: nat)
    requires Token(item, r) && n <= |s| && Matches(Rep(r), s[..n]) && Match(item, s[n..]).None?
    ensures Match(Star(item), s) == Some(n)
    decreases n
  {
    if n == 0 {
      TakeAll(s);
    } else {
      var i := RepWithin(r, s, n);
      DropOfDrop(s, i, n - i);
      StarReads(item, r, s[i..], n - i);
      StarReadsFirst(item, r, s, i, n);
    }
  }

  lemma StarReadsFirst(item: Peg, r: Regex, s: string, i: nat, n: nat)
    requires Token(item, r) && i <= n <= |s| && Matches(r, s[..i]) && Match(Star(item), s[i..]) == Some(n - i)
    ensures Match(Star(item), s) == Some(n)
  {
    TokenIsRead(item, r, s, i);
    StarOnceTo(item, s, i, s[i..]);
  }

  /** A part enclosed in two characters that cannot begin one of its tokens. */
  lemma EnclosedReads(left: char, item: Peg, r: Regex, right: char, s: string, n: nat)
    requires Token(item, r) && n + 1 < |s| && s[0] == left && s[n + 1] == right
    requires Matches(Rep(r), s[1..][..n]) && Match(item, s[1..][n..]).None?
    ensures Match(Then(One(left), Then(Star(item), One(right))), s) == Some(n + 2)
  {
    StarReads(item, r, s[1..], n);
    ThenOne(Star(item), right, s[1..], n);
    OneReads(left, s);
    ThenFrom(One(left), Then(Star(item), One(right)), s, 1);
  }

  lemma EnclosedText(left: char, v: string, right: char, w: string)
    ensures var s := [left] + v + [right] + w;
            s[0] == left && s[|v| + 1] == right && s[1..][..|v|] == v && s[1..][|v|..] == [right] + w
  {
  }

  lemma OneReads(c: char, s: string)
    ensures Match(One(c), s) == if s != [] && s[0] == c then Some(1) else None
  {
  }

  lemma ThenOne(first: Peg, right: char, s: string, n: nat)
    requires Match(first, s) == Some(n) && n < |s| && s[n] == right
    ensures Match(Then(first, One(right)), s) == Some(n + 1)
  {
  }

  lemma OneThen(left: char, rest: Peg, s: string)
    ensures Match(Then(One(left), rest), [left] + s) == Shift(1, Match(rest, s))
  {
  }

  lemma StringReads(value: string, w: string)
    requires LegalValue(value)
    ensures Match(STRING_LITERAL_QUOTE, "\"" + value + "\"" + w) == Some(|value| + 2)
  {
    PartTokens();
    SecondChar(['"'] + w);
    assert Match(STRING_PART, ['"'] + w).None?;
    EnclosedText('"', value, '"', w);
    EnclosedReads('"', STRING_PART, STRING_PART_R, '"', "\"" + value + "\"" + w, |value|);
  }

  lemma IriReads(uri: string, w: string)
    requires LegalIri(uri)
    ensures Match(IRIREF, "<" + uri + ">" + w) == Some(|uri| + 2)
  {
    PartTokens();
    SecondChar(['>'] + w);
    assert Match(IRI_PART, ['>'] + w).None?;
    EnclosedText('<', uri, '>', w);
    EnclosedReads('<', IRI_PART, IRI_PART_R, '>', "<" + uri + ">" + w, |uri|);
  }

  lemma LabelReads(name: string)
    requires LegalLabel(name)
    ensures Match(BLANK_NODE_LABEL, "_:" + name) == Some(|name| + 2)
  {
    BlankNodeLabelIsLongest("_:" + name);
    LongestReadsAll(BLANK_NODE_LABEL, BLANK_NODE_LABEL_R, "_:" + name);
  }

  lemma LongestReadsAll(p: Peg, r: Regex, s: string)
    requires Longest(p, r, s) && Matches(r, s)
    ensures Match(p, s) == Some(|s|)
  {
    assert s[..|s|] == s;
  }

  lemma PlusReads(item: Peg, r: Regex, s: string, n: nat)
    requires Token(item, r) && n <= |s| && Matches(Some1(r), s[..n]) && Match(item, s[n..]).None?
    ensures Match(Plus(item), s) == Some(n) && n > 0
  {
    var k := CatWithin(r, Rep(r), s, n);
    DropOfDrop(s, k, n - k);
    StarReads(item, r, s[k..], n - k);
    PlusFrom(item, r, s, k, n - k);
  }

  lemma PlusFrom(item: Peg, r: Regex, s: string, k: nat, n: nat)
    requires Token(item, r) && k <= |s| && Matches(r, s[..k]) && Match(Star(item), s[k..]) == Some(n)
    ensures Match(Plus(item), s) == Some(k + n) && k > 0
  {
    TokenIsRead(item, r, s, k);
    ThenFrom(item, Star(item), s, k);
  }

  lemma ClassStops(f: char -> bool, w: string)
    requires w != [] ==> !f(w[0])
    ensures Match(Class(f), w).None?
  {
  }

  lemma SubtagReads(s: string, n: nat)
    requires n <= |s| && Matches(SUBTAG_R, s[..n]) && (s[n..] != [] ==> s[n..][0] == '-')
    ensures Match(SUBTAG, s) == Some(n)
  {
    var k := CatWithin(Char('-'), Some1(Letter(IsAlnum)), s, n);
    assert k == 1 && s[..k][0] == '-';
    DropOfDrop(s, 1, n - 1);
    AlnumsRead(s[1..], n - 1);
    OneReads('-', s);
    ThenFrom(One('-'), ALNUMS, s, 1);
  }

  lemma AlnumsRead(s: string, n: nat)
    requires n <= |s| && Matches(Some1(Letter(IsAlnum)), s[..n]) && (s[n..] != [] ==> s[n..][0] == '-')
    ensures Match(ALNUMS, s) == Some(n)
  {
    TokenClass(IsAlnum);
    ClassStops(IsAlnum, s[n..]);
    PlusReads(Class(IsAlnum), Letter(IsAlnum), s, n);
  }

  lemma SubtagStarts(t: string)
    requires Matches(SUBTAG_R, t)
    ensures t != [] && t[0] == '-'
  {
    var k := CatElim(Char('-'), Some1(Letter(IsAlnum)), t);
    assert t[..k][0] == '-';
  }

  lemma SubtagsStart(b: string)
    requires Matches(Rep(SUBTAG_R), b) && b != []
    ensures b[0] == '-'
  {
    var k := RepElim(SUBTAG_R, b);
    SubtagStarts(b[..k]);
  }

  lemma {:induction false} SubtagsRead(b: string)
    requires Matches(Rep(SUBTAG_R), b)
    ensures Match(Star(SUBTAG), b) == Some(|b|)
    decreases |b|
  {
    if b != [] {
      var k := RepElim(SUBTAG_R, b);
      SubtagsRead(b[k..]);
      if b[k..] != [] {
        SubtagsStart(b[k..]);
      }
      SubtagReads(b, k);
      StarOnceTo(SUBTAG, b, k, b[k..]);
    }
  }

  lemma LangReads(lang: string)
    requires LegalLang(lang)
    ensures Match(LANGTAG, "@" + lang) == Some(|lang| + 1) && lang != []
  {
    LangTextReads(lang);
    AfterOne('@', Then(Plus(Class(IsAlpha)), Star(SUBTAG)), lang);
  }

  lemma AfterOne(c: char, rest: Peg, text: string)
    requires Match(rest, text) == Some(|text|)
    ensures Match(Then(One(c), rest), [c] + text) == Some(|text| + 1)
  {
    OneThen(c, rest, text);
  }

  lemma LangTextReads(lang: string)
    requires LegalLang(lang)
    ensures Match(Then(Plus(Class(IsAlpha)), Star(SUBTAG)), lang) == Some(|lang|) && lang != []
  {
    var k := CatElim(Some1(Letter(IsAlpha)), Rep(SUBTAG_R), lang);
    LangPartsRead(lang, k);
  }

  lemma ThenReadsRest(first: Peg, second: Peg, s: string, k: nat)
    requires k <= |s| && Match(first, s) == Some(k) && Match(second, s[k..]) == Some(|s[k..]|)
    ensures Match(Then(first, second), s) == Some(|s|)
  {
    ThenFrom(first, second, s, k);
  }

  lemma LangPartsRead(lang: string, k: nat)
    requires k <= |lang| && Matches(Some1(Letter(IsAlpha)), lang[..k]) && Matches(Rep(SUBTAG_R), lang[k..])
    ensures Match(Then(Plus(Class(IsAlpha)), Star(SUBTAG)), lang) == Some(|lang|) && lang != []
  {
    AlphasRead(lang, k);
    SubtagsRead(lang[k..]);
    ThenReadsRest(Plus(Class(IsAlpha)), Star(SUBTAG), lang, k);
  }

  lemma AlphasRead(s: string, n: nat)
    requires n <= |s| && Matches(Some1(Letter(IsAlpha)), s[..n]) && Matches(Rep(SUBTAG_R), s[n..])
    ensures Match(Plus(Class(IsAlpha)), s) == Some(n) && n > 0
  {
    if s[n..] != [] {
      SubtagsStart(s[n..]);
    }
    TokenClass(IsAlpha);
    ClassStops(IsAlpha, s[n..]);
    PlusReads(Class(IsAlpha), Letter(IsAlpha), s, n);
  }
}
