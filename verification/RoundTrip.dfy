/** Printing and parsing undo each other, for every term whose parts the grammar allows, after any history. */
module RoundTrip {
  import opened Terms
  import opened Peg
  import opened PegLaws
  import opened Names
  import opened Numbers
  import opened Tokens
  import opened TermRules
  import opened TermLaws
  import opened Identity

  /** The parts the grammar allows inside the text of a term. */
  ghost predicate Legal(parts: Parts) {
    match parts
    case Iri(uri) => LegalIri(uri)
    case Blank(name) => LegalLabel(name)
    case Text(value, tag) => LegalValue(value) && LegalTag(tag)
  }

  ghost predicate LegalTag(tag: Tag) {
    match tag
    case Untagged => true
    case InLang(lang) => LegalLang(lang)
    case OfType(iri) => LegalIri(iri)
  }

  /** Between terms: no tag is waiting to be used. */
  predicate Clear(st: Basic) {
    !st.tags.typeFound && !st.tags.langFound
  }

  /** The IRI that is stored: the base goes in after the first character. */
  function Based(uri: string, base: string): string {
    if base == "" || uri == "" then uri else uri[..1] + base + uri[1..]
  }

  /** How an IRI in brackets is read. */
  function IriOutcome(uri: string, st: Basic): Outcome {
    if st.base != "" && uri == "" then Thrown
    else
      Matched(|uri| + 2, st.(element := URIRef(Based(uri, st.base)), tags := st.tags.(isIriRef := true)))
  }

  lemma IriRuns(uri: string, st: Basic)
    requires LegalIri(uri)
    ensures Run(IRI, "<" + uri + ">", st) == IriOutcome(uri, st)
  {
    var s := "<" + uri + ">";
    IriReads(uri, "");
    assert s + "" == s && s[..|uri| + 2] == s && s[1..|s| - 1] == uri;
    DoPlain(OnIriRef, IRIREF, s, st, |uri| + 2);
    EitherPreferred(Do(OnIriRef, Plain(IRIREF)), Do(OnPrefixedName, Plain(PNAME)), s, st);
  }

  lemma IriTermRuns(uri: string, st: Basic)
    requires LegalIri(uri)
    ensures Run(TERM, "<" + uri + ">", st) == IriOutcome(uri, st)
  {
    var s := "<" + uri + ">";
    LiteralMisses(s, st);
    BlankNodeMisses(s, st);
    IriRuns(uri, st);
    EitherOther(BLANK_NODE, IRI, s, st);
    EitherOther(LITERAL, Either(BLANK_NODE, IRI), s, st);
  }

  lemma LabelApplied(s: string, st: Basic, n: nat, name: string)
    requires Match(BLANK_NODE_LABEL, s) == Some(n) && Inner(s[..n], 2, 0) == name
    ensures Run(Do(OnBlankLabel, Plain(BLANK_NODE_LABEL)), s, st) == Matched(n, st.(literal := name, blankNode := name))
  {
  }

  lemma InnerOfLabel(name: string)
    ensures |name| + 2 <= |"_:" + name| && Inner(("_:" + name)[..|name| + 2], 2, 0) == name
  {
  }

  lemma BlankLabelRuns(name: string, st: Basic)
    requires LegalLabel(name)
    ensures Run(Do(OnBlankLabel, Plain(BLANK_NODE_LABEL)), "_:" + name, st)
         == Matched(|name| + 2, st.(literal := name, blankNode := name))
  {
    LabelReads(name);
    InnerOfLabel(name);
    LabelApplied("_:" + name, st, |name| + 2, name);
  }

  lemma BlankNodeRuns(name: string, st: Basic)
    requires LegalLabel(name)
    ensures Run(BLANK_NODE, "_:" + name, st)
         == Matched(|name| + 2, st.(element := BNode(name), literal := name, blankNode := name))
  {
    var s := "_:" + name;
    var byLabel, byAnon := Do(OnBlankLabel, Plain(BLANK_NODE_LABEL)), Do(OnAnon, Plain(ANON));
    BlankLabelRuns(name, st);
    EitherPreferred(byLabel, byAnon, s, st);
    DoRuns(OnBlankNode, Either(byLabel, byAnon), s, st, |name| + 2, st.(literal := name, blankNode := name));
  }

  lemma BlankTermRuns(name: string, st: Basic)
    requires LegalLabel(name)
    ensures Run(TERM, "_:" + name, st)
         == Matched(|name| + 2, st.(element := BNode(name), literal := name, blankNode := name))
  {
    var s := "_:" + name;
    LiteralMisses(s, st);
    BlankNodeRuns(name, st);
    EitherPreferred(BLANK_NODE, IRI, s, st);
    EitherOther(LITERAL, Either(BLANK_NODE, IRI), s, st);
  }

  // ---- Literals.

  lemma LegalValueStarts(value: string)
    requires LegalValue(value) && value != []
    ensures value[0] != '"'
  {
    var k := RepElim(STRING_PART_R, value);
    PartTokens();
    TokenIsRead(STRING_PART, STRING_PART_R, value, k);
    SecondChar(value);
    ElseFrom(Class(IsStringChar), ESCAPE, value);
  }

  /** Three quotes never open the text of a term, even when the value is empty. */
  lemma NotLong(value: string, w: string)
    requires LegalValue(value) && StartsOther(w, '"')
    ensures Match(STRING_LITERAL_LONG_QUOTE, "\"" + value + "\"" + w).None?
  {
    var s := "\"" + value + "\"" + w;
    if value == [] {
      assert s == ['"'] + (['"'] + w);
      OneReads('"', w);
      OneThen('"', One('"'), w);
      OneThen('"', Then(One('"'), One('"')), ['"'] + w);
    } else {
      LegalValueStarts(value);
      var rest := value + "\"" + w;
      assert s == ['"'] + rest && rest[0] == value[0];
      OneThenMisses('"', One('"'), rest);
      OneThen('"', Then(One('"'), One('"')), rest);
    }
    LongMisses('"', Else(Class(IsLongChar), ESCAPE), s);
  }

  lemma StringTokenReads(value: string, w: string)
    requires LegalValue(value) && StartsOther(w, '"')
    ensures Match(TURTLE_STRING, "\"" + value + "\"" + w) == Some(|value| + 2)
  {
    var s := "\"" + value + "\"" + w;
    NotLong(value, w);
    SingleQuotesMiss(s);
    StringChoice(s);
    StringReads(value, w);
  }

  lemma InnerOfQuoted(value: string, w: string)
    ensures var s := "\"" + value + "\"" + w;
            |value| + 2 <= |s| && Inner(s[..|value| + 2], 1, 1) == value
  {
  }

  lemma StringApplied(s: string, st: Basic, n: nat, value: string)
    requires Match(TURTLE_STRING, s) == Some(n) && Inner(s[..n], 1, 1) == value
    ensures Run(STRING, s, st) == Matched(n, st.(literal := value))
  {
  }

  lemma StringRuns(value: string, w: string, st: Basic)
    requires LegalValue(value) && StartsOther(w, '"')
    ensures Run(STRING, "\"" + value + "\"" + w, st) == Matched(|value| + 2, st.(literal := value))
  {
    var s := "\"" + value + "\"" + w;
    StringTokenReads(value, w);
    InnerOfQuoted(value, w);
    StringApplied(s, st, |value| + 2, value);
  }

  /** The state just after the tag of a literal. */
  function AfterTag(tag: Tag, st: Basic): Basic {
    match tag
    case Untagged => st
    case InLang(lang) => st.(tags := st.tags.(langFound := true, langTag := lang))
    case OfType(iri) =>
      st.(element := URIRef(Based(iri, st.base)),
          tags := st.tags.(isIriRef := true, typeFound := true, typeTag := iri))
  }

  /** What is printed after the closing quote; a type is always printed here, even xsd:string. */
  function TagText(tag: Tag): string {
    match tag
    case Untagged => ""
    case InLang(lang) => "@" + lang
    case OfType(iri) => "^^<" + iri + ">"
  }

  lemma LangTagRuns(lang: string, st: Basic)
    requires LegalLang(lang)
    ensures Run(LANG_TAG, "@" + lang, st) == Matched(|lang| + 1, AfterTag(InLang(lang), st))
  {
    var s := "@" + lang;
    LangReads(lang);
    assert s[..|lang| + 1] == s && s[1..|s| - 0] == lang;
    DoPlain(OnLangTag, LANGTAG, s, st, |lang| + 1);
  }

  lemma CaretsRead(w: string)
    ensures Match(CARETS, "^^" + w) == Some(2)
  {
  }

  lemma LangTagMisses(s: string, st: Basic)
    requires StartsOther(s, '@')
    ensures Run(LANG_TAG, s, st) == Unmatched(st)
  {
    OneThenMisses('@', Then(Plus(Class(IsAlpha)), Star(SUBTAG)), s);
    DoMisses(OnLangTag, LANGTAG, s, st);
  }

  lemma TypeTagMisses(s: string, st: Basic)
    requires StartsOther(s, '^')
    ensures Run(TYPE_TAG, s, st) == Unmatched(st)
  {
    OneThenMisses('^', One('^'), s);
    PlainMisses(CARETS, s, st);
    BothFails(Plain(CARETS), IRI, s, st);
    DoFails(OnTypeTag, Both(Plain(CARETS), IRI), s, st);
  }

  /** A base changes the IRI that a type tag passes through the state, but not the tag itself. */
  function TagOutcome(tag: Tag, st: Basic): Outcome {
    if st.base != "" && tag == OfType("") then Thrown else Matched(|TagText(tag)|, AfterTag(tag, st))
  }

  lemma TypeTagRuns(iri: string, st: Basic)
    requires LegalIri(iri)
    ensures Run(TYPE_TAG, "^^<" + iri + ">", st) == TagOutcome(OfType(iri), st)
  {
    var s := "^^<" + iri + ">";
    var rest := "<" + iri + ">";
    var both := Both(Plain(CARETS), IRI);
    assert s == "^^" + rest && s[2..] == rest;
    CaretsRead(rest);
    PlainRuns(CARETS, s, st, 2);
    IriRuns(iri, st);
    BothRun(Plain(CARETS), IRI, s, st, 2, st, rest);
    if st.base != "" && iri == "" {
      DoFails(OnTypeTag, both, s, st);
    } else {
      var mid := st.(element := URIRef(Based(iri, st.base)), tags := st.tags.(isIriRef := true));
      assert s[..|iri| + 4] == s && s[3..|s| - 1] == iri;
      DoRuns(OnTypeTag, both, s, st, |iri| + 4, mid);
    }
  }

  lemma TagRuns(tag: Tag, st: Basic)
    requires LegalTag(tag)
    ensures Run(Perhaps(Either(LANG_TAG, TYPE_TAG)), TagText(tag), st) == TagOutcome(tag, st)
  {
    var s := TagText(tag);
    match tag
    case Untagged =>
      LangTagMisses(s, st);
      TypeTagMisses(s, st);
      EitherOther(LANG_TAG, TYPE_TAG, s, st);
      PerhapsRuns(Either(LANG_TAG, TYPE_TAG), s, st);
    case InLang(lang) =>
      LangTagRuns(lang, st);
      EitherPreferred(LANG_TAG, TYPE_TAG, s, st);
      PerhapsRuns(Either(LANG_TAG, TYPE_TAG), s, st);
    case OfType(iri) =>
      LangTagMisses(s, st);
      TypeTagRuns(iri, st);
      EitherOther(LANG_TAG, TYPE_TAG, s, st);
      PerhapsRuns(Either(LANG_TAG, TYPE_TAG), s, st);
  }

  /** The state after a literal has been read. */
  function AfterLiteral(value: string, tag: Tag, st: Basic): Basic {
    LiteralElement(AfterTag(tag, st.(literal := value)))
  }

  /** A literal read with any quotes, and any tag that the rule consumes whole. */
  lemma LiteralRunsAfter(quoted: string, value: string, w: string, st: Basic, after: Basic)
    requires Run(STRING, quoted + w, st) == Matched(|quoted|, st.(literal := value))
    requires Run(Perhaps(Either(LANG_TAG, TYPE_TAG)), w, st.(literal := value)) == Matched(|w|, after)
    ensures Run(TERM, quoted + w, st) == Matched(|quoted + w|, LiteralElement(after))
  {
    var s := quoted + w;
    var tail := Perhaps(Either(LANG_TAG, TYPE_TAG));
    assert s[|quoted|..] == w;
    BothRun(STRING, tail, s, st, |quoted|, st.(literal := value), w);
    DoRuns(OnRdfLiteral, Both(STRING, tail), s, st, |s|, after);
    EitherPreferred(RDF_LITERAL, Either(NUMERIC_LITERAL, BOOLEAN_LITERAL), s, st);
    EitherPreferred(LITERAL, Either(BLANK_NODE, IRI), s, st);
  }

  lemma LiteralRunsWith(value: string, w: string, st: Basic, after: Basic)
    requires LegalValue(value) && StartsOther(w, '"')
    requires Run(Perhaps(Either(LANG_TAG, TYPE_TAG)), w, st.(literal := value)) == Matched(|w|, after)
    ensures var s := "\"" + value + "\"" + w;
            Run(TERM, s, st) == Matched(|s|, LiteralElement(after))
  {
    StringRuns(value, w, st);
    LiteralRunsAfter("\"" + value + "\"", value, w, st, after);
  }

  /** A tag that throws takes the whole literal with it. */
  lemma LiteralThrows(value: string, w: string, st: Basic)
    requires LegalValue(value) && StartsOther(w, '"')
    requires Run(Perhaps(Either(LANG_TAG, TYPE_TAG)), w, st.(literal := value)).Thrown?
    ensures Run(TERM, "\"" + value + "\"" + w, st).Thrown?
  {
    var s := "\"" + value + "\"" + w;
    var tail := Perhaps(Either(LANG_TAG, TYPE_TAG));
    StringRuns(value, w, st);
    assert s[|value| + 2..] == w;
    BothRun(STRING, tail, s, st, |value| + 2, st.(literal := value), w);
    DoFails(OnRdfLiteral, Both(STRING, tail), s, st);
    EitherPreferred(RDF_LITERAL, Either(NUMERIC_LITERAL, BOOLEAN_LITERAL), s, st);
    EitherPreferred(LITERAL, Either(BLANK_NODE, IRI), s, st);
  }

  lemma LiteralTermRuns(value: string, tag: Tag, st: Basic)
    requires LegalValue(value) && LegalTag(tag)
    ensures var s := "\"" + value + "\"" + TagText(tag);
            Run(TERM, s, st) == if st.base != "" && tag == OfType("") then Thrown
                                else Matched(|s|, AfterLiteral(value, tag, st))
  {
    var mid := st.(literal := value);
    TagRuns(tag, mid);
    if st.base != "" && tag == OfType("") {
      LiteralThrows(value, TagText(tag), st);
    } else {
      LiteralRunsWith(value, TagText(tag), st, AfterTag(tag, mid));
    }
  }

  lemma AfterLiteralIs(value: string, tag: Tag, st: Basic)
    requires Clear(st)
    ensures var after := AfterLiteral(value, tag, st);
            && after.element == Build(Text(value, tag))
            && Clear(after) && after.base == st.base && after.prefixes == st.prefixes && after.next == st.next
  {
  }

  /** The term is read whole, and nothing of it stays behind to disturb the next one. */
  ghost predicate ReadsBack(t: Term, st: Basic) {
    var r := Run(TERM, t.identifier, st);
    && r.Matched?
    && r.length == |t.identifier|
    && r.st.element == t
    && Clear(r.st) && r.st.base == st.base && r.st.prefixes == st.prefixes && r.st.next == st.next
  }

  /** What survives a base: a base is put into every IRI that is read, but not into the tag kept from a type. */
  predicate Survives(parts: Parts, base: string) {
    base == "" || parts.Blank? || (parts.Text? && parts.tag != OfType(""))
  }

  lemma IriReadsBack(uri: string, st: Basic)
    requires LegalIri(uri) && Clear(st)
    ensures ReadsBack(Build(Iri(uri)), st) <==> st.base == ""
  {
    IriTermRuns(uri, st);
    if st.base != "" && uri != "" {
      assert |Based(uri, st.base)| == |uri| + |st.base|;
    }
  }

  lemma LiteralReadsBack(value: string, tag: Tag, st: Basic)
    requires LegalValue(value) && LegalTag(tag) && Clear(st)
    ensures ReadsBack(Build(Text(value, tag)), st) <==> st.base == "" || tag != OfType("")
  {
    if tag == OfType(XSD_STRING) {
      LiteralTermRuns(value, Untagged, st);
      AfterLiteralIs(value, Untagged, st);
      assert Build(Text(value, tag)) == Build(Text(value, Untagged));
      assert "\"" + value + "\"" + "" == "\"" + value + "\"";
    } else {
      LiteralTermRuns(value, tag, st);
      AfterLiteralIs(value, tag, st);
      LiteralText(value, tag);
    }
  }

  lemma LiteralText(value: string, tag: Tag)
    requires tag != OfType(XSD_STRING)
    ensures Build(Text(value, tag)).identifier == "\"" + value + "\"" + TagText(tag)
  {
  }

  /**
   Main law, in any state between terms: when a term's identifier parses to that term, views and all. Without a
   base always; with one exactly the blank nodes and the literals whose type is not the empty IRI.
   */
  lemma TermReadsBack(parts: Parts, st: Basic)
    requires Legal(parts) && Clear(st)
    ensures ReadsBack(Build(parts), st) <==> Survives(parts, st.base)
  {
    match parts
    case Iri(uri) => IriReadsBack(uri, st);
    case Blank(name) => BlankTermRuns(name, st);
    case Text(value, tag) => LiteralReadsBack(value, tag, st);
  }

  /** A term that does not survive the base is not read back as itself, whatever the state is left with. */
  lemma OthersAreLost(parts: Parts, st: Basic)
    requires Legal(parts) && Clear(st) && !Survives(parts, st.base)
    ensures var r := Run(TERM, Build(parts).identifier, st);
            r.Thrown? || (r.Matched? && r.st.element != Build(parts))
  {
    match parts
    case Iri(uri) =>
      IriTermRuns(uri, st);
      assert uri != "" ==> |Based(uri, st.base)| == |uri| + |st.base|;
    case Text(value, tag) =>
      LiteralTermRuns(value, tag, st);
      LiteralText(value, tag);
  }

  /** Parsing the identifier of a term with legal parts gives an equal term of the same type with the same views. */
  lemma ParseUndoesPrint(parts: Parts)
    requires Legal(parts)
    ensures ParsedTerm(Build(parts).identifier) == Some(Build(parts))
  {
    TermReadsBack(parts, INITIAL);
  }

  /** Terms read one after the other through one state; None as soon as one does not match or an action throws. */
  function ReadAll(texts: seq<string>, st: Basic): Option<seq<Term>> {
    if texts == [] then Some([])
    else
      var r := Run(TERM, texts[0], st);
      if !r.Matched? then None
      else
        var rest := ReadAll(texts[1..], r.st);
        if rest.None? then None else Some([r.st.element] + rest.value)
  }

  function Identifiers(parts: seq<Parts>): seq<string> {
    if parts == [] then [] else [Build(parts[0]).identifier] + Identifiers(parts[1..])
  }

  function BuildAll(parts: seq<Parts>): seq<Term> {
    if parts == [] then [] else [Build(parts[0])] + BuildAll(parts[1..])
  }

  /**
   The round trip over a whole run of terms through one state: it gives the terms back exactly when each of them
   survives the base. No tag of one leaks into another.
   */
  lemma {:induction false} AllReadBack(parts: seq<Parts>, st: Basic)
    requires forall i :: 0 <= i < |parts| ==> Legal(parts[i])
    requires Clear(st)
    ensures ReadAll(Identifiers(parts), st) == Some(BuildAll(parts))
       <==> forall i :: 0 <= i < |parts| ==> Survives(parts[i], st.base)
  {
    if parts != [] {
      var r := Run(TERM, Build(parts[0]).identifier, st);
      TermReadsBack(parts[0], st);
      assert forall i :: 0 < i < |parts| ==> parts[i] == parts[1..][i - 1];
      if Survives(parts[0], st.base) {
        AllReadBack(parts[1..], r.st);
        TailReadsBack(parts, st, r.st);
      } else {
        OthersAreLost(parts[0], st);
        HeadIsLost(parts, st, r);
      }
    }
  }

  lemma HeadIsLost(parts: seq<Parts>, st: Basic, r: Outcome)
    requires parts != [] && r == Run(TERM, Build(parts[0]).identifier, st)
    requires r.Matched? ==> r.st.element != Build(parts[0])
    ensures ReadAll(Identifiers(parts), st) != Some(BuildAll(parts))
  {
    if r.Matched? {
      var rest := ReadAll(Identifiers(parts)[1..], r.st);
      if rest.Some? {
        assert ([r.st.element] + rest.value)[0] != BuildAll(parts)[0];
      }
    }
  }

  lemma TailReadsBack(parts: seq<Parts>, st: Basic, after: Basic)
    requires parts != [] && Run(TERM, Build(parts[0]).identifier, st).Matched?
    requires after == Run(TERM, Build(parts[0]).identifier, st).st && after.element == Build(parts[0])
    ensures ReadAll(Identifiers(parts), st) == Some(BuildAll(parts))
       <==> ReadAll(Identifiers(parts[1..]), after) == Some(BuildAll(parts[1..]))
  {
    assert Identifiers(parts)[1..] == Identifiers(parts[1..]);
    var rest := ReadAll(Identifiers(parts[1..]), after);
    if rest.Some? {
      assert ([after.element] + rest.value)[1..] == rest.value && BuildAll(parts)[1..] == BuildAll(parts[1..]);
    }
  }

  // ---- Identity of terms with legal parts.

  predicate NotQuote(c: char) { c != '"' }

  lemma EscapesHaveNoQuote()
    ensures Over(UCHAR_R, NotQuote)
  {
    OverChar('\\', NotQuote);
    OverChar('u', NotQuote);
    OverChar('U', NotQuote);
    OverLetter(IsHex, NotQuote);
    OverCat(HEX_R, HEX_R, NotQuote);
    OverCat(HEX_R, Cat(HEX_R, HEX_R), NotQuote);
    OverCat(HEX_R, Cat(HEX_R, Cat(HEX_R, HEX_R)), NotQuote);
    OverCat(HEX4_R, HEX4_R, NotQuote);
    OverCat(Char('u'), HEX4_R, NotQuote);
    OverCat(Char('U'), Cat(HEX4_R, HEX4_R), NotQuote);
    OverCat(Char('\\'), Cat(Char('u'), HEX4_R), NotQuote);
    OverCat(Char('\\'), Cat(Char('U'), Cat(HEX4_R, HEX4_R)), NotQuote);
    OverAlt(SHORT_UCHAR_R, LONG_UCHAR_R, NotQuote);
  }

  lemma IriHasNoQuote(iri: string)
    requires LegalIri(iri)
    ensures AllOf(iri, NotQuote)
  {
    EscapesHaveNoQuote();
    OverLetter(IsIriChar, NotQuote);
    OverAlt(Letter(IsIriChar), UCHAR_R, NotQuote);
    OverRep(IRI_PART_R, NotQuote);
    CharactersOf(Rep(IRI_PART_R), NotQuote, iri);
  }

  lemma LangHasNoQuote(lang: string)
    requires LegalLang(lang)
    ensures AllOf(lang, NotQuote)
  {
    OverLetter(IsAlpha, NotQuote);
    OverLetter(IsAlnum, NotQuote);
    OverChar('-', NotQuote);
    OverRep(Letter(IsAlpha), NotQuote);
    OverRep(Letter(IsAlnum), NotQuote);
    OverCat(Char('-'), Some1(Letter(IsAlnum)), NotQuote);
    OverRep(SUBTAG_R, NotQuote);
    OverCat(Some1(Letter(IsAlpha)), Rep(SUBTAG_R), NotQuote);
    CharactersOf(LANG_R, NotQuote, lang);
  }

  lemma LegalTagsHaveNoQuote(tag: Tag)
    requires LegalTag(tag)
    ensures '"' !in Suffix(tag)
  {
    match tag
    case Untagged =>
    case InLang(lang) =>
      LangHasNoQuote(lang);
      assert forall i :: 0 <= i < |lang| ==> NotQuote(lang[i]);
    case OfType(iri) =>
      IriHasNoQuote(iri);
      assert forall i :: 0 <= i < |iri| ==> NotQuote(iri[i]);
  }

  /** Among terms the grammar can write, equal identifiers mean equal kind, value, language and datatype. */
  lemma LegalTermsEqualExactly(a: Parts, b: Parts)
    requires Legal(a) && Legal(b)
    ensures Build(a).identifier == Build(b).identifier <==> Canonical(a) == Canonical(b)
  {
    if a.Text? {
      LegalTagsHaveNoQuote(a.tag);
    }
    if b.Text? {
      LegalTagsHaveNoQuote(b.tag);
    }
    SameIdentifierExactly(a, b);
  }
}
