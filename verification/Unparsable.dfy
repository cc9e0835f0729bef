/** For which texts reading a term throws, and for which it finds nothing: decided by the terminals alone. */
module Unparsable {
  import opened Terms
  import opened Peg
  import opened PegLaws
  import opened Names
  import opened Numbers
  import opened Tokens
  import opened TermRules
  import opened TermLaws
  import opened Abbreviations

  /** An IRI that is empty where a base is to be inserted, or a prefixed name whose prefix is not bound. */
  predicate IriThrows(s: string, st: Basic) {
    match Match(IRIREF, s)
    case Some(n) => st.base != "" && n <= 2
    case None =>
      match Match(PNAME, s)
      case Some(n) => BeforeColon(s[..n]) !in st.prefixes
      case None => false
  }

  predicate NoIri(s: string) {
    Match(IRIREF, s).None? && Match(PNAME, s).None?
  }

  /** Neither a literal nor a blank node begins the text. */
  predicate NoLiteralOrBlank(s: string) {
    && Match(TURTLE_STRING, s).None? && Match(NUMERIC, s).None? && Match(Else(TRUE, FALSE), s).None?
    && Match(BLANK_NODE_LABEL, s).None? && Match(ANON, s).None?
  }

  /** A string begins the text, and a type tag whose IRI throws comes right after it. */
  predicate TypeThrows(s: string, st: Basic) {
    match Match(TURTLE_STRING, s)
    case None => false
    case Some(n) => TagThrows(s[n..], st)
  }

  predicate TagThrows(s: string, st: Basic) {
    match Match(CARETS, s)
    case None => false
    case Some(n) => IriThrows(s[n..], st)
  }

  /** How a rule ends: it throws, or finds nothing and leaves the state alone, or leaves a term. */
  ghost predicate EndsAs(r: Outcome, st: Basic, throws: bool, misses: bool) {
    && (r.Thrown? <==> throws)
    && (r.Unmatched? <==> misses)
    && (r.Unmatched? ==> r.st == st)
    && (r.Matched? ==> r.st.element.nodeType != NoType)
  }

  lemma IriEnds(s: string, st: Basic)
    ensures EndsAs(Run(IRI, s, st), st, IriThrows(s, st), NoIri(s))
  {
    var byRef, byName := Do(OnIriRef, Plain(IRIREF)), Do(OnPrefixedName, Plain(PNAME));
    var n := Match(IRIREF, s);
    if n.Some? {
      DoPlain(OnIriRef, IRIREF, s, st, n.value);
      EitherPreferred(byRef, byName, s, st);
    } else {
      DoMisses(OnIriRef, IRIREF, s, st);
      EitherOther(byRef, byName, s, st);
      NameEnds(s, st);
    }
  }

  lemma NameEnds(s: string, st: Basic)
    ensures var n := Match(PNAME, s);
            EndsAs(Run(Do(OnPrefixedName, Plain(PNAME)), s, st), st,
                   n.Some? && BeforeColon(s[..n.value]) !in st.prefixes, n.None?)
  {
    var n := Match(PNAME, s);
    if n.Some? {
      DoPlain(OnPrefixedName, PNAME, s, st, n.value);
    } else {
      DoMisses(OnPrefixedName, PNAME, s, st);
    }
  }

  lemma TypeTagEnds(s: string, st: Basic)
    ensures Run(TYPE_TAG, s, st).Thrown? <==> TagThrows(s, st)
    ensures Run(TYPE_TAG, s, st).Unmatched? ==> Run(TYPE_TAG, s, st).st == st
  {
    var both := Both(Plain(CARETS), IRI);
    var n := Match(CARETS, s);
    if n.Some? {
      var rest := s[n.value..];
      PlainRuns(CARETS, s, st, n.value);
      IriEnds(rest, st);
      BothRun(Plain(CARETS), IRI, s, st, n.value, st, rest);
    } else {
      PlainMisses(CARETS, s, st);
      BothFails(Plain(CARETS), IRI, s, st);
    }
    var r := Run(both, s, st);
    if r.Matched? {
      DoRuns(OnTypeTag, both, s, st, r.length, r.st);
    } else {
      DoFails(OnTypeTag, both, s, st);
    }
  }

  /** A language tag and a type tag never begin the same text. */
  lemma TagsAreApart(s: string)
    ensures Match(LANGTAG, s).None? || Match(CARETS, s).None?
  {
    if StartsOther(s, '@') {
      OneThenMisses('@', Then(Plus(Class(IsAlpha)), Star(SUBTAG)), s);
    } else {
      OneThenMisses('^', One('^'), s);
    }
  }

  lemma TagEnds(s: string, st: Basic)
    ensures var r := Run(Perhaps(Either(LANG_TAG, TYPE_TAG)), s, st);
            !r.Unmatched? && (r.Thrown? <==> TagThrows(s, st))
  {
    TagsAreApart(s);
    TypeTagEnds(s, st);
    PerhapsRuns(Either(LANG_TAG, TYPE_TAG), s, st);
    var n := Match(LANGTAG, s);
    if n.Some? {
      DoPlain(OnLangTag, LANGTAG, s, st, n.value);
      EitherPreferred(LANG_TAG, TYPE_TAG, s, st);
    } else {
      DoMisses(OnLangTag, LANGTAG, s, st);
      EitherOther(LANG_TAG, TYPE_TAG, s, st);
    }
  }

  lemma RdfLiteralEnds(s: string, st: Basic)
    ensures EndsAs(Run(RDF_LITERAL, s, st), st, TypeThrows(s, st), Match(TURTLE_STRING, s).None?)
  {
    var tag := Perhaps(Either(LANG_TAG, TYPE_TAG));
    var n := Match(TURTLE_STRING, s);
    if n.Some? {
      var rest := s[n.value..];
      var mid := st.(literal := Inner(s[..n.value], 1, 1));
      DoPlain(OnString, TURTLE_STRING, s, st, n.value);
      TagEnds(rest, mid);
      BothRun(STRING, tag, s, st, n.value, mid, rest);
    } else {
      DoMisses(OnString, TURTLE_STRING, s, st);
      BothFails(STRING, tag, s, st);
    }
    var r := Run(Both(STRING, tag), s, st);
    if r.Matched? {
      DoRuns(OnRdfLiteral, Both(STRING, tag), s, st, r.length, r.st);
    } else {
      DoFails(OnRdfLiteral, Both(STRING, tag), s, st);
    }
  }

  lemma BooleanEnds(s: string, st: Basic)
    ensures EndsAs(Run(BOOLEAN_LITERAL, s, st), st, false, Match(Else(TRUE, FALSE), s).None?)
  {
    var n := Match(Else(TRUE, FALSE), s);
    if n.Some? {
      DoPlain(OnBoolean, Else(TRUE, FALSE), s, st, n.value);
    } else {
      DoMisses(OnBoolean, Else(TRUE, FALSE), s, st);
    }
  }

  lemma NumericEnds(s: string, st: Basic)
    ensures EndsAs(Run(NUMERIC_LITERAL, s, st), st, false, Match(NUMERIC, s).None?)
  {
    NumericLiteralRuns(s, st);
  }

  lemma BlankNodeEnds(s: string, st: Basic)
    ensures EndsAs(Run(BLANK_NODE, s, st), st, false, Match(BLANK_NODE_LABEL, s).None? && Match(ANON, s).None?)
  {
    var byLabel, byAnon := Do(OnBlankLabel, Plain(BLANK_NODE_LABEL)), Do(OnAnon, Plain(ANON));
    var n, k := Match(BLANK_NODE_LABEL, s), Match(ANON, s);
    if n.Some? {
      DoPlain(OnBlankLabel, BLANK_NODE_LABEL, s, st, n.value);
      EitherPreferred(byLabel, byAnon, s, st);
    } else {
      DoMisses(OnBlankLabel, BLANK_NODE_LABEL, s, st);
      EitherOther(byLabel, byAnon, s, st);
      if k.Some? {
        DoPlain(OnAnon, ANON, s, st, k.value);
      } else {
        DoMisses(OnAnon, ANON, s, st);
      }
    }
    var r := Run(Either(byLabel, byAnon), s, st);
    if r.Matched? {
      DoRuns(OnBlankNode, Either(byLabel, byAnon), s, st, r.length, r.st);
    } else {
      DoFails(OnBlankNode, Either(byLabel, byAnon), s, st);
    }
  }

  lemma EitherEnds(p: Rule, o: Rule, s: string, st: Basic, throws1: bool, misses1: bool, throws2: bool, misses2: bool)
    requires EndsAs(Run(p, s, st), st, throws1, misses1) && EndsAs(Run(o, s, st), st, throws2, misses2)
    ensures EndsAs(Run(Either(p, o), s, st), st, throws1 || (misses1 && throws2), misses1 && misses2)
  {
    if Run(p, s, st).Unmatched? {
      EitherOther(p, o, s, st);
    } else {
      EitherPreferred(p, o, s, st);
    }
  }

  /**
   Main result, in any state: reading a term throws exactly if a string is followed by a type tag whose IRI throws, or
   no literal and no blank node begins the text and its IRI throws; it finds nothing exactly if no terminal begins it.
   */
  lemma TermEndsExactly(s: string, st: Basic)
    ensures EndsAs(Run(TERM, s, st), st, TypeThrows(s, st) || (NoLiteralOrBlank(s) && IriThrows(s, st)),
                   NoLiteralOrBlank(s) && NoIri(s))
  {
    RdfLiteralEnds(s, st);
    NumericEnds(s, st);
    BooleanEnds(s, st);
    BlankNodeEnds(s, st);
    IriEnds(s, st);
    var number, boolean := Match(NUMERIC, s).None?, Match(Else(TRUE, FALSE), s).None?;
    var blank := Match(BLANK_NODE_LABEL, s).None? && Match(ANON, s).None?;
    EitherEnds(NUMERIC_LITERAL, BOOLEAN_LITERAL, s, st, false, number, false, boolean);
    EitherEnds(RDF_LITERAL, Either(NUMERIC_LITERAL, BOOLEAN_LITERAL), s, st,
               TypeThrows(s, st), Match(TURTLE_STRING, s).None?, false, number && boolean);
    EitherEnds(BLANK_NODE, IRI, s, st, false, blank, IriThrows(s, st), NoIri(s));
    EitherEnds(LITERAL, Either(BLANK_NODE, IRI), s, st, TypeThrows(s, st),
               Match(TURTLE_STRING, s).None? && number && boolean, blank && IriThrows(s, st), blank && NoIri(s));
  }

  // ---- From a fresh state, which binds no prefix and has no base.

  /** A prefixed name, and no IRI in brackets, begins the text. */
  predicate StartsWithName(s: string) {
    Match(IRIREF, s).None? && Match(PNAME, s).Some?
  }

  /** The texts that are refused: a prefixed name, alone or as the datatype of a string. */
  predicate Refused(s: string) {
    || (NoLiteralOrBlank(s) && StartsWithName(s))
    || (Match(TURTLE_STRING, s).Some? && NamedTag(s[Match(TURTLE_STRING, s).value..]))
  }

  predicate NamedTag(s: string) {
    Match(CARETS, s).Some? && StartsWithName(s[Match(CARETS, s).value..])
  }

  /** The texts in which nothing is found, so that the default term comes back. */
  predicate NothingFound(s: string) {
    NoLiteralOrBlank(s) && NoIri(s)
  }

  /** Main result: parsing a term from a fresh state throws exactly for a prefixed name, alone or as a datatype. */
  lemma RefusedExactly(s: string)
    ensures ParsedTerm(s).None? <==> Refused(s)
  {
    TermEndsExactly(s, INITIAL);
  }

  /** And it gives the default term exactly if no term begins the text: such a text is not refused. */
  lemma NothingFoundExactly(s: string)
    ensures ParsedTerm(s) == Some(NO_TERM) <==> NothingFound(s)
  {
    TermEndsExactly(s, INITIAL);
  }

  lemma NoNameBegins(s: string)
    requires s != [] && !IsPnCharsBase(s[0]) && s[0] != ':'
    ensures Match(PNAME, s).None?
  {
    assert Match(PN_CHARS_BASE, s).None?;
    assert Match(PN_PREFIX, s).None?;
    ElseFrom(PN_PREFIX, Empty, s);
    TakeAll(s);
    ThenFrom(Opt(PN_PREFIX), One(':'), s, 0);
    OneReads(':', s);
    ElseFrom(PNAME_LN, PNAME_NS, s);
  }

  /** Witness: a text that is no term is accepted all the same, and gives the default term. */
  lemma GarbageIsAccepted(rest: string)
    ensures ParsedTerm("!" + rest) == Some(NO_TERM)
  {
    var s := "!" + rest;
    StringMisses(s);
    NumbersMiss(s);
    ElseFrom(DOUBLE, Else(DECIMAL, INTEGER), s);
    ElseFrom(DECIMAL, INTEGER, s);
    BooleansMiss(s);
    OneThenMisses('_', Then(One(':'), Then(LABEL_HEAD, TailRule(PN_CHARS, false))), s);
    OneThenMisses('[', Then(Star(Class(IsAnonSpace)), One(']')), s);
    OneThenMisses('<', Then(Star(IRI_PART), One('>')), s);
    NoNameBegins(s);
    NothingFoundExactly(s);
  }
}
