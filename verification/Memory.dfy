/** What one term leaves behind for the next: bindings and the label counter, and nothing else that is ever read. */
module Memory {
  import opened Terms
  import opened Peg
  import opened Names
  import opened Numbers
  import opened Tokens
  import opened TermRules
  import opened TermLaws
  import opened RoundTrip

  /** What is meant to carry over from term to term. */
  predicate SameContext(a: Basic, b: Basic) {
    a.base == b.base && a.prefixes == b.prefixes && a.next == b.next
  }

  /** The rule ends the same way after the same length. */
  predicate SameEnd(r: Outcome, q: Outcome) {
    match r
    case Matched(n, _) => q.Matched? && q.length == n
    case Unmatched(_) => q.Unmatched?
    case Thrown => q.Thrown?
  }

  predicate Untouched(r: Outcome, st: Basic) {
    r.Unmatched? ==> r.st == st
  }

  lemma IriAlike(s: string, a: Basic, b: Basic)
    requires SameContext(a, b)
    ensures var r, q := Run(IRI, s, a), Run(IRI, s, b);
            && SameEnd(r, q) && Untouched(r, a) && Untouched(q, b)
            && (r.Matched? ==>
                && r.st == a.(element := r.st.element, tags := a.tags.(isIriRef := r.st.tags.isIriRef))
                && q.st == b.(element := r.st.element, tags := b.tags.(isIriRef := r.st.tags.isIriRef)))
  {
    var byRef, byName := Do(OnIriRef, Plain(IRIREF)), Do(OnPrefixedName, Plain(PNAME));
    var n := Match(IRIREF, s);
    if n.Some? {
      DoPlain(OnIriRef, IRIREF, s, a, n.value);
      DoPlain(OnIriRef, IRIREF, s, b, n.value);
      EitherPreferred(byRef, byName, s, a);
      EitherPreferred(byRef, byName, s, b);
    } else {
      DoMisses(OnIriRef, IRIREF, s, a);
      DoMisses(OnIriRef, IRIREF, s, b);
      EitherOther(byRef, byName, s, a);
      EitherOther(byRef, byName, s, b);
      NameAlike(s, a, b);
    }
  }

  lemma NameAlike(s: string, a: Basic, b: Basic)
    requires SameContext(a, b)
    ensures var r, q := Run(Do(OnPrefixedName, Plain(PNAME)), s, a), Run(Do(OnPrefixedName, Plain(PNAME)), s, b);
            && SameEnd(r, q) && Untouched(r, a) && Untouched(q, b)
            && (r.Matched? ==>
                && r.st == a.(element := r.st.element, tags := a.tags.(isIriRef := false))
                && q.st == b.(element := r.st.element, tags := b.tags.(isIriRef := false)))
  {
  }

  lemma CaretsAlike(s: string, a: Basic, b: Basic)
    requires SameContext(a, b)
    ensures var both := Both(Plain(CARETS), IRI);
            var r, q := Run(both, s, a), Run(both, s, b);
            && SameEnd(r, q) && Untouched(r, a) && Untouched(q, b)
            && (r.Matched? ==>
                && r.st == a.(element := r.st.element, tags := a.tags.(isIriRef := r.st.tags.isIriRef))
                && q.st == b.(element := r.st.element, tags := b.tags.(isIriRef := r.st.tags.isIriRef)))
  {
    var n := Match(CARETS, s);
    if n.Some? {
      var rest := s[n.value..];
      PlainRuns(CARETS, s, a, n.value);
      PlainRuns(CARETS, s, b, n.value);
      IriAlike(rest, a, b);
      BothRun(Plain(CARETS), IRI, s, a, n.value, a, rest);
      BothRun(Plain(CARETS), IRI, s, b, n.value, b, rest);
    } else {
      PlainMisses(CARETS, s, a);
      PlainMisses(CARETS, s, b);
      BothFails(Plain(CARETS), IRI, s, a);
      BothFails(Plain(CARETS), IRI, s, b);
    }
  }

  /** The two states hold the same text, and whichever tag is pending reads the same in both. */
  predicate SamePending(a: Basic, b: Basic) {
    && SameContext(a, b) && a.literal == b.literal
    && a.tags.typeFound == b.tags.typeFound && a.tags.langFound == b.tags.langFound
    && !(a.tags.typeFound && a.tags.langFound)
    && (a.tags.typeFound ==> a.tags.typeTag == b.tags.typeTag && a.tags.isIriRef == b.tags.isIriRef)
    && (a.tags.langFound ==> a.tags.langTag == b.tags.langTag)
  }

  lemma TypeTagAlike(s: string, a: Basic, b: Basic)
    requires SamePending(a, b) && Clear(a)
    ensures var r, q := Run(TYPE_TAG, s, a), Run(TYPE_TAG, s, b);
            && SameEnd(r, q) && Untouched(r, a) && Untouched(q, b)
            && (r.Matched? ==> SamePending(r.st, q.st))
  {
    var both := Both(Plain(CARETS), IRI);
    CaretsAlike(s, a, b);
    var r, q := Run(both, s, a), Run(both, s, b);
    if r.Matched? {
      DoRuns(OnTypeTag, both, s, a, r.length, r.st);
      DoRuns(OnTypeTag, both, s, b, q.length, q.st);
    } else {
      DoFails(OnTypeTag, both, s, a);
      DoFails(OnTypeTag, both, s, b);
    }
  }

  lemma LangTagAlike(s: string, a: Basic, b: Basic)
    requires SamePending(a, b) && Clear(a)
    ensures var r, q := Run(LANG_TAG, s, a), Run(LANG_TAG, s, b);
            && SameEnd(r, q) && Untouched(r, a) && Untouched(q, b)
            && (r.Matched? ==> SamePending(r.st, q.st))
  {
  }

  lemma TagAlike(s: string, a: Basic, b: Basic)
    requires SamePending(a, b) && Clear(a)
    ensures var tag := Perhaps(Either(LANG_TAG, TYPE_TAG));
            var r, q := Run(tag, s, a), Run(tag, s, b);
            SameEnd(r, q) && !r.Unmatched? && (r.Matched? ==> SamePending(r.st, q.st))
  {
    LangTagAlike(s, a, b);
    TypeTagAlike(s, a, b);
    if Run(LANG_TAG, s, a).Unmatched? {
      EitherOther(LANG_TAG, TYPE_TAG, s, a);
      EitherOther(LANG_TAG, TYPE_TAG, s, b);
    } else {
      EitherPreferred(LANG_TAG, TYPE_TAG, s, a);
      EitherPreferred(LANG_TAG, TYPE_TAG, s, b);
    }
    PerhapsRuns(Either(LANG_TAG, TYPE_TAG), s, a);
    PerhapsRuns(Either(LANG_TAG, TYPE_TAG), s, b);
  }

  /** What a reader of terms sees: the end, the element where there is one, and the context; no tag is left waiting. */
  predicate SameReading(r: Outcome, q: Outcome) {
    match r
    case Matched(n, x) =>
      q.Matched? && q.length == n && x.element == q.st.element && SameContext(x, q.st) && Clear(x) && Clear(q.st)
    case Unmatched(x) => q.Unmatched? && SameContext(x, q.st) && Clear(x) && Clear(q.st)
    case Thrown => q.Thrown?
  }

  lemma PendingIsUsed(a: Basic, b: Basic)
    requires SamePending(a, b)
    ensures var x, y := LiteralElement(a), LiteralElement(b);
            x.element == y.element && SameContext(x, y) && Clear(x) && Clear(y)
  {
  }

  lemma StringAlike(s: string, a: Basic, b: Basic)
    requires SameContext(a, b) && Clear(a) && Clear(b)
    ensures var r, q := Run(STRING, s, a), Run(STRING, s, b);
            && SameEnd(r, q) && !r.Thrown? && Untouched(r, a) && Untouched(q, b)
            && (r.Matched? ==> SamePending(r.st, q.st) && Clear(r.st))
  {
  }

  lemma TaggedAlike(s: string, a: Basic, b: Basic)
    requires SameContext(a, b) && Clear(a) && Clear(b)
    ensures var text := Both(STRING, Perhaps(Either(LANG_TAG, TYPE_TAG)));
            var r, q := Run(text, s, a), Run(text, s, b);
            && SameEnd(r, q) && Untouched(r, a) && Untouched(q, b)
            && (r.Matched? ==> SamePending(r.st, q.st))
  {
    var tag := Perhaps(Either(LANG_TAG, TYPE_TAG));
    StringAlike(s, a, b);
    var r, q := Run(STRING, s, a), Run(STRING, s, b);
    if r.Matched? {
      var rest := s[r.length..];
      TagAlike(rest, r.st, q.st);
      BothRun(STRING, tag, s, a, r.length, r.st, rest);
      BothRun(STRING, tag, s, b, q.length, q.st, rest);
    } else {
      BothFails(STRING, tag, s, a);
      BothFails(STRING, tag, s, b);
    }
  }

  lemma RdfLiteralAlike(s: string, a: Basic, b: Basic)
    requires SameContext(a, b) && Clear(a) && Clear(b)
    ensures var r, q := Run(RDF_LITERAL, s, a), Run(RDF_LITERAL, s, b);
            SameReading(r, q) && Untouched(r, a) && Untouched(q, b)
  {
    var text := Both(STRING, Perhaps(Either(LANG_TAG, TYPE_TAG)));
    TaggedAlike(s, a, b);
    var r, q := Run(text, s, a), Run(text, s, b);
    if r.Matched? {
      PendingIsUsed(r.st, q.st);
      DoRuns(OnRdfLiteral, text, s, a, r.length, r.st);
      DoRuns(OnRdfLiteral, text, s, b, q.length, q.st);
    } else {
      DoFails(OnRdfLiteral, text, s, a);
      DoFails(OnRdfLiteral, text, s, b);
    }
  }

  /** A choice whose parts read alike, and leave the state alone when they do not match, reads alike. */
  lemma EitherAlike(p: Rule, o: Rule, s: string, a: Basic, b: Basic)
    requires SameReading(Run(p, s, a), Run(p, s, b)) && Untouched(Run(p, s, a), a) && Untouched(Run(p, s, b), b)
    requires SameReading(Run(o, s, a), Run(o, s, b)) && Untouched(Run(o, s, a), a) && Untouched(Run(o, s, b), b)
    ensures var r, q := Run(Either(p, o), s, a), Run(Either(p, o), s, b);
            SameReading(r, q) && Untouched(r, a) && Untouched(q, b)
  {
  }

  /** The rules of numbers set only the type tag, and to the same value. */
  lemma NumberClassAlike(action: Action, peg: Peg, s: string, a: Basic, b: Basic)
    requires action == OnDouble || action == OnDecimal || action == OnInteger
    ensures var r, q := Run(Do(action, Plain(peg)), s, a), Run(Do(action, Plain(peg)), s, b);
            && SameEnd(r, q) && Untouched(r, a) && Untouched(q, b)
            && (r.Matched? ==>
                && r.st == a.(tags := a.tags.(typeTag := r.st.tags.typeTag))
                && q.st == b.(tags := b.tags.(typeTag := r.st.tags.typeTag)))
  {
  }

  const DOUBLE_RULE := Do(OnDouble, Plain(DOUBLE))
  const DECIMAL_RULE := Do(OnDecimal, Plain(DECIMAL))
  const INTEGER_RULE := Do(OnInteger, Plain(INTEGER))

  lemma NumberAlike(s: string, a: Basic, b: Basic)
    ensures var number := Either(DOUBLE_RULE, Either(DECIMAL_RULE, INTEGER_RULE));
            var r, q := Run(number, s, a), Run(number, s, b);
            && SameEnd(r, q) && Untouched(r, a) && Untouched(q, b)
            && (r.Matched? ==>
                && r.st == a.(tags := a.tags.(typeTag := r.st.tags.typeTag))
                && q.st == b.(tags := b.tags.(typeTag := r.st.tags.typeTag)))
  {
    var fewer := Either(DECIMAL_RULE, INTEGER_RULE);
    NumberClassAlike(OnDouble, DOUBLE, s, a, b);
    NumberClassAlike(OnDecimal, DECIMAL, s, a, b);
    NumberClassAlike(OnInteger, INTEGER, s, a, b);
    if Run(DECIMAL_RULE, s, a).Unmatched? {
      EitherOther(DECIMAL_RULE, INTEGER_RULE, s, a);
      EitherOther(DECIMAL_RULE, INTEGER_RULE, s, b);
    } else {
      EitherPreferred(DECIMAL_RULE, INTEGER_RULE, s, a);
      EitherPreferred(DECIMAL_RULE, INTEGER_RULE, s, b);
    }
    if Run(DOUBLE_RULE, s, a).Unmatched? {
      EitherOther(DOUBLE_RULE, fewer, s, a);
      EitherOther(DOUBLE_RULE, fewer, s, b);
    } else {
      EitherPreferred(DOUBLE_RULE, fewer, s, a);
      EitherPreferred(DOUBLE_RULE, fewer, s, b);
    }
  }

  lemma NumericLiteralAlike(s: string, a: Basic, b: Basic)
    requires SameContext(a, b) && Clear(a) && Clear(b)
    ensures var r, q := Run(NUMERIC_LITERAL, s, a), Run(NUMERIC_LITERAL, s, b);
            SameReading(r, q) && Untouched(r, a) && Untouched(q, b)
  {
    var number := Either(DOUBLE_RULE, Either(DECIMAL_RULE, INTEGER_RULE));
    NumberAlike(s, a, b);
    var r, q := Run(number, s, a), Run(number, s, b);
    if r.Matched? {
      DoRuns(OnNumeric, number, s, a, r.length, r.st);
      DoRuns(OnNumeric, number, s, b, q.length, q.st);
    } else {
      DoFails(OnNumeric, number, s, a);
      DoFails(OnNumeric, number, s, b);
    }
  }

  lemma BooleanAlike(s: string, a: Basic, b: Basic)
    requires SameContext(a, b) && Clear(a) && Clear(b)
    ensures var r, q := Run(BOOLEAN_LITERAL, s, a), Run(BOOLEAN_LITERAL, s, b);
            SameReading(r, q) && Untouched(r, a) && Untouched(q, b)
  {
  }

  /** The two ways to name a blank node set its name to the same text, and move the counter alike. */
  lemma BlankNameAlike(action: Action, peg: Peg, s: string, a: Basic, b: Basic)
    requires action == OnBlankLabel || action == OnAnon
    requires SameContext(a, b) && Clear(a) && Clear(b)
    ensures var r, q := Run(Do(action, Plain(peg)), s, a), Run(Do(action, Plain(peg)), s, b);
            && SameEnd(r, q) && !r.Thrown? && Untouched(r, a) && Untouched(q, b)
            && (r.Matched? ==>
                r.st.blankNode == q.st.blankNode && SameContext(r.st, q.st) && Clear(r.st) && Clear(q.st))
  {
  }

  const BY_LABEL := Do(OnBlankLabel, Plain(BLANK_NODE_LABEL))
  const BY_ANON := Do(OnAnon, Plain(ANON))

  lemma BlankChoiceAlike(s: string, a: Basic, b: Basic)
    requires SameContext(a, b) && Clear(a) && Clear(b)
    ensures var r, q := Run(Either(BY_LABEL, BY_ANON), s, a), Run(Either(BY_LABEL, BY_ANON), s, b);
            && SameEnd(r, q) && !r.Thrown? && Untouched(r, a) && Untouched(q, b)
            && (r.Matched? ==>
                r.st.blankNode == q.st.blankNode && SameContext(r.st, q.st) && Clear(r.st) && Clear(q.st))
  {
    BlankNameAlike(OnBlankLabel, BLANK_NODE_LABEL, s, a, b);
    BlankNameAlike(OnAnon, ANON, s, a, b);
    if Run(BY_LABEL, s, a).Unmatched? {
      EitherOther(BY_LABEL, BY_ANON, s, a);
      EitherOther(BY_LABEL, BY_ANON, s, b);
    } else {
      EitherPreferred(BY_LABEL, BY_ANON, s, a);
      EitherPreferred(BY_LABEL, BY_ANON, s, b);
    }
  }

  lemma BlankNodeAlike(s: string, a: Basic, b: Basic)
    requires SameContext(a, b) && Clear(a) && Clear(b)
    ensures var r, q := Run(BLANK_NODE, s, a), Run(BLANK_NODE, s, b);
            SameReading(r, q) && Untouched(r, a) && Untouched(q, b)
  {
    var named := Either(BY_LABEL, BY_ANON);
    BlankChoiceAlike(s, a, b);
    var r, q := Run(named, s, a), Run(named, s, b);
    if r.Matched? {
      DoRuns(OnBlankNode, named, s, a, r.length, r.st);
      DoRuns(OnBlankNode, named, s, b, q.length, q.st);
    } else {
      DoFails(OnBlankNode, named, s, a);
      DoFails(OnBlankNode, named, s, b);
    }
  }

  /**
   Main law: how a term reads depends on the text, the bindings and the label counter only, whatever terms came
   before; and afterwards no tag is left waiting.
   */
  lemma HistoryDoesNotMatter(s: string, a: Basic, b: Basic)
    requires SameContext(a, b) && Clear(a) && Clear(b)
    ensures SameReading(Run(TERM, s, a), Run(TERM, s, b))
  {
    RdfLiteralAlike(s, a, b);
    NumericLiteralAlike(s, a, b);
    BooleanAlike(s, a, b);
    BlankNodeAlike(s, a, b);
    IriAlike(s, a, b);
    EitherAlike(NUMERIC_LITERAL, BOOLEAN_LITERAL, s, a, b);
    EitherAlike(RDF_LITERAL, Either(NUMERIC_LITERAL, BOOLEAN_LITERAL), s, a, b);
    EitherAlike(BLANK_NODE, IRI, s, a, b);
    EitherAlike(LITERAL, Either(BLANK_NODE, IRI), s, a, b);
  }

  /** A state in which nothing has been read yet, with the same bindings and counter. */
  function Renewed(st: Basic): Basic {
    INITIAL.(next := st.next, base := st.base, prefixes := st.prefixes)
  }

  /** Terms read with everything but bindings and counter forgotten before each. */
  function ReadEachAlone(texts: seq<string>, st: Basic): Option<seq<Term>> {
    if texts == [] then Some([])
    else
      var r := Run(TERM, texts[0], Renewed(st));
      if !r.Matched? then None
      else
        var rest := ReadEachAlone(texts[1..], r.st);
        if rest.None? then None else Some([r.st.element] + rest.value)
  }

  /** Over any sequence of texts, reading through one state gives what reading each afresh gives. */
  lemma {:induction false} NoTagLeaks(texts: seq<string>, a: Basic, b: Basic)
    requires SameContext(a, b) && Clear(a)
    ensures ReadAll(texts, a) == ReadEachAlone(texts, b)
    decreases |texts|
  {
    if texts != [] {
      HistoryDoesNotMatter(texts[0], a, Renewed(b));
      var r, q := Run(TERM, texts[0], a), Run(TERM, texts[0], Renewed(b));
      if r.Matched? {
        NoTagLeaks(texts[1..], r.st, q.st);
      }
    }
  }
}
