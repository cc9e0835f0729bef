/** Datatypes given as prefixed names: read whole, split at the first colon, and stored as the IRI they stand for. */
module PrefixedTypes {
  import opened Terms
  import opened Peg
  import opened PegLaws
  import opened Names
  import opened Numbers
  import opened Tokens
  import opened TermRules
  import opened TermLaws
  import opened Identity
  import opened RoundTrip
  import opened Abbreviations

  /** The parts of a prefixed name; either may be empty. */
  ghost predicate LegalName(prefix: string, local: string) {
    (prefix == "" || Matches(PN_PREFIX_R, prefix)) && (local == "" || Matches(PN_LOCAL_R, local))
  }

  predicate NotColon(c: char) { c != ':' }

  lemma PrefixHasNoColon(prefix: string)
    requires prefix == "" || Matches(PN_PREFIX_R, prefix)
    ensures AllOf(prefix, NotColon)
  {
    OverLetter(IsPnCharsBase, NotColon);
    OverLetter(IsPnChars, NotColon);
    OverChar('.', NotColon);
    OverAlt(PN_CHARS_R, Char('.'), NotColon);
    OverRep(NAME_BODY_R, NotColon);
    OverCat(Rep(NAME_BODY_R), PN_CHARS_R, NotColon);
    OverRep(Cat(Rep(NAME_BODY_R), PN_CHARS_R), NotColon);
    OverCat(Letter(IsPnCharsBase), Maybe(Cat(Rep(NAME_BODY_R), PN_CHARS_R)), NotColon);
    if prefix != "" {
      CharactersOf(PN_PREFIX_R, NotColon, prefix);
    }
  }

  lemma PrefixReads(prefix: string, w: string)
    requires prefix == "" || Matches(PN_PREFIX_R, prefix)
    ensures Match(Opt(PN_PREFIX), prefix + ":" + w) == Some(|prefix|)
  {
    var s := prefix + ":" + w;
    PnPrefixIsLongest(s);
    assert s[..|prefix|] == prefix && s[|prefix|] == ':';
    ElseFrom(PN_PREFIX, Empty, s);
    var n := Match(PN_PREFIX, s);
    if n.Some? {
      PrefixHasNoColon(s[..n.value]);
      if n.value > |prefix| {
        ColonIn(s[..n.value], |prefix|);
      }
    }
  }

  lemma ColonIn(s: string, i: nat)
    requires i < |s| && s[i] == ':'
    ensures !AllOf(s, NotColon)
  {
  }

  lemma NameSpaceReads(prefix: string, w: string)
    requires prefix == "" || Matches(PN_PREFIX_R, prefix)
    ensures Match(PNAME_NS, prefix + ":" + w) == Some(|prefix| + 1)
  {
    PrefixReads(prefix, w);
    assert (prefix + ":" + w)[|prefix|] == ':';
    ThenOne(Opt(PN_PREFIX), ':', prefix + ":" + w, |prefix|);
  }

  lemma LocalReads(local: string)
    requires local == "" || Matches(PN_LOCAL_R, local)
    ensures local != "" ==> Match(PN_LOCAL, local) == Some(|local|)
    ensures local == "" ==> Match(PN_LOCAL, local).None?
  {
    if local == "" {
      LocalHeadToken();
      assert TokenAt(LOCAL_HEAD, LOCAL_HEAD_R, local);
    } else {
      PnLocalIsLongest(local);
      LongestReadsAll(PN_LOCAL, PN_LOCAL_R, local);
    }
  }

  lemma NameReads(prefix: string, local: string)
    requires LegalName(prefix, local)
    ensures Match(PNAME, prefix + ":" + local) == Some(|prefix| + 1 + |local|)
  {
    var s := prefix + ":" + local;
    NameSpaceReads(prefix, local);
    LocalReads(local);
    assert s[|prefix| + 1..] == local;
    ThenFrom(PNAME_NS, PN_LOCAL, s, |prefix| + 1);
    ElseFrom(PNAME_LN, PNAME_NS, s);
  }

  /** The first colon ends the prefix. */
  lemma NameSplits(prefix: string, local: string)
    requires AllOf(prefix, NotColon)
    ensures var s := prefix + ":" + local;
            BeforeColon(s) == prefix && AfterColon(s) == local
  {
    ColonAt(prefix, local);
  }

  lemma {:induction false} ColonAt(prefix: string, local: string)
    requires AllOf(prefix, NotColon)
    ensures IndexOf(prefix + ":" + local, ':') == |prefix|
  {
    var s := prefix + ":" + local;
    if prefix != "" {
      ColonAt(prefix[1..], local);
      assert s[1..] == prefix[1..] + ":" + local;
      assert NotColon(prefix[0]) && s[0] == prefix[0];
    }
  }

  lemma NameIsNotIri(prefix: string, local: string)
    requires LegalName(prefix, local)
    ensures StartsOther(prefix + ":" + local, '<')
  {
    if prefix != "" {
      var k := CatElim(Letter(IsPnCharsBase), Maybe(Cat(Rep(NAME_BODY_R), PN_CHARS_R)), prefix);
      assert IsPnCharsBase(prefix[..k][0]);
    }
  }

  lemma NameRuns(prefix: string, local: string, st: Basic)
    requires LegalName(prefix, local) && prefix in st.prefixes
    ensures var s := prefix + ":" + local;
            && Run(IRI, s, st)
               == Matched(|s|, st.(element := URIRef(st.prefixes[prefix] + local), tags := st.tags.(isIriRef := false)))
  {
    var s := prefix + ":" + local;
    NameIsNotIri(prefix, local);
    OneThenMisses('<', Then(Star(IRI_PART), One('>')), s);
    DoMisses(OnIriRef, IRIREF, s, st);
    EitherOther(Do(OnIriRef, Plain(IRIREF)), Do(OnPrefixedName, Plain(PNAME)), s, st);
    NameReads(prefix, local);
    PrefixHasNoColon(prefix);
    NameSplits(prefix, local);
    NameApplied(s, st, prefix, local);
  }

  lemma NameApplied(s: string, st: Basic, prefix: string, local: string)
    requires Match(PNAME, s) == Some(|s|) && BeforeColon(s) == prefix && AfterColon(s) == local && prefix in st.prefixes
    ensures Run(Do(OnPrefixedName, Plain(PNAME)), s, st)
         == Matched(|s|, st.(element := URIRef(st.prefixes[prefix] + local), tags := st.tags.(isIriRef := false)))
  {
    assert s[..|s|] == s;
    DoPlain(OnPrefixedName, PNAME, s, st, |s|);
  }

  /** The state just after a type tag that is a prefixed name: the tag itself is not expanded yet. */
  function AfterNameTag(name: string, iri: string, st: Basic): Basic {
    st.(element := URIRef(iri), tags := st.tags.(isIriRef := false, typeFound := true, typeTag := name))
  }

  lemma NameTagRuns(prefix: string, local: string, st: Basic)
    requires LegalName(prefix, local) && prefix in st.prefixes
    ensures var name := prefix + ":" + local;
            Run(TYPE_TAG, "^^" + name, st) == Matched(|name| + 2, AfterNameTag(name, st.prefixes[prefix] + local, st))
  {
    var name := prefix + ":" + local;
    NameRuns(prefix, local, st);
    NameTagApplied(name, st, st.prefixes[prefix] + local);
  }

  lemma NameTagApplied(name: string, st: Basic, iri: string)
    requires Run(IRI, name, st) == Matched(|name|, st.(element := URIRef(iri), tags := st.tags.(isIriRef := false)))
    ensures Run(TYPE_TAG, "^^" + name, st) == Matched(|name| + 2, AfterNameTag(name, iri, st))
  {
    var s := "^^" + name;
    assert s[2..] == name;
    CaretsRead(name);
    PlainRuns(CARETS, s, st, 2);
    BothRun(Plain(CARETS), IRI, s, st, 2, st, name);
    assert s[..|name| + 2] == s && s[2..|s| - 0] == name;
    DoRuns(OnTypeTag, Both(Plain(CARETS), IRI), s, st, |name| + 2,
           st.(element := URIRef(iri), tags := st.tags.(isIriRef := false)));
  }

  lemma NameTagIsPending(name: string, tag: string, st: Basic, after: Basic)
    requires tag == "^^" + name && Run(TYPE_TAG, tag, st) == Matched(|tag|, after)
    ensures Run(Perhaps(Either(LANG_TAG, TYPE_TAG)), tag, st) == Matched(|tag|, after)
  {
    LangTagMisses(tag, st);
    EitherOther(LANG_TAG, TYPE_TAG, tag, st);
    PerhapsRuns(Either(LANG_TAG, TYPE_TAG), tag, st);
  }

  lemma ExpansionIs(name: string, prefix: string, local: string, value: string, st: Basic)
    requires BeforeColon(name) == prefix && AfterColon(name) == local && prefix in st.prefixes
    ensures var iri := st.prefixes[prefix] + local;
            LiteralElement(AfterNameTag(name, iri, st.(literal := value))).element == Literal(value, None, Some(iri))
  {
  }

  function NamedTypeText(value: string, prefix: string, local: string): string {
    "\"" + value + "\"" + ("^^" + (prefix + ":" + local))
  }

  /** A datatype given as a prefixed name is stored as the IRI it stands for. */
  lemma NamedTypeRuns(value: string, prefix: string, local: string, st: Basic)
    requires LegalValue(value) && LegalName(prefix, local) && prefix in st.prefixes
    ensures var s := NamedTypeText(value, prefix, local);
            var r := Run(TERM, s, st);
            r.Matched? && r.length == |s| && r.st.element == Literal(value, None, Some(st.prefixes[prefix] + local))
  {
    var name := prefix + ":" + local;
    var tag := "^^" + name;
    var mid := st.(literal := value);
    var after := AfterNameTag(name, st.prefixes[prefix] + local, mid);
    NameTagRuns(prefix, local, mid);
    NameTagIsPending(name, tag, mid, after);
    LiteralRunsWith(value, tag, st, after);
    PrefixHasNoColon(prefix);
    NameSplits(prefix, local);
    ExpansionIs(name, prefix, local, value, st);
  }

  /**
   So it reads the same as the expanded IRI in brackets, wherever that can be written: under a base too, unless the
   IRI is empty, when the brackets throw and the name does not.
   */
  lemma NamedTypeAbbreviates(value: string, prefix: string, local: string, st: Basic)
    requires LegalValue(value) && LegalName(prefix, local) && prefix in st.prefixes && Clear(st)
    requires LegalIri(st.prefixes[prefix] + local)
    ensures var r := Run(TERM, NamedTypeText(value, prefix, local), st);
            var q := Run(TERM, TypedText(value, st.prefixes[prefix] + local), st);
            && r.Matched?
            && (q.Matched? && r.st.element == q.st.element <==> st.base == "" || st.prefixes[prefix] + local != "")
  {
    var iri := st.prefixes[prefix] + local;
    NamedTypeRuns(value, prefix, local, st);
    TypedTextIs(value, iri);
    LiteralTermRuns(value, OfType(iri), st);
    AfterLiteralIs(value, OfType(iri), st);
  }

  // ---- Prefixes declared one after the other.

  type Binding = (string, string)

  function BindAll(prefixes: map<string, string>, bindings: seq<Binding>): map<string, string> {
    if bindings == [] then prefixes
    else Bind(BindAll(prefixes, bindings[..|bindings| - 1]), bindings[|bindings| - 1].0, bindings[|bindings| - 1].1)
  }

  /** Main result: over any declarations a prefix has the value of its first one, and no other prefix is bound. */
  lemma {:induction false} FirstBindingStays(bindings: seq<Binding>, prefix: string)
    ensures prefix in BindAll(map[], bindings) <==> exists i :: 0 <= i < |bindings| && bindings[i].0 == prefix
    ensures forall i :: 0 <= i < |bindings| && bindings[i].0 == prefix
                        && (forall j :: 0 <= j < i ==> bindings[j].0 != prefix)
                        ==> BindAll(map[], bindings)[prefix] == bindings[i].1
  {
    if bindings != [] {
      var before := bindings[..|bindings| - 1];
      FirstBindingStays(before, prefix);
      assert forall j :: 0 <= j < |before| ==> before[j] == bindings[j];
    }
  }
}
