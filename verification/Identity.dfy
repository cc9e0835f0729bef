/** The identifier of a term as its identity: what two terms with equal identifiers have in common. */
module Identity {
  import opened Terms

  datatype Tag = Untagged | InLang(lang: string) | OfType(iri: string)

  /** What a term is made of. */
  datatype Parts = Iri(uri: string) | Blank(name: string) | Text(value: string, tag: Tag)

  function Build(parts: Parts): Term {
    match parts
    case Iri(uri) => URIRef(uri)
    case Blank(name) => BNode(name)
    case Text(value, Untagged) => Literal(value, None, None)
    case Text(value, InLang(lang)) => Literal(value, Some(lang), None)
    case Text(value, OfType(iri)) => Literal(value, None, Some(iri))
  }

  /** xsd:string counts as no datatype. */
  function Canonical(parts: Parts): Parts {
    if parts.Text? && parts.tag == OfType(XSD_STRING) then Text(parts.value, Untagged) else parts
  }

  function Kind(parts: Parts): NodeType {
    match parts
    case Iri(_) => URIRefType
    case Blank(_) => BNodeType
    case Text(_, _) => LiteralType
  }

  function ValueOf(parts: Parts): string {
    match parts
    case Iri(uri) => uri
    case Blank(name) => name
    case Text(value, _) => value
  }

  function LangOf(parts: Parts): string {
    if parts.Text? && parts.tag.InLang? then parts.tag.lang else ""
  }

  function TypeOf(parts: Parts): string {
    if parts.Text? && parts.tag.OfType? && parts.tag.iri != XSD_STRING then parts.tag.iri else ""
  }

  /** The views of a term read back the parts it was made of. */
  lemma ViewsReadBack(parts: Parts)
    ensures var t := Build(parts);
            && t.Valid()
            && t.nodeType == Kind(parts)
            && t.Value() == ValueOf(parts)
            && t.Lang() == LangOf(parts)
            && t.DataType() == TypeOf(parts)
  {
    match parts
    case Iri(uri) =>
    case Blank(name) =>
    case Text(value, tag) => LiteralViewsReadBack(value, tag);
  }

  lemma LiteralViewsReadBack(value: string, tag: Tag)
    ensures var t := Build(Text(value, tag));
            && t.Valid()
            && t.nodeType == LiteralType
            && t.Value() == value
            && t.Lang() == LangOf(Text(value, tag))
            && t.DataType() == TypeOf(Text(value, tag))
  {
  }

  /** A language wins over any datatype, and the datatype of plain strings is none, whatever the value. */
  lemma LiteralChoices(value: string, lang: string, dataType: Option<string>)
    ensures Literal(value, Some(lang), dataType) == Build(Text(value, InLang(lang)))
    ensures Literal(value, Some(lang), dataType).identifier == "\"" + value + "\"@" + lang
    ensures Literal(value, None, Some("http://www.w3.org/2001/XMLSchema#string")) == Build(Text(value, Untagged))
    ensures Literal(value, None, None).identifier == "\"" + value + "\""
  {
    assert "\"" + value + "\"" + "@" + lang == "\"" + value + "\"@" + lang;
  }

  /** What follows the closing quote. */
  function Suffix(tag: Tag): string {
    match tag
    case Untagged => ""
    case InLang(lang) => "@" + lang
    case OfType(iri) => if iri == XSD_STRING then "" else "^^<" + iri + ">"
  }

  /** No language tag and no IRI of the grammar contains a double quote. */
  predicate QuoteFree(parts: Parts) {
    parts.Text? ==> '"' !in Suffix(parts.tag)
  }

  lemma LiteralIdentifier(value: string, tag: Tag)
    ensures Build(Text(value, tag)).identifier == ['"'] + (value + (['"'] + Suffix(tag)))
  {
    Quoted(value, Suffix(tag));
  }

  lemma Quoted(value: string, suffix: string)
    ensures "\"" + value + "\"" + suffix == ['"'] + (value + (['"'] + suffix))
  {
  }

  /** The last quote of a literal closes its value, whatever quotes the value holds. */
  lemma LastQuoteCloses(v: string, a: string, w: string, b: string)
    requires '"' !in a && '"' !in b
    requires v + (['"'] + a) == w + (['"'] + b)
    ensures v == w && a == b
  {
    var s := v + (['"'] + a);
    assert s[|v|] == '"' && s[|w|] == '"';
    assert s[..|v|] == v && s[..|w|] == w;
    assert s[|v| + 1..] == a && s[|w| + 1..] == b;
  }

  lemma SuffixTellsTag(value: string, a: Tag, b: Tag)
    requires Suffix(a) == Suffix(b)
    ensures Canonical(Text(value, a)) == Canonical(Text(value, b))
  {
    match a
    case Untagged =>
    case InLang(lang) =>
      assert Suffix(a)[0] == '@' && Suffix(a)[1..] == lang;
      assert b.InLang? && Suffix(b)[1..] == b.lang;
    case OfType(iri) =>
      if iri != XSD_STRING {
        assert Suffix(a)[0] == '^' && Suffix(a)[3..|Suffix(a)| - 1] == iri;
        assert b.OfType? && Suffix(b)[3..|Suffix(b)| - 1] == b.iri;
      }
  }

  lemma CanonicalDecides(a: Parts, b: Parts)
    requires Canonical(a) == Canonical(b)
    ensures Build(a).identifier == Build(b).identifier
  {
  }

  lemma LiteralsTellApart(v: string, a: Tag, w: string, b: Tag)
    requires '"' !in Suffix(a) && '"' !in Suffix(b)
    requires Build(Text(v, a)).identifier == Build(Text(w, b)).identifier
    ensures Canonical(Text(v, a)) == Canonical(Text(w, b))
  {
    LiteralIdentifier(v, a);
    LiteralIdentifier(w, b);
    assert Build(Text(v, a)).identifier[1..] == v + (['"'] + Suffix(a));
    assert Build(Text(w, b)).identifier[1..] == w + (['"'] + Suffix(b));
    LastQuoteCloses(v, Suffix(a), w, Suffix(b));
    SuffixTellsTag(v, a, b);
  }

  lemma FirstCharacterTellsKind(parts: Parts)
    ensures var id := Build(parts).identifier;
            id != [] && id[0] == (match parts case Iri(_) => '<' case Blank(_) => '_' case Text(_, _) => '"')
  {
  }

  /** Main law: equal identifiers mean equal kind, value, language and datatype, xsd:string being no datatype. */
  lemma SameIdentifierExactly(a: Parts, b: Parts)
    requires QuoteFree(a) && QuoteFree(b)
    ensures Build(a).identifier == Build(b).identifier <==> Canonical(a) == Canonical(b)
  {
    if Canonical(a) == Canonical(b) {
      CanonicalDecides(a, b);
    }
    if Build(a).identifier == Build(b).identifier {
      FirstCharacterTellsKind(a);
      FirstCharacterTellsKind(b);
      match a
      case Iri(uri) => assert Build(a).identifier[1..|uri| + 1] == uri && Build(b).identifier[1..|b.uri| + 1] == b.uri;
      case Blank(name) => assert Build(a).identifier[2..] == name && Build(b).identifier[2..] == b.name;
      case Text(value, tag) => LiteralsTellApart(value, tag, b.value, b.tag);
    }
  }

  /** An empty language or datatype cannot be seen through the views. */
  predicate TagIsVisible(parts: Parts) {
    parts.Text? ==> parts.tag != InLang("") && parts.tag != OfType("")
  }

  /** Through the views: terms are equal exactly when kind, value, language and datatype read the same. */
  lemma SameViewsExactly(a: Parts, b: Parts)
    requires QuoteFree(a) && QuoteFree(b) && TagIsVisible(a) && TagIsVisible(b)
    ensures var t, u := Build(a), Build(b);
            && t.Valid() && u.Valid()
            && (t.identifier == u.identifier <==>
                t.nodeType == u.nodeType && t.Value() == u.Value() && t.Lang() == u.Lang()
                  && t.DataType() == u.DataType())
  {
    ViewsReadBack(a);
    ViewsReadBack(b);
    SameIdentifierExactly(a, b);
    SameViewsSameParts(a, b);
  }

  lemma SameViewsSameParts(a: Parts, b: Parts)
    requires TagIsVisible(a) && TagIsVisible(b)
    ensures Canonical(a) == Canonical(b)
            <==> Kind(a) == Kind(b) && ValueOf(a) == ValueOf(b) && LangOf(a) == LangOf(b) && TypeOf(a) == TypeOf(b)
  {
  }

  /** The tags that the views show as no language and no datatype. */
  predicate ShowsNoTag(tag: Tag) {
    tag == Untagged || tag == InLang("") || tag == OfType("") || tag == OfType(XSD_STRING)
  }

  ghost predicate LookAlike(t: Term, u: Term)
    requires t.Valid() && u.Valid()
  {
    t.nodeType == u.nodeType && t.Value() == u.Value() && t.Lang() == u.Lang() && t.DataType() == u.DataType()
  }

  /** What the views tell of any two terms: everything, except which of the tags that show nothing was given. */
  lemma ViewsAgreeExactly(a: Parts, b: Parts)
    ensures Build(a).Valid() && Build(b).Valid()
    ensures LookAlike(Build(a), Build(b))
       <==> Canonical(a) == Canonical(b)
            || (a.Text? && b.Text? && a.value == b.value && ShowsNoTag(a.tag) && ShowsNoTag(b.tag))
  {
    ViewsReadBack(a);
    ViewsReadBack(b);
    SamePartsOrNoTag(a, b);
  }

  lemma SamePartsOrNoTag(a: Parts, b: Parts)
    ensures Kind(a) == Kind(b) && ValueOf(a) == ValueOf(b) && LangOf(a) == LangOf(b) && TypeOf(a) == TypeOf(b)
       <==> Canonical(a) == Canonical(b)
            || (a.Text? && b.Text? && a.value == b.value && ShowsNoTag(a.tag) && ShowsNoTag(b.tag))
  {
  }

  /** Exactly these terms look alike and yet differ: one value under two different tags that show nothing. */
  lemma LookAlikesExactly(a: Parts, b: Parts)
    requires QuoteFree(a) && QuoteFree(b)
    ensures Build(a).Valid() && Build(b).Valid()
    ensures LookAlike(Build(a), Build(b)) && Build(a).identifier != Build(b).identifier
       <==> a.Text? && b.Text? && a.value == b.value && ShowsNoTag(a.tag) && ShowsNoTag(b.tag)
            && Canonical(a) != Canonical(b)
  {
    ViewsAgreeExactly(a, b);
    SameIdentifierExactly(a, b);
  }

  /**
   Why the tag must be visible: a literal typed by the empty IRI reads like an untyped one and yet differs from it.
   */
  lemma EmptyDatatypeIsInvisible(value: string)
    ensures var t, u := Build(Text(value, OfType(""))), Build(Text(value, Untagged));
            t.Valid() && u.Valid() && t.Value() == u.Value() && t.DataType() == u.DataType()
              && t.identifier != u.identifier
  {
  }

  /** Why tags must be free of quotes: with one in the language tag, different literals share an identifier. */
  lemma QuoteInTagConfuses()
    ensures var a, b := Text("x", InLang("y\"@z")), Text("x\"@y", InLang("z"));
            Canonical(a) != Canonical(b) && Build(a).identifier == Build(b).identifier
  {
  }
}
