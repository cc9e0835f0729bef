/**
 The rules of a term and the actions they trigger. An action runs as soon as its rule has matched, and what it
 changes stays changed even when an enclosing alternative fails later; an action may also throw.
 */
module TermRules {
  import opened Terms
  import opened Labels
  import opened Peg
  import opened Names
  import opened Numbers
  import opened Tokens

  datatype Action =
    | OnIriRef | OnPrefixedName | OnAnon | OnBoolean | OnDouble | OnDecimal | OnInteger | OnNumeric
    | OnRdfLiteral | OnTypeTag | OnLangTag | OnString | OnBlankNode | OnBlankLabel

  datatype Rule =
    | Plain(peg: Peg)
    | Do(action: Action, rule: Rule)
    | Both(first: Rule, second: Rule)
    | Either(preferred: Rule, other: Rule)
    | Perhaps(rule: Rule)

  const XSD_BOOLEAN := "http://www.w3.org/2001/XMLSchema#boolean"
  const XSD_DOUBLE := "http://www.w3.org/2001/XMLSchema#double"
  const XSD_DECIMAL := "http://www.w3.org/2001/XMLSchema#decimal"
  const XSD_INTEGER := "http://www.w3.org/2001/XMLSchema#integer"

  const IRI := Either(Do(OnIriRef, Plain(IRIREF)), Do(OnPrefixedName, Plain(PNAME)))
  const LANG_TAG := Do(OnLangTag, Plain(LANGTAG))
  const TYPE_TAG := Do(OnTypeTag, Both(Plain(CARETS), IRI))
  const STRING := Do(OnString, Plain(TURTLE_STRING))
  const RDF_LITERAL := Do(OnRdfLiteral, Both(STRING, Perhaps(Either(LANG_TAG, TYPE_TAG))))
  const NUMERIC_LITERAL :=
    Do(OnNumeric, Either(Do(OnDouble, Plain(DOUBLE)),
                         Either(Do(OnDecimal, Plain(DECIMAL)), Do(OnInteger, Plain(INTEGER)))))
  const BOOLEAN_LITERAL := Do(OnBoolean, Plain(Else(TRUE, FALSE)))
  const LITERAL := Either(RDF_LITERAL, Either(NUMERIC_LITERAL, BOOLEAN_LITERAL))
  const BLANK_NODE := Do(OnBlankNode, Either(Do(OnBlankLabel, Plain(BLANK_NODE_LABEL)), Do(OnAnon, Plain(ANON))))
  const TERM := Either(LITERAL, Either(BLANK_NODE, IRI))

  /** The flags that connect a literal with the tag after it, and the tags themselves. */
  datatype Tags = Tags(typeFound: bool, langFound: bool, isIriRef: bool, langTag: string, typeTag: string)

  /** What the actions of a term read and write. */
  datatype Basic = Basic(element: Term, tags: Tags, literal: string, blankNode: string,
                         next: nat, base: string, prefixes: map<string, string>)

  const INITIAL := Basic(NO_TERM, Tags(false, false, false, "", ""), "", "", 1, "", map[])

  /** The part of a lexeme without its first a and last b characters. */
  function Inner(lexeme: string, a: nat, b: nat): string {
    if a + b <= |lexeme| then lexeme[a..|lexeme| - b] else ""
  }

  function IndexOf(text: string, c: char): (n: nat)
    ensures n <= |text|
  {
    if text == [] || text[0] == c then 0 else 1 + IndexOf(text[1..], c)
  }

  /** The text after the first colon, or all of it if there is none. */
  function AfterColon(text: string): string {
    var pos := IndexOf(text, ':');
    if pos < |text| then text[pos + 1..] else text
  }

  function BeforeColon(text: string): string {
    text[..IndexOf(text, ':')]
  }

  /** A datatype given as a prefixed name is expanded when its prefix is known. */
  function ExpandedType(st: Basic): string {
    var prefix := BeforeColon(st.tags.typeTag);
    if !st.tags.isIriRef && prefix in st.prefixes then st.prefixes[prefix] + AfterColon(st.tags.typeTag)
    else st.tags.typeTag
  }

  function LiteralElement(st: Basic): Basic {
    if st.tags.typeFound then
      st.(element := Literal(st.literal, None, Some(ExpandedType(st))), tags := st.tags.(typeFound := false))
    else if st.tags.langFound then
      st.(element := Literal(st.literal, Some(st.tags.langTag), None), tags := st.tags.(langFound := false))
    else
      st.(element := Literal(st.literal, None, None))
  }

  /** What an action does with the matched text; None where it throws. */
  function Apply(action: Action, lexeme: string, st: Basic): Option<Basic> {
    match action
    case OnIriRef =>
      var uri := Inner(lexeme, 1, 1);
      if st.base != "" && uri == "" then None
      else
        Some(st.(element := URIRef(if st.base == "" then uri else uri[..1] + st.base + uri[1..]),
                 tags := st.tags.(isIriRef := true)))
    case OnPrefixedName =>
      var prefix := BeforeColon(lexeme);
      if prefix !in st.prefixes then None
      else Some(st.(element := URIRef(st.prefixes[prefix] + AfterColon(lexeme)), tags := st.tags.(isIriRef := false)))
    case OnAnon => Some(st.(blankNode := "b" + Decimal(st.next), next := st.next + 1))
    case OnBoolean => Some(st.(literal := lexeme, element := Literal(lexeme, None, Some(XSD_BOOLEAN))))
    case OnDouble => Some(st.(tags := st.tags.(typeTag := XSD_DOUBLE)))
    case OnDecimal => Some(st.(tags := st.tags.(typeTag := XSD_DECIMAL)))
    case OnInteger => Some(st.(tags := st.tags.(typeTag := XSD_INTEGER)))
    case OnNumeric => Some(st.(element := Literal(lexeme, None, Some(st.tags.typeTag))))
    case OnRdfLiteral => Some(LiteralElement(st))
    case OnTypeTag =>
      var tag := if st.tags.isIriRef then Inner(lexeme, 3, 1) else Inner(lexeme, 2, 0);
      Some(st.(tags := st.tags.(typeFound := true, typeTag := tag)))
    case OnLangTag => Some(st.(tags := st.tags.(langFound := true, langTag := Inner(lexeme, 1, 0))))
    case OnString => Some(st.(literal := Inner(lexeme, 1, 1)))
    case OnBlankNode => Some(st.(element := BNode(st.blankNode)))
    case OnBlankLabel => Some(st.(literal := Inner(lexeme, 2, 0), blankNode := Inner(lexeme, 2, 0)))
  }

  /** A prefix that is already bound keeps its value. */
  function Bind(prefixes: map<string, string>, prefix: string, value: string): map<string, string> {
    if prefix in prefixes then prefixes else prefixes[prefix := value]
  }

  datatype Outcome = Matched(length: nat, st: Basic) | Unmatched(st: Basic) | Thrown

  function Run(rule: Rule, s: string, st: Basic): (r: Outcome)
    ensures r.Matched? ==> r.length <= |s|
    decreases rule
  {
    match rule
    case Plain(peg) =>
      var n := Match(peg, s);
      if n.Some? then Matched(n.value, st) else Unmatched(st)
    case Do(action, inner) =>
      var r := Run(inner, s, st);
      if !r.Matched? then r
      else
        var done := Apply(action, s[..r.length], r.st);
        if done.None? then Thrown else Matched(r.length, done.value)
    case Both(first, second) =>
      var a := Run(first, s, st);
      if !a.Matched? then a
      else
        var b := Run(second, s[a.length..], a.st);
        if b.Matched? then Matched(a.length + b.length, b.st) else b
    case Either(preferred, other) =>
      var a := Run(preferred, s, st);
      if a.Unmatched? then Run(other, s, a.st) else a
    case Perhaps(inner) =>
      var a := Run(inner, s, st);
      if a.Unmatched? then Matched(0, a.st) else a
  }

  /** Parsing a term from a fresh state: whether the rule matched is not looked at, only whether an action threw. */
  function ParsedTerm(identifier: string): Option<Term> {
    var r := Run(TERM, identifier, INITIAL);
    if r.Thrown? then None else Some(r.st.element)
  }
}
