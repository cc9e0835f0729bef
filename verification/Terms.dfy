/** RDF terms as one identifier text plus offset views into it, and triples of terms. */
module Terms {
  datatype Option<+T> = None | Some(value: T)

  datatype NodeType = NoType | URIRefType | BNodeType | LiteralType

  /** A portable view: it names a stretch of a text without holding the text. */
  datatype View = View(start: nat, count: nat) {
    predicate Fits(text: string) {
      start + count <= |text|
    }

    function Of(text: string): string
      requires Fits(text)
    {
      text[start..start + count]
    }
  }

  const NO_VIEW := View(0, 0)

  /** Identity of a term is its identifier; the views only slice it. */
  datatype Term = Term(identifier: string, nodeType: NodeType, valueView: View, langView: View, dataTypeView: View) {
    predicate Valid() {
      valueView.Fits(identifier) && langView.Fits(identifier) && dataTypeView.Fits(identifier)
    }

    function Value(): string
      requires Valid()
    {
      valueView.Of(identifier)
    }

    function Lang(): string
      requires Valid()
    {
      langView.Of(identifier)
    }

    function DataType(): string
      requires Valid()
    {
      dataTypeView.Of(identifier)
    }
  }

  /** The default-constructed term. */
  const NO_TERM := Term("", NoType, NO_VIEW, NO_VIEW, NO_VIEW)

  const XSD_STRING := "http://www.w3.org/2001/XMLSchema#string"

  function URIRef(uri: string): Term {
    Term("<" + uri + ">", URIRefType, View(1, |uri|), NO_VIEW, NO_VIEW)
  }

  function BNode(name: string): Term {
    Term("_:" + name, BNodeType, View(2, |name|), NO_VIEW, NO_VIEW)
  }

  /** A language wins over a datatype, and xsd:string counts as no datatype. */
  function Literal(value: string, lang: Option<string>, dataType: Option<string>): Term {
    var quoted := "\"" + value + "\"";
    if lang.Some? then
      Term(quoted + "@" + lang.value, LiteralType, View(1, |value|), View(|value| + 3, |lang.value|), NO_VIEW)
    else if dataType.Some? && dataType.value != XSD_STRING then
      Term(quoted + "^^<" + dataType.value + ">", LiteralType, View(1, |value|), NO_VIEW,
           View(|value| + 5, |dataType.value|))
    else
      Term(quoted, LiteralType, View(1, |value|), NO_VIEW, NO_VIEW)
  }

  datatype Triple = Triple(subject: Term, predicate_: Term, object_: Term)

  const NO_TRIPLE := Triple(NO_TERM, NO_TERM, NO_TERM)
}
