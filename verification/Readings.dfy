/** What booleans, numbers, anonymous nodes and the other string forms read as, with every text written out. */
module Readings {
  import opened Terms
  import opened Labels
  import opened Peg
  import opened PegLaws
  import opened Names
  import opened Numbers
  import opened Tokens
  import opened TermRules
  import opened TermLaws
  import opened Identity
  import opened RoundTrip
  import opened Abbreviations

  // ---- Booleans.

  const BOOLEAN := Else(TRUE, FALSE)

  /** The rule for one word, letter by letter. */
  function Word(text: string): Peg
    requires text != []
  {
    if |text| == 1 then One(text[0]) else Then(One(text[0]), Word(text[1..]))
  }

  lemma {:induction false} WordReads(text: string, w: string)
    requires text != []
    ensures Match(Word(text), text + w) == Some(|text|)
  {
    var rest := text[1..] + w;
    assert text + w == [text[0]] + rest;
    if |text| == 1 {
      OneReads(text[0], text + w);
    } else {
      WordReads(text[1..], w);
      OneThen(text[0], Word(text[1..]), rest);
    }
  }

  lemma TrueIsWord()
    ensures TRUE == Word("true")
  {
    assert "true"[1..] == "rue" && "rue"[1..] == "ue" && "ue"[1..] == "e";
    assert Word("ue") == Then(One('u'), Word("e"));
    assert Word("rue") == Then(One('r'), Word("ue"));
  }

  lemma FalseIsWord()
    ensures FALSE == Word("false")
  {
    assert "false"[1..] == "alse" && "alse"[1..] == "lse" && "lse"[1..] == "se" && "se"[1..] == "e";
    assert Word("se") == Then(One('s'), Word("e"));
    assert Word("lse") == Then(One('l'), Word("se"));
    assert Word("alse") == Then(One('a'), Word("lse"));
  }

  lemma BooleanReads(text: string, w: string)
    requires text == "true" || text == "false"
    ensures Match(BOOLEAN, text + w) == Some(|text|)
  {
    ElseFrom(TRUE, FALSE, text + w);
    WordReads(text, w);
    if text == "true" {
      TrueIsWord();
    } else {
      FalseIsWord();
      OneThenMisses('t', Then(One('r'), Then(One('u'), One('e'))), text + w);
    }
  }

  /** The literal rules before the boolean one. */
  lemma NoOtherLiteral(s: string, st: Basic)
    requires s != [] && (s[0] == 't' || s[0] == 'f')
    ensures Run(LITERAL, s, st) == Run(BOOLEAN_LITERAL, s, st)
  {
    RdfLiteralMisses(s, st);
    NumericLiteralMisses(s, st);
    EitherOther(NUMERIC_LITERAL, BOOLEAN_LITERAL, s, st);
    EitherOther(RDF_LITERAL, Either(NUMERIC_LITERAL, BOOLEAN_LITERAL), s, st);
  }

  function AfterBoolean(text: string, st: Basic): Basic {
    st.(literal := text, element := Literal(text, None, Some("http://www.w3.org/2001/XMLSchema#boolean")))
  }

  /** A boolean is read whole, in any state and whatever follows, and keeps its text. */
  lemma BooleanRuns(text: string, w: string, st: Basic)
    requires text == "true" || text == "false"
    ensures Run(TERM, text + w, st) == Matched(|text|, AfterBoolean(text, st))
  {
    var s := text + w;
    BooleanReads(text, w);
    assert s[..|text|] == text;
    NoOtherLiteral(s, st);
    DoPlain(OnBoolean, BOOLEAN, s, st, |text|);
    EitherPreferred(LITERAL, Either(BLANK_NODE, IRI), s, st);
  }

  lemma BooleanTypeIsLegal()
    ensures LegalIri("http://www.w3.org/2001/XMLSchema#boolean")
  {
    UrlIsLegal("http://www.w3.org/2001/XMLSchema#boolean");
  }

  lemma BooleanIsLegal(text: string)
    requires text == "true" || text == "false"
    ensures LegalValue(text)
  {
    PlainTextIsLegal(text);
  }

  /** So it parses to the literal of its text, which its quoted form with the full datatype parses to as well. */
  lemma BooleanParses(text: string)
    requires text == "true" || text == "false"
    ensures ParsedTerm(text) == Some(Literal(text, None, Some("http://www.w3.org/2001/XMLSchema#boolean")))
    ensures ParsedTerm(TypedText(text, "http://www.w3.org/2001/XMLSchema#boolean")) == ParsedTerm(text)
  {
    BooleanRuns(text, "", INITIAL);
    assert text + "" == text;
    BooleanIsLegal(text);
    BooleanTypeIsLegal();
    TypedTextParses(text, "http://www.w3.org/2001/XMLSchema#boolean");
  }

  // ---- Numbers.

  lemma TypedViews(value: string, iri: string)
    requires iri != XSD_STRING
    ensures var t := Literal(value, None, Some(iri));
            t.Valid() && t.Value() == value && t.DataType() == iri
  {
    LiteralViewsReadBack(value, OfType(iri));
  }

  lemma NumberReadsAs(t: string, datatype_: string)
    requires Matches(NUMERIC_R, t) && TypedByClass(t, datatype_) && datatype_ in {XSD_DOUBLE, XSD_DECIMAL, XSD_INTEGER}
    ensures ParsedTerm(t).Some? && ParsedTerm(t).value.Valid()
    ensures ParsedTerm(t).value.Value() == t && ParsedTerm(t).value.DataType() == datatype_
  {
    TypesDiffer();
    TypedViews(t, datatype_);
    NumberParses(t, datatype_);
  }

  /** Main result: the datatype that the views of a parsed number show, for each of the three productions. */
  lemma NumberTypes(t: string)
    requires Matches(NUMERIC_R, t)
    ensures ParsedTerm(t).Some? && ParsedTerm(t).value.Valid() && ParsedTerm(t).value.Value() == t
    ensures Matches(INTEGER_R, t) <==> ParsedTerm(t).value.DataType() == "http://www.w3.org/2001/XMLSchema#integer"
    ensures Matches(DECIMAL_R, t) <==> ParsedTerm(t).value.DataType() == "http://www.w3.org/2001/XMLSchema#decimal"
    ensures Matches(DOUBLE_R, t) <==> ParsedTerm(t).value.DataType() == "http://www.w3.org/2001/XMLSchema#double"
  {
    AltElim(DOUBLE_R, Alt(DECIMAL_R, INTEGER_R), t);
    AltElim(DECIMAL_R, INTEGER_R, t);
    ClassTyped(t);
    var datatype_ :=
      if Matches(DOUBLE_R, t) then XSD_DOUBLE else if Matches(DECIMAL_R, t) then XSD_DECIMAL else XSD_INTEGER;
    NumberReadsAs(t, datatype_);
  }

  // ---- Anonymous nodes.

  /** The white space that may stand between the brackets. */
  predicate Spaces(w: string) {
    forall i :: 0 <= i < |w| ==> w[i] in " \t\r\n"
  }

  lemma {:induction false} SpacesRead(w: string, rest: string)
    requires Spaces(w) && rest != [] && rest[0] == ']'
    ensures Match(Star(Class(IsAnonSpace)), w + rest) == Some(|w|)
  {
    var s := w + rest;
    if w == [] {
      assert s == rest;
    } else {
      assert w[0] in " \t\r\n" && s[1..] == w[1..] + rest;
      SpacesRead(w[1..], rest);
      StarOnceTo(Class(IsAnonSpace), s, 1, s[1..]);
    }
  }

  lemma AnonReads(w: string, rest: string)
    requires Spaces(w)
    ensures Match(ANON, "[" + w + "]" + rest) == Some(|w| + 2)
  {
    AnonReadsTo(w, "]" + rest);
    BracketText(w, rest);
  }

  lemma BracketText(w: string, rest: string)
    ensures ['['] + (w + ("]" + rest)) == "[" + w + "]" + rest
  {
  }

  lemma AnonReadsTo(w: string, rest: string)
    requires Spaces(w) && rest != [] && rest[0] == ']'
    ensures Match(ANON, ['['] + (w + rest)) == Some(|w| + 2)
  {
    SpacesRead(w, rest);
    AnonFrom(w + rest, |w|);
  }

  lemma AnonFrom(inner: string, n: nat)
    requires Match(Star(Class(IsAnonSpace)), inner) == Some(n) && n < |inner| && inner[n] == ']'
    ensures Match(ANON, ['['] + inner) == Some(n + 2)
  {
    ThenOne(Star(Class(IsAnonSpace)), ']', inner, n);
    OneThen('[', Then(Star(Class(IsAnonSpace)), One(']')), inner);
  }

  function AfterAnon(st: Basic): Basic {
    var name := "b" + Decimal(st.next);
    st.(element := BNode(name), blankNode := name, next := st.next + 1)
  }

  lemma AnonApplied(s: string, st: Basic, n: nat)
    requires Match(ANON, s) == Some(n) && Match(BLANK_NODE_LABEL, s).None?
    ensures Run(BLANK_NODE, s, st) == Matched(n, AfterAnon(st))
  {
    var byLabel, byAnon := Do(OnBlankLabel, Plain(BLANK_NODE_LABEL)), Do(OnAnon, Plain(ANON));
    var name := "b" + Decimal(st.next);
    var mid := st.(blankNode := name, next := st.next + 1);
    DoMisses(OnBlankLabel, BLANK_NODE_LABEL, s, st);
    DoPlain(OnAnon, ANON, s, st, n);
    EitherOther(byLabel, byAnon, s, st);
    DoRuns(OnBlankNode, Either(byLabel, byAnon), s, st, n, mid);
  }

  /** Empty brackets are read whole, in any state; they are the node of the counter, which moves on by one. */
  lemma AnonRuns(w: string, rest: string, st: Basic)
    requires Spaces(w)
    ensures Run(TERM, "[" + w + "]" + rest, st) == Matched(|w| + 2, AfterAnon(st))
  {
    var s := "[" + w + "]" + rest;
    AnonReads(w, rest);
    OneThenMisses('_', Then(One(':'), Then(LABEL_HEAD, TailRule(PN_CHARS, false))), s);
    AnonApplied(s, st, |w| + 2);
    LiteralMisses(s, st);
    EitherPreferred(BLANK_NODE, IRI, s, st);
    EitherOther(LITERAL, Either(BLANK_NODE, IRI), s, st);
  }

  /** From the driver's fresh state they are always the first node. */
  lemma EmptyBracketsParse(w: string)
    requires Spaces(w)
    ensures ParsedTerm("[" + w + "]") == Some(BNode("b1"))
  {
    AnonRuns(w, "", INITIAL);
    assert "[" + w + "]" + "" == "[" + w + "]";
    FirstLabel();
    assert AfterAnon(INITIAL).element == BNode("b" + Decimal(1));
  }

  lemma FirstLabel()
    ensures "b" + Decimal(1) == "b1"
  {
    assert Digit(1) == '1';
    assert Decimal(1) == ['1'];
  }

  function Brackets(spaces: seq<string>): seq<string> {
    if spaces == [] then [] else ["[" + spaces[0] + "]"] + Brackets(spaces[1..])
  }

  function Counted(first: nat, n: nat): (r: seq<Term>)
    ensures |r| == n
  {
    seq(n, i requires 0 <= i < n => BNode("b" + Decimal(first + i)))
  }

  lemma CountedFirst(first: nat, n: nat)
    requires n > 0
    ensures Counted(first, n) == [BNode("b" + Decimal(first))] + Counted(first + 1, n - 1)
  {
  }

  /** Brackets read one after the other through one state are the nodes of the counter, in order. */
  lemma {:induction false} BracketsCount(spaces: seq<string>, st: Basic)
    requires forall i :: 0 <= i < |spaces| ==> Spaces(spaces[i])
    ensures ReadAll(Brackets(spaces), st) == Some(Counted(st.next, |spaces|))
  {
    if spaces == [] {
      assert Counted(st.next, 0) == [];
    } else {
      AnonRuns(spaces[0], "", st);
      assert "[" + spaces[0] + "]" + "" == "[" + spaces[0] + "]";
      BracketsCount(spaces[1..], AfterAnon(st));
      CountedFirst(st.next, |spaces|);
      assert Brackets(spaces)[1..] == Brackets(spaces[1..]);
    }
  }

  /** Main result: and so they are all different nodes. */
  lemma BracketsDiffer(spaces: seq<string>, st: Basic)
    requires forall i :: 0 <= i < |spaces| ==> Spaces(spaces[i])
    ensures var r := ReadAll(Brackets(spaces), st);
            && r.Some? && |r.value| == |spaces|
            && forall i, j :: 0 <= i < j < |spaces| ==> r.value[i].identifier != r.value[j].identifier
  {
    BracketsCount(spaces, st);
    forall i, j | 0 <= i < j < |spaces|
      ensures Counted(st.next, |spaces|)[i].identifier != Counted(st.next, |spaces|)[j].identifier
    {
      CountsDiffer(st.next + i, st.next + j);
    }
  }

  lemma CountsDiffer(a: nat, b: nat)
    requires a != b
    ensures BNode("b" + Decimal(a)).identifier != BNode("b" + Decimal(b)).identifier
  {
    if BNode("b" + Decimal(a)).identifier == BNode("b" + Decimal(b)).identifier {
      GeneratedInjective(a, b);
    }
  }
}
