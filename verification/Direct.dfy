/**
 The triples of a document written out one by one in reading order, with the vocabulary spelt out: what the queue
 holds, up to order, without going through pair lists or the recursive meaning.
 */
module Direct {
  import opened Terms
  import opened Labels
  import opened Turtle
  import opened Reference
  import opened Documents
  import opened Conservation

  // ---- Labels, counted from the syntax.

  /** How many labels a node takes: one for each anonymous node, property list and cell. */
  function LabelsOf(node: Node): nat
    decreases node, 1
  {
    match node
    case Given(_) => 0
    case Anon => 1
    case Collection(items) => LabelsOfAll(items) + if items == [] then 1 else |items|
    case Properties(clauses) => LabelsOfClauses(clauses) + 1
  }

  function LabelsOfAll(nodes: seq<Node>): nat
    decreases nodes, 0
  {
    if nodes == [] then 0 else LabelsOf(nodes[0]) + LabelsOfAll(nodes[1..])
  }

  function LabelsOfClauses(clauses: seq<Clause>): nat
    decreases clauses, 0
  {
    if clauses == [] then 0 else LabelsOfAll(clauses[0].objects) + LabelsOfClauses(clauses[1..])
  }

  function Blank(n: nat): Term {
    BNode("b" + Decimal(n))
  }

  /** A node that is not written has the last of its labels. */
  function Element(node: Node, first: nat): Term {
    if node.Given? then node.term else Blank(if LabelsOf(node) == 0 then first else first + LabelsOf(node) - 1)
  }

  // ---- The triples.

  function Inside(node: Node, first: nat): seq<Triple>
    decreases node, 1
  {
    match node
    case Given(_) => []
    case Anon => []
    case Collection(items) =>
      if items == [] then [Triple(Blank(first), URIRef("rdf:first"), URIRef("rdf:nil"))]
      else Items(items, first, first + LabelsOfAll(items))
    case Properties(clauses) => Under(Element(node, first), clauses, first)
  }

  /** An item gives the two triples of its cell; the cell of the last item has label last. */
  function Items(items: seq<Node>, first: nat, last: nat): seq<Triple>
    decreases items, 0
  {
    if items == [] then []
    else
      var cell := Blank(last + |items| - 1);
      var next := if |items| == 1 then URIRef("rdf:nil") else Blank(last + |items| - 2);
      [Triple(cell, URIRef("rdf:first"), Element(items[0], first)), Triple(cell, URIRef("rdf:rest"), next)]
      + Inside(items[0], first) + Items(items[1..], first + LabelsOf(items[0]), last)
  }

  /** An object gives one triple, and what stands inside it. */
  function Objects(subject: Term, verb: Term, nodes: seq<Node>, first: nat): seq<Triple>
    decreases nodes, 0
  {
    if nodes == [] then []
    else
      [Triple(subject, verb, Element(nodes[0], first))] + Inside(nodes[0], first)
      + Objects(subject, verb, nodes[1..], first + LabelsOf(nodes[0]))
  }

  function Under(subject: Term, clauses: seq<Clause>, first: nat): seq<Triple>
    decreases clauses, 0
  {
    if clauses == [] then []
    else
      Objects(subject, clauses[0].verb, clauses[0].objects, first)
      + Under(subject, clauses[1..], first + LabelsOfAll(clauses[0].objects))
  }

  function InStatement(statement: Statement, first: nat): seq<Triple> {
    Inside(statement.subject, first)
    + Under(Element(statement.subject, first), statement.body, first + LabelsOf(statement.subject))
  }

  function LabelAfter(statement: Statement, first: nat): nat {
    first + LabelsOf(statement.subject) + LabelsOfClauses(statement.body)
  }

  function InDocument(document: seq<Statement>, first: nat): seq<Triple> {
    if document == [] then []
    else
      InStatement(document[0], first) + InDocument(document[1..], LabelAfter(document[0], first))
  }

  // ---- They are the triples meant, in another order.

  lemma {:induction false} NodeTakes(node: Node, first: nat)
    ensures MeaningOfNode(node, first).next == first + LabelsOf(node)
    ensures MeaningOfNode(node, first).node == Element(node, first)
    decreases node, 1
  {
    match node
    case Given(_) =>
    case Anon =>
    case Collection(items) => NodesTake(items, first);
    case Properties(clauses) => ClausesTake(clauses, first);
  }

  lemma {:induction false} NodesTake(nodes: seq<Node>, first: nat)
    ensures MeaningOfNodes(nodes, first).next == first + LabelsOfAll(nodes)
    decreases nodes, 0
  {
    if nodes != [] {
      NodeTakes(nodes[0], first);
      NodesTake(nodes[1..], first + LabelsOf(nodes[0]));
    }
  }

  lemma {:induction false} ClausesTake(clauses: seq<Clause>, first: nat)
    ensures MeaningOfClauses(clauses, first).next == first + LabelsOfClauses(clauses)
    decreases clauses, 0
  {
    if clauses != [] {
      NodesTake(clauses[0].objects, first);
      ClausesTake(clauses[1..], first + LabelsOfAll(clauses[0].objects));
    }
  }

  /** What the pair lists add: one triple for each pair. */
  lemma AttributeFirst(subject: Term, pair: Pair, pairs: seq<Pair>)
    ensures Attribute(subject, [pair] + pairs) == [Triple(subject, pair.0, pair.1)] + Attribute(subject, pairs)
  {
  }

  lemma AttributeAdds(subject: Term, a: seq<Pair>, b: seq<Pair>)
    ensures Attribute(subject, a + b) == Attribute(subject, a) + Attribute(subject, b)
  {
  }

  lemma PairsFirst(verb: Term, node: Term, nodes: seq<Term>)
    ensures PairsOf(verb, [node] + nodes) == [(verb, node)] + PairsOf(verb, nodes)
  {
  }

  /** How often a triple occurs. */
  function Times(triples: seq<Triple>, x: Triple): nat {
    if triples == [] then 0 else (if triples[0] == x then 1 else 0) + Times(triples[1..], x)
  }

  lemma {:induction false} TimesIs(triples: seq<Triple>, x: Triple)
    ensures Times(triples, x) == multiset(triples)[x]
  {
    if triples != [] {
      assert triples == [triples[0]] + triples[1..];
      TimesIs(triples[1..], x);
    }
  }

  lemma {:induction false} TimesAdds(a: seq<Triple>, b: seq<Triple>, x: Triple)
    ensures Times(a + b, x) == Times(a, x) + Times(b, x)
  {
    if a == [] {
      assert a + b == b;
    } else {
      assert (a + b)[1..] == a[1..] + b;
      TimesAdds(a[1..], b, x);
    }
  }

  lemma TimesOfThree(a: seq<Triple>, b: seq<Triple>, c: seq<Triple>, x: Triple)
    ensures Times(a + b + c, x) == Times(a, x) + Times(b, x) + Times(c, x)
  {
    TimesAdds(a + b, c, x);
    TimesAdds(a, b, x);
  }

  lemma {:induction false} NodeGives(node: Node, first: nat, x: Triple)
    ensures Times(MeaningOfNode(node, first).triples, x) == Times(Inside(node, first), x)
    decreases node, 1
  {
    match node
    case Given(_) =>
    case Anon =>
    case Collection(items) =>
      if items != [] {
        var inner := MeaningOfNodes(items, first);
        ItemsGive(items, first, inner.next, x);
        TimesAdds(inner.triples, ListTriples(inner.nodes, inner.next), x);
        CollectionInside(items, first);
      }
    case Properties(clauses) =>
      var inner := MeaningOfClauses(clauses, first);
      ClausesGive(Element(node, first), clauses, first, x);
      TimesAdds(inner.triples, Attribute(Element(node, first), inner.pairs), x);
      PropertiesInside(clauses, first);
  }

  lemma CollectionInside(items: seq<Node>, first: nat)
    requires items != []
    ensures var inner := MeaningOfNodes(items, first);
            && Inside(Collection(items), first) == Items(items, first, inner.next)
            && MeaningOfNode(Collection(items), first).triples == inner.triples + ListTriples(inner.nodes, inner.next)
  {
    NodesTake(items, first);
  }

  lemma PropertiesInside(clauses: seq<Clause>, first: nat)
    ensures var node := Properties(clauses);
            var inner := MeaningOfClauses(clauses, first);
            && Inside(node, first) == Under(Element(node, first), clauses, first)
            && MeaningOfNode(node, first).triples == inner.triples + Attribute(Element(node, first), inner.pairs)
  {
    NodeTakes(Properties(clauses), first);
  }

  lemma TwoInOrder(a: Triple, b: Triple, x: Triple)
    ensures Times([a, b], x) == Times([b, a], x)
  {
    assert [a, b] == [a] + [b] && [b, a] == [b] + [a];
  }

  lemma {:induction false} ItemsGive(items: seq<Node>, first: nat, last: nat, x: Triple)
    ensures var meaning := MeaningOfNodes(items, first);
            Times(meaning.triples, x) + Times(ListTriples(meaning.nodes, last), x)
            == Times(Items(items, first, last), x)
    decreases items, 0
  {
    if items != [] {
      var head := MeaningOfNode(items[0], first);
      NodeTakes(items[0], first);
      NodeGives(items[0], first, x);
      ItemsGive(items[1..], head.next, last, x);
      NextItemGives(items, first, last, x, head, MeaningOfNodes(items[1..], head.next));
    }
  }

  lemma NextItemGives(items: seq<Node>, first: nat, last: nat, x: Triple, head: NodeMeaning, rest: NodesMeaning)
    requires items != [] && head == MeaningOfNode(items[0], first) && head.node == Element(items[0], first)
    requires head.next == first + LabelsOf(items[0]) && rest == MeaningOfNodes(items[1..], head.next)
    requires Times(head.triples, x) == Times(Inside(items[0], first), x)
    requires Times(rest.triples, x) + Times(ListTriples(rest.nodes, last), x)
          == Times(Items(items[1..], head.next, last), x)
    ensures var meaning := MeaningOfNodes(items, first);
            Times(meaning.triples, x) + Times(ListTriples(meaning.nodes, last), x)
            == Times(Items(items, first, last), x)
  {
    var item, link := ItemTriple(last + |items| - 1, head.node), LinkTriple(|items|, last);
    MeaningOfNodesIs(items, first, head, rest);
    ListUnfolds(head.node, rest.nodes, last);
    ItemsUnfold(items, first, last);
    CellMovesUp(head.triples, rest.triples, ListTriples(rest.nodes, last), item, link, Inside(items[0], first),
                Items(items[1..], head.next, last), x);
  }

  lemma CellMovesUp(head: seq<Triple>, rest: seq<Triple>, cells: seq<Triple>, item: Triple, link: Triple,
                    inside: seq<Triple>, others: seq<Triple>, x: Triple)
    requires Times(head, x) == Times(inside, x) && Times(rest, x) + Times(cells, x) == Times(others, x)
    ensures Times(head + rest, x) + Times(cells + [link, item], x) == Times([item, link] + inside + others, x)
  {
    TimesAdds(head, rest, x);
    TimesAdds(cells, [link, item], x);
    TwoInOrder(item, link, x);
    TimesOfThree([item, link], inside, others, x);
  }

  lemma MeaningOfNodesIs(nodes: seq<Node>, first: nat, head: NodeMeaning, rest: NodesMeaning)
    requires nodes != [] && head == MeaningOfNode(nodes[0], first) && rest == MeaningOfNodes(nodes[1..], head.next)
    ensures MeaningOfNodes(nodes, first)
         == NodesMeaning([head.node] + rest.nodes, head.triples + rest.triples, rest.next)
  {
  }

  function ItemTriple(n: nat, item: Term): Triple {
    Triple(Blank(n), URIRef("rdf:first"), item)
  }

  function LinkTriple(n: nat, last: nat): Triple
    requires n > 0
  {
    Triple(Blank(last + n - 1), URIRef("rdf:rest"), if n == 1 then URIRef("rdf:nil") else Blank(last + n - 2))
  }

  lemma ItemsUnfold(items: seq<Node>, first: nat, last: nat)
    requires items != []
    ensures Items(items, first, last)
         == [ItemTriple(last + |items| - 1, Element(items[0], first)), LinkTriple(|items|, last)]
            + Inside(items[0], first) + Items(items[1..], first + LabelsOf(items[0]), last)
  {
  }

  lemma ListUnfolds(head: Term, rest: seq<Term>, last: nat)
    ensures ListTriples([head] + rest, last)
         == ListTriples(rest, last) + [LinkTriple(|rest| + 1, last), ItemTriple(last + |rest|, head)]
  {
    assert ([head] + rest)[1..] == rest;
  }

  lemma {:induction false} ObjectsGive(subject: Term, verb: Term, nodes: seq<Node>, first: nat, x: Triple)
    ensures var meaning := MeaningOfNodes(nodes, first);
            Times(meaning.triples, x) + Times(Attribute(subject, PairsOf(verb, meaning.nodes)), x)
            == Times(Objects(subject, verb, nodes, first), x)
    decreases nodes, 0
  {
    if nodes != [] {
      var head := MeaningOfNode(nodes[0], first);
      NodeTakes(nodes[0], first);
      NodeGives(nodes[0], first, x);
      ObjectsGive(subject, verb, nodes[1..], head.next, x);
      NextObjectGives(subject, verb, nodes, first, x, head, MeaningOfNodes(nodes[1..], head.next));
    }
  }

  lemma NextObjectGives(subject: Term, verb: Term, nodes: seq<Node>, first: nat, x: Triple, head: NodeMeaning,
                        rest: NodesMeaning)
    requires nodes != [] && head == MeaningOfNode(nodes[0], first) && head.node == Element(nodes[0], first)
    requires head.next == first + LabelsOf(nodes[0]) && rest == MeaningOfNodes(nodes[1..], head.next)
    requires Times(head.triples, x) == Times(Inside(nodes[0], first), x)
    requires Times(rest.triples, x) + Times(Attribute(subject, PairsOf(verb, rest.nodes)), x)
          == Times(Objects(subject, verb, nodes[1..], head.next), x)
    ensures var meaning := MeaningOfNodes(nodes, first);
            Times(meaning.triples, x) + Times(Attribute(subject, PairsOf(verb, meaning.nodes)), x)
            == Times(Objects(subject, verb, nodes, first), x)
  {
    MeaningOfNodesIs(nodes, first, head, rest);
    PairsFirst(verb, head.node, rest.nodes);
    AttributeFirst(subject, (verb, head.node), PairsOf(verb, rest.nodes));
    TimesAdds(head.triples, rest.triples, x);
    TimesAdds([Triple(subject, verb, head.node)], Attribute(subject, PairsOf(verb, rest.nodes)), x);
    TimesOfThree([Triple(subject, verb, head.node)], Inside(nodes[0], first),
                 Objects(subject, verb, nodes[1..], head.next), x);
  }

  lemma {:induction false} ClausesGive(subject: Term, clauses: seq<Clause>, first: nat, x: Triple)
    ensures var meaning := MeaningOfClauses(clauses, first);
            Times(meaning.triples, x) + Times(Attribute(subject, meaning.pairs), x)
            == Times(Under(subject, clauses, first), x)
    decreases clauses, 0
  {
    if clauses != [] {
      var head := MeaningOfNodes(clauses[0].objects, first);
      NodesTake(clauses[0].objects, first);
      ObjectsGive(subject, clauses[0].verb, clauses[0].objects, first, x);
      ClausesGive(subject, clauses[1..], head.next, x);
      NextClauseGives(subject, clauses, first, x, head, MeaningOfClauses(clauses[1..], head.next));
    }
  }

  lemma NextClauseGives(subject: Term, clauses: seq<Clause>, first: nat, x: Triple, head: NodesMeaning,
                        rest: ClausesMeaning)
    requires clauses != [] && head == MeaningOfNodes(clauses[0].objects, first)
    requires head.next == first + LabelsOfAll(clauses[0].objects) && rest == MeaningOfClauses(clauses[1..], head.next)
    requires Times(head.triples, x) + Times(Attribute(subject, PairsOf(clauses[0].verb, head.nodes)), x)
          == Times(Objects(subject, clauses[0].verb, clauses[0].objects, first), x)
    requires Times(rest.triples, x) + Times(Attribute(subject, rest.pairs), x)
          == Times(Under(subject, clauses[1..], head.next), x)
    ensures var meaning := MeaningOfClauses(clauses, first);
            Times(meaning.triples, x) + Times(Attribute(subject, meaning.pairs), x)
            == Times(Under(subject, clauses, first), x)
  {
    var own := PairsOf(clauses[0].verb, head.nodes);
    UnderUnfolds(subject, clauses, first, head.next);
    PairsUnfold(clauses, first, head, rest);
    AttributeAdds(subject, own, rest.pairs);
    TimesAdds(head.triples, rest.triples, x);
    TimesAdds(Attribute(subject, own), Attribute(subject, rest.pairs), x);
    TimesAdds(Objects(subject, clauses[0].verb, clauses[0].objects, first), Under(subject, clauses[1..], head.next), x);
  }

  lemma UnderUnfolds(subject: Term, clauses: seq<Clause>, first: nat, next: nat)
    requires clauses != [] && next == first + LabelsOfAll(clauses[0].objects)
    ensures Under(subject, clauses, first)
         == Objects(subject, clauses[0].verb, clauses[0].objects, first) + Under(subject, clauses[1..], next)
  {
  }

  lemma PairsUnfold(clauses: seq<Clause>, first: nat, head: NodesMeaning, rest: ClausesMeaning)
    requires clauses != [] && head == MeaningOfNodes(clauses[0].objects, first)
    requires rest == MeaningOfClauses(clauses[1..], head.next)
    ensures MeaningOfClauses(clauses, first).triples == head.triples + rest.triples
    ensures MeaningOfClauses(clauses, first).pairs == PairsOf(clauses[0].verb, head.nodes) + rest.pairs
  {
  }

  lemma StatementGives(statement: Statement, first: nat, x: Triple)
    ensures Times(MeaningOfStatement(statement, first).triples, x) == Times(InStatement(statement, first), x)
  {
    var subject := MeaningOfNode(statement.subject, first);
    NodeTakes(statement.subject, first);
    NodeGives(statement.subject, first, x);
    ClausesGive(subject.node, statement.body, subject.next, x);
    BodyGives(statement, first, x, subject, MeaningOfClauses(statement.body, subject.next));
  }

  lemma BodyGives(statement: Statement, first: nat, x: Triple, subject: NodeMeaning, body: ClausesMeaning)
    requires subject == MeaningOfNode(statement.subject, first) && subject.node == Element(statement.subject, first)
    requires subject.next == first + LabelsOf(statement.subject)
    requires body == MeaningOfClauses(statement.body, subject.next)
    requires Times(subject.triples, x) == Times(Inside(statement.subject, first), x)
    requires Times(body.triples, x) + Times(Attribute(subject.node, body.pairs), x)
          == Times(Under(subject.node, statement.body, subject.next), x)
    ensures Times(MeaningOfStatement(statement, first).triples, x) == Times(InStatement(statement, first), x)
  {
    TimesOfThree(subject.triples, body.triples, Attribute(subject.node, body.pairs), x);
    TimesAdds(Inside(statement.subject, first), Under(subject.node, statement.body, subject.next), x);
  }

  lemma {:induction false} DocumentGives(document: seq<Statement>, first: nat, x: Triple)
    ensures Times(MeaningOfDocument(document, first).triples, x) == Times(InDocument(document, first), x)
  {
    if document != [] {
      var head := MeaningOfStatement(document[0], first);
      StatementGives(document[0], first, x);
      DocumentGives(document[1..], head.next, x);
      StatementTakes(document[0], first);
      MeaningUnfolds(document, first, head);
      TimesAdds(head.triples, MeaningOfDocument(document[1..], head.next).triples, x);
      TimesAdds(InStatement(document[0], first), InDocument(document[1..], head.next), x);
    }
  }

  lemma StatementTakes(statement: Statement, first: nat)
    ensures MeaningOfStatement(statement, first).next == LabelAfter(statement, first)
  {
    NodeTakes(statement.subject, first);
    ClausesTake(statement.body, first + LabelsOf(statement.subject));
  }

  lemma MeaningUnfolds(document: seq<Statement>, first: nat, head: NodeMeaning)
    requires document != [] && head == MeaningOfStatement(document[0], first)
    ensures MeaningOfDocument(document, first).triples
         == head.triples + MeaningOfDocument(document[1..], head.next).triples
  {
  }

  lemma WrittenIsMeant(document: seq<Statement>, first: nat)
    ensures multiset(MeaningOfDocument(document, first).triples) == multiset(InDocument(document, first))
  {
    forall x: Triple
      ensures multiset(MeaningOfDocument(document, first).triples)[x] == multiset(InDocument(document, first))[x]
    {
      DocumentGives(document, first, x);
      TimesIs(MeaningOfDocument(document, first).triples, x);
      TimesIs(InDocument(document, first), x);
    }
  }

  /** Main result: the queue of a safe document is a permutation of its triples written out one by one. */
  lemma SafeDocumentIsWritten(document: seq<Statement>)
    requires DerivableDocument(document) && SafeDocument(document)
    ensures multiset(RunDocument(document, START).queue) == multiset(InDocument(document, 1))
  {
    SafeDocumentIsExact(document, START);
    WrittenIsMeant(document, 1);
    assert START.queue + MeaningOfDocument(document, 1).triples == MeaningOfDocument(document, 1).triples;
  }

  // ---- For every document: the verbs with the elements of their objects, whatever the subjects.

  lemma BagWithout(triples: seq<Triple>, i: nat)
    requires i < |triples|
    ensures multiset(triples) == multiset(triples[..i] + triples[i + 1..]) + multiset{triples[i]}
    ensures Bag(triples)
         == Bag(triples[..i] + triples[i + 1..]) + multiset{(triples[i].predicate_, triples[i].object_)}
  {
    var a, b := triples[..i], triples[i + 1..];
    assert triples == a + [triples[i]] + b;
    assert Erase(triples) == Erase(a) + [(triples[i].predicate_, triples[i].object_)] + Erase(b);
    assert Erase(a + b) == Erase(a) + Erase(b);
  }

  lemma Remainders(a: multiset<Triple>, b: multiset<Triple>, a': multiset<Triple>, b': multiset<Triple>, x: Triple)
    requires a == b && a == a' + multiset{x} && b == b' + multiset{x}
    ensures a' == b'
  {
    assert a' == a - multiset{x} && b' == b - multiset{x};
  }

  lemma {:induction false} SameBag(a: seq<Triple>, b: seq<Triple>)
    requires multiset(a) == multiset(b)
    ensures Bag(a) == Bag(b)
    decreases |a|
  {
    if a == [] {
      assert |multiset(b)| == 0;
      assert b == [];
    } else {
      assert a[0] in multiset(b);
      var j: nat :| j < |b| && b[j] == a[0];
      var a', b' := a[..0] + a[1..], b[..j] + b[j + 1..];
      BagWithout(a, 0);
      BagWithout(b, j);
      Remainders(multiset(a), multiset(b), multiset(a'), multiset(b'), a[0]);
      SameBag(a', b');
    }
  }

  /**
   Main result, with no condition on the nesting: the queue has, for each object of each clause at any depth, the
   verb with the element of that object, and for each cell its item and its link, each as often as written.
   */
  lemma PairsAreWritten(document: seq<Statement>)
    requires DerivableDocument(document)
    ensures Bag(RunDocument(document, START).queue) == Bag(InDocument(document, 1))
  {
    DocumentConserves(document);
    WrittenIsMeant(document, 1);
    SameBag(MeaningOfDocument(document, 1).triples, InDocument(document, 1));
  }
}
