/**
 The meaning of a statement, written recursively in the manner of section 7.3 of RDF 1.1 Turtle,
 with the vocabulary terms of the program. A counter names the generated nodes: a node takes its
 label when it is finished, and the cells of a collection take theirs from last to first.
 */
module Reference {
  import opened Terms
  import opened Labels
  import opened Turtle

  const FIRST := URIRef("rdf:first")
  const REST := URIRef("rdf:rest")
  const NIL := URIRef("rdf:nil")

  type Pair = (Term, Term)

  datatype NodeMeaning = NodeMeaning(node: Term, triples: seq<Triple>, next: nat)
  datatype NodesMeaning = NodesMeaning(nodes: seq<Term>, triples: seq<Triple>, next: nat)
  datatype ClausesMeaning = ClausesMeaning(pairs: seq<Pair>, triples: seq<Triple>, next: nat)

  /** Gives every verb-object pair the subject of its own list. */
  function Attribute(subject: Term, pairs: seq<Pair>): (r: seq<Triple>)
    ensures |r| == |pairs|
  {
    seq(|pairs|, i requires 0 <= i < |pairs| => Triple(subject, pairs[i].0, pairs[i].1))
  }

  function PairsOf(verb: Term, nodes: seq<Term>): (r: seq<Pair>)
    ensures |r| == |nodes|
  {
    seq(|nodes|, i requires 0 <= i < |nodes| => (verb, nodes[i]))
  }

  /** The cells of a non-empty list; the cell of the last item takes label first. */
  function ListTriples(items: seq<Term>, first: nat): (r: seq<Triple>)
    ensures |r| == 2 * |items|
  {
    if items == [] then []
    else
      var cell := Generated(first + |items| - 1);
      var rest := if |items| == 1 then NIL else Generated(first + |items| - 2);
      ListTriples(items[1..], first) + [Triple(cell, REST, rest), Triple(cell, FIRST, items[0])]
  }

  /** An empty collection is not nil: it becomes a node whose first is nil. */
  function CollectionMeaning(items: seq<Term>, first: nat): NodeMeaning {
    if items == [] then
      NodeMeaning(Generated(first), [Triple(Generated(first), FIRST, NIL)], first + 1)
    else
      NodeMeaning(Generated(first + |items| - 1), ListTriples(items, first), first + |items|)
  }

  function MeaningOfNode(node: Node, first: nat): (r: NodeMeaning)
    ensures first <= r.next
    decreases node, 1
  {
    match node
    case Given(term) => NodeMeaning(term, [], first)
    case Anon => NodeMeaning(Generated(first), [], first + 1)
    case Collection(items) =>
      var inner := MeaningOfNodes(items, first);
      var list := CollectionMeaning(inner.nodes, inner.next);
      NodeMeaning(list.node, inner.triples + list.triples, list.next)
    case Properties(clauses) =>
      var inner := MeaningOfClauses(clauses, first);
      var subject := Generated(inner.next);
      NodeMeaning(subject, inner.triples + Attribute(subject, inner.pairs), inner.next + 1)
  }

  function MeaningOfNodes(nodes: seq<Node>, first: nat): (r: NodesMeaning)
    ensures first <= r.next && |r.nodes| == |nodes|
    decreases nodes, 0
  {
    if nodes == [] then NodesMeaning([], [], first)
    else
      var head := MeaningOfNode(nodes[0], first);
      var tail := MeaningOfNodes(nodes[1..], head.next);
      NodesMeaning([head.node] + tail.nodes, head.triples + tail.triples, tail.next)
  }

  function MeaningOfClauses(clauses: seq<Clause>, first: nat): (r: ClausesMeaning)
    ensures first <= r.next
    decreases clauses, 0
  {
    if clauses == [] then ClausesMeaning([], [], first)
    else
      var head := MeaningOfNodes(clauses[0].objects, first);
      var tail := MeaningOfClauses(clauses[1..], head.next);
      ClausesMeaning(PairsOf(clauses[0].verb, head.nodes) + tail.pairs, head.triples + tail.triples, tail.next)
  }

  /** A statement emits its subject, then its nested lists, then its own pairs. */
  function MeaningOfStatement(statement: Statement, first: nat): NodeMeaning {
    var subject := MeaningOfNode(statement.subject, first);
    var body := MeaningOfClauses(statement.body, subject.next);
    NodeMeaning(subject.node, subject.triples + body.triples + Attribute(subject.node, body.pairs), body.next)
  }
}
