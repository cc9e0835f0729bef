/** The shape of a successfully derived Turtle statement. */
module Turtle {
  import opened Terms

  /** An object: a term, an anonymous node, a collection or a blank-node property list. */
  datatype Node =
    | Given(term: Term)
    | Anon
    | Collection(items: seq<Node>)
    | Properties(clauses: seq<Clause>)

  /** One verb with its object list. */
  datatype Clause = Clause(verb: Term, objects: seq<Node>)

  /** A property list as subject may stand alone; any other subject needs a body. */
  datatype Statement = Statement(subject: Node, body: seq<Clause>)

  /** The grammar requires at least one clause in a list and one object after a verb. */
  predicate DerivableNode(node: Node)
    decreases node, 1
  {
    match node
    case Given(_) => true
    case Anon => true
    case Collection(items) => DerivableNodes(items)
    case Properties(clauses) => clauses != [] && DerivableClauses(clauses)
  }

  predicate DerivableNodes(nodes: seq<Node>)
    decreases nodes, 0
  {
    nodes == [] || (DerivableNode(nodes[0]) && DerivableNodes(nodes[1..]))
  }

  predicate DerivableClauses(clauses: seq<Clause>)
    decreases clauses, 0
  {
    clauses == [] ||
    (clauses[0].objects != [] && DerivableNodes(clauses[0].objects) && DerivableClauses(clauses[1..]))
  }

  predicate DerivableStatement(statement: Statement) {
    && DerivableNode(statement.subject) && DerivableClauses(statement.body)
    && (statement.subject.Properties? || statement.body != [])
  }

  /** Does the node open a property list, looking through collections? */
  predicate OpensList(node: Node)
    decreases node, 1
  {
    match node
    case Given(_) => false
    case Anon => false
    case Collection(items) => OpenSomeList(items)
    case Properties(_) => true
  }

  predicate OpenSomeList(nodes: seq<Node>)
    decreases nodes, 0
  {
    nodes != [] && (OpensList(nodes[0]) || OpenSomeList(nodes[1..]))
  }
}
