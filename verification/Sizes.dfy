/** How many triples a statement makes: from its syntax alone, and in every run. */
module Sizes {
  import opened Terms
  import opened Turtle
  import opened Reference
  import opened Machine
  import opened Documents
  import opened Conservation

  /** What a statement inserts, between two reports to the reading thread. */
  function Inserted(statement: Statement, m: Machine): seq<Triple>
    requires m.open != []
  {
    RunStatement(statement, m).queue[|m.queue|..]
  }

  lemma InsertedIsAdded(statement: Statement, m: Machine)
    requires m.open != []
    ensures m.queue + Inserted(statement, m) == RunStatement(statement, m).queue
  {
  }

  function NodeSize(node: Node): nat
    decreases node, 1
  {
    match node
    case Given(_) => 0
    case Anon => 0
    case Collection(items) => NodesSize(items) + if items == [] then 1 else 2 * |items|
    case Properties(clauses) => ClausesSize(clauses) + ObjectCount(clauses)
  }

  function NodesSize(nodes: seq<Node>): nat
    decreases nodes, 0
  {
    if nodes == [] then 0 else NodeSize(nodes[0]) + NodesSize(nodes[1..])
  }

  function ObjectCount(clauses: seq<Clause>): nat {
    if clauses == [] then 0 else |clauses[0].objects| + ObjectCount(clauses[1..])
  }

  function ClausesSize(clauses: seq<Clause>): nat
    decreases clauses, 0
  {
    if clauses == [] then 0 else NodesSize(clauses[0].objects) + ClausesSize(clauses[1..])
  }

  function StatementSize(statement: Statement): nat {
    NodeSize(statement.subject) + ClausesSize(statement.body) + ObjectCount(statement.body)
  }

  lemma {:induction false} NodeSizeIs(node: Node, first: nat)
    ensures |MeaningOfNode(node, first).triples| == NodeSize(node)
    decreases node, 1
  {
    match node
    case Given(_) =>
    case Anon =>
    case Collection(items) => NodesSizeIs(items, first);
    case Properties(clauses) => ClausesSizeIs(clauses, first);
  }

  lemma {:induction false} NodesSizeIs(nodes: seq<Node>, first: nat)
    ensures |MeaningOfNodes(nodes, first).triples| == NodesSize(nodes)
    decreases nodes, 0
  {
    if nodes != [] {
      NodeSizeIs(nodes[0], first);
      NodesSizeIs(nodes[1..], MeaningOfNode(nodes[0], first).next);
    }
  }

  lemma {:induction false} ClausesSizeIs(clauses: seq<Clause>, first: nat)
    ensures |MeaningOfClauses(clauses, first).triples| == ClausesSize(clauses)
    ensures |MeaningOfClauses(clauses, first).pairs| == ObjectCount(clauses)
    decreases clauses, 0
  {
    if clauses != [] {
      NodesSizeIs(clauses[0].objects, first);
      ClausesSizeIs(clauses[1..], MeaningOfNodes(clauses[0].objects, first).next);
    }
  }

  lemma StatementSizeIs(statement: Statement, first: nat)
    ensures |MeaningOfStatement(statement, first).triples| == StatementSize(statement)
  {
    NodeSizeIs(statement.subject, first);
    ClausesSizeIs(statement.body, MeaningOfNode(statement.subject, first).next);
  }

  lemma SameBagSameLength(a: seq<Pair>, b: seq<Pair>)
    requires multiset(a) == multiset(b)
    ensures |a| == |b|
  {
    assert |multiset(a)| == |a| && |multiset(b)| == |b|;
  }

  /** Even where subjects go wrong, a statement inserts as many triples as its syntax says. */
  lemma InsertedSize(statement: Statement, m: Machine)
    requires DerivableStatement(statement) && Idle(m)
    ensures |Inserted(statement, m)| == StatementSize(statement)
  {
    var meaning := MeaningOfStatement(statement, m.next).triples;
    forall x: Pair
      ensures multiset(Erase(RunStatement(statement, m).queue))[x] == multiset(Erase(m.queue + meaning))[x]
    {
      StatementConservesOne(statement, m, x);
      EmittedAdds(m.queue, meaning, x);
    }
    SameBagSameLength(Erase(RunStatement(statement, m).queue), Erase(m.queue + meaning));
    StatementSizeIs(statement, m.next);
  }
}
