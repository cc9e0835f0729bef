/**
 Which state operation each grammar rule triggers. A rule's own action comes after the actions of its parts,
 so one call tree below is one successful derivation.
 */
module Actions {
  import opened Terms
  import opened Turtle
  import opened Machine
  import opened States
  import opened Documents

  /** The parts of an object or subject that leave it in element. */
  method MatchNode(node: Node, s: State)
    modifies s
    ensures s.Snapshot() == RunNode(node, old(s.Snapshot()))
    decreases node, 1
  {
    match node
    case Given(term) =>
      s.SetElement(term);
    case Anon =>
      var name := s.CreateBlankNodeLabel();
      s.SetElement(BNode(name));
    case Collection(items) =>
      s.MoveObjectsIntoStack();
      ghost var begun := s.Snapshot();
      MatchObjects(items, s);
      assert s.objectsStack == begun.outer;
      s.ProcessCollection();
    case Properties(clauses) =>
      s.MoveObjectsIntoStack();
      ghost var begun := s.Snapshot();
      MatchClauses(clauses, s);
      assert s.objectsStack == begun.outer;
      s.ProcessBlankNodePropertyList();
  }

  method MatchObjects(nodes: seq<Node>, s: State)
    modifies s
    ensures s.Snapshot() == RunNodes(nodes, old(s.Snapshot()))
    decreases nodes, 0
  {
    if nodes != [] {
      MatchNode(nodes[0], s);
      s.PushCurrentTermIntoObjects();
      MatchObjects(nodes[1..], s);
    }
  }

  method MatchClauses(clauses: seq<Clause>, s: State)
    modifies s
    ensures s.Snapshot() == RunClauses(clauses, old(s.Snapshot()))
    decreases clauses, 0
  {
    if clauses != [] {
      MatchClause(clauses[0], s);
      MatchClauses(clauses[1..], s);
    }
  }

  method MatchClause(clause: Clause, s: State)
    modifies s
    ensures s.Snapshot() == RunClause(clause, old(s.Snapshot()))
    decreases clause, 0
  {
    s.SetElement(clause.verb);
    s.ProcessVerb();
    ghost var pushed := s.Snapshot();
    MatchObjects(clause.objects, s);
    assert s.verbStack == pushed.verbs;
    s.ProcessPredicateObjectListInner();
  }

  /** A property list as subject takes the second form of a triple, every other subject the first. */
  method MatchStatement(statement: Statement, s: State)
    modifies s
    ensures s.Snapshot() == RunStatement(statement, old(s.Snapshot()))
  {
    MatchNode(statement.subject, s);
    if statement.subject.Properties? {
      MatchClauses(statement.body, s);
      s.SetSubject(s.firstList);
    } else {
      s.SetSubject(s.element);
      MatchClauses(statement.body, s);
    }
    s.ProcessTripleSeq();
    s.ClearTripleParameters();
  }

  method MatchDocument(document: seq<Statement>, s: State)
    modifies s
    ensures s.Snapshot() == RunDocument(document, old(s.Snapshot()))
  {
    for i := 0 to |document|
      invariant RunDocument(document[i..], s.Snapshot()) == RunDocument(document, old(s.Snapshot()))
    {
      MatchStatement(document[i], s);
      assert document[i..][1..] == document[i + 1..];
    }
  }
}
