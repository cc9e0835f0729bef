/**
 Without any condition on the nesting: a missed save may give a pair to the wrong subject, but no
 verb-object pair is ever lost or emitted twice.
 */
module Conservation {
  import opened Terms
  import Labels
  import opened Turtle
  import opened Reference
  import opened Machine
  import opened StackLaw
  import opened Attribution
  import opened Documents

  /** The triples without their subjects. */
  function Erase(triples: seq<Triple>): (r: seq<Pair>)
    ensures |r| == |triples|
  {
    seq(|triples|, i requires 0 <= i < |triples| => (triples[i].predicate_, triples[i].object_))
  }

  ghost function Bag(triples: seq<Triple>): multiset<Pair> {
    multiset(Erase(triples))
  }

  /** How often one pair occurs in a list of pairs, in emitted triples, and in the lists still open. */
  ghost function Count(pairs: seq<Pair>, x: Pair): nat {
    multiset(pairs)[x]
  }

  ghost function Emitted(triples: seq<Triple>, x: Pair): nat {
    Count(Erase(triples), x)
  }

  ghost function Pending(open: seq<seq<Pair>>, x: Pair): nat {
    if open == [] then 0 else Pending(Below(open), x) + Count(Top(open), x)
  }

  /** Everything emitted or still to be emitted. */
  ghost function Total(m: Machine, x: Pair): nat {
    Emitted(m.queue, x) + Pending(m.open, x)
  }

  lemma CountAdds(a: seq<Pair>, b: seq<Pair>, x: Pair)
    ensures Count(a + b, x) == Count(a, x) + Count(b, x)
  {
  }

  lemma EmittedAdds(a: seq<Triple>, b: seq<Triple>, x: Pair)
    ensures Emitted(a + b, x) == Emitted(a, x) + Emitted(b, x)
  {
    assert Erase(a + b) == Erase(a) + Erase(b);
  }

  lemma EmittedOfAttribute(subject: Term, pairs: seq<Pair>, x: Pair)
    ensures Emitted(Attribute(subject, pairs), x) == Count(pairs, x)
  {
    assert Erase(Attribute(subject, pairs)) == pairs;
  }

  lemma PendingCloses(open: seq<seq<Pair>>, x: Pair)
    requires open != []
    ensures Pending(open, x) == Pending(Close(open), x) + Count(Top(open), x)
  {
  }

  lemma PendingAdds(open: seq<seq<Pair>>, pairs: seq<Pair>, x: Pair)
    requires open != []
    ensures Pending(AddTop(open, pairs), x) == Pending(open, x) + Count(pairs, x)
  {
  }

  lemma PendingSaves(open: seq<seq<Pair>>, x: Pair)
    ensures Pending(open + [[]], x) == Pending(open, x)
  {
  }

  lemma {:induction false} NodeConserves(node: Node, m: Machine, x: Pair)
    requires DerivableNode(node) && Ready(m)
    ensures Total(RunNode(node, m), x) == Total(m, x) + Emitted(MeaningOfNode(node, m.next).triples, x)
    decreases node, 1
  {
    match node
    case Given(_) =>
    case Anon =>
    case Collection(items) =>
      NodesConserve(items, Begin(m), x);
      CollectionQueue(items, m);
      var inner := MeaningOfNodes(items, m.next);
      var list := CollectionMeaning(inner.nodes, inner.next);
      EmittedAdds(RunNodes(items, Begin(m)).queue, list.triples, x);
      EmittedAdds(inner.triples, list.triples, x);
    case Properties(clauses) =>
      ClausesConserve(clauses, Begin(m), x);
      RunClausesLaw(clauses, Begin(m), OpenForVerb(m));
      PropertiesConserve(clauses, m, RunClauses(clauses, Begin(m)), x);
  }

  lemma PropertiesConserve(clauses: seq<Clause>, m: Machine, inner: Machine, x: Pair)
    requires m.open != [] && inner.open != [] && inner.outer != []
    requires inner.next == MeaningOfClauses(clauses, m.next).next
    requires var meaning := MeaningOfClauses(clauses, m.next);
             Total(inner, x) == Total(m, x) + Emitted(meaning.triples, x) + Count(meaning.pairs, x)
    ensures Total(FinishProperties(inner), x)
            == Total(m, x) + Emitted(MeaningOfNode(Properties(clauses), m.next).triples, x)
  {
    var meaning := MeaningOfClauses(clauses, m.next);
    var subject := Labels.Generated(inner.next);
    PendingCloses(inner.open, x);
    EmittedAdds(inner.queue, Attribute(subject, Top(inner.open)), x);
    EmittedAdds(meaning.triples, Attribute(subject, meaning.pairs), x);
    EmittedOfAttribute(subject, Top(inner.open), x);
    EmittedOfAttribute(subject, meaning.pairs, x);
  }

  lemma {:induction false} NodesConserve(nodes: seq<Node>, m: Machine, x: Pair)
    requires DerivableNodes(nodes) && Ready(m)
    ensures Total(RunNodes(nodes, m), x) == Total(m, x) + Emitted(MeaningOfNodes(nodes, m.next).triples, x)
    decreases nodes, 0
  {
    if nodes != [] {
      NodeConserves(nodes[0], m, x);
      RunNodeLaw(nodes[0], m);
      var head := PushObject(RunNode(nodes[0], m));
      NodesConserve(nodes[1..], head, x);
      EmittedAdds(MeaningOfNode(nodes[0], m.next).triples, MeaningOfNodes(nodes[1..], head.next).triples, x);
    }
  }

  lemma {:induction false} ClausesConserve(clauses: seq<Clause>, m: Machine, x: Pair)
    requires DerivableClauses(clauses) && Ready(m) && m.objects == []
    ensures var meaning := MeaningOfClauses(clauses, m.next);
            Total(RunClauses(clauses, m), x) == Total(m, x) + Emitted(meaning.triples, x) + Count(meaning.pairs, x)
    decreases clauses, 0
  {
    if clauses != [] {
      var pushed := PushVerb(m.(element := clauses[0].verb));
      PendingSaves(m.open, x);
      NodesConserve(clauses[0].objects, pushed, x);
      RunNodesLaw(clauses[0].objects, pushed);
      var read := RunNodes(clauses[0].objects, pushed);
      var objects := MeaningOfNodes(clauses[0].objects, m.next);
      assert read.objects == objects.nodes;
      PendingAdds(read.open, PairsOf(clauses[0].verb, objects.nodes), x);
      var head := RunClause(clauses[0], m);
      ClausesConserve(clauses[1..], head, x);
      CountAdds(PairsOf(clauses[0].verb, objects.nodes), MeaningOfClauses(clauses[1..], head.next).pairs, x);
      EmittedAdds(objects.triples, MeaningOfClauses(clauses[1..], head.next).triples, x);
    }
  }

  lemma StatementConservesOne(statement: Statement, m: Machine, x: Pair)
    requires DerivableStatement(statement) && Idle(m)
    ensures Emitted(RunStatement(statement, m).queue, x)
            == Emitted(m.queue, x) + Emitted(MeaningOfStatement(statement, m.next).triples, x)
  {
    var subject := RunSubject(statement.subject, m);
    var body := RunClauses(statement.body, subject);
    NodeConserves(statement.subject, m, x);
    RunNodeLaw(statement.subject, m);
    NothingPending(MissedByNode(statement.subject, false));
    ClausesConserve(statement.body, subject, x);
    RunClausesLaw(statement.body, subject, [[]]);
    CloseForgetsTop(statement.body, [[]], subject.next);
    NothingPending(MissedByClauses(statement.body));
    assert Below(body.open) == [];
    var none: seq<Pair> := [];
    assert Below([none]) == [] && Top([none]) == none;
    EmissionConserves(statement, m, body, x);
  }

  lemma EmissionConserves(statement: Statement, m: Machine, body: Machine, x: Pair)
    requires DerivableStatement(statement) && Idle(m)
    requires body == RunClauses(statement.body, RunSubject(statement.subject, m))
    requires var node := MeaningOfNode(statement.subject, m.next);
             var meaning := MeaningOfClauses(statement.body, node.next);
             Emitted(body.queue, x) + Count(Top(body.open), x)
             == Emitted(m.queue, x) + Emitted(node.triples, x) + Emitted(meaning.triples, x) + Count(meaning.pairs, x)
    ensures Emitted(RunStatement(statement, m).queue, x)
            == Emitted(m.queue, x) + Emitted(MeaningOfStatement(statement, m.next).triples, x)
  {
    var node := MeaningOfNode(statement.subject, m.next);
    var meaning := MeaningOfClauses(statement.body, node.next);
    var found := FoundSubject(statement, m);
    RunStatementQueue(statement, m);
    EmittedAdds(body.queue, Attribute(found, Top(body.open)), x);
    EmittedOfAttribute(found, Top(body.open), x);
    EmittedOfAttribute(node.node, meaning.pairs, x);
    EmittedAdds(node.triples, meaning.triples, x);
    EmittedAdds(node.triples + meaning.triples, Attribute(node.node, meaning.pairs), x);
  }

  lemma {:induction false} DocumentConservesOne(document: seq<Statement>, m: Machine, x: Pair)
    requires DerivableDocument(document) && Idle(m)
    ensures Emitted(RunDocument(document, m).queue, x)
            == Emitted(m.queue, x) + Emitted(MeaningOfDocument(document, m.next).triples, x)
  {
    if document != [] {
      StatementConservesOne(document[0], m, x);
      StatementRestoresIdle(document[0], m);
      var r := RunStatement(document[0], m);
      DocumentConservesOne(document[1..], r, x);
      EmittedAdds(MeaningOfStatement(document[0], m.next).triples, MeaningOfDocument(document[1..], r.next).triples, x);
    }
  }

  /** Main result: with no condition on the nesting, the queue holds every verb-object pair as often as meant. */
  lemma DocumentConserves(document: seq<Statement>)
    requires DerivableDocument(document)
    ensures Bag(RunDocument(document, START).queue) == Bag(MeaningOfDocument(document, 1).triples)
  {
    forall x: Pair
      ensures Bag(RunDocument(document, START).queue)[x] == Bag(MeaningOfDocument(document, 1).triples)[x]
    {
      DocumentConservesOne(document, START, x);
    }
  }
}
