/** Every collection of a whole document, at any depth, read back from the queue as it stands in the end. */
module DocumentLists {
  import opened Terms
  import opened Labels
  import opened Turtle
  import opened Reference
  import opened Machine
  import opened StackLaw
  import opened Attribution
  import opened Documents
  import opened Lists
  import opened Freshness

  predicate PlainVerb(verb: Term) {
    verb != FIRST && verb != REST
  }

  /**
   Nobody writes cells by hand: a statement uses the verbs of lists only under a subject written with a name of its
   own, not under a collection, a property list, an anonymous node or a label that looks generated.
   */
  predicate LeavesCellsAlone(statement: Statement) {
    || (statement.subject.Given? && !LooksMade(statement.subject.term))
    || (forall i :: 0 <= i < |statement.body| ==> PlainVerb(statement.body[i].verb))
  }

  // ---- Each non-empty collection, where it is read, and what following its cells in a queue gives.

  ghost predicate NodeReads(node: Node, m: Machine, queue: seq<Triple>)
    requires m.open != []
    decreases node, 1
  {
    match node
    case Given(_) => true
    case Anon => true
    case Collection(items) =>
      && NodesRead(items, Begin(m), queue)
      && (items != [] ==>
            ReadList(queue, RunNode(node, m).element, |items|) == Some(MeaningOfNodes(items, m.next).nodes))
    case Properties(clauses) => ClausesRead(clauses, Begin(m), queue)
  }

  ghost predicate NodesRead(nodes: seq<Node>, m: Machine, queue: seq<Triple>)
    requires m.open != []
    decreases nodes, 0
  {
    nodes == [] || (NodeReads(nodes[0], m, queue) && NodesRead(nodes[1..], PushObject(RunNode(nodes[0], m)), queue))
  }

  ghost predicate ClausesRead(clauses: seq<Clause>, m: Machine, queue: seq<Triple>)
    requires m.open != []
    decreases clauses, 0
  {
    clauses == []
    || (NodesRead(clauses[0].objects, PushVerb(m.(element := clauses[0].verb)), queue)
        && ClausesRead(clauses[1..], RunClause(clauses[0], m), queue))
  }

  ghost predicate StatementReads(statement: Statement, m: Machine, queue: seq<Triple>)
    requires m.open != []
  {
    NodeReads(statement.subject, m, queue) && ClausesRead(statement.body, RunSubject(statement.subject, m), queue)
  }

  ghost predicate DocumentReads(document: seq<Statement>, m: Machine, queue: seq<Triple>)
    requires m.open != []
  {
    document == []
    || (StatementReads(document[0], m, queue) && DocumentReads(document[1..], RunStatement(document[0], m), queue))
  }

  // ---- Cells before and after.

  /** No cell under a label still to come. */
  ghost predicate CellsBefore(queue: seq<Triple>, n: nat) {
    forall to: nat :: NoCells(queue, n, to)
  }

  /** The queue goes on to its last state without another cell under a label already taken. */
  ghost predicate GoesOn(queue: seq<Triple>, n: nat, last: seq<Triple>) {
    queue <= last && NoCells(last[|queue|..], 1, n)
  }

  lemma BeforeMore(q0: seq<Triple>, n0: nat, q1: seq<Triple>, n1: nat)
    requires CellsBefore(q0, n0) && AddsWithin(q0, n0, q1, n1)
    ensures CellsBefore(q1, n1)
  {
    forall to: nat
      ensures NoCells(q1, n1, to)
    {
      assert NoCells(q0, n0, to);
      EarlierIsOutside(q1[|q0|..], n0, n1, to);
      assert q0 + q1[|q0|..] == q1;
      FewerLabels(q0, n0, n1, to);
      JoinNoCells(q0, q1[|q0|..], n1, to);
    }
  }

  lemma JoinNoCells(a: seq<Triple>, b: seq<Triple>, from: nat, to: nat)
    requires NoCells(a, from, to) && NoCells(b, from, to)
    ensures NoCells(a + b, from, to)
  {
  }

  lemma GoesOnBefore(q0: seq<Triple>, n0: nat, q1: seq<Triple>, n1: nat, last: seq<Triple>)
    requires AddsWithin(q0, n0, q1, n1) && GoesOn(q1, n1, last)
    ensures GoesOn(q0, n0, last)
  {
    var own, rest := q1[|q0|..], last[|q1|..];
    WithinIsOutside(own, 1, n0, n0, n1);
    assert NoCells(rest, 1, n0);
    JoinNoCells(own, rest, 1, n0);
    assert last[|q0|..] == own + rest;
  }

  // ---- Nodes and clauses, whatever saves are missed.

  lemma CollectionAdds(items: seq<Node>, m: Machine)
    requires m.open != []
    ensures var inner := RunNodes(items, Begin(m));
            var r := RunNode(Collection(items), m);
            AddsWithin(inner.queue, inner.next, r.queue, r.next)
  {
    var inner := RunNodes(items, Begin(m));
    CollectionSubjects(inner.objects, inner.next);
    AddsOwn(inner.queue, CollectionMeaning(inner.objects, inner.next).triples, inner.next,
            CollectionMeaning(inner.objects, inner.next).next);
    CollectionUnfold(items, m);
  }

  lemma PropertiesAdd(clauses: seq<Clause>, m: Machine)
    requires m.open != []
    ensures var inner := RunClauses(clauses, Begin(m));
            var r := RunNode(Properties(clauses), m);
            AddsWithin(inner.queue, inner.next, r.queue, r.next)
  {
    var inner := RunClauses(clauses, Begin(m));
    PairsAdd(inner.queue, Top(inner.open), inner.next);
  }

  lemma CellsStand(items: seq<Node>, m: Machine, last: seq<Triple>)
    requires items != [] && DerivableNodes(items) && Ready(m) && m.next >= 1 && CellsBefore(m.queue, m.next)
    requires GoesOn(RunNode(Collection(items), m).queue, RunNode(Collection(items), m).next, last)
    ensures ReadList(last, RunNode(Collection(items), m).element, |items|) == Some(MeaningOfNodes(items, m.next).nodes)
  {
    var r := RunNode(Collection(items), m);
    var after := last[|r.queue|..];
    assert NoCells(m.queue, m.next, r.next);
    FewerLabels(after, 1, m.next, r.next);
    CollectionReadsBack(items, m, after);
    assert r.queue + after == last;
  }

  lemma {:induction false} NodeReadsBack(node: Node, m: Machine, last: seq<Triple>)
    requires DerivableNode(node) && Ready(m) && m.next >= 1 && CellsBefore(m.queue, m.next)
    requires GoesOn(RunNode(node, m).queue, RunNode(node, m).next, last)
    ensures NodeReads(node, m, last)
    decreases node, 1
  {
    match node
    case Given(_) =>
    case Anon =>
    case Collection(items) =>
      var inner := RunNodes(items, Begin(m));
      CollectionAdds(items, m);
      GoesOnBefore(inner.queue, inner.next, RunNode(node, m).queue, RunNode(node, m).next, last);
      NodesReadBack(items, Begin(m), last);
      if items != [] {
        CellsStand(items, m, last);
      }
    case Properties(clauses) =>
      var inner := RunClauses(clauses, Begin(m));
      PropertiesAdd(clauses, m);
      GoesOnBefore(inner.queue, inner.next, RunNode(node, m).queue, RunNode(node, m).next, last);
      ClausesReadBack(clauses, Begin(m), last);
  }

  lemma {:induction false} NodesReadBack(nodes: seq<Node>, m: Machine, last: seq<Triple>)
    requires DerivableNodes(nodes) && Ready(m) && m.next >= 1 && CellsBefore(m.queue, m.next)
    requires GoesOn(RunNodes(nodes, m).queue, RunNodes(nodes, m).next, last)
    ensures NodesRead(nodes, m, last)
    decreases nodes, 0
  {
    if nodes != [] {
      var head := PushObject(RunNode(nodes[0], m));
      RunNodeLaw(nodes[0], m);
      NodeAdds(nodes[0], m);
      NodesAdd(nodes[1..], head);
      BeforeMore(m.queue, m.next, head.queue, head.next);
      GoesOnBefore(head.queue, head.next, RunNodes(nodes, m).queue, RunNodes(nodes, m).next, last);
      NodeReadsBack(nodes[0], m, last);
      NodesReadBack(nodes[1..], head, last);
    }
  }

  lemma ClauseAdds(clause: Clause, m: Machine)
    requires m.open != []
    ensures var read := RunNodes(clause.objects, PushVerb(m.(element := clause.verb)));
            var head := RunClause(clause, m);
            && head.queue == read.queue && head.next == read.next
            && AddsWithin(m.queue, m.next, head.queue, head.next)
  {
    NodesAdd(clause.objects, PushVerb(m.(element := clause.verb)));
  }

  lemma {:induction false} ClausesReadBack(clauses: seq<Clause>, m: Machine, last: seq<Triple>)
    requires DerivableClauses(clauses) && Ready(m) && m.objects == [] && m.next >= 1 && CellsBefore(m.queue, m.next)
    requires GoesOn(RunClauses(clauses, m).queue, RunClauses(clauses, m).next, last)
    ensures ClausesRead(clauses, m, last)
    decreases clauses, 0
  {
    if clauses != [] {
      var head := RunClause(clauses[0], m);
      RunClauseLaw(clauses[0], m);
      ClauseAdds(clauses[0], m);
      ClausesAdd(clauses[1..], head);
      BeforeMore(m.queue, m.next, head.queue, head.next);
      GoesOnBefore(head.queue, head.next, RunClauses(clauses, m).queue, RunClauses(clauses, m).next, last);
      NodesReadBack(clauses[0].objects, PushVerb(m.(element := clauses[0].verb)), last);
      ClausesReadBack(clauses[1..], head, last);
    }
  }

  // ---- A statement's own pairs.

  ghost predicate PlainPairs(pairs: seq<Pair>) {
    forall i :: 0 <= i < |pairs| ==> PlainVerb(pairs[i].0)
  }

  ghost predicate AllPlain(open: seq<seq<Pair>>) {
    forall i :: 0 <= i < |open| ==> PlainPairs(open[i])
  }

  lemma {:induction false} PlainWhenLeft(open: seq<seq<Pair>>, n: nat)
    requires open != [] && AllPlain(open)
    ensures AllPlain(CloseTimes(open, n))
    decreases n
  {
    if n > 0 {
      PlainWhenLeft(Close(open), n - 1);
    }
  }

  lemma {:induction false} PlainWhenRead(clauses: seq<Clause>, open: seq<seq<Pair>>, first: nat)
    requires open != [] && AllPlain(open) && forall i :: 0 <= i < |clauses| ==> PlainVerb(clauses[i].verb)
    ensures AllPlain(OpenAfter(clauses, open, first))
    decreases clauses
  {
    if clauses != [] {
      var objects := MeaningOfNodes(clauses[0].objects, first);
      var closed := CloseTimes(open, MissedByNodes(clauses[0].objects, true));
      PlainWhenLeft(open, MissedByNodes(clauses[0].objects, true));
      PlainWhenRead(clauses[1..], AddTop(closed, PairsOf(clauses[0].verb, objects.nodes)), objects.next);
    }
  }

  lemma PlainBodyEnds(statement: Statement, m: Machine)
    requires DerivableStatement(statement) && Idle(m)
    requires forall i :: 0 <= i < |statement.body| ==> PlainVerb(statement.body[i].verb)
    ensures PlainPairs(Top(RunClauses(statement.body, RunSubject(statement.subject, m)).open))
  {
    var subject := RunSubject(statement.subject, m);
    BodyLaw(statement, m);
    PlainWhenRead(statement.body, [[]], subject.next);
  }

  lemma WrittenIsFound(statement: Statement, m: Machine)
    requires DerivableStatement(statement) && Idle(m) && statement.subject.Given?
    ensures FoundSubject(statement, m) == statement.subject.term
  {
    BodyOutcome(statement, m);
  }

  lemma NoCellsUnder(subject: Term, pairs: seq<Pair>, from: nat, to: nat)
    requires from >= 1 && (PlainPairs(pairs) || !LooksMade(subject))
    ensures NoCells(Attribute(subject, pairs), from, to)
  {
    if !LooksMade(subject) && GeneratedBetween(subject, from, to) {
      var n: nat :| from <= n < to && subject == Generated(n);
      WrittenIsNotMade(subject, n);
    }
  }

  /** They are no cells, or they have a subject that was never generated. */
  lemma OwnPairsAreNoCells(statement: Statement, m: Machine, from: nat, to: nat)
    requires DerivableStatement(statement) && Idle(m) && LeavesCellsAlone(statement) && from >= 1
    ensures var body := RunClauses(statement.body, RunSubject(statement.subject, m));
            NoCells(Attribute(FoundSubject(statement, m), Top(body.open)), from, to)
  {
    if statement.subject.Given? && !LooksMade(statement.subject.term) {
      WrittenIsFound(statement, m);
    } else {
      PlainBodyEnds(statement, m);
    }
    var body := RunClauses(statement.body, RunSubject(statement.subject, m));
    NoCellsUnder(FoundSubject(statement, m), Top(body.open), from, to);
  }

  lemma StatementGoesOn(statement: Statement, m: Machine, last: seq<Triple>)
    requires DerivableStatement(statement) && Idle(m) && LeavesCellsAlone(statement)
    requires GoesOn(RunStatement(statement, m).queue, RunStatement(statement, m).next, last)
    ensures var body := RunClauses(statement.body, RunSubject(statement.subject, m));
            GoesOn(body.queue, body.next, last)
  {
    var body := RunClauses(statement.body, RunSubject(statement.subject, m));
    var own := Attribute(FoundSubject(statement, m), Top(body.open));
    RunStatementQueue(statement, m);
    OwnPairsAreNoCells(statement, m, 1, body.next);
    GoesOnPast(body.queue, own, body.next, last);
  }

  lemma GoesOnPast(queue: seq<Triple>, own: seq<Triple>, n: nat, last: seq<Triple>)
    requires GoesOn(queue + own, n, last) && NoCells(own, 1, n)
    ensures GoesOn(queue, n, last)
  {
    var rest := last[|queue + own|..];
    JoinNoCells(own, rest, 1, n);
    assert last[|queue|..] == own + rest;
  }

  lemma StatementBefore(statement: Statement, m: Machine)
    requires DerivableStatement(statement) && Idle(m) && LeavesCellsAlone(statement)
    requires m.next >= 1 && CellsBefore(m.queue, m.next)
    ensures CellsBefore(RunStatement(statement, m).queue, RunStatement(statement, m).next)
  {
    var body := RunClauses(statement.body, RunSubject(statement.subject, m));
    BodyAdds(statement, m);
    BeforeMore(m.queue, m.next, body.queue, body.next);
    RunStatementQueue(statement, m);
    forall to: nat
      ensures NoCells(RunStatement(statement, m).queue, body.next, to)
    {
      OwnPairsAreNoCells(statement, m, body.next, to);
      JoinNoCells(body.queue, Attribute(FoundSubject(statement, m), Top(body.open)), body.next, to);
    }
  }

  lemma StatementReadsBack(statement: Statement, m: Machine, last: seq<Triple>)
    requires DerivableStatement(statement) && Idle(m) && LeavesCellsAlone(statement)
    requires m.next >= 1 && CellsBefore(m.queue, m.next)
    requires GoesOn(RunStatement(statement, m).queue, RunStatement(statement, m).next, last)
    ensures StatementReads(statement, m, last)
  {
    var subject := RunSubject(statement.subject, m);
    var body := RunClauses(statement.body, subject);
    StatementGoesOn(statement, m, last);
    NodeAdds(statement.subject, m);
    ClausesAdd(statement.body, subject);
    BeforeMore(m.queue, m.next, subject.queue, subject.next);
    GoesOnBefore(subject.queue, subject.next, body.queue, body.next, last);
    BodyLaw(statement, m);
    NodeReadsBack(statement.subject, m, last);
    ClausesReadBack(statement.body, subject, last);
  }

  predicate CellsLeftAlone(document: seq<Statement>) {
    forall i :: 0 <= i < |document| ==> LeavesCellsAlone(document[i])
  }

  /** The rest of a document adds no cell under a label taken before it. */
  lemma {:induction false} DocumentGoesOn(document: seq<Statement>, m: Machine)
    requires DerivableDocument(document) && CellsLeftAlone(document) && Idle(m)
    ensures GoesOn(m.queue, m.next, RunDocument(document, m).queue)
  {
    if document != [] {
      var r := RunStatement(document[0], m);
      var body := RunClauses(document[0].body, RunSubject(document[0].subject, m));
      StatementRestoresIdle(document[0], m);
      DocumentGoesOn(document[1..], r);
      StatementGoesOn(document[0], m, RunDocument(document, m).queue);
      BodyAdds(document[0], m);
      GoesOnBefore(m.queue, m.next, body.queue, body.next, RunDocument(document, m).queue);
    }
  }

  lemma {:induction false} RestReadsBack(document: seq<Statement>, m: Machine)
    requires DerivableDocument(document) && CellsLeftAlone(document) && Idle(m)
    requires m.next >= 1 && CellsBefore(m.queue, m.next)
    ensures DocumentReads(document, m, RunDocument(document, m).queue)
  {
    if document != [] {
      var r := RunStatement(document[0], m);
      StatementRestoresIdle(document[0], m);
      StatementBefore(document[0], m);
      DocumentGoesOn(document[1..], r);
      StatementReadsBack(document[0], m, RunDocument(document[1..], r).queue);
      RestReadsBack(document[1..], r);
    }
  }

  /**
   Main result: in the final queue of a document, whatever saves are missed, every non-empty collection at any depth
   reads back from its element as its items in order, unless the document itself writes cells.
   */
  lemma DocumentListsReadBack(document: seq<Statement>)
    requires DerivableDocument(document) && CellsLeftAlone(document)
    ensures DocumentReads(document, START, RunDocument(document, START).queue)
  {
    RestReadsBack(document, START);
  }

  /** A collection of one item, with a second first written under it. */
  function Spoilt(a: Term, b: Term): Statement {
    Statement(Collection([Given(a)]), [Clause(FIRST, [Given(b)])])
  }

  lemma OneIsSafe(term: Term, willSave: bool)
    ensures DerivableNodes([Given(term)]) && SafeNodes([Given(term)]) && MissedByNodes([Given(term)], willSave) == 0
  {
    var nodes := [Given(term)];
    assert nodes[0] == Given(term) && nodes[1..] == [];
    assert DerivableNode(nodes[0]) && SafeNode(nodes[0]) && MissedByNode(nodes[0], willSave) == 0;
    assert DerivableNodes(nodes[1..]) && SafeNodes(nodes[1..]) && MissedByNodes(nodes[1..], willSave) == 0;
  }

  lemma SpoiltIsSafe(a: Term, b: Term)
    ensures DerivableStatement(Spoilt(a, b)) && SafeStatement(Spoilt(a, b))
  {
    OneIsSafe(a, false);
    OneIsSafe(b, true);
    assert Spoilt(a, b).body[1..] == [];
  }

  lemma OneMeans(term: Term, first: nat)
    ensures MeaningOfNodes([Given(term)], first) == NodesMeaning([term], [], first)
  {
    assert [Given(term)][1..] == [];
  }

  lemma SpoiltMeans(a: Term, b: Term)
    ensures MeaningOfStatement(Spoilt(a, b), 1).triples
         == [Triple(Generated(1), REST, NIL), Triple(Generated(1), FIRST, a), Triple(Generated(1), FIRST, b)]
  {
    var body := [Clause(FIRST, [Given(b)])];
    OneMeans(a, 1);
    OneMeans(b, 2);
    ListOfOne(a);
    assert body[1..] == [];
    assert MeaningOfClauses(body, 2).triples == [] && MeaningOfClauses(body, 2).pairs == [(FIRST, b)];
    assert Attribute(Generated(1), [(FIRST, b)]) == [Triple(Generated(1), FIRST, b)];
  }

  lemma ListOfOne(a: Term)
    ensures ListTriples([a], 1) == [Triple(Generated(1), REST, NIL), Triple(Generated(1), FIRST, a)]
  {
  }

  lemma CollectionElement(a: Term)
    ensures RunNode(Collection([Given(a)]), START).element == Generated(1)
  {
    RunNodeLaw(Collection([Given(a)]), START);
    OneMeans(a, 1);
  }

  lemma TwoFirsts(queue: seq<Triple>, cell: Term, a: Term, b: Term)
    requires queue == [Triple(cell, REST, NIL), Triple(cell, FIRST, a), Triple(cell, FIRST, b)] && cell == Generated(1)
    ensures ReadList(queue, cell, 1) == None
  {
    GeneratedIsNotNil(1);
    assert queue[1..] == [Triple(cell, FIRST, a), Triple(cell, FIRST, b)];
    ObjectsOfTwo(queue[1..][0], queue[1..][1], cell, FIRST);
  }

  /** Why the condition: a second first written under a collection spoils it for its reader. */
  lemma HandWrittenFirst(a: Term, b: Term)
    ensures var document := [Spoilt(a, b)];
            DerivableDocument(document) && !DocumentReads(document, START, RunDocument(document, START).queue)
  {
    var document := [Spoilt(a, b)];
    SpoiltIsSafe(a, b);
    SafeStatementIsExact(Spoilt(a, b), START);
    SpoiltMeans(a, b);
    var queue := RunStatement(Spoilt(a, b), START).queue;
    assert document[1..] == [] && RunDocument(document, START).queue == queue;
    CollectionElement(a);
    TwoFirsts(queue, Generated(1), a, b);
    assert !NodeReads(Spoilt(a, b).subject, START, queue);
  }
}
