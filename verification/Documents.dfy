/** Statements and documents: what the queue holds in the end, and exactly when that is what was meant. */
module Documents {
  import opened Terms
  import opened Labels
  import opened Turtle
  import opened Reference
  import opened Machine
  import opened StackLaw
  import opened Attribution

  /** Between statements: no verb is open, no list is open, no pair is pending. */
  ghost predicate Idle(m: Machine) {
    m.verbs == [] && m.mark == 0 && m.objects == [] && m.outer == [] && m.open == [[]]
  }

  const START := Machine(NO_TERM, 1, [], 0, NO_TERM, [], [], [[]], NO_TERM, [])

  function RunDocument(document: seq<Statement>, m: Machine): (r: Machine)
    requires m.open != []
    ensures r.open != [] && m.queue <= r.queue
  {
    if document == [] then m else RunDocument(document[1..], RunStatement(document[0], m))
  }

  function MeaningOfDocument(document: seq<Statement>, first: nat): (r: NodesMeaning)
    ensures first <= r.next
  {
    if document == [] then NodesMeaning([], [], first)
    else
      var head := MeaningOfStatement(document[0], first);
      var tail := MeaningOfDocument(document[1..], head.next);
      NodesMeaning([head.node] + tail.nodes, head.triples + tail.triples, tail.next)
  }

  predicate DerivableDocument(document: seq<Statement>) {
    forall i :: 0 <= i < |document| ==> DerivableStatement(document[i])
  }

  predicate SafeDocument(document: seq<Statement>) {
    forall i :: 0 <= i < |document| ==> SafeStatement(document[i])
  }

  /** A subject written in the document is not a label generated in the range. */
  ghost predicate OwnSubject(statement: Statement, from: nat, to: nat) {
    statement.subject.Given? ==> !GeneratedBetween(statement.subject.term, from, to)
  }

  ghost predicate OwnSubjects(document: seq<Statement>, from: nat, to: nat) {
    forall i :: 0 <= i < |document| ==> OwnSubject(document[i], from, to)
  }

  /** After every statement, whatever it holds, all stacks are empty again and the counter is as meant. */
  lemma StatementRestoresIdle(statement: Statement, m: Machine)
    requires DerivableStatement(statement) && Idle(m)
    ensures Idle(RunStatement(statement, m))
    ensures RunStatement(statement, m).next == MeaningOfStatement(statement, m.next).next
    ensures m.queue <= RunStatement(statement, m).queue
  {
    RunNodeLaw(statement.subject, m);
    NothingPending(MissedByNode(statement.subject, false));
    var subject := RunSubject(statement.subject, m);
    RunClausesLaw(statement.body, subject, [[]]);
    CloseForgetsTop(statement.body, [[]], subject.next);
    NothingPending(MissedByClauses(statement.body));
  }

  /** Up to which label a statement's subject may already have gone wrong: always before its own. */
  function SubjectRange(node: Node, first: nat): nat {
    match node
    case Collection(items) => MeaningOfNodes(items, first).next
    case Properties(clauses) => MeaningOfClauses(clauses, first).next
    case _ => first
  }

  lemma SubjectIsLast(node: Node, first: nat)
    requires !node.Given?
    ensures SubjectRange(node, first) <= MeaningOfNode(node, first).next
    ensures GeneratedBetween(MeaningOfNode(node, first).node, SubjectRange(node, first),
                             MeaningOfNode(node, first).next)
  {
  }

  lemma SubjectOutcome(node: Node, m: Machine)
    requires DerivableNode(node) && Idle(m)
    ensures Outcome(SafeNode(node), m.queue, RunNode(node, m).queue,
                    MeaningOfNode(node, m.next).triples, m.next, SubjectRange(node, m.next))
  {
    match node
    case Collection(items) =>
      NothingPending(MissedByNodes(items, false));
      OutcomeOfNodes(items, Begin(m));
      RunNodesLaw(items, Begin(m));
      OutcomeOfCollection(items, m, SafeNodes(items));
    case Properties(clauses) =>
      PropertiesSubjectOutcome(clauses, m);
    case _ =>
      assert m.queue + [] == m.queue;
  }

  lemma PropertiesSubjectOutcome(clauses: seq<Clause>, m: Machine)
    requires DerivableNode(Properties(clauses)) && Idle(m)
    ensures Outcome(SafeClauses(clauses), m.queue, RunNode(Properties(clauses), m).queue,
                    MeaningOfNode(Properties(clauses), m.next).triples, m.next, MeaningOfClauses(clauses, m.next).next)
  {
    NothingPending(MissedByClauses(clauses));
    OutcomeOfClauses(clauses, Begin(m), [[]]);
    RunClausesLaw(clauses, Begin(m), [[]]);
    var inner := RunClauses(clauses, Begin(m));
    if SafeClauses(clauses) {
      BodyTop(clauses, m.next);
    }
    SubjectClosing(SafeClauses(clauses), m.queue, inner.queue, MeaningOfClauses(clauses, m.next).triples,
                   Top(inner.open), MeaningOfClauses(clauses, m.next).pairs, m.next, inner.next);
  }

  lemma SubjectClosing(exact: bool, q0: seq<Triple>, q1: seq<Triple>, meant: seq<Triple>,
                       found: seq<Pair>, pairs: seq<Pair>, n0: nat, n: nat)
    requires Outcome(exact, q0, q1, meant, n0, n) && n0 <= n && (exact ==> found == pairs)
    ensures Outcome(exact, q0, q1 + Attribute(Generated(n), found), meant + Attribute(Generated(n), pairs), n0, n)
  {
    var own := Attribute(Generated(n), pairs);
    assert GeneratedBetween(Generated(n), n, n + 1);
    WithinIsOutside(own, n0, n, n, n + 1);
    Compose(exact, true, q0, q1, q1 + Attribute(Generated(n), found), meant, own, n0, n, n, n);
  }

  lemma BodyTop(body: seq<Clause>, first: nat)
    requires SafeClauses(body)
    ensures Top(OpenAfter(body, [[]], first)) == MeaningOfClauses(body, first).pairs
  {
    NothingPending(MissedByClauses(body));
    if body != [] {
      TopKeepsOwnPairs(body, [[]], first);
    }
  }

  /** What the laws of nodes and clauses say of the subject and body of a statement. */
  lemma BodyLaw(statement: Statement, m: Machine)
    requires DerivableStatement(statement) && Idle(m)
    ensures var subject := RunSubject(statement.subject, m);
            var body := RunClauses(statement.body, subject);
            && Ready(subject) && subject.objects == [] && subject.open == [[]] && !WillSave(subject)
            && subject.next == MeaningOfNode(statement.subject, m.next).next
            && ClausesLaw(statement.body, [[]], subject, body)
            && (statement.subject.Properties? ==> subject.firstList == MeaningOfNode(statement.subject, m.next).node)
            && (!statement.subject.Properties? ==> subject.subject == MeaningOfNode(statement.subject, m.next).node)
  {
    RunNodeLaw(statement.subject, m);
    NothingPending(MissedByNode(statement.subject, false));
    if statement.subject.Properties? {
      FirstListIsSubject(statement.subject.clauses, m);
    }
    RunClausesLaw(statement.body, RunSubject(statement.subject, m), [[]]);
  }

  /** The body's pairs reach their list, and the final subject is right unless firstList was overwritten. */
  lemma BodyOutcome(statement: Statement, m: Machine)
    requires DerivableStatement(statement) && Idle(m)
    ensures var subject := RunSubject(statement.subject, m);
            var body := RunClauses(statement.body, subject);
            var meaning := MeaningOfClauses(statement.body, subject.next);
            && subject.next == MeaningOfNode(statement.subject, m.next).next
            && body.next == meaning.next && subject.queue <= body.queue
            && Outcome(SafeClauses(statement.body), subject.queue, body.queue, meaning.triples, subject.next, body.next)
            && (SafeClauses(statement.body) ==> Top(body.open) == meaning.pairs)
            && (statement.subject.Properties? && MissedByClauses(statement.body) > 0
                ==> GeneratedBetween(body.firstList, subject.next, body.next))
            && (statement.subject.Properties? && MissedByClauses(statement.body) == 0
                ==> body.firstList == MeaningOfNode(statement.subject, m.next).node)
            && (!statement.subject.Properties? ==> body.subject == MeaningOfNode(statement.subject, m.next).node)
  {
    var subject := RunSubject(statement.subject, m);
    BodyLaw(statement, m);
    NothingPending(MissedByClauses(statement.body));
    OutcomeOfClauses(statement.body, subject, [[]]);
    if SafeClauses(statement.body) {
      BodyTop(statement.body, subject.next);
    }
  }

  lemma FirstListIsSubject(clauses: seq<Clause>, m: Machine)
    requires DerivableNode(Properties(clauses)) && Idle(m)
    ensures RunNode(Properties(clauses), m).firstList == RunNode(Properties(clauses), m).element
  {
    RunClausesLaw(clauses, Begin(m), [[]]);
    CloseForgetsTop(clauses, [[]], m.next);
    NothingPending(MissedByClauses(clauses));
  }

  /** The triples a statement ends with, given the subject it found. */
  lemma EmissionOutcome(queue: seq<Triple>, found: Term, subject: Term, pairs: seq<Pair>, from: nat, to: nat)
    requires pairs == [] ==> found == subject
    ensures Outcome(found == subject, queue, queue + Attribute(found, pairs), Attribute(subject, pairs), from, to)
  {
    if found != subject {
      assert DivergedAt(queue + Attribute(found, pairs), queue + Attribute(subject, pairs), from, to, |queue|);
    }
  }

  /** Subject, body and own pairs, put together. */
  lemma ComposeThree(safeSubject: bool, safeBody: bool, found: Term, subject: Term, emitted: seq<Pair>,
                     pairs: seq<Pair>,
                     q0: seq<Triple>, q1: seq<Triple>, q2: seq<Triple>,
                     meant1: seq<Triple>, meant2: seq<Triple>, n0: nat, range: nat, n1: nat, n2: nat)
    requires Outcome(safeSubject, q0, q1, meant1, n0, range) && Outcome(safeBody, q1, q2, meant2, n1, n2)
    requires q1 <= q2 && n0 <= range <= n1 <= n2
    requires safeBody ==> emitted == pairs && (pairs == [] ==> found == subject)
    requires SubjectsWithin(meant2, n1, n2)
    requires !GeneratedBetween(subject, n0, range) && !GeneratedBetween(subject, n1, n2)
    ensures Outcome(safeSubject && safeBody && found == subject, q0, q2 + Attribute(found, emitted),
                    meant1 + meant2 + Attribute(subject, pairs), n0, n2)
  {
    var own := Attribute(subject, pairs);
    var after := q2 + Attribute(found, emitted);
    if safeBody {
      EmissionOutcome(q2, found, subject, pairs, n1, n2);
    }
    Compose(safeBody, found == subject, q1, q2, after, meant2, own, n1, n2, n1, n2);
    WithinIsOutside(meant2, n0, range, n1, n2);
    assert SubjectsOutside(meant2 + own, n0, range);
    Compose(safeSubject, safeBody && found == subject, q0, q1, after, meant1, meant2 + own, n0, range, n1, n2);
    assert meant1 + (meant2 + own) == meant1 + meant2 + own;
  }

  /** The subject is not among the labels under which something may already have gone wrong. */
  lemma SubjectIsElsewhere(statement: Statement, first: nat)
    requires OwnSubject(statement, first, MeaningOfStatement(statement, first).next)
    ensures var subject := MeaningOfNode(statement.subject, first);
            && first <= SubjectRange(statement.subject, first) <= subject.next
            && !GeneratedBetween(subject.node, first, SubjectRange(statement.subject, first))
            && !GeneratedBetween(subject.node, subject.next, MeaningOfStatement(statement, first).next)
  {
    var subject := MeaningOfNode(statement.subject, first);
    var range := SubjectRange(statement.subject, first);
    var last := MeaningOfStatement(statement, first).next;
    if !statement.subject.Given? {
      SubjectIsLast(statement.subject, first);
      LaterIsNew(subject.node, first, range, range, subject.next);
      LaterIsNew(subject.node, subject.next, last, range, subject.next);
    }
  }

  /** The subject a statement ends with, and when it is the one meant. */
  ghost function FoundSubject(statement: Statement, m: Machine): Term
    requires m.open != []
  {
    var body := RunClauses(statement.body, RunSubject(statement.subject, m));
    if statement.subject.Properties? then body.firstList else body.subject
  }

  lemma FoundExactly(statement: Statement, m: Machine)
    requires DerivableStatement(statement) && Idle(m)
    ensures (statement.subject.Properties? ==> MissedByClauses(statement.body) == 0)
            ==> FoundSubject(statement, m) == MeaningOfNode(statement.subject, m.next).node
    ensures OwnSubject(statement, m.next, MeaningOfStatement(statement, m.next).next)
            ==> (FoundSubject(statement, m) == MeaningOfNode(statement.subject, m.next).node
                 <==> (statement.subject.Properties? ==> MissedByClauses(statement.body) == 0))
  {
    BodyOutcome(statement, m);
    if OwnSubject(statement, m.next, MeaningOfStatement(statement, m.next).next) {
      SubjectIsElsewhere(statement, m.next);
    }
  }

  lemma SafeExactly(statement: Statement)
    ensures SafeStatement(statement)
       <==> SafeNode(statement.subject) && SafeClauses(statement.body)
            && (statement.subject.Properties? ==> MissedByClauses(statement.body) == 0)
  {
    if MissedByClauses(statement.body) == 0 {
      NoMissIsSafe(statement.body);
    }
  }

  lemma RunStatementQueue(statement: Statement, m: Machine)
    requires DerivableStatement(statement) && Idle(m)
    ensures var body := RunClauses(statement.body, RunSubject(statement.subject, m));
            RunStatement(statement, m).queue == body.queue + Attribute(FoundSubject(statement, m), Top(body.open))
  {
  }

  /** A statement adds its meaning if it is safe, and otherwise diverges for good. */
  lemma StatementOutcome(statement: Statement, m: Machine)
    requires DerivableStatement(statement) && Idle(m)
    requires OwnSubject(statement, m.next, MeaningOfStatement(statement, m.next).next)
    ensures Outcome(SafeStatement(statement), m.queue, RunStatement(statement, m).queue,
                    MeaningOfStatement(statement, m.next).triples, m.next, MeaningOfStatement(statement, m.next).next)
  {
    var subject := RunSubject(statement.subject, m);
    var body := RunClauses(statement.body, subject);
    var node := MeaningOfNode(statement.subject, m.next);
    var meaning := MeaningOfClauses(statement.body, node.next);
    SubjectOutcome(statement.subject, m);
    BodyOutcome(statement, m);
    FoundExactly(statement, m);
    SafeExactly(statement);
    SubjectIsElsewhere(statement, m.next);
    SubjectsOfClauses(statement.body, node.next);
    RunStatementQueue(statement, m);
    ComposeThree(SafeNode(statement.subject), SafeClauses(statement.body), FoundSubject(statement, m), node.node,
                 Top(body.open), meaning.pairs, m.queue, subject.queue, body.queue,
                 node.triples, meaning.triples, m.next, SubjectRange(statement.subject, m.next), node.next,
                   meaning.next);
  }

  /** A safe statement adds its meaning, even when its subject looks like a generated node. */
  lemma SafeStatementIsExact(statement: Statement, m: Machine)
    requires DerivableStatement(statement) && Idle(m) && SafeStatement(statement)
    ensures RunStatement(statement, m).queue == m.queue + MeaningOfStatement(statement, m.next).triples
  {
    SubjectOutcome(statement.subject, m);
    BodyOutcome(statement, m);
    FoundExactly(statement, m);
    SafeExactly(statement);
    RunStatementQueue(statement, m);
    var node := MeaningOfNode(statement.subject, m.next);
    var meaning := MeaningOfClauses(statement.body, node.next);
    Regroup(m.queue, node.triples, meaning.triples, Attribute(node.node, meaning.pairs));
  }

  lemma Regroup(a: seq<Triple>, b: seq<Triple>, c: seq<Triple>, d: seq<Triple>)
    ensures a + b + c + d == a + (b + c + d)
  {
  }

  lemma DivergedDiffers(queue: seq<Triple>, meaning: seq<Triple>, from: nat, to: nat)
    requires Diverged(queue, meaning, from, to)
    ensures queue != meaning
  {
  }

  /** Main result for one statement: the queue receives the meaning if and only if the statement is safe. */
  lemma StatementExactly(statement: Statement, m: Machine)
    requires DerivableStatement(statement) && Idle(m)
    requires OwnSubject(statement, m.next, MeaningOfStatement(statement, m.next).next)
    ensures RunStatement(statement, m).queue == m.queue + MeaningOfStatement(statement, m.next).triples
            <==> SafeStatement(statement)
  {
    StatementOutcome(statement, m);
    if !SafeStatement(statement) {
      DivergedDiffers(RunStatement(statement, m).queue, m.queue + MeaningOfStatement(statement, m.next).triples,
                      m.next, MeaningOfStatement(statement, m.next).next);
    }
  }

  /** All stacks are empty after a whole document, and its labels are as meant. */
  lemma {:induction false} DocumentRestoresIdle(document: seq<Statement>, m: Machine)
    requires DerivableDocument(document) && Idle(m)
    ensures Idle(RunDocument(document, m))
    ensures RunDocument(document, m).next == MeaningOfDocument(document, m.next).next
  {
    if document != [] {
      StatementRestoresIdle(document[0], m);
      DocumentRestoresIdle(document[1..], RunStatement(document[0], m));
    }
  }

  lemma NarrowOwnSubjects(document: seq<Statement>, from: nat, to: nat, from': nat, to': nat)
    requires OwnSubjects(document, from, to) && from <= from' && to' <= to
    ensures OwnSubjects(document, from', to')
  {
  }

  lemma StatementSubjects(statement: Statement, from: nat, to: nat, first: nat)
    requires to <= first && OwnSubject(statement, from, to)
    ensures SubjectsOutside(MeaningOfStatement(statement, first).triples, from, to)
  {
    var node := MeaningOfNode(statement.subject, first);
    var body := MeaningOfClauses(statement.body, node.next);
    SubjectsOfNode(statement.subject, first);
    SubjectsOfClauses(statement.body, node.next);
    WithinIsOutside(node.triples, from, to, first, node.next);
    WithinIsOutside(body.triples, from, to, node.next, body.next);
    if !statement.subject.Given? {
      SubjectIsLast(statement.subject, first);
      LaterIsNew(node.node, from, to, SubjectRange(statement.subject, first), node.next);
    }
  }

  /** The subjects meant later are never among the labels of an earlier statement. */
  lemma {:induction false} LaterSubjects(document: seq<Statement>, from: nat, to: nat, first: nat)
    requires to <= first && OwnSubjects(document, from, to)
    ensures SubjectsOutside(MeaningOfDocument(document, first).triples, from, to)
  {
    if document != [] {
      assert OwnSubject(document[0], from, to);
      StatementSubjects(document[0], from, to, first);
      LaterSubjects(document[1..], from, to, MeaningOfStatement(document[0], first).next);
    }
  }

  lemma {:induction false} DocumentOutcome(document: seq<Statement>, m: Machine)
    requires DerivableDocument(document) && Idle(m)
    requires OwnSubjects(document, m.next, MeaningOfDocument(document, m.next).next)
    ensures Outcome(SafeDocument(document), m.queue, RunDocument(document, m).queue,
                    MeaningOfDocument(document, m.next).triples, m.next, MeaningOfDocument(document, m.next).next)
  {
    if document == [] {
      assert m.queue + [] == m.queue;
    } else {
      var head := MeaningOfStatement(document[0], m.next);
      var rest := document[1..];
      var tail := MeaningOfDocument(rest, head.next);
      var r := RunStatement(document[0], m);
      NarrowOwnSubjects(document, m.next, tail.next, m.next, head.next);
      NarrowOwnSubjects(rest, m.next, tail.next, head.next, tail.next);
      assert OwnSubject(document[0], m.next, head.next);
      StatementOutcome(document[0], m);
      StatementRestoresIdle(document[0], m);
      DocumentOutcome(rest, r);
      LaterSubjects(rest, m.next, head.next, head.next);
      Compose(SafeStatement(document[0]), SafeDocument(rest), m.queue, r.queue, RunDocument(rest, r).queue,
              head.triples, tail.triples, m.next, head.next, head.next, tail.next);
    }
  }

  /**
   Main result: a document is queued as its meaning if and only if every statement is safe, provided
   no subject written in it looks like a node generated while reading it.
   */
  lemma DocumentExactly(document: seq<Statement>)
    requires DerivableDocument(document)
    requires OwnSubjects(document, 1, MeaningOfDocument(document, 1).next)
    ensures RunDocument(document, START).queue == MeaningOfDocument(document, 1).triples <==> SafeDocument(document)
  {
    DocumentOutcome(document, START);
    var meaning := MeaningOfDocument(document, 1);
    assert START.queue + meaning.triples == meaning.triples;
    if !SafeDocument(document) {
      DivergedDiffers(RunDocument(document, START).queue, meaning.triples, 1, meaning.next);
    }
  }

  lemma MeaningOfTwo(document: seq<Statement>, queue: seq<Triple>, first: nat)
    requires document != []
    ensures var head := MeaningOfStatement(document[0], first);
            queue + MeaningOfDocument(document, first).triples
            == queue + head.triples + MeaningOfDocument(document[1..], head.next).triples
  {
  }

  /** Safe documents are queued as meant whatever labels they use. */
  lemma {:induction false} SafeDocumentIsExact(document: seq<Statement>, m: Machine)
    requires DerivableDocument(document) && Idle(m) && SafeDocument(document)
    ensures RunDocument(document, m).queue == m.queue + MeaningOfDocument(document, m.next).triples
  {
    if document == [] {
      assert m.queue + [] == m.queue;
    } else {
      SafeStatementIsExact(document[0], m);
      StatementRestoresIdle(document[0], m);
      var r := RunStatement(document[0], m);
      SafeDocumentIsExact(document[1..], r);
      MeaningOfTwo(document, m.queue, m.next);
    }
  }
}
