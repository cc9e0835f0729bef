/** Labels over a whole document: the nodes made while reading it are all different, and differ from those it names. */
module Freshness {
  import opened Terms
  import opened Labels
  import opened Turtle
  import opened Reference
  import opened Machine
  import opened StackLaw
  import opened Documents
  import opened Lists

  /** The one condition on a written term: it is not a blank node whose label looks generated. */
  predicate LooksMade(term: Term) {
    term.nodeType == BNodeType && |term.identifier| >= 2 && LooksGenerated(term.identifier[2..])
  }

  lemma WrittenIsNotMade(term: Term, n: nat)
    requires !LooksMade(term) && n > 0
    ensures term != Generated(n)
  {
    assert Generated(n).identifier[2..] == "b" + Decimal(n);
    ClashExactly("b" + Decimal(n));
    assert LooksMade(Generated(n));
  }

  predicate NamesNoneMade(document: seq<Statement>) {
    forall i :: 0 <= i < |document| && document[i].subject.Given? ==> !LooksMade(document[i].subject.term)
  }

  lemma WrittenSubjectsAreOwn(document: seq<Statement>, to: nat)
    requires NamesNoneMade(document)
    ensures OwnSubjects(document, 1, to)
  {
    forall i | 0 <= i < |document|
      ensures OwnSubject(document[i], 1, to)
    {
      if document[i].subject.Given? && GeneratedBetween(document[i].subject.term, 1, to) {
        var n: nat :| 1 <= n < to && document[i].subject.term == Generated(n);
        WrittenIsNotMade(document[i].subject.term, n);
      }
    }
  }

  /**
   Main result: for documents whose labels do not look generated, safety decides exactness with no further
   condition.
   */
  lemma DocumentExactlyByLabels(document: seq<Statement>)
    requires DerivableDocument(document) && NamesNoneMade(document)
    ensures RunDocument(document, START).queue == MeaningOfDocument(document, 1).triples <==> SafeDocument(document)
  {
    WrittenSubjectsAreOwn(document, MeaningOfDocument(document, 1).next);
    DocumentExactly(document);
  }

  // ---- The nodes made, in the order in which they take their labels.

  function Made(first: nat, n: nat): seq<Term> {
    seq(n, i requires 0 <= i < n => Generated(first + i))
  }

  /** The generated nodes of a range of labels, in order. */
  ghost predicate AreMade(nodes: seq<Term>, first: nat, last: nat) {
    first + |nodes| == last && forall i :: 0 <= i < |nodes| ==> nodes[i] == Generated(first + i)
  }

  lemma MadeJoins(a: seq<Term>, b: seq<Term>, first: nat, mid: nat, last: nat)
    requires AreMade(a, first, mid) && AreMade(b, mid, last)
    ensures AreMade(a + b, first, last)
  {
  }

  lemma MadeOne(n: nat)
    ensures AreMade([Generated(n)], n, n + 1)
  {
  }

  function MadeByNode(node: Node, first: nat): seq<Term>
    decreases node, 1
  {
    match node
    case Given(_) => []
    case Anon => [Generated(first)]
    case Collection(items) =>
      MadeByNodes(items, first) + Made(MeaningOfNodes(items, first).next, if items == [] then 1 else |items|)
    case Properties(clauses) =>
      MadeByClauses(clauses, first) + [Generated(MeaningOfClauses(clauses, first).next)]
  }

  function MadeByNodes(nodes: seq<Node>, first: nat): seq<Term>
    decreases nodes, 0
  {
    if nodes == [] then []
    else MadeByNode(nodes[0], first) + MadeByNodes(nodes[1..], MeaningOfNode(nodes[0], first).next)
  }

  function MadeByClauses(clauses: seq<Clause>, first: nat): seq<Term>
    decreases clauses, 0
  {
    if clauses == [] then []
    else
      MadeByNodes(clauses[0].objects, first)
      + MadeByClauses(clauses[1..], MeaningOfNodes(clauses[0].objects, first).next)
  }

  function MadeByStatement(statement: Statement, first: nat): seq<Term> {
    MadeByNode(statement.subject, first) + MadeByClauses(statement.body, MeaningOfNode(statement.subject, first).next)
  }

  function MadeByDocument(document: seq<Statement>, first: nat): seq<Term> {
    if document == [] then []
    else
      MadeByStatement(document[0], first)
      + MadeByDocument(document[1..], MeaningOfStatement(document[0], first).next)
  }

  lemma {:induction false} NodeMakes(node: Node, first: nat)
    ensures AreMade(MadeByNode(node, first), first, MeaningOfNode(node, first).next)
    decreases node, 1
  {
    match node
    case Given(_) =>
    case Anon => MadeOne(first);
    case Collection(items) =>
      var next := MeaningOfNodes(items, first).next;
      NodesMake(items, first);
      var cells := if items == [] then 1 else |items|;
      MadeJoins(MadeByNodes(items, first), Made(next, cells), first, next, next + cells);
    case Properties(clauses) =>
      var next := MeaningOfClauses(clauses, first).next;
      ClausesMake(clauses, first);
      MadeOne(next);
      MadeJoins(MadeByClauses(clauses, first), [Generated(next)], first, next, next + 1);
  }

  lemma {:induction false} NodesMake(nodes: seq<Node>, first: nat)
    ensures AreMade(MadeByNodes(nodes, first), first, MeaningOfNodes(nodes, first).next)
    decreases nodes, 0
  {
    if nodes != [] {
      var next := MeaningOfNode(nodes[0], first).next;
      NodeMakes(nodes[0], first);
      NodesMake(nodes[1..], next);
      MadeJoins(MadeByNode(nodes[0], first), MadeByNodes(nodes[1..], next), first, next,
                MeaningOfNodes(nodes[1..], next).next);
    }
  }

  lemma {:induction false} ClausesMake(clauses: seq<Clause>, first: nat)
    ensures AreMade(MadeByClauses(clauses, first), first, MeaningOfClauses(clauses, first).next)
    decreases clauses, 0
  {
    if clauses != [] {
      var next := MeaningOfNodes(clauses[0].objects, first).next;
      NodesMake(clauses[0].objects, first);
      ClausesMake(clauses[1..], next);
      MadeJoins(MadeByNodes(clauses[0].objects, first), MadeByClauses(clauses[1..], next), first, next,
                MeaningOfClauses(clauses[1..], next).next);
    }
  }

  lemma StatementMakes(statement: Statement, first: nat)
    ensures AreMade(MadeByStatement(statement, first), first, MeaningOfStatement(statement, first).next)
  {
    var next := MeaningOfNode(statement.subject, first).next;
    NodeMakes(statement.subject, first);
    ClausesMake(statement.body, next);
    MadeJoins(MadeByNode(statement.subject, first), MadeByClauses(statement.body, next), first, next,
              MeaningOfClauses(statement.body, next).next);
  }

  lemma {:induction false} DocumentMakes(document: seq<Statement>, first: nat)
    ensures AreMade(MadeByDocument(document, first), first, MeaningOfDocument(document, first).next)
  {
    if document != [] {
      var next := MeaningOfStatement(document[0], first).next;
      StatementMakes(document[0], first);
      DocumentMakes(document[1..], next);
      MadeJoins(MadeByStatement(document[0], first), MadeByDocument(document[1..], next), first, next,
                MeaningOfDocument(document[1..], next).next);
    }
  }

  /**
   Main result: the nodes made over a whole document have pairwise different identifiers, none of them that of a
   written term whose label does not look generated.
   */
  lemma MadeNodesAreDistinct(document: seq<Statement>)
    ensures var made := MadeByDocument(document, 1);
            forall i, j :: 0 <= i < j < |made| ==> made[i].identifier != made[j].identifier
    ensures var made := MadeByDocument(document, 1);
            forall i, term :: 0 <= i < |made| && !LooksMade(term) ==> made[i] != term
  {
    var made := MadeByDocument(document, 1);
    DocumentMakes(document, 1);
    forall i, j | 0 <= i < j < |made|
      ensures made[i].identifier != made[j].identifier
    {
      LaterDiffers(1 + i, 1 + j);
    }
    forall i, term | 0 <= i < |made| && !LooksMade(term)
      ensures made[i] != term
    {
      WrittenIsNotMade(term, 1 + i);
    }
  }

  lemma LaterDiffers(a: nat, b: nat)
    requires a < b
    ensures Generated(a).identifier != Generated(b).identifier
  {
    if Generated(a).identifier == Generated(b).identifier {
      GeneratedInjective(a, b);
    }
  }

  // ---- The nodes listed are those that the run makes.

  lemma IsListed(nodes: seq<Term>, first: nat, last: nat, term: Term)
    requires AreMade(nodes, first, last) && GeneratedBetween(term, first, last)
    ensures term in nodes
  {
    var n: nat :| first <= n < last && term == Generated(n);
    assert nodes[n - first] == term;
  }

  /** Whatever state it is read in, a node that is not written leaves an element of the list. */
  lemma ElementIsListed(node: Node, m: Machine)
    requires DerivableNode(node) && Ready(m) && !node.Given?
    ensures RunNode(node, m).element in MadeByNode(node, m.next)
  {
    RunNodeLaw(node, m);
    NodeMakes(node, m.next);
    SubjectIsLast(node, m.next);
    IsListed(MadeByNode(node, m.next), m.next, MeaningOfNode(node, m.next).next, RunNode(node, m).element);
  }

  /** A subject is a node made in the range, or the one that is written as the statement's subject. */
  ghost predicate SubjectFrom(statement: Statement, term: Term, from: nat, to: nat) {
    GeneratedBetween(term, from, to) || (statement.subject.Given? && term == statement.subject.term)
  }

  ghost predicate AddsFrom(statement: Statement, q0: seq<Triple>, q1: seq<Triple>, from: nat, to: nat) {
    q0 <= q1 && forall i :: |q0| <= i < |q1| ==> SubjectFrom(statement, q1[i].subject, from, to)
  }

  lemma FoundIsMade(statement: Statement, m: Machine)
    requires DerivableStatement(statement) && Idle(m)
    ensures SubjectFrom(statement, FoundSubject(statement, m), m.next, RunStatement(statement, m).next)
  {
    BodyOutcome(statement, m);
    if !statement.subject.Given? {
      SubjectIsLast(statement.subject, m.next);
    }
  }

  lemma BodyAdds(statement: Statement, m: Machine)
    requires DerivableStatement(statement) && Idle(m)
    ensures var body := RunClauses(statement.body, RunSubject(statement.subject, m));
            AddsWithin(m.queue, m.next, body.queue, body.next)
  {
    var subject := RunSubject(statement.subject, m);
    var body := RunClauses(statement.body, subject);
    NodeAdds(statement.subject, m);
    ClausesAdd(statement.body, subject);
    AddsMore(m.queue, m.next, subject.queue, subject.next, body.queue, body.next);
  }

  lemma OwnAdds(statement: Statement, q0: seq<Triple>, q1: seq<Triple>, found: Term, pairs: seq<Pair>,
                from: nat, to: nat)
    requires AddsWithin(q0, from, q1, to) && SubjectFrom(statement, found, from, to)
    ensures AddsFrom(statement, q0, q1 + Attribute(found, pairs), from, to)
  {
    var q2 := q1 + Attribute(found, pairs);
    forall i | |q0| <= i < |q2|
      ensures SubjectFrom(statement, q2[i].subject, from, to)
    {
      if i < |q1| {
        assert q1[|q0|..][i - |q0|] == q2[i];
      }
    }
  }

  lemma StatementAdds(statement: Statement, m: Machine)
    requires DerivableStatement(statement) && Idle(m)
    ensures AddsFrom(statement, m.queue, RunStatement(statement, m).queue, m.next, RunStatement(statement, m).next)
  {
    var body := RunClauses(statement.body, RunSubject(statement.subject, m));
    BodyAdds(statement, m);
    FoundIsMade(statement, m);
    RunStatementQueue(statement, m);
    OwnAdds(statement, m.queue, body.queue, FoundSubject(statement, m), Top(body.open), m.next, body.next);
  }

  predicate IsWrittenSubject(document: seq<Statement>, term: Term) {
    exists i :: 0 <= i < |document| && document[i].subject == Given(term)
  }

  lemma WrittenFurther(document: seq<Statement>, term: Term)
    requires document != [] && IsWrittenSubject(document[1..], term)
    ensures IsWrittenSubject(document, term)
  {
    var i :| 0 <= i < |document| - 1 && document[1..][i].subject == Given(term);
    assert document[i + 1].subject == Given(term);
  }

  lemma {:induction false} DocumentAdds(document: seq<Statement>, m: Machine, i: nat)
    requires DerivableDocument(document) && Idle(m)
    requires |m.queue| <= i < |RunDocument(document, m).queue|
    ensures var term := RunDocument(document, m).queue[i].subject;
            GeneratedBetween(term, m.next, RunDocument(document, m).next) || IsWrittenSubject(document, term)
  {
    if document != [] {
      var r := RunStatement(document[0], m);
      var last := RunDocument(document[1..], r);
      StatementRestoresIdle(document[0], m);
      DocumentRestoresIdle(document[1..], r);
      if i < |r.queue| {
        StatementAdds(document[0], m);
        assert SubjectFrom(document[0], r.queue[i].subject, m.next, r.next);
        assert last.queue[i] == r.queue[i];
      } else {
        DocumentAdds(document[1..], r, i);
        if IsWrittenSubject(document[1..], last.queue[i].subject) {
          WrittenFurther(document, last.queue[i].subject);
        }
      }
    }
  }

  /**
   Main result: whatever saves are missed, every subject in the final queue is one of the distinct nodes made, or is
   written in the document as the subject of a statement.
   */
  lemma SubjectsAreListed(document: seq<Statement>)
    requires DerivableDocument(document)
    ensures var queue := RunDocument(document, START).queue;
            forall i :: 0 <= i < |queue| ==>
              queue[i].subject in MadeByDocument(document, 1) || IsWrittenSubject(document, queue[i].subject)
  {
    var queue := RunDocument(document, START).queue;
    forall i | 0 <= i < |queue|
      ensures queue[i].subject in MadeByDocument(document, 1) || IsWrittenSubject(document, queue[i].subject)
    {
      DocumentAdds(document, START, i);
      DocumentMakes(document, 1);
      DocumentRestoresIdle(document, START);
      if GeneratedBetween(queue[i].subject, 1, MeaningOfDocument(document, 1).next) {
        IsListed(MadeByDocument(document, 1), 1, MeaningOfDocument(document, 1).next, queue[i].subject);
      }
    }
  }
}
