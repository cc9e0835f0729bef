/**
 When the parser gives every pair its own subject. A statement is safe when saves are missed only under first
 clauses; for such statements, and for no others, the queue receives exactly the statement's meaning.
 */
module Attribution {
  import opened Terms
  import opened Labels
  import opened Turtle
  import opened Reference
  import opened Machine
  import opened StackLaw

  predicate SafeNode(node: Node)
    decreases node, 1
  {
    match node
    case Given(_) => true
    case Anon => true
    case Collection(items) => SafeNodes(items)
    case Properties(clauses) => SafeClauses(clauses)
  }

  predicate SafeNodes(nodes: seq<Node>)
    decreases nodes, 0
  {
    nodes == [] || (SafeNode(nodes[0]) && SafeNodes(nodes[1..]))
  }

  /** A list is safe when its objects are and only its first clause misses a save. */
  predicate SafeClauses(clauses: seq<Clause>)
    decreases clauses, 0
  {
    clauses == [] ||
    (SafeNodes(clauses[0].objects) && SafeClauses(clauses[1..]) && MissedByClauses(clauses[1..]) == 0)
  }

  /** Missing no save is safe at every depth. */
  lemma {:induction false} NoMissIsSafeNode(node: Node, willSave: bool)
    requires MissedByNode(node, willSave) == 0
    ensures SafeNode(node)
    decreases node, 1
  {
    match node
    case Given(_) =>
    case Anon =>
    case Collection(items) => NoMissIsSafeNodes(items, willSave);
    case Properties(clauses) => NoMissIsSafe(clauses);
  }

  lemma {:induction false} NoMissIsSafeNodes(nodes: seq<Node>, willSave: bool)
    requires MissedByNodes(nodes, willSave) == 0
    ensures SafeNodes(nodes)
    decreases nodes, 0
  {
    if nodes != [] {
      NoMissIsSafeNode(nodes[0], willSave);
      NoMissIsSafeNodes(nodes[1..], willSave && !OpensList(nodes[0]));
    }
  }

  lemma {:induction false} NoMissIsSafe(clauses: seq<Clause>)
    requires MissedByClauses(clauses) == 0
    ensures SafeClauses(clauses)
    decreases clauses, 0
  {
    if clauses != [] {
      NoMissIsSafeNodes(clauses[0].objects, true);
      NoMissIsSafe(clauses[1..]);
    }
  }

  /** After a property list as subject no save may be missed at all: firstList must survive. */
  predicate SafeStatement(statement: Statement) {
    && SafeNode(statement.subject)
    && if statement.subject.Properties? then MissedByClauses(statement.body) == 0 else SafeClauses(statement.body)
  }

  /** The lists that n ends would take from the pending stack are all empty. */
  predicate EmptyTops(open: seq<seq<Pair>>, n: nat)
    requires open != []
    decreases n
  {
    n == 0 || (Top(open) == [] && EmptyTops(Close(open), n - 1))
  }

  lemma {:induction false} EmptyTopsAdds(open: seq<seq<Pair>>, a: nat, b: nat)
    requires open != []
    ensures EmptyTops(open, a + b) <==> EmptyTops(open, a) && EmptyTops(CloseTimes(open, a), b)
    decreases a
  {
    if a > 0 {
      EmptyTopsAdds(Close(open), a - 1, b);
    }
  }

  lemma {:induction false} NothingPending(n: nat)
    ensures EmptyTops([[]], n) && CloseTimes([[]], n) == [[]]
  {
    if n > 0 {
      NothingPending(n - 1);
    }
  }

  /**
   A point of the queue that no continuation repairs: it differs from the meaning there, or it already
   holds a triple, beyond the meaning so far, whose subject was generated and can never be a subject again.
   */
  ghost predicate DivergedAt(queue: seq<Triple>, meaning: seq<Triple>, from: nat, to: nat, i: nat) {
    && i < |queue|
    && if i < |meaning| then queue[i] != meaning[i] else GeneratedBetween(queue[i].subject, from, to)
  }

  ghost predicate Diverged(queue: seq<Triple>, meaning: seq<Triple>, from: nat, to: nat) {
    exists i: nat :: DivergedAt(queue, meaning, from, to, i)
  }

  ghost predicate SubjectsOutside(triples: seq<Triple>, from: nat, to: nat) {
    forall i :: 0 <= i < |triples| ==> !GeneratedBetween(triples[i].subject, from, to)
  }

  ghost predicate SubjectsWithin(triples: seq<Triple>, from: nat, to: nat) {
    forall i :: 0 <= i < |triples| ==> GeneratedBetween(triples[i].subject, from, to)
  }

  /** Either the run adds exactly what is meant, or it diverges from it for good. */
  ghost predicate Outcome(exact: bool, before: seq<Triple>, after: seq<Triple>, meant: seq<Triple>, from: nat,
                          to: nat) {
    && (exact ==> after == before + meant)
    && (!exact ==> Diverged(after, before + meant, from, to))
  }

  lemma DivergedStays(queue: seq<Triple>, meaning: seq<Triple>, from: nat, to: nat,
                      later: seq<Triple>, more: seq<Triple>, from': nat, to': nat)
    requires Diverged(queue, meaning, from, to) && queue <= later && SubjectsOutside(more, from, to)
    requires from' <= from && to <= to'
    ensures Diverged(later, meaning + more, from', to')
  {
    var i: nat :| DivergedAt(queue, meaning, from, to, i);
    assert later[i] == queue[i];
    if |meaning| <= i < |meaning + more| {
      assert (meaning + more)[i] == more[i - |meaning|];
    }
    assert DivergedAt(later, meaning + more, from', to', i);
  }

  /** Two runs one after the other. */
  lemma Compose(first: bool, second: bool, q0: seq<Triple>, q1: seq<Triple>, q2: seq<Triple>,
                meant1: seq<Triple>, meant2: seq<Triple>, n0: nat, n1: nat, from2: nat, n2: nat)
    requires Outcome(first, q0, q1, meant1, n0, n1)
    requires first ==> Outcome(second, q1, q2, meant2, from2, n2)
    requires q1 <= q2 && n0 <= from2 && n1 <= n2 && SubjectsOutside(meant2, n0, n1)
    ensures Outcome(first && second, q0, q2, meant1 + meant2, n0, n2)
  {
    assert q0 + meant1 + meant2 == q0 + (meant1 + meant2);
    if !first {
      DivergedStays(q1, q0 + meant1, n0, n1, q2, meant2, n0, n2);
    } else if !second {
      DivergedStays(q2, q1 + meant2, from2, n2, q2, [], n0, n2);
      assert q1 + meant2 + [] == q1 + meant2;
    }
  }

  lemma WithinIsOutside(triples: seq<Triple>, from: nat, to: nat, from2: nat, to2: nat)
    requires SubjectsWithin(triples, from2, to2) && to <= from2
    ensures SubjectsOutside(triples, from, to)
  {
    forall i | 0 <= i < |triples|
      ensures !GeneratedBetween(triples[i].subject, from, to)
    {
      LaterIsNew(triples[i].subject, from, to, from2, to2);
    }
  }

  /** The second run generates its subjects after the first. */
  lemma ComposeNext(first: bool, second: bool, q0: seq<Triple>, q1: seq<Triple>, q2: seq<Triple>,
                    meant1: seq<Triple>, meant2: seq<Triple>, n0: nat, n1: nat, n2: nat)
    requires Outcome(first, q0, q1, meant1, n0, n1) && Outcome(second, q1, q2, meant2, n1, n2)
    requires q1 <= q2 && n0 <= n1 <= n2 && SubjectsWithin(meant2, n1, n2)
    ensures Outcome(first && second, q0, q2, meant1 + meant2, n0, n2)
  {
    WithinIsOutside(meant2, n0, n1, n1, n2);
    Compose(first, second, q0, q1, q2, meant1, meant2, n0, n1, n1, n2);
  }

  lemma LaterIsNew(term: Term, from: nat, to: nat, from2: nat, to2: nat)
    requires GeneratedBetween(term, from2, to2) && (to <= from2 || to2 <= from)
    ensures !GeneratedBetween(term, from, to)
  {
    if GeneratedBetween(term, from, to) {
      var a: nat :| from <= a < to && term == Generated(a);
      var b: nat :| from2 <= b < to2 && term == Generated(b);
      GeneratedInjective(a, b);
    }
  }

  lemma {:induction false} ListSubjects(items: seq<Term>, first: nat)
    ensures SubjectsWithin(ListTriples(items, first), first, first + |items|)
  {
    if items != [] {
      ListSubjects(items[1..], first);
    }
  }

  lemma {:induction false} SubjectsOfNode(node: Node, first: nat)
    ensures var meaning := MeaningOfNode(node, first);
            SubjectsWithin(meaning.triples, first, meaning.next)
    decreases node, 1
  {
    match node
    case Given(_) =>
    case Anon =>
    case Collection(items) =>
      SubjectsOfNodes(items, first);
      var inner := MeaningOfNodes(items, first);
      CollectionSubjects(inner.nodes, inner.next);
    case Properties(clauses) =>
      SubjectsOfClauses(clauses, first);
  }

  lemma CollectionSubjects(items: seq<Term>, first: nat)
    ensures SubjectsWithin(CollectionMeaning(items, first).triples, first, CollectionMeaning(items, first).next)
  {
    ListSubjects(items, first);
    assert GeneratedBetween(Generated(first), first, first + 1);
  }

  lemma {:induction false} SubjectsOfNodes(nodes: seq<Node>, first: nat)
    ensures var meaning := MeaningOfNodes(nodes, first);
            SubjectsWithin(meaning.triples, first, meaning.next)
    decreases nodes, 0
  {
    if nodes != [] {
      SubjectsOfNode(nodes[0], first);
      SubjectsOfNodes(nodes[1..], MeaningOfNode(nodes[0], first).next);
    }
  }

  lemma {:induction false} SubjectsOfClauses(clauses: seq<Clause>, first: nat)
    ensures var meaning := MeaningOfClauses(clauses, first);
            SubjectsWithin(meaning.triples, first, meaning.next)
    decreases clauses, 0
  {
    if clauses != [] {
      SubjectsOfNodes(clauses[0].objects, first);
      SubjectsOfClauses(clauses[1..], MeaningOfNodes(clauses[0].objects, first).next);
    }
  }

  lemma {:induction false} OutcomeOfNode(node: Node, m: Machine)
    requires DerivableNode(node) && Ready(m)
    ensures var r := RunNode(node, m);
            Outcome(SafeNode(node) && EmptyTops(m.open, MissedByNode(node, WillSave(m))),
                    m.queue, r.queue, MeaningOfNode(node, m.next).triples, m.next, r.next)
    decreases node, 1
  {
    match node
    case Given(_) => assert m.queue + [] == m.queue;
    case Anon => assert m.queue + [] == m.queue;
    case Collection(items) =>
      OutcomeOfNodes(items, Begin(m));
      OutcomeOfCollection(items, m, SafeNodes(items) && EmptyTops(m.open, MissedByNodes(items, WillSave(m))));
    case Properties(clauses) =>
      OutcomeOfClauses(clauses, Begin(m), OpenForVerb(m));
      RunClausesLaw(clauses, Begin(m), OpenForVerb(m));
      PropertiesOutcome(clauses, m, RunClauses(clauses, Begin(m)));
  }

  /** The cells are queued as meant, whatever happened inside; they add no new divergence. */
  lemma CollectionOutcome(exact: bool, q0: seq<Triple>, q1: seq<Triple>, meant: seq<Triple>, items: seq<Term>,
                          from: nat, next: nat)
    requires Outcome(exact, q0, q1, meant, from, next)
    ensures var list := CollectionMeaning(items, next);
            && Outcome(exact, q0, q1 + list.triples, meant + list.triples, from, next)
            && Outcome(exact, q0, q1 + list.triples, meant + list.triples, from, list.next)
  {
    var list := CollectionMeaning(items, next);
    CollectionSubjects(items, next);
    WithinIsOutside(list.triples, from, next, next, list.next);
    Compose(exact, true, q0, q1, q1 + list.triples, meant, list.triples, from, next, from, next);
    Compose(exact, true, q0, q1, q1 + list.triples, meant, list.triples, from, next, from, list.next);
  }

  /** The machine's own collection step adds the cells of the items as they are meant. */
  lemma CollectionQueue(items: seq<Node>, m: Machine)
    requires DerivableNodes(items) && Ready(m)
    ensures var inner := MeaningOfNodes(items, m.next);
            var list := CollectionMeaning(inner.nodes, inner.next);
            && RunNodes(items, Begin(m)).next == inner.next
            && RunNode(Collection(items), m).queue == RunNodes(items, Begin(m)).queue + list.triples
            && RunNode(Collection(items), m).next == list.next
            && MeaningOfNode(Collection(items), m.next).triples == inner.triples + list.triples
  {
    RunNodesLaw(items, Begin(m));
    assert RunNodes(items, Begin(m)).objects == MeaningOfNodes(items, m.next).nodes;
  }

  lemma OutcomeOfCollection(items: seq<Node>, m: Machine, exact: bool)
    requires DerivableNodes(items) && Ready(m)
    requires var inner := RunNodes(items, Begin(m));
             Outcome(exact, m.queue, inner.queue, MeaningOfNodes(items, m.next).triples, m.next, inner.next)
    ensures var r := RunNode(Collection(items), m);
            var triples := MeaningOfNode(Collection(items), m.next).triples;
            && Outcome(exact, m.queue, r.queue, triples, m.next, MeaningOfNodes(items, m.next).next)
            && Outcome(exact, m.queue, r.queue, triples, m.next, r.next)
  {
    CollectionQueue(items, m);
    var inner := MeaningOfNodes(items, m.next);
    CollectionOutcome(exact, m.queue, RunNodes(items, Begin(m)).queue, inner.triples, inner.nodes, m.next, inner.next);
  }

  /** The end of a property list: exact when the list's own pairs, and only they, are on top. */
  lemma ClosingOutcome(queue: seq<Triple>, taken: seq<Pair>, own: seq<Pair>, n: nat)
    ensures Outcome(taken == [], queue, queue + Attribute(Generated(n), taken + own), Attribute(Generated(n), own),
                    n, n + 1)
  {
    var subject := Generated(n);
    var after := queue + Attribute(subject, taken + own);
    assert GeneratedBetween(subject, n, n + 1);
    if taken == [] {
      assert taken + own == own;
    } else {
      assert DivergedAt(after, queue + Attribute(subject, own), n, n + 1, |after| - 1);
    }
  }

  /** Missed saves split between the list's own clauses and the base it stands on. */
  lemma PropertiesExact(clauses: seq<Clause>, m: Machine)
    requires Ready(m) && clauses != []
    ensures var open := OpenForVerb(m);
            var missed := MissedByClauses(clauses);
            EmptyTops(m.open, MissedByNode(Properties(clauses), WillSave(m)))
            <==> EmptyTops(open, missed) && Top(CloseTimes(open, missed)) == []
  {
    var open := OpenForVerb(m);
    var missed := MissedByClauses(clauses);
    EmptyTopsAdds(open, missed, 1);
    assert EmptyTops(CloseTimes(open, missed), 1) <==> Top(CloseTimes(open, missed)) == [];
    if WillSave(m) {
      assert Close(m.open + [[]]) == m.open;
      assert EmptyTops(m.open + [[]], missed + 1) <==> EmptyTops(m.open, missed);
    }
  }

  /** A list's own pairs get a label that is new at that point. */
  lemma ComposeClosing(first: bool, second: bool, q0: seq<Triple>, q1: seq<Triple>, q2: seq<Triple>,
                       meant: seq<Triple>, pairs: seq<Pair>, n0: nat, n: nat)
    requires Outcome(first, q0, q1, meant, n0, n) && q1 <= q2 && n0 <= n
    requires first ==> Outcome(second, q1, q2, Attribute(Generated(n), pairs), n, n + 1)
    ensures Outcome(first && second, q0, q2, meant + Attribute(Generated(n), pairs), n0, n + 1)
  {
    var own := Attribute(Generated(n), pairs);
    assert GeneratedBetween(Generated(n), n, n + 1);
    WithinIsOutside(own, n0, n, n, n + 1);
    Compose(first, second, q0, q1, q2, meant, own, n0, n, n, n + 1);
  }

  lemma PropertiesOutcome(clauses: seq<Clause>, m: Machine, inner: Machine)
    requires Ready(m) && clauses != [] && m.queue <= inner.queue
    requires ClausesLaw(clauses, OpenForVerb(m), Begin(m), inner)
    requires Outcome(SafeClauses(clauses) && EmptyTops(OpenForVerb(m), MissedByClauses(clauses)),
                     m.queue, inner.queue, MeaningOfClauses(clauses, m.next).triples, m.next, inner.next)
    ensures Outcome(SafeClauses(clauses) && EmptyTops(m.open, MissedByNode(Properties(clauses), WillSave(m))),
                    m.queue, inner.queue + Attribute(Generated(inner.next), Top(inner.open)),
                    MeaningOfNode(Properties(clauses), m.next).triples, m.next, inner.next + 1)
  {
    var missed := MissedByClauses(clauses);
    PropertiesExact(clauses, m);
    var exact := SafeClauses(clauses) && EmptyTops(OpenForVerb(m), missed);
    var taken := Top(CloseTimes(OpenForVerb(m), missed));
    var meaning := MeaningOfClauses(clauses, m.next);
    if exact {
      TopKeepsOwnPairs(clauses, OpenForVerb(m), m.next);
      ClosingOutcome(inner.queue, taken, meaning.pairs, inner.next);
    }
    ComposeClosing(exact, taken == [], m.queue, inner.queue,
                   inner.queue + Attribute(Generated(inner.next), Top(inner.open)),
                   meaning.triples, meaning.pairs, m.next, inner.next);
  }

  /** Two runs, each exact if it is safe and takes nothing from the lists it ends too often. */
  lemma JoinOutcomes(safe1: bool, safe2: bool, open: seq<seq<Pair>>, missed1: nat, open2: seq<seq<Pair>>, missed2: nat,
                     q0: seq<Triple>, q1: seq<Triple>, q2: seq<Triple>,
                     meant1: seq<Triple>, meant2: seq<Triple>, n0: nat, n1: nat, n2: nat)
    requires open != [] && open2 == CloseTimes(open, missed1)
    requires Outcome(safe1 && EmptyTops(open, missed1), q0, q1, meant1, n0, n1)
    requires Outcome(safe2 && EmptyTops(open2, missed2), q1, q2, meant2, n1, n2)
    requires q1 <= q2 && n0 <= n1 <= n2 && SubjectsWithin(meant2, n1, n2)
    ensures Outcome(safe1 && safe2 && EmptyTops(open, missed1 + missed2), q0, q2, meant1 + meant2, n0, n2)
  {
    EmptyTopsAdds(open, missed1, missed2);
    ComposeNext(safe1 && EmptyTops(open, missed1), safe2 && EmptyTops(open2, missed2),
                q0, q1, q2, meant1, meant2, n0, n1, n2);
  }

  lemma {:induction false} OutcomeOfNodes(nodes: seq<Node>, m: Machine)
    requires DerivableNodes(nodes) && Ready(m)
    ensures var r := RunNodes(nodes, m);
            Outcome(SafeNodes(nodes) && EmptyTops(m.open, MissedByNodes(nodes, WillSave(m))),
                    m.queue, r.queue, MeaningOfNodes(nodes, m.next).triples, m.next, r.next)
    decreases nodes, 0
  {
    if nodes == [] {
      assert m.queue + [] == m.queue;
    } else {
      var head := PushObject(RunNode(nodes[0], m));
      OutcomeOfNode(nodes[0], m);
      RunNodeLaw(nodes[0], m);
      OutcomeOfNodes(nodes[1..], head);
      RunNodesLaw(nodes[1..], head);
      NodesOutcome(nodes, WillSave(m), m.open, head.open, m.queue, head.queue, RunNodes(nodes[1..], head).queue,
                   m.next, head.next, RunNodes(nodes[1..], head).next);
    }
  }

  /** The outcome of the first node and that of the rest make the outcome of all. */
  lemma NodesOutcome(nodes: seq<Node>, willSave: bool, open: seq<seq<Pair>>, open2: seq<seq<Pair>>,
                     q0: seq<Triple>, q1: seq<Triple>, q2: seq<Triple>, n0: nat, n1: nat, n2: nat)
    requires nodes != [] && open != [] && q1 <= q2
    requires n1 == MeaningOfNode(nodes[0], n0).next && n2 == MeaningOfNodes(nodes[1..], n1).next
    requires open2 == CloseTimes(open, MissedByNode(nodes[0], willSave))
    requires Outcome(SafeNode(nodes[0]) && EmptyTops(open, MissedByNode(nodes[0], willSave)),
                     q0, q1, MeaningOfNode(nodes[0], n0).triples, n0, n1)
    requires Outcome(SafeNodes(nodes[1..])
                     && EmptyTops(open2, MissedByNodes(nodes[1..], willSave && !OpensList(nodes[0]))),
                     q1, q2, MeaningOfNodes(nodes[1..], n1).triples, n1, n2)
    ensures Outcome(SafeNodes(nodes) && EmptyTops(open, MissedByNodes(nodes, willSave)),
                    q0, q2, MeaningOfNodes(nodes, n0).triples, n0, n2)
  {
    SubjectsOfNodes(nodes[1..], n1);
    JoinOutcomes(SafeNode(nodes[0]), SafeNodes(nodes[1..]), open, MissedByNode(nodes[0], willSave), open2,
                 MissedByNodes(nodes[1..], willSave && !OpensList(nodes[0])), q0, q1, q2,
                 MeaningOfNode(nodes[0], n0).triples, MeaningOfNodes(nodes[1..], n1).triples, n0, n1, n2);
    NodesUnfold(nodes, n0, willSave);
  }

  lemma NodesUnfold(nodes: seq<Node>, first: nat, willSave: bool)
    requires nodes != []
    ensures SafeNodes(nodes) == (SafeNode(nodes[0]) && SafeNodes(nodes[1..]))
    ensures MissedByNodes(nodes, willSave)
         == MissedByNode(nodes[0], willSave) + MissedByNodes(nodes[1..], willSave && !OpensList(nodes[0]))
    ensures var head := MeaningOfNode(nodes[0], first);
            MeaningOfNodes(nodes, first).triples == head.triples + MeaningOfNodes(nodes[1..], head.next).triples
  {
  }

  lemma {:induction false} OutcomeOfClauses(clauses: seq<Clause>, m: Machine, open: seq<seq<Pair>>)
    requires DerivableClauses(clauses) && Ready(m) && m.objects == []
    requires open == if clauses == [] then m.open else OpenForVerb(m)
    ensures var r := RunClauses(clauses, m);
            Outcome(SafeClauses(clauses) && EmptyTops(open, MissedByClauses(clauses)),
                    m.queue, r.queue, MeaningOfClauses(clauses, m.next).triples, m.next, r.next)
    decreases clauses, 0
  {
    if clauses == [] {
      assert m.queue + [] == m.queue;
    } else {
      var head := RunClause(clauses[0], m);
      OutcomeOfNodes(clauses[0].objects, PushVerb(m.(element := clauses[0].verb)));
      RunClauseLaw(clauses[0], m);
      OutcomeOfClauses(clauses[1..], head, head.open);
      RunClausesLaw(clauses[1..], head, head.open);
      ClausesOutcome(clauses, m, open, head, RunClauses(clauses[1..], head));
    }
  }

  /** Likewise for clauses: a clause leaves its own pairs on top, so a save missed later is never harmless. */
  lemma ClausesOutcome(clauses: seq<Clause>, m: Machine, open: seq<seq<Pair>>, head: Machine, r: Machine)
    requires clauses != [] && clauses[0].objects != [] && open != [] && head.queue <= r.queue
    requires var objects := MeaningOfNodes(clauses[0].objects, m.next);
             head.next == objects.next && r.next == MeaningOfClauses(clauses[1..], head.next).next
    requires var objects := MeaningOfNodes(clauses[0].objects, m.next);
             head.open == AddTop(CloseTimes(open, MissedByNodes(clauses[0].objects, true)),
                                 PairsOf(clauses[0].verb, objects.nodes))
    requires Outcome(SafeNodes(clauses[0].objects) && EmptyTops(open, MissedByNodes(clauses[0].objects, true)),
                     m.queue, head.queue, MeaningOfNodes(clauses[0].objects, m.next).triples, m.next, head.next)
    requires Outcome(SafeClauses(clauses[1..]) && EmptyTops(head.open, MissedByClauses(clauses[1..])),
                     head.queue, r.queue, MeaningOfClauses(clauses[1..], head.next).triples, head.next, r.next)
    ensures Outcome(SafeClauses(clauses) && EmptyTops(open, MissedByClauses(clauses)),
                    m.queue, r.queue, MeaningOfClauses(clauses, m.next).triples, m.next, r.next)
  {
    var missed := MissedByNodes(clauses[0].objects, true);
    var rest := MissedByClauses(clauses[1..]);
    EmptyTopsAdds(open, missed, rest);
    assert |Top(head.open)| >= |clauses[0].objects|;
    SubjectsOfClauses(clauses[1..], head.next);
    ComposeNext(SafeNodes(clauses[0].objects) && EmptyTops(open, missed),
                SafeClauses(clauses[1..]) && EmptyTops(head.open, rest),
                m.queue, head.queue, r.queue, MeaningOfNodes(clauses[0].objects, m.next).triples,
                MeaningOfClauses(clauses[1..], head.next).triples, m.next, head.next, r.next);
  }
}
