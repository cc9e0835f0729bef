/** The nesting condition in the grammar's own terms, and statements that show it is needed. */
module Nesting {
  import opened Terms
  import opened Labels
  import opened Turtle
  import opened Reference
  import opened Machine
  import opened StackLaw
  import opened Attribution
  import opened Documents

  /** Property lists an object list reaches through collections, without looking into those lists. */
  function ListsReached(nodes: seq<Node>): nat
    decreases nodes
  {
    if nodes == [] then 0
    else
      (match nodes[0]
       case Given(_) => 0
       case Anon => 0
       case Collection(items) => ListsReached(items)
       case Properties(_) => 1)
      + ListsReached(nodes[1..])
  }

  /** Every object list, at every depth, reaches at most one property list. */
  predicate OneListPerVerb(clauses: seq<Clause>)
    decreases clauses, 0
  {
    clauses == [] ||
    (ListsReached(clauses[0].objects) <= 1 && OneListInside(clauses[0].objects) && OneListPerVerb(clauses[1..]))
  }

  predicate OneListInside(nodes: seq<Node>)
    decreases nodes, 0
  {
    nodes == [] ||
    ((match nodes[0]
      case Given(_) => true
      case Anon => true
      case Collection(items) => OneListInside(items)
      case Properties(clauses) => OneListPerVerb(clauses))
     && OneListInside(nodes[1..]))
  }

  lemma {:induction false} ReachedIsOpened(nodes: seq<Node>)
    ensures OpenSomeList(nodes) <==> ListsReached(nodes) > 0
    decreases nodes
  {
    if nodes != [] {
      if nodes[0].Collection? {
        ReachedIsOpened(nodes[0].items);
      }
      ReachedIsOpened(nodes[1..]);
    }
  }

  lemma {:induction false} NoMissInside(nodes: seq<Node>, willSave: bool)
    ensures MissedByNodes(nodes, willSave) == 0
       <==> OneListInside(nodes) && ListsReached(nodes) <= (if willSave then 1 else 0)
    decreases nodes, 0
  {
    if nodes != [] {
      match nodes[0] {
        case Given(_) =>
        case Anon =>
        case Collection(items) =>
          NoMissInside(items, willSave);
          ReachedIsOpened(items);
        case Properties(clauses) =>
          NoMissExactly(clauses);
      }
      NoMissInside(nodes[1..], willSave && !OpensList(nodes[0]));
    }
  }

  /** No save is missed exactly when every verb's objects reach at most one property list. */
  lemma {:induction false} NoMissExactly(clauses: seq<Clause>)
    ensures MissedByClauses(clauses) == 0 <==> OneListPerVerb(clauses)
    decreases clauses, 0
  {
    if clauses != [] {
      NoMissInside(clauses[0].objects, true);
      NoMissExactly(clauses[1..]);
    }
  }

  /** Statements whose verbs each reach at most one property list are queued as meant. */
  lemma OneListPerVerbIsExact(statement: Statement, m: Machine)
    requires DerivableStatement(statement) && Idle(m)
    requires OneListInside([statement.subject]) && OneListPerVerb(statement.body)
    ensures RunStatement(statement, m).queue == m.queue + MeaningOfStatement(statement, m.next).triples
  {
    NoMissExactly(statement.body);
    NoMissIsSafe(statement.body);
    InsideIsSafe([statement.subject]);
    SafeStatementIsExact(statement, m);
  }

  lemma {:induction false} InsideIsSafe(nodes: seq<Node>)
    requires OneListInside(nodes)
    ensures SafeNodes(nodes)
    decreases nodes
  {
    if nodes != [] {
      match nodes[0] {
        case Given(_) =>
        case Anon =>
        case Collection(items) =>
          InsideIsSafe(items);
        case Properties(clauses) =>
          NoMissExactly(clauses);
          NoMissIsSafe(clauses);
      }
      InsideIsSafe(nodes[1..]);
    }
  }

  /** [ p o ] as an object, and a verb with two of them. */
  function Small(pair: Pair): Node {
    Properties([Clause(pair.0, [Given(pair.1)])])
  }

  function TwoLists(verb: Term, one: Pair, two: Pair): Clause {
    Clause(verb, [Small(one), Small(two)])
  }

  lemma SmallMisses(pair: Pair, willSave: bool)
    ensures MissedByNode(Small(pair), willSave) == if willSave then 0 else 1
    ensures DerivableNode(Small(pair)) && OpensList(Small(pair))
    ensures MissedByNodes([Small(pair)], willSave) == MissedByNode(Small(pair), willSave)
    ensures DerivableNodes([Small(pair)])
  {
    var clause := Clause(pair.0, [Given(pair.1)]);
    assert [clause][1..] == [] && clause.objects[1..] == [] && [Small(pair)][1..] == [];
    assert DerivableNode(clause.objects[0]);
    assert MissedByNodes(clause.objects, true) == 0;
    assert MissedByClauses([clause]) == 0 && DerivableClauses([clause]);
  }

  lemma TwoListsMiss(verb: Term, one: Pair, two: Pair)
    ensures MissedByClauses([TwoLists(verb, one, two)]) == 1
    ensures DerivableClauses([TwoLists(verb, one, two)])
  {
    var clause := TwoLists(verb, one, two);
    SmallMisses(one, true);
    SmallMisses(two, false);
    assert clause.objects[1..] == [Small(two)] && [clause][1..] == [];
    assert MissedByNodes(clause.objects, true) == 1 && DerivableNodes(clause.objects);
  }

  /** s a b ; p [ q r ], [ t u ] . is not queued as meant: a b is given to the second list's node. */
  lemma EarlierPairIsTaken(s: Term, a: Term, b: Term, p: Term, one: Pair, two: Pair, m: Machine)
    requires Idle(m)
    ensures var statement := Statement(Given(s), [Clause(a, [Given(b)]), TwoLists(p, one, two)]);
            && DerivableStatement(statement) && !SafeStatement(statement)
            && (OwnSubject(statement, m.next, MeaningOfStatement(statement, m.next).next)
                ==> RunStatement(statement, m).queue != m.queue + MeaningOfStatement(statement, m.next).triples)
  {
    var plain := Clause(a, [Given(b)]);
    var statement := Statement(Given(s), [plain, TwoLists(p, one, two)]);
    TwoListsMiss(p, one, two);
    assert statement.body[1..] == [TwoLists(p, one, two)];
    assert plain.objects[1..] == [];
    assert DerivableNode(plain.objects[0]);
    assert DerivableClauses(statement.body) && MissedByClauses(statement.body[1..]) == 1;
    if OwnSubject(statement, m.next, MeaningOfStatement(statement, m.next).next) {
      StatementExactly(statement, m);
    }
  }

  /** [ p o ] q [ r s ], [ t u ] . is not queued as meant: firstList is overwritten by a later list. */
  lemma FirstListIsOverwritten(first: Pair, q: Term, one: Pair, two: Pair, m: Machine)
    requires Idle(m)
    ensures var statement := Statement(Small(first), [TwoLists(q, one, two)]);
            && DerivableStatement(statement) && !SafeStatement(statement)
            && SafeClauses(statement.body)
            && RunStatement(statement, m).queue != m.queue + MeaningOfStatement(statement, m.next).triples
  {
    var statement := Statement(Small(first), [TwoLists(q, one, two)]);
    SmallMisses(first, true);
    TwoListsMiss(q, one, two);
    var clause := statement.body[0];
    assert statement.body[1..] == [];
    assert SafeNodes(clause.objects) by {
      SmallMisses(one, true);
      SmallMisses(two, true);
      NoMissIsSafeNode(Small(one), true);
      NoMissIsSafeNode(Small(two), true);
      assert clause.objects[1..] == [Small(two)] && [Small(two)][1..] == [];
      assert SafeNodes([Small(two)]);
    }
    StatementExactly(statement, m);
  }

  lemma OneObject(node: Node, m: Machine)
    requires m.open != []
    ensures RunNodes([node], m) == PushObject(RunNode(node, m))
  {
  }

  lemma OneClause(clause: Clause, m: Machine)
    requires m.open != []
    ensures RunClauses([clause], m) == RunClause(clause, m)
  {
  }

  /** What reading a small list does: it is emitted, together with what it takes from the current list. */
  ghost predicate SmallEffect(pair: Pair, m: Machine, r: Machine)
    requires m.open != []
  {
    var subject := Generated(m.next);
    var taken := if WillSave(m) then [] else Top(m.open);
    && r.queue == m.queue + Attribute(subject, taken) + [Triple(subject, pair.0, pair.1)]
    && r.open == (if WillSave(m) then m.open else Close(m.open))
    && r.element == subject && r.next == m.next + 1
    && r.verbs == m.verbs && r.mark == |m.verbs| && r.objects == m.objects && r.subject == m.subject
  }

  lemma SmallRuns(pair: Pair, m: Machine)
    requires m.open != []
    ensures SmallEffect(pair, m, RunNode(Small(pair), m))
  {
    var clause := Clause(pair.0, [Given(pair.1)]);
    OneClause(clause, Begin(m));
    OneTermRuns(pair, Begin(m));
    SmallCloses(pair, m, RunClause(clause, Begin(m)));
    PropertiesRun([clause], m);
  }

  lemma PropertiesRun(clauses: seq<Clause>, m: Machine)
    requires m.open != []
    ensures RunNode(Properties(clauses), m) == FinishProperties(RunClauses(clauses, Begin(m)))
  {
  }

  /** A clause of one term adds its pair to the list that its verb finds. */
  lemma OneTermRuns(pair: Pair, m: Machine)
    requires m.open != [] && m.objects == []
    ensures var r := RunClause(Clause(pair.0, [Given(pair.1)]), m);
            && r.open == AddTop(OpenForVerb(m), [pair]) && r.next == m.next && r.queue == m.queue
            && r.outer == m.outer && r.verbs == m.verbs && r.mark == |m.verbs| && r.subject == m.subject
  {
    OneObject(Given(pair.1), PushVerb(m.(element := pair.0)));
    assert [] + [pair.1] == [pair.1] && PairsOf(pair.0, [pair.1]) == [pair];
    assert Below(m.verbs + [pair.0]) == m.verbs;
  }

  lemma SmallCloses(pair: Pair, m: Machine, inner: Machine)
    requires m.open != [] && inner.open == AddTop(OpenForVerb(m), [pair]) && inner.next == m.next
             && inner.queue == m.queue
    requires inner.outer == m.outer + [m.objects] && inner.verbs == m.verbs && inner.mark == |m.verbs|
             && inner.subject == m.subject
    ensures SmallEffect(pair, m, FinishProperties(inner))
  {
  }

  lemma SmallMeans(pair: Pair, first: nat)
    ensures MeaningOfNode(Small(pair), first)
         == NodeMeaning(Generated(first), [Triple(Generated(first), pair.0, pair.1)], first + 1)
  {
    var clause := Clause(pair.0, [Given(pair.1)]);
    assert clause.objects[1..] == [] && [clause][1..] == [];
    assert MeaningOfNodes(clause.objects, first).nodes == [pair.1];
    assert MeaningOfClauses([clause], first).pairs == [pair];
    assert Attribute(Generated(first), [pair]) == [Triple(Generated(first), pair.0, pair.1)];
  }

  lemma PlainRuns(pair: Pair, m: Machine)
    requires m.verbs == [] && m.mark == 0 && m.objects == [] && m.open == [[]]
    ensures var r := RunClause(Clause(pair.0, [Given(pair.1)]), m);
            r.open == [[pair]] && r.queue == m.queue && r.mark == 0 && r.next == m.next
  {
    OneTermRuns(pair, m);
    var none: seq<Pair> := [];
    assert Below([none]) == [] && none + [pair] == [pair];
  }

  lemma PlainMeans(pair: Pair, first: nat)
    ensures MeaningOfNodes([Given(pair.1)], first) == NodesMeaning([pair.1], [], first)
  {
  }

  lemma TwoNodesRun(a: Node, b: Node, m: Machine)
    requires m.open != []
    ensures RunNodes([a, b], m) == PushObject(RunNode(b, PushObject(RunNode(a, m))))
  {
    OneObject(b, PushObject(RunNode(a, m)));
    assert [a, b][1..] == [b];
  }

  /** The first list is saved around; the second takes the pending pair with it. */
  lemma TwoEffects(one: Pair, two: Pair, pending: Pair, m: Machine, r1: Machine, r2: Machine)
    requires WillSave(m) && m.objects == [] && m.open == [[pending]]
    requires SmallEffect(one, m, r1) && SmallEffect(two, PushObject(r1), r2)
    ensures var first := Generated(m.next);
            var second := Generated(m.next + 1);
            var read := PushObject(r2);
            && read.queue == m.queue + [Triple(first, one.0, one.1)] + Attribute(second, [pending])
              + [Triple(second, two.0, two.1)]
            && read.objects == [first, second] && read.open == [[]] && read.verbs == m.verbs
  {
  }

  /** With one pair pending, the second of two lists takes it. */
  lemma TwoListsRun(verb: Term, one: Pair, two: Pair, pending: Pair, m: Machine)
    requires m.verbs == [] && m.mark == 0 && m.objects == [] && m.open == [[pending]]
    ensures var first := Generated(m.next);
            var second := Generated(m.next + 1);
            var r := RunClause(TwoLists(verb, one, two), m);
            && r.queue == m.queue + [Triple(first, one.0, one.1)] + Attribute(second, [pending])
              + [Triple(second, two.0, two.1)]
            && r.open == [PairsOf(verb, [first, second])]
  {
    var pushed := PushVerb(m.(element := verb));
    TwoSmallRun(one, two, pending, pushed);
    ClauseCloses(RunNodes([Small(one), Small(two)], pushed));
    ClauseRuns(verb, [Small(one), Small(two)], m);
  }

  lemma ClauseRuns(verb: Term, objects: seq<Node>, m: Machine)
    requires m.open != []
    ensures RunClause(Clause(verb, objects), m) == FinishClause(RunNodes(objects, PushVerb(m.(element := verb))))
  {
  }

  lemma TwoSmallRun(one: Pair, two: Pair, pending: Pair, m: Machine)
    requires WillSave(m) && m.objects == [] && m.open == [[pending]]
    ensures var first := Generated(m.next);
            var second := Generated(m.next + 1);
            var read := RunNodes([Small(one), Small(two)], m);
            && read.queue == m.queue + [Triple(first, one.0, one.1)] + Attribute(second, [pending])
              + [Triple(second, two.0, two.1)]
            && read.objects == [first, second] && read.open == [[]] && read.verbs == m.verbs
  {
    var r1 := RunNode(Small(one), m);
    SmallRuns(one, m);
    SmallRuns(two, PushObject(r1));
    TwoEffects(one, two, pending, m, r1, RunNode(Small(two), PushObject(r1)));
    TwoNodesRun(Small(one), Small(two), m);
  }

  lemma ClauseCloses(read: Machine)
    requires read.verbs != [] && read.open == [[]]
    ensures FinishClause(read).open == [PairsOf(Top(read.verbs), read.objects)]
  {
    var none: seq<Pair> := [];
    var pairs := PairsOf(Top(read.verbs), read.objects);
    assert Below([none]) == [] && none + pairs == pairs;
  }

  lemma TwoNodesMean(a: Node, b: Node, first: nat)
    ensures var x := MeaningOfNode(a, first);
            var y := MeaningOfNode(b, x.next);
            MeaningOfNodes([a, b], first) == NodesMeaning([x.node, y.node], x.triples + y.triples, y.next)
  {
    var x := MeaningOfNode(a, first);
    var y := MeaningOfNode(b, x.next);
    assert [a, b][1..] == [b] && [b][1..] == [];
    assert MeaningOfNodes([b], x.next) == NodesMeaning([y.node], y.triples, y.next) by {
      assert y.triples + [] == y.triples;
    }
  }

  lemma TwoListsMean(verb: Term, one: Pair, two: Pair, first: nat)
    ensures var meaning := MeaningOfNodes(TwoLists(verb, one, two).objects, first);
            && meaning.triples == [Triple(Generated(first), one.0, one.1), Triple(Generated(first + 1), two.0, two.1)]
            && meaning.nodes == [Generated(first), Generated(first + 1)]
  {
    SmallMeans(one, first);
    SmallMeans(two, first + 1);
    TwoNodesMean(Small(one), Small(two), first);
  }

  /** A statement of a written subject and two clauses, as run and as meant. */
  lemma TwoClausesRun(s: Term, a: Clause, b: Clause, m: Machine)
    requires m.open != []
    ensures var r := RunClause(b, RunClause(a, m.(element := s, subject := s)));
            RunStatement(Statement(Given(s), [a, b]), m).queue == r.queue + Attribute(s, Top(r.open))
  {
    assert [a, b][1..] == [b];
    OneClause(b, RunClause(a, m.(element := s, subject := s)));
  }

  lemma TwoClausesMean(s: Term, a: Clause, b: Clause, first: nat)
    ensures var x := MeaningOfNodes(a.objects, first);
            var y := MeaningOfNodes(b.objects, x.next);
            MeaningOfStatement(Statement(Given(s), [a, b]), first).triples
            == x.triples + y.triples + Attribute(s, PairsOf(a.verb, x.nodes) + PairsOf(b.verb, y.nodes))
  {
    var x := MeaningOfNodes(a.objects, first);
    var y := MeaningOfNodes(b.objects, x.next);
    var pairs := PairsOf(b.verb, y.nodes);
    assert [a, b][1..] == [b] && [b][1..] == [];
    assert pairs + [] == pairs && y.triples + [] == y.triples;
    assert MeaningOfClauses([b], x.next) == ClausesMeaning(pairs, y.triples, y.next);
    assert MeaningOfClauses([a, b], first)
        == ClausesMeaning(PairsOf(a.verb, x.nodes) + pairs, x.triples + y.triples, y.next);
  }

  /**
   Why written subjects must differ from generated ones in the exact statement: here the lost pair is given to a
   node the document itself names, and the queue is right by accident although the statement is not safe.
   */
  lemma AccidentallyRight(p: Term, one: Pair, two: Pair, m: Machine)
    requires Idle(m)
    ensures var statement := Statement(Given(Generated(m.next + 1)),
                                       [Clause(two.0, [Given(two.1)]), TwoLists(p, one, two)]);
            && DerivableStatement(statement) && !SafeStatement(statement)
            && RunStatement(statement, m).queue == m.queue + MeaningOfStatement(statement, m.next).triples
  {
    var s := Generated(m.next + 1);
    var plain := Clause(two.0, [Given(two.1)]);
    var links := PairsOf(p, [Generated(m.next), s]);
    EarlierPairIsTaken(s, two.0, two.1, p, one, two, m);
    PlainRuns(two, m.(element := s, subject := s));
    TwoListsRun(p, one, two, two, RunClause(plain, m.(element := s, subject := s)));
    TwoClausesRun(s, plain, TwoLists(p, one, two), m);
    PlainMeans(two, m.next);
    TwoListsMean(p, one, two, m.next);
    TwoClausesMean(s, plain, TwoLists(p, one, two), m.next);
    AccidentalOrder(m.queue, s, Triple(Generated(m.next), one.0, one.1), Triple(s, two.0, two.1), two, links);
    assert PairsOf(two.0, [two.1]) == [two];
  }

  lemma AccidentalOrder(queue: seq<Triple>, s: Term, q1: Triple, q2: Triple, two: Pair, links: seq<Pair>)
    requires q2 == Triple(s, two.0, two.1)
    ensures queue + [q1] + Attribute(s, [two]) + [q2] + Attribute(s, links)
         == queue + ([] + [q1, q2] + Attribute(s, [two] + links))
  {
  }
}
