/**
 What a run does to the pending pairs, for every nesting. The size heuristic saves the current list only for
 the first property list under an open verb; every later one is a missed save, and its end removes one
 entry that belongs further out. The law counts these exactly.
 */
module StackLaw {
  import opened Terms
  import opened Labels
  import opened Turtle
  import opened Reference
  import opened Machine

  /** The number of property lists whose first verb finds the heuristic unwilling to save. */
  function MissedByNode(node: Node, willSave: bool): nat
    decreases node, 1
  {
    match node
    case Given(_) => 0
    case Anon => 0
    case Collection(items) => MissedByNodes(items, willSave)
    case Properties(clauses) => (if willSave then 0 else 1) + MissedByClauses(clauses)
  }

  function MissedByNodes(nodes: seq<Node>, willSave: bool): nat
    decreases nodes, 0
  {
    if nodes == [] then 0
    else MissedByNode(nodes[0], willSave) + MissedByNodes(nodes[1..], willSave && !OpensList(nodes[0]))
  }

  function MissedByClauses(clauses: seq<Clause>): nat
    decreases clauses, 0
  {
    if clauses == [] then 0 else MissedByNodes(clauses[0].objects, true) + MissedByClauses(clauses[1..])
  }

  /** Leaves the current list n times. */
  function CloseTimes(open: seq<seq<Pair>>, n: nat): (r: seq<seq<Pair>>)
    requires open != []
    ensures |r| == if n < |open| then |open| - n else 1
    decreases n
  {
    if n == 0 then open else CloseTimes(Close(open), n - 1)
  }

  lemma {:induction false} CloseTimesAdds(open: seq<seq<Pair>>, a: nat, b: nat)
    requires open != []
    ensures CloseTimes(CloseTimes(open, a), b) == CloseTimes(open, a + b)
    decreases a
  {
    if a > 0 {
      CloseTimesAdds(Close(open), a - 1, b);
    }
  }

  /** What the clauses leave open, given the lists left open before the first verb's objects. */
  function OpenAfter(clauses: seq<Clause>, open: seq<seq<Pair>>, first: nat): (r: seq<seq<Pair>>)
    requires open != []
    ensures r != []
    decreases clauses
  {
    if clauses == [] then open
    else
      var objects := MeaningOfNodes(clauses[0].objects, first);
      var closed := CloseTimes(open, MissedByNodes(clauses[0].objects, true));
      OpenAfter(clauses[1..], AddTop(closed, PairsOf(clauses[0].verb, objects.nodes)), objects.next)
  }

  lemma AddedIsForgotten(open: seq<seq<Pair>>, pairs: seq<Pair>, n: nat)
    requires open != []
    ensures CloseTimes(AddTop(open, pairs), n + 1) == CloseTimes(open, n + 1)
    ensures |CloseTimes(AddTop(open, pairs), n)| == |CloseTimes(open, n)|
  {
    assert Close(AddTop(open, pairs)) == Close(open);
    assert CloseTimes(AddTop(open, pairs), n + 1) == CloseTimes(Close(open), n);
  }

  /** Pairs added to the current list are gone once the list is left. */
  lemma {:induction false} CloseForgetsTop(clauses: seq<Clause>, open: seq<seq<Pair>>, first: nat)
    requires open != []
    ensures Close(OpenAfter(clauses, open, first)) == CloseTimes(open, MissedByClauses(clauses) + 1)
    ensures |OpenAfter(clauses, open, first)| == |CloseTimes(open, MissedByClauses(clauses))|
    decreases clauses
  {
    if clauses == [] {
      assert CloseTimes(Close(open), 0) == Close(open);
    } else {
      var objects := MeaningOfNodes(clauses[0].objects, first);
      var missed := MissedByNodes(clauses[0].objects, true);
      var closed := CloseTimes(open, missed);
      var added := AddTop(closed, PairsOf(clauses[0].verb, objects.nodes));
      CloseForgetsTop(clauses[1..], added, objects.next);
      var rest := MissedByClauses(clauses[1..]);
      AddedIsForgotten(closed, PairsOf(clauses[0].verb, objects.nodes), rest);
      CloseTimesAdds(open, missed, rest + 1);
      CloseTimesAdds(open, missed, rest);
    }
  }

  /** When no later clause misses a save, the current list ends with all the list's own pairs. */
  lemma {:induction false} TopKeepsOwnPairs(clauses: seq<Clause>, open: seq<seq<Pair>>, first: nat)
    requires open != [] && clauses != [] && MissedByClauses(clauses[1..]) == 0
    ensures Top(OpenAfter(clauses, open, first))
         == Top(CloseTimes(open, MissedByClauses(clauses))) + MeaningOfClauses(clauses, first).pairs
    decreases clauses
  {
    var objects := MeaningOfNodes(clauses[0].objects, first);
    var closed := CloseTimes(open, MissedByNodes(clauses[0].objects, true));
    var pairs := PairsOf(clauses[0].verb, objects.nodes);
    var rest := clauses[1..];
    if rest == [] {
      assert MeaningOfClauses(rest, objects.next).pairs == [] && pairs + [] == pairs;
    } else {
      NoMissFurther(rest);
      TopKeepsOwnPairs(rest, AddTop(closed, pairs), objects.next);
      assert Top(closed) + pairs + MeaningOfClauses(rest, objects.next).pairs
          == Top(closed) + (pairs + MeaningOfClauses(rest, objects.next).pairs);
    }
  }

  lemma NoMissFurther(clauses: seq<Clause>)
    requires clauses != [] && MissedByClauses(clauses) == 0
    ensures MissedByClauses(clauses[1..]) == 0
  {
  }

  /** The verbs pushed so far keep the mark near the depth of the open verbs. */
  ghost predicate Ready(m: Machine) {
    m.open != [] && m.mark + 1 >= |m.verbs|
  }

  /** Was this the label of a node generated between the two counter values? */
  ghost predicate GeneratedBetween(term: Term, from: nat, to: nat) {
    exists n: nat :: from <= n < to && term == Generated(n)
  }

  /** firstList changes exactly when the missed saves run past the bottom of the pending lists. */
  ghost predicate FirstListLaw(m: Machine, r: Machine, missed: nat) {
    && (missed < |m.open| ==> r.firstList == m.firstList)
    && (missed >= |m.open| ==> GeneratedBetween(r.firstList, m.next, r.next))
  }

  /** The law for one node: exact value, counter and pending pairs, and the readiness to save it leaves. */
  ghost predicate NodeLaw(node: Node, m: Machine, r: Machine)
    requires m.open != []
  {
    && r.element == MeaningOfNode(node, m.next).node
    && r.next == MeaningOfNode(node, m.next).next
    && r.open == CloseTimes(m.open, MissedByNode(node, WillSave(m)))
    && FirstListLaw(m, r, MissedByNode(node, WillSave(m)))
    && Ready(r) && WillSave(r) == (WillSave(m) && !OpensList(node))
  }

  ghost predicate NodesLaw(nodes: seq<Node>, m: Machine, r: Machine)
    requires m.open != []
  {
    && r.objects == m.objects + MeaningOfNodes(nodes, m.next).nodes
    && r.next == MeaningOfNodes(nodes, m.next).next
    && r.open == CloseTimes(m.open, MissedByNodes(nodes, WillSave(m)))
    && FirstListLaw(m, r, MissedByNodes(nodes, WillSave(m)))
    && Ready(r) && WillSave(r) == (WillSave(m) && !OpenSomeList(nodes))
  }

  ghost predicate ClausesLaw(clauses: seq<Clause>, open: seq<seq<Pair>>, m: Machine, r: Machine)
    requires open != []
  {
    && r.next == MeaningOfClauses(clauses, m.next).next
    && r.open == OpenAfter(clauses, open, m.next)
    && FirstListLaw(m.(open := open), r, MissedByClauses(clauses))
    && Ready(r) && r.objects == []
  }

  lemma {:induction false} RunNodeLaw(node: Node, m: Machine)
    requires DerivableNode(node) && Ready(m)
    ensures NodeLaw(node, m, RunNode(node, m))
    decreases node, 1
  {
    match node
    case Given(_) =>
    case Anon =>
    case Collection(items) =>
      RunNodesLaw(items, Begin(m));
      CollectionLaw(items, m, RunNodes(items, Begin(m)));
    case Properties(clauses) =>
      RunClausesLaw(clauses, Begin(m), OpenForVerb(m));
      PropertiesLaw(clauses, m, RunClauses(clauses, Begin(m)));
  }

  lemma CollectionLaw(items: seq<Node>, m: Machine, inner: Machine)
    requires Ready(m) && inner.outer == m.outer + [m.objects] && NodesLaw(items, Begin(m), inner)
             && inner.verbs == m.verbs
    ensures NodeLaw(Collection(items), m, FinishCollection(inner))
  {
    assert [] + MeaningOfNodes(items, m.next).nodes == MeaningOfNodes(items, m.next).nodes;
  }

  /** Leaving a property list undoes a save, and takes one entry too many when none was made. */
  lemma PropertiesLaw(clauses: seq<Clause>, m: Machine, inner: Machine)
    requires Ready(m) && clauses != []
    requires ClausesLaw(clauses, OpenForVerb(m), Begin(m), inner)
    requires inner.outer == Begin(m).outer && inner.verbs == m.verbs && !WillSave(inner)
    ensures NodeLaw(Properties(clauses), m, FinishProperties(inner))
  {
    PropertiesPending(clauses, m, inner.open);
    FirstListAfter(m, inner, MissedByClauses(clauses));
    PropertiesUnfold(clauses, m.next, WillSave(m));
    PropertiesClose(clauses, m, inner, MissedByClauses(clauses) + if WillSave(m) then 0 else 1);
  }

  /** The pending lists at the end of a property list, and after it. */
  lemma PropertiesPending(clauses: seq<Clause>, m: Machine, open: seq<seq<Pair>>)
    requires m.open != [] && open == OpenAfter(clauses, OpenForVerb(m), m.next)
    ensures |open| == |CloseTimes(OpenForVerb(m), MissedByClauses(clauses))|
    ensures Close(open) == CloseTimes(m.open, MissedByClauses(clauses) + if WillSave(m) then 0 else 1)
  {
    CloseForgetsTop(clauses, OpenForVerb(m), m.next);
    LeavingUndoesSave(m, MissedByClauses(clauses));
  }

  lemma PropertiesUnfold(clauses: seq<Clause>, first: nat, willSave: bool)
    ensures var n := MeaningOfClauses(clauses, first).next;
            MeaningOfNode(Properties(clauses), first).node == Generated(n)
              && MeaningOfNode(Properties(clauses), first).next == n + 1
    ensures MissedByNode(Properties(clauses), willSave) == MissedByClauses(clauses) + if willSave then 0 else 1
    ensures OpensList(Properties(clauses))
  {
  }

  lemma PropertiesClose(clauses: seq<Clause>, m: Machine, inner: Machine, missed: nat)
    requires Ready(m) && Ready(inner) && inner.outer != [] && inner.verbs == m.verbs && !WillSave(inner)
    requires Close(inner.open) == CloseTimes(m.open, missed) && FirstListLaw(m, FinishProperties(inner), missed)
    requires var meaning := MeaningOfNode(Properties(clauses), m.next);
             meaning.node == Generated(inner.next) && meaning.next == inner.next + 1
    requires MissedByNode(Properties(clauses), WillSave(m)) == missed && OpensList(Properties(clauses))
    ensures NodeLaw(Properties(clauses), m, FinishProperties(inner))
  {
  }

  lemma FirstListAfter(m: Machine, inner: Machine, missed: nat)
    requires m.open != [] && inner.open != [] && inner.outer != [] && m.next <= inner.next
    requires |inner.open| == |CloseTimes(OpenForVerb(m), missed)|
    requires FirstListLaw(m.(open := OpenForVerb(m)), inner, missed)
    ensures FirstListLaw(m, FinishProperties(inner), missed + if WillSave(m) then 0 else 1)
  {
    assert GeneratedBetween(Generated(inner.next), m.next, inner.next + 1);
  }

  lemma LeavingUndoesSave(m: Machine, missed: nat)
    requires m.open != []
    ensures CloseTimes(OpenForVerb(m), missed + 1) == CloseTimes(m.open, missed + if WillSave(m) then 0 else 1)
  {
    if WillSave(m) {
      assert Close(m.open + [[]]) == m.open;
      assert CloseTimes(m.open + [[]], missed + 1) == CloseTimes(Close(m.open + [[]]), missed);
    }
  }

  lemma {:induction false} RunNodesLaw(nodes: seq<Node>, m: Machine)
    requires DerivableNodes(nodes) && Ready(m)
    ensures NodesLaw(nodes, m, RunNodes(nodes, m))
    decreases nodes, 0
  {
    if nodes != [] {
      RunNodeLaw(nodes[0], m);
      var head := RunNode(nodes[0], m);
      RunNodesLaw(nodes[1..], PushObject(head));
      NextNodeLaw(nodes, m, head, RunNodes(nodes[1..], PushObject(head)));
    }
  }

  lemma NextNodeLaw(nodes: seq<Node>, m: Machine, head: Machine, r: Machine)
    requires nodes != [] && m.open != [] && head.open != [] && r.open != []
    requires NodeLaw(nodes[0], m, head) && NodesLaw(nodes[1..], PushObject(head), r) && head.objects == m.objects
    ensures NodesLaw(nodes, m, r)
  {
    CloseTimesAdds(m.open, MissedByNode(nodes[0], WillSave(m)), MissedByNodes(nodes[1..], WillSave(head)));
    var rest := MeaningOfNodes(nodes[1..], head.next);
    assert m.objects + [head.element] + rest.nodes == m.objects + ([head.element] + rest.nodes);
  }

  /** open is the stack once the first verb has been pushed; later verbs never save. */
  lemma {:induction false} RunClausesLaw(clauses: seq<Clause>, m: Machine, open: seq<seq<Pair>>)
    requires DerivableClauses(clauses) && Ready(m) && m.objects == []
    requires open == if clauses == [] then m.open else OpenForVerb(m)
    ensures ClausesLaw(clauses, open, m, RunClauses(clauses, m))
    ensures clauses != [] ==> !WillSave(RunClauses(clauses, m))
    decreases clauses, 0
  {
    if clauses != [] {
      var head := RunClause(clauses[0], m);
      RunNodesLaw(clauses[0].objects, PushVerb(m.(element := clauses[0].verb)));
      ClauseEnds(clauses[0], m, RunNodes(clauses[0].objects, PushVerb(m.(element := clauses[0].verb))));
      RunClausesLaw(clauses[1..], head, head.open);
    }
  }

  /** The law for one clause: its pairs join the list left on top by the lists among its objects. */
  ghost predicate ClauseLaw(clause: Clause, m: Machine, r: Machine)
    requires m.open != []
  {
    var objects := MeaningOfNodes(clause.objects, m.next);
    var missed := MissedByNodes(clause.objects, true);
    && r.next == objects.next
    && r.open == AddTop(CloseTimes(OpenForVerb(m), missed), PairsOf(clause.verb, objects.nodes))
    && FirstListLaw(m.(open := OpenForVerb(m)), r, missed)
    && Ready(r) && !WillSave(r) && r.objects == []
  }

  lemma ClauseEnds(clause: Clause, m: Machine, read: Machine)
    requires Ready(m) && m.objects == []
    requires NodesLaw(clause.objects, PushVerb(m.(element := clause.verb)), read)
             && read.verbs == m.verbs + [clause.verb]
    requires read.open != []
    ensures ClauseLaw(clause, m, FinishClause(read))
  {
    assert [] + MeaningOfNodes(clause.objects, m.next).nodes == MeaningOfNodes(clause.objects, m.next).nodes;
    assert Below(m.verbs + [clause.verb]) == m.verbs && Top(m.verbs + [clause.verb]) == clause.verb;
  }

  lemma RunClauseLaw(clause: Clause, m: Machine)
    requires DerivableNodes(clause.objects) && Ready(m) && m.objects == []
    ensures ClauseLaw(clause, m, RunClause(clause, m))
  {
    RunNodesLaw(clause.objects, PushVerb(m.(element := clause.verb)));
    ClauseEnds(clause, m, RunNodes(clause.objects, PushVerb(m.(element := clause.verb))));
  }
}
