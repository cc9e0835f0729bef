/** Collections can be read back from the triples they become. */
module Lists {
  import opened Terms
  import opened Labels
  import opened Turtle
  import opened Reference
  import opened Machine
  import opened StackLaw
  import opened Attribution

  /** All objects the triples give for a subject and a predicate. */
  function Objects(triples: seq<Triple>, subject: Term, verb: Term): seq<Term> {
    if triples == [] then []
    else
      var head := triples[0];
      (if head.subject == subject && head.predicate_ == verb then [head.object_] else [])
        + Objects(triples[1..], subject, verb)
  }

  /** Follows rest from a cell to nil; fails unless every cell has exactly one first and one rest. */
  function ReadList(triples: seq<Triple>, cell: Term, steps: nat): Option<seq<Term>>
    decreases steps
  {
    if cell == NIL then Some([])
    else if steps == 0 then None
    else
      var first := Objects(triples, cell, FIRST);
      var rest := Objects(triples, cell, REST);
      if |first| != 1 || |rest| != 1 then None
      else
        var tail := ReadList(triples, rest[0], steps - 1);
        if tail.None? then None else Some(first + tail.value)
  }

  lemma {:induction false} ObjectsAdd(a: seq<Triple>, b: seq<Triple>, subject: Term, verb: Term)
    ensures Objects(a + b, subject, verb) == Objects(a, subject, verb) + Objects(b, subject, verb)
  {
    if a == [] {
      assert a + b == b;
    } else {
      assert (a + b)[1..] == a[1..] + b;
      ObjectsAdd(a[1..], b, subject, verb);
    }
  }

  lemma ObjectsOfTwo(a: Triple, b: Triple, subject: Term, verb: Term)
    ensures Objects([a, b], subject, verb)
         == (if a.subject == subject && a.predicate_ == verb then [a.object_] else [])
            + (if b.subject == subject && b.predicate_ == verb then [b.object_] else [])
  {
    assert [a, b] == [a] + [b];
    ObjectsAdd([a], [b], subject, verb);
    assert forall t: Triple :: [t][1..] == [];
  }

  /** No triple gives the subject an object for the verb. */
  ghost predicate NoLink(triples: seq<Triple>, subject: Term, verb: Term) {
    forall i :: 0 <= i < |triples| ==> triples[i].subject != subject || triples[i].predicate_ != verb
  }

  lemma {:induction false} NoObjects(triples: seq<Triple>, subject: Term, verb: Term)
    requires NoLink(triples, subject, verb)
    ensures Objects(triples, subject, verb) == []
  {
    if triples != [] {
      NoObjects(triples[1..], subject, verb);
    }
  }

  /** No triple is a cell under a label from the range; such labels may still be subjects of other verbs. */
  ghost predicate NoCells(triples: seq<Triple>, from: nat, to: nat) {
    forall i :: 0 <= i < |triples| && (triples[i].predicate_ == FIRST || triples[i].predicate_ == REST)
                ==> !GeneratedBetween(triples[i].subject, from, to)
  }

  lemma NoCellsNoLinks(triples: seq<Triple>, from: nat, to: nat, n: nat)
    requires NoCells(triples, from, to) && from <= n < to
    ensures NoLink(triples, Generated(n), FIRST) && NoLink(triples, Generated(n), REST)
  {
    assert GeneratedBetween(Generated(n), from, to);
  }

  lemma GeneratedIsNotNil(n: nat)
    ensures Generated(n) != NIL && FIRST != REST
  {
  }

  /** The two triples of the first item's cell, which come last. */
  function LastCell(items: seq<Term>, first: nat): seq<Triple>
    requires items != []
  {
    var cell := Generated(first + |items| - 1);
    var rest := if |items| == 1 then NIL else Generated(first + |items| - 2);
    [Triple(cell, REST, rest), Triple(cell, FIRST, items[0])]
  }

  lemma ObjectsSplit(items: seq<Term>, first: nat, wanted: Term, verb: Term)
    requires items != []
    ensures Objects(ListTriples(items, first), wanted, verb)
         == Objects(ListTriples(items[1..], first), wanted, verb) + Objects(LastCell(items, first), wanted, verb)
  {
    ObjectsAdd(ListTriples(items[1..], first), LastCell(items, first), wanted, verb);
  }

  lemma LastCellObjects(items: seq<Term>, first: nat, wanted: Term)
    requires items != []
    ensures var own := wanted == Generated(first + |items| - 1);
            && Objects(LastCell(items, first), wanted, FIRST) == (if own then [items[0]] else [])
            && Objects(LastCell(items, first), wanted, REST)
               == (if own then [if |items| == 1 then NIL else Generated(first + |items| - 2)] else [])
  {
    var own := LastCell(items, first);
    GeneratedIsNotNil(first);
    ObjectsOfTwo(own[0], own[1], wanted, FIRST);
    ObjectsOfTwo(own[0], own[1], wanted, REST);
  }

  lemma NoOtherCell(items: seq<Term>, first: nat)
    requires items != []
    ensures var wanted := Generated(first + |items| - 1);
            && Objects(ListTriples(items[1..], first), wanted, FIRST) == []
            && Objects(ListTriples(items[1..], first), wanted, REST) == []
  {
    var tail := ListTriples(items[1..], first);
    ListSubjects(items[1..], first);
    WithinIsOther(tail, first, first + |items| - 1, first + |items| - 1);
    NoObjects(tail, Generated(first + |items| - 1), FIRST);
    NoObjects(tail, Generated(first + |items| - 1), REST);
  }

  /** The cell that holds the item with k items from it to the end, in the list's own triples. */
  lemma {:induction false} CellOfList(items: seq<Term>, first: nat, k: nat)
    requires 0 < k <= |items|
    ensures Objects(ListTriples(items, first), Generated(first + k - 1), FIRST) == [items[|items| - k]]
    ensures Objects(ListTriples(items, first), Generated(first + k - 1), REST)
         == [if k == 1 then NIL else Generated(first + k - 2)]
  {
    if k < |items| {
      CellOfList(items[1..], first, k);
      NotLastCell(items, first, k);
      CellFurther(items, first, Generated(first + k - 1));
    } else {
      CellLast(items, first);
    }
  }

  lemma NotLastCell(items: seq<Term>, first: nat, k: nat)
    requires 0 < k < |items|
    ensures Generated(first + k - 1) != Generated(first + |items| - 1)
  {
    if Generated(first + k - 1) == Generated(first + |items| - 1) {
      GeneratedInjective(first + k - 1, first + |items| - 1);
    }
  }

  lemma CellFurther(items: seq<Term>, first: nat, wanted: Term)
    requires items != [] && wanted != Generated(first + |items| - 1)
    ensures Objects(ListTriples(items, first), wanted, FIRST) == Objects(ListTriples(items[1..], first), wanted, FIRST)
    ensures Objects(ListTriples(items, first), wanted, REST) == Objects(ListTriples(items[1..], first), wanted, REST)
  {
    ObjectsSplit(items, first, wanted, FIRST);
    ObjectsSplit(items, first, wanted, REST);
    LastCellObjects(items, first, wanted);
  }

  lemma CellLast(items: seq<Term>, first: nat)
    requires items != []
    ensures var wanted := Generated(first + |items| - 1);
            && Objects(ListTriples(items, first), wanted, FIRST) == [items[0]]
            && Objects(ListTriples(items, first), wanted, REST)
               == [if |items| == 1 then NIL else Generated(first + |items| - 2)]
  {
    var wanted := Generated(first + |items| - 1);
    ObjectsSplit(items, first, wanted, FIRST);
    ObjectsSplit(items, first, wanted, REST);
    LastCellObjects(items, first, wanted);
    NoOtherCell(items, first);
  }

  /** The cells among any triples that are no cells under the same labels. */
  lemma CellInQueue(items: seq<Term>, first: nat, k: nat, before: seq<Triple>, after: seq<Triple>)
    requires 0 < k <= |items|
    requires NoCells(before, first, first + |items|) && NoCells(after, first, first + |items|)
    ensures var queue := before + ListTriples(items, first) + after;
            && Objects(queue, Generated(first + k - 1), FIRST) == [items[|items| - k]]
            && Objects(queue, Generated(first + k - 1), REST) == [if k == 1 then NIL else Generated(first + k - 2)]
  {
    var cell := Generated(first + k - 1);
    NoCellsNoLinks(before, first, first + |items|, first + k - 1);
    NoCellsNoLinks(after, first, first + |items|, first + k - 1);
    CellOfList(items, first, k);
    InTheMiddle(before, ListTriples(items, first), after, cell, FIRST);
    InTheMiddle(before, ListTriples(items, first), after, cell, REST);
  }

  lemma InTheMiddle(before: seq<Triple>, middle: seq<Triple>, after: seq<Triple>, subject: Term, verb: Term)
    requires NoLink(before, subject, verb) && NoLink(after, subject, verb)
    ensures Objects(before + middle + after, subject, verb) == Objects(middle, subject, verb)
  {
    NoObjects(before, subject, verb);
    NoObjects(after, subject, verb);
    ObjectsAdd(before, middle, subject, verb);
    ObjectsAdd(before + middle, after, subject, verb);
  }

  lemma {:induction false} ReadsFrom(items: seq<Term>, first: nat, k: nat, before: seq<Triple>, after: seq<Triple>)
    requires 0 < k <= |items|
    requires NoCells(before, first, first + |items|) && NoCells(after, first, first + |items|)
    ensures ReadList(before + ListTriples(items, first) + after, Generated(first + k - 1), k)
            == Some(items[|items| - k..])
    decreases k
  {
    CellInQueue(items, first, k, before, after);
    GeneratedIsNotNil(first + k - 1);
    var tail := if k == 1 then [] else items[|items| - k + 1..];
    if k > 1 {
      ReadsFrom(items, first, k - 1, before, after);
    }
    assert items[|items| - k..] == [items[|items| - k]] + tail;
  }

  // ---- What a run adds to the queue, for every nesting.

  ghost predicate AddsWithin(q0: seq<Triple>, n0: nat, q1: seq<Triple>, n1: nat) {
    q0 <= q1 && n0 <= n1 && SubjectsWithin(q1[|q0|..], n0, n1)
  }

  lemma AddsMore(q0: seq<Triple>, n0: nat, q1: seq<Triple>, n1: nat, q2: seq<Triple>, n2: nat)
    requires AddsWithin(q0, n0, q1, n1) && AddsWithin(q1, n1, q2, n2)
    ensures AddsWithin(q0, n0, q2, n2)
  {
    forall i | 0 <= i < |q2| - |q0|
      ensures GeneratedBetween(q2[|q0|..][i].subject, n0, n2)
    {
      if i < |q1| - |q0| {
        assert GeneratedBetween(q1[|q0|..][i].subject, n0, n1);
      } else {
        assert GeneratedBetween(q2[|q1|..][i - (|q1| - |q0|)].subject, n1, n2);
      }
    }
  }

  lemma AddsOwn(q: seq<Triple>, more: seq<Triple>, from: nat, to: nat)
    requires SubjectsWithin(more, from, to) && from <= to
    ensures AddsWithin(q, from, q + more, to)
  {
    assert (q + more)[|q|..] == more;
  }

  /** Every triple a run adds has a subject that the run itself generated, whatever saves it misses. */
  lemma {:induction false} NodeAdds(node: Node, m: Machine)
    requires m.open != []
    ensures var r := RunNode(node, m);
            AddsWithin(m.queue, m.next, r.queue, r.next)
    decreases node, 1
  {
    match node
    case Given(_) =>
    case Anon =>
    case Collection(items) =>
      var inner := RunNodes(items, Begin(m));
      NodesAdd(items, Begin(m));
      CollectionSubjects(inner.objects, inner.next);
      AddsOwn(inner.queue, CollectionMeaning(inner.objects, inner.next).triples, inner.next,
              CollectionMeaning(inner.objects, inner.next).next);
      AddsMore(m.queue, m.next, inner.queue, inner.next, RunNode(node, m).queue, RunNode(node, m).next);
    case Properties(clauses) =>
      var inner := RunClauses(clauses, Begin(m));
      ClausesAdd(clauses, Begin(m));
      PairsAdd(inner.queue, Top(inner.open), inner.next);
      AddsMore(m.queue, m.next, inner.queue, inner.next, RunNode(node, m).queue, RunNode(node, m).next);
  }

  lemma PairsAdd(q: seq<Triple>, pairs: seq<Pair>, n: nat)
    ensures AddsWithin(q, n, q + Attribute(Generated(n), pairs), n + 1)
  {
    assert GeneratedBetween(Generated(n), n, n + 1);
    AddsOwn(q, Attribute(Generated(n), pairs), n, n + 1);
  }

  lemma {:induction false} NodesAdd(nodes: seq<Node>, m: Machine)
    requires m.open != []
    ensures var r := RunNodes(nodes, m);
            AddsWithin(m.queue, m.next, r.queue, r.next)
    decreases nodes, 0
  {
    if nodes != [] {
      var head := PushObject(RunNode(nodes[0], m));
      NodeAdds(nodes[0], m);
      NodesAdd(nodes[1..], head);
      AddsMore(m.queue, m.next, head.queue, head.next, RunNodes(nodes, m).queue, RunNodes(nodes, m).next);
    }
  }

  lemma {:induction false} ClausesAdd(clauses: seq<Clause>, m: Machine)
    requires m.open != []
    ensures var r := RunClauses(clauses, m);
            AddsWithin(m.queue, m.next, r.queue, r.next)
    decreases clauses, 0
  {
    if clauses != [] {
      var head := RunClause(clauses[0], m);
      NodesAdd(clauses[0].objects, PushVerb(m.(element := clauses[0].verb)));
      ClausesAdd(clauses[1..], head);
      AddsMore(m.queue, m.next, head.queue, head.next, RunClauses(clauses, m).queue, RunClauses(clauses, m).next);
    }
  }

  /** The cells after what the items added, whose subjects are all older. */
  lemma CellsReadBack(nodes: seq<Term>, inner: seq<Triple>, first: nat, next: nat, before: seq<Triple>,
                      after: seq<Triple>)
    requires nodes != [] && first <= next && SubjectsWithin(inner, first, next)
    requires NoCells(before, next, next + |nodes|) && NoCells(after, next, next + |nodes|)
    ensures ReadList(before + inner + ListTriples(nodes, next) + after, Generated(next + |nodes| - 1), |nodes|)
            == Some(nodes)
  {
    EarlierIsOutside(inner, first, next, next + |nodes|);
    assert NoCells(before + inner, next, next + |nodes|);
    ReadsFrom(nodes, next, |nodes|, before + inner, after);
    assert nodes[0..] == nodes;
  }

  /**
   Main result: for every non-empty collection of any nesting, in every state and whatever saves are missed inside,
   following rest from the element it leaves visits its items in order through first and ends at nil, wherever the
   queue goes on, provided no other triple is a cell under a label of the collection.
   */
  lemma CollectionReadsBack(items: seq<Node>, m: Machine, after: seq<Triple>)
    requires items != [] && DerivableNodes(items) && Ready(m)
    requires NoCells(m.queue, m.next, RunNode(Collection(items), m).next)
    requires NoCells(after, m.next, RunNode(Collection(items), m).next)
    ensures var r := RunNode(Collection(items), m);
            ReadList(r.queue + after, r.element, |items|) == Some(MeaningOfNodes(items, m.next).nodes)
  {
    NodesAdd(items, Begin(m));
    ObjectsCollected(items, m);
    CollectionUnfold(items, m);
    CellsInRun(m, RunNodes(items, Begin(m)), after);
  }

  lemma ObjectsCollected(items: seq<Node>, m: Machine)
    requires DerivableNodes(items) && Ready(m)
    ensures RunNodes(items, Begin(m)).objects == MeaningOfNodes(items, m.next).nodes
  {
    RunNodesLaw(items, Begin(m));
  }

  lemma CollectionUnfold(items: seq<Node>, m: Machine)
    requires m.open != []
    ensures RunNode(Collection(items), m) == FinishCollection(RunNodes(items, Begin(m)))
  {
  }

  lemma CellsInRun(m: Machine, inner: Machine, after: seq<Triple>)
    requires inner.outer != [] && inner.objects != [] && AddsWithin(m.queue, m.next, inner.queue, inner.next)
    requires NoCells(m.queue, m.next, FinishCollection(inner).next)
             && NoCells(after, m.next, FinishCollection(inner).next)
    ensures var r := FinishCollection(inner);
            ReadList(r.queue + after, r.element, |inner.objects|) == Some(inner.objects)
  {
    var to := inner.next + |inner.objects|;
    FewerLabels(m.queue, m.next, inner.next, to);
    FewerLabels(after, m.next, inner.next, to);
    assert m.queue + inner.queue[|m.queue|..] == inner.queue;
    CellsReadBack(inner.objects, inner.queue[|m.queue|..], m.next, inner.next, m.queue, after);
  }

  lemma FewerLabels(triples: seq<Triple>, from: nat, from': nat, to: nat)
    requires NoCells(triples, from, to) && from <= from'
    ensures NoCells(triples, from', to)
  {
  }

  lemma WithinIsOther(triples: seq<Triple>, from: nat, to: nat, n: nat)
    requires SubjectsWithin(triples, from, to) && !(from <= n < to)
    ensures forall i :: 0 <= i < |triples| ==> triples[i].subject != Generated(n)
  {
    forall i | 0 <= i < |triples|
      ensures triples[i].subject != Generated(n)
    {
      assert GeneratedBetween(triples[i].subject, from, to);
      var j: nat :| from <= j < to && triples[i].subject == Generated(j);
      if Generated(j) == Generated(n) {
        GeneratedInjective(j, n);
      }
    }
  }

  lemma EarlierIsOutside(triples: seq<Triple>, from: nat, to: nat, to': nat)
    requires SubjectsWithin(triples, from, to)
    ensures SubjectsOutside(triples, to, to')
  {
    forall i | 0 <= i < |triples|
      ensures !GeneratedBetween(triples[i].subject, to, to')
    {
      LaterIsNew(triples[i].subject, to, to', from, to);
    }
  }
}
