/** What small pieces of syntax queue, triple by triple and in order, with every text written out. */
module Spelling {
  import opened Terms
  import opened Turtle
  import opened Reference
  import opened Machine
  import opened StackLaw
  import opened Attribution
  import opened Documents
  import opened Lists
  import opened Direct

  // ---- Statements whose objects are all written.

  function Written(terms: seq<Term>): (r: seq<Node>)
    ensures |r| == |terms|
  {
    seq(|terms|, i requires 0 <= i < |terms| => Given(terms[i]))
  }

  /** A list of verbs, each with the terms that are its objects. */
  type Listing = seq<(Term, seq<Term>)>

  function Body(listing: Listing): seq<Clause> {
    if listing == [] then [] else [Clause(listing[0].0, Written(listing[0].1))] + Body(listing[1..])
  }

  /** One triple for each object, verb after verb. */
  function Listed(subject: Term, listing: Listing): seq<Triple> {
    if listing == [] then []
    else
      var objects := listing[0].1;
      seq(|objects|, i requires 0 <= i < |objects| => Triple(subject, listing[0].0, objects[i]))
      + Listed(subject, listing[1..])
  }

  lemma WrittenRest(terms: seq<Term>)
    requires terms != []
    ensures Written(terms)[0] == Given(terms[0]) && Written(terms)[1..] == Written(terms[1..])
  {
  }

  lemma {:induction false} WrittenMeans(terms: seq<Term>, first: nat, willSave: bool)
    ensures MeaningOfNodes(Written(terms), first) == NodesMeaning(terms, [], first)
    ensures DerivableNodes(Written(terms)) && MissedByNodes(Written(terms), willSave) == 0
  {
    if terms != [] {
      WrittenRest(terms);
      WrittenMeans(terms[1..], first, willSave);
    }
  }

  lemma {:induction false} BodyMeans(listing: Listing, subject: Term, first: nat)
    requires forall i :: 0 <= i < |listing| ==> listing[i].1 != []
    ensures DerivableClauses(Body(listing)) && MissedByClauses(Body(listing)) == 0
    ensures MeaningOfClauses(Body(listing), first).triples == [] && MeaningOfClauses(Body(listing), first).next == first
    ensures Attribute(subject, MeaningOfClauses(Body(listing), first).pairs) == Listed(subject, listing)
  {
    if listing != [] {
      var (verb, objects) := listing[0];
      var rest := MeaningOfClauses(Body(listing[1..]), first);
      WrittenMeans(objects, first, true);
      BodyMeans(listing[1..], subject, first);
      assert Body(listing)[1..] == Body(listing[1..]);
      AttributeAdds(subject, PairsOf(verb, objects), rest.pairs);
      assert Attribute(subject, PairsOf(verb, objects))
          == seq(|objects|, i requires 0 <= i < |objects| => Triple(subject, verb, objects[i]));
    }
  }

  /** A statement of written terms queues one triple for each object of each verb, in the order written. */
  lemma WrittenStatement(subject: Term, listing: Listing, m: Machine)
    requires Idle(m) && listing != [] && forall i :: 0 <= i < |listing| ==> listing[i].1 != []
    ensures RunStatement(Statement(Given(subject), Body(listing)), m).queue == m.queue + Listed(subject, listing)
  {
    var statement := Statement(Given(subject), Body(listing));
    BodyMeans(listing, subject, m.next);
    NoMissIsSafe(Body(listing));
    assert SafeStatement(statement);
    SafeStatementIsExact(statement, m);
  }

  /** In particular one verb: every object gets its triple, and each triple has its own object. */
  lemma ObjectsOfOneVerb(subject: Term, verb: Term, objects: seq<Term>, m: Machine)
    requires Idle(m) && objects != []
    ensures RunStatement(Statement(Given(subject), [Clause(verb, Written(objects))]), m).queue
         == m.queue + seq(|objects|, i requires 0 <= i < |objects| => Triple(subject, verb, objects[i]))
  {
    var listing := [(verb, objects)];
    WrittenStatement(subject, listing, m);
    assert listing[1..] == [] && Body(listing) == [Clause(verb, Written(objects))];
  }

  // ---- Collections.

  /** The k-th pair of triples from the front is the cell of the k-th item from the end. */
  lemma {:induction false} ListSpelt(items: seq<Term>, first: nat, k: nat)
    requires k < |items|
    ensures var list := ListTriples(items, first);
            && list[2 * k] == Triple(Blank(first + k), URIRef("rdf:rest"),
                                     if k == 0 then URIRef("rdf:nil") else Blank(first + k - 1))
            && list[2 * k + 1] == Triple(Blank(first + k), URIRef("rdf:first"), items[|items| - 1 - k])
  {
    if k < |items| - 1 {
      ListSpelt(items[1..], first, k);
    }
  }

  /** The element of item i, from the syntax. */
  function ItemElement(items: seq<Node>, first: nat, i: nat): Term
    requires i < |items|
  {
    Element(items[i], first + LabelsOfAll(items[..i]))
  }

  lemma LabelsFurther(items: seq<Node>, i: nat)
    requires 0 < i <= |items|
    ensures LabelsOfAll(items[..i]) == LabelsOf(items[0]) + LabelsOfAll(items[1..][..i - 1])
  {
    assert items[..i][1..] == items[1..][..i - 1];
  }

  lemma ItemFurther(items: seq<Node>, first: nat, next: nat, i: nat)
    requires 0 < i < |items| && next == first + LabelsOf(items[0])
    ensures ItemElement(items, first, i) == ItemElement(items[1..], next, i - 1)
  {
    LabelsFurther(items, i);
  }

  lemma {:induction false} ItemsMean(items: seq<Node>, first: nat, i: nat)
    requires i < |items|
    ensures MeaningOfNodes(items, first).nodes[i] == ItemElement(items, first, i)
  {
    var head := MeaningOfNode(items[0], first);
    NodeTakes(items[0], first);
    MeaningOfNodesIs(items, first, head, MeaningOfNodes(items[1..], head.next));
    if i == 0 {
      assert items[..0] == [];
    } else {
      ItemsMean(items[1..], head.next, i - 1);
      ItemFurther(items, first, head.next, i);
    }
  }

  /** The two triples of the k-th item from the end, and the texts of their predicates and of the last link. */
  ghost predicate CellSpelt(link: Triple, item: Triple, first: nat, k: nat, element: Term) {
    && link.subject == Blank(first + k) && item.subject == Blank(first + k)
    && link.predicate_.identifier == "<rdf:rest>" && item.predicate_.identifier == "<rdf:first>"
    && (k == 0 ==> link.object_.identifier == "<rdf:nil>")
    && (k > 0 ==> link.object_ == Blank(first + k - 1))
    && item.object_ == element
  }

  ghost predicate CellAt(queue: seq<Triple>, from: nat, first: nat, k: nat, element: Term) {
    from + 2 * k + 1 < |queue| && CellSpelt(queue[from + 2 * k], queue[from + 2 * k + 1], first, k, element)
  }

  lemma CellsAfter(before: seq<Triple>, items: seq<Term>, first: nat, k: nat)
    requires k < |items|
    ensures CellAt(before + ListTriples(items, first), |before|, first, k, items[|items| - 1 - k])
  {
    ListSpelt(items, first, k);
  }

  /** The queue goes on with n pairs of triples, the k-th of which is the cell of the element. */
  ghost predicate CellsFollow(before: seq<Triple>, queue: seq<Triple>, n: nat, first: nat, k: nat, element: Term) {
    before <= queue && |queue| == |before| + 2 * n && CellAt(queue, |before|, first, k, element)
  }

  lemma CellsFinish(inner: Machine, r: Machine, n: nat, first: nat, k: nat, element: Term)
    requires inner.outer != [] && k < n && r == FinishCollection(inner)
    requires |inner.objects| == n && inner.next == first && inner.objects[n - 1 - k] == element
    ensures CellsFollow(inner.queue, r.queue, n, first, k, element)
  {
    CellsAfter(inner.queue, inner.objects, inner.next, k);
  }

  lemma ItemsRead(items: seq<Node>, m: Machine, first: nat, elements: seq<Term>)
    requires DerivableNodes(items) && Ready(m)
    requires first == MeaningOfNodes(items, m.next).next && elements == MeaningOfNodes(items, m.next).nodes
    ensures RunNodes(items, Begin(m)).next == first && RunNodes(items, Begin(m)).objects == elements
  {
    RunNodesLaw(items, Begin(m));
    ObjectsCollected(items, m);
  }

  lemma CellsInRun(items: seq<Node>, m: Machine, n: nat, first: nat, k: nat, element: Term)
    requires DerivableNodes(items) && Ready(m) && k < n == |items|
    requires first == MeaningOfNodes(items, m.next).next && element == MeaningOfNodes(items, m.next).nodes[n - 1 - k]
    ensures CellsFollow(RunNodes(items, Begin(m)).queue, RunNode(Collection(items), m).queue, n, first, k, element)
  {
    ItemsRead(items, m, first, MeaningOfNodes(items, m.next).nodes);
    CollectionUnfold(items, m);
    CellsFinish(RunNodes(items, Begin(m)), RunNode(Collection(items), m), n, first, k, element);
  }

  /**
   Main result, whatever saves are missed inside: a collection queues, after what its items queue, exactly two triples
   for each item, from the last item to the first: a link under rdf:rest to the cell made before it, or to rdf:nil,
   and under rdf:first the element of the item.
   */
  lemma CollectionIsSpelt(items: seq<Node>, m: Machine, first: nat, k: nat, element: Term)
    requires DerivableNodes(items) && Ready(m) && k < |items|
    requires first == m.next + LabelsOfAll(items) && element == ItemElement(items, m.next, |items| - 1 - k)
    ensures CellsFollow(RunNodes(items, Begin(m)).queue, RunNode(Collection(items), m).queue, |items|,
                        first, k, element)
  {
    NodesTake(items, m.next);
    ItemsMean(items, m.next, |items| - 1 - k);
    CellsInRun(items, m, |items|, first, k, element);
  }

  /** An empty collection queues exactly one triple: its own node has rdf:nil under rdf:first. */
  lemma EmptyCollectionIsSpelt(m: Machine)
    requires Ready(m)
    ensures var r := RunNode(Collection([]), m);
            && |r.queue| == |m.queue| + 1 && m.queue <= r.queue
            && r.element == Blank(m.next) && r.next == m.next + 1
            && r.queue[|m.queue|].subject == r.element
            && r.queue[|m.queue|].predicate_.identifier == "<rdf:first>"
            && r.queue[|m.queue|].object_.identifier == "<rdf:nil>"
  {
  }

  // ---- What the grammar allows, one level at a time.

  lemma {:induction false} NodesAllowed(nodes: seq<Node>)
    ensures DerivableNodes(nodes) <==> forall i :: 0 <= i < |nodes| ==> DerivableNode(nodes[i])
  {
    if nodes != [] {
      NodesAllowed(nodes[1..]);
      assert forall i :: 0 < i < |nodes| ==> nodes[i] == nodes[1..][i - 1];
    }
  }

  ghost predicate VerbHasObjects(clause: Clause) {
    clause.objects != [] && forall k :: 0 <= k < |clause.objects| ==> DerivableNode(clause.objects[k])
  }

  lemma {:induction false} ClausesAllowed(clauses: seq<Clause>)
    ensures DerivableClauses(clauses) <==> forall i :: 0 <= i < |clauses| ==> VerbHasObjects(clauses[i])
  {
    if clauses != [] {
      NodesAllowed(clauses[0].objects);
      ClausesAllowed(clauses[1..]);
      assert forall i :: 0 < i < |clauses| ==> clauses[i] == clauses[1..][i - 1];
    }
  }

  /**
   Every term, every anonymous node and every collection, empty or not, of allowed items is allowed; a property list
   needs a verb, and every verb an object; a statement needs a body unless its subject is a property list.
   */
  lemma GrammarAllowsExactly(statement: Statement, node: Node)
    ensures DerivableNode(node)
       <==> match node
            case Given(_) => true
            case Anon => true
            case Collection(items) => forall i :: 0 <= i < |items| ==> DerivableNode(items[i])
            case Properties(clauses) =>
              clauses != [] && forall i :: 0 <= i < |clauses| ==> VerbHasObjects(clauses[i])
    ensures DerivableStatement(statement)
       <==> && DerivableNode(statement.subject)
            && (forall i :: 0 <= i < |statement.body| ==> VerbHasObjects(statement.body[i]))
            && (statement.body == [] ==> statement.subject.Properties?)
  {
    ClausesAllowed(statement.body);
    match node
    case Given(_) =>
    case Anon =>
    case Collection(items) => NodesAllowed(items);
    case Properties(clauses) => ClausesAllowed(clauses);
  }
}
