/** The parser state as the program keeps it: fields that the grammar's actions update in place. */
module States {
  import opened Terms
  import opened Labels
  import opened Reference
  import opened Machine

  class State {
    var element: Term
    var latestLabel: nat
    var verbStack: seq<Term>
    var oneStepPreSize: nat
    var twoStepPreSize: nat
    var subject: Term
    var objects: seq<Term>
    var objectsStack: seq<seq<Term>>
    var pairs: seq<Pair>
    var pairsStack: seq<seq<Pair>>
    var firstList: Term
    var parsedElements: seq<Triple>

    /** The two size counters count as one: the older is only read while a verb is processed. */
    function Snapshot(): (m: Machine)
      reads this
      ensures m.open != []
    {
      Machine(element, latestLabel, verbStack, oneStepPreSize, subject, objects, objectsStack,
              pairsStack + [pairs], firstList, parsedElements)
    }

    constructor ()
      ensures Snapshot() == Machine(NO_TERM, 1, [], 0, NO_TERM, [], [], [[]], NO_TERM, [])
    {
      element, latestLabel := NO_TERM, 1;
      verbStack, oneStepPreSize, twoStepPreSize := [], 0, 0;
      subject, firstList := NO_TERM, NO_TERM;
      objects, objectsStack := [], [];
      pairs, pairsStack := [], [];
      parsedElements := [];
    }

    method SetElement(term: Term)
      modifies this`element
      ensures Snapshot() == old(Snapshot()).(element := term)
    {
      element := term;
    }

    method CreateBlankNodeLabel() returns (name: string)
      modifies this`latestLabel
      ensures BNode(name) == Generated(old(latestLabel))
      ensures Snapshot() == old(Snapshot()).(next := old(latestLabel) + 1)
    {
      name := "b" + Decimal(latestLabel);
      latestLabel := latestLabel + 1;
    }

    /** The sequential form: the triple joins the queue. */
    method InsertTriple(triple: Triple)
      modifies this`parsedElements
      ensures Snapshot() == old(Snapshot()).(queue := old(parsedElements) + [triple])
    {
      parsedElements := parsedElements + [triple];
    }

    method SetSubject(term: Term)
      modifies this`subject
      ensures Snapshot() == old(Snapshot()).(subject := term)
    {
      subject := term;
    }

    method ClearTripleParameters()
      modifies this
      ensures Snapshot() == ClearStatement(old(Snapshot()))
    {
      twoStepPreSize := 0;
      oneStepPreSize := 0;
      objects := [];
      pairs := [];
      assert old(Snapshot()).open[..|pairsStack|] == pairsStack;
    }

    method ProcessVerb()
      modifies this
      ensures Snapshot() == PushVerb(old(Snapshot()))
    {
      twoStepPreSize := oneStepPreSize;
      oneStepPreSize := |verbStack|;
      verbStack := verbStack + [element];
      if |verbStack| == twoStepPreSize + 2 {
        pairsStack := pairsStack + [pairs];
        pairs := [];
      }
    }

    method MoveObjectsIntoStack()
      modifies this
      ensures Snapshot() == Begin(old(Snapshot()))
    {
      objectsStack := objectsStack + [objects];
      objects := [];
    }

    method PushCurrentTermIntoObjects()
      modifies this
      ensures Snapshot() == PushObject(old(Snapshot()))
    {
      objects := objects + [element];
    }

    method RestoreObjects()
      requires objectsStack != []
      modifies this`objects, this`objectsStack
      ensures Snapshot() == old(Snapshot()).(objects := Top(old(objectsStack)), outer := Below(old(objectsStack)))
    {
      objects := objectsStack[|objectsStack| - 1];
      objectsStack := objectsStack[..|objectsStack| - 1];
    }

    method InsertAll(triples: seq<Triple>)
      modifies this`parsedElements
      ensures Snapshot() == old(Snapshot()).(queue := old(parsedElements) + triples)
    {
      for i := 0 to |triples|
        invariant parsedElements == old(parsedElements) + triples[..i]
      {
        InsertTriple(triples[i]);
        assert triples[..i + 1] == triples[..i] + [triples[i]];
      }
      assert triples[..|triples|] == triples;
    }

    /** Cells are made from the last object to the first; each links to the one made before it. */
    method ProcessCollection()
      requires objectsStack != []
      modifies this
      ensures Snapshot() == FinishCollection(old(Snapshot()))
    {
      ghost var before := Snapshot();
      var local: seq<Triple> := [];
      if |objects| == 0 {
        var name := CreateBlankNodeLabel();
        local := [Triple(BNode(name), FIRST, NIL)];
        SetElement(BNode(name));
      } else {
        var k := |objects|;
        while k > 0
          invariant 0 <= k <= |before.objects|
          invariant local == ListTriples(before.objects[k..], before.next)
          invariant Snapshot() == before.(element := element, next := before.next + |before.objects| - k)
          invariant k < |before.objects| ==> element == Generated(latestLabel - 1) && |local| > 0
          invariant k < |before.objects| ==> local[|local| - 1].subject == element
        {
          k := k - 1;
          var name := CreateBlankNodeLabel();
          var cell := BNode(name);
          var rest := if local == [] then NIL else local[|local| - 1].subject;
          SetElement(cell);
          assert before.objects[k..][1..] == before.objects[k + 1..];
          local := local + [Triple(cell, REST, rest), Triple(cell, FIRST, objects[k])];
        }
        assert before.objects[0..] == before.objects;
      }
      InsertAll(local);
      RestoreObjects();
    }

    method ProcessBlankNodePropertyList()
      requires objectsStack != []
      modifies this
      ensures Snapshot() == FinishProperties(old(Snapshot()))
    {
      var name := CreateBlankNodeLabel();
      var node := BNode(name);
      SetElement(node);
      EmitPairs(node);
      pairs := [];
      if pairsStack != [] {
        pairs := pairsStack[|pairsStack| - 1];
        pairsStack := pairsStack[..|pairsStack| - 1];
        assert old(Snapshot()).open[..|old(pairsStack)|] == pairsStack + [pairs];
      } else {
        firstList := node;
      }
      RestoreObjects();
    }

    /** One triple for each pair of the current list, in order. */
    method EmitPairs(term: Term)
      modifies this`parsedElements
      ensures Snapshot() == old(Snapshot()).(queue := old(parsedElements) + Attribute(term, old(pairs)))
    {
      var list := pairs;
      for i := 0 to |list|
        invariant parsedElements == old(parsedElements) + Attribute(term, list)[..i]
      {
        InsertTriple(Triple(term, list[i].0, list[i].1));
        assert Attribute(term, list)[..i + 1] == Attribute(term, list)[..i] + [Attribute(term, list)[i]];
      }
      assert Attribute(term, list)[..|list|] == Attribute(term, list);
    }

    method ProcessPredicateObjectListInner()
      requires verbStack != []
      modifies this
      ensures Snapshot() == FinishClause(old(Snapshot()))
    {
      var verb := verbStack[|verbStack| - 1];
      verbStack := verbStack[..|verbStack| - 1];
      ghost var added := PairsOf(verb, objects);
      for i := 0 to |objects|
        modifies this`pairs
        invariant pairs == old(pairs) + added[..i]
      {
        pairs := pairs + [(verb, objects[i])];
        assert added[..i + 1] == added[..i] + [added[i]];
      }
      assert added[..|objects|] == added;
      objects := [];
      assert old(Snapshot()).open[..|pairsStack|] == pairsStack;
    }

    method ProcessTripleSeq()
      modifies this`parsedElements
      ensures Snapshot() == EmitBody(old(Snapshot()))
    {
      EmitPairs(subject);
    }
  }
}
