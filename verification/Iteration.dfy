/** The string parser's queue and the iterator that looks one triple ahead. */
module Iteration {
  import opened Terms
  import opened Turtle
  import opened Reference
  import opened Documents
  import opened Conservation
  import opened Sizes
  import opened States
  import opened Actions

  class StringParser {
    var parsedTerms: seq<Triple>
    var currentTriple: Triple

    /** The whole text is parsed before the first triple can be asked for. */
    constructor (document: seq<Statement>)
      ensures parsedTerms == RunDocument(document, START).queue
      ensures currentTriple == NO_TRIPLE
    {
      var state := new State();
      MatchDocument(document, state);
      parsedTerms := state.parsedElements;
      currentTriple := NO_TRIPLE;
    }

    method HasNextTriple() returns (more: bool)
      ensures more <==> parsedTerms != []
    {
      more := parsedTerms != [];
    }

    method NextTriple()
      requires parsedTerms != []
      modifies this
      ensures [currentTriple] + parsedTerms == old(parsedTerms)
    {
      currentTriple := parsedTerms[0];
      parsedTerms := parsedTerms[1..];
    }
  }

  class Iterator {
    var done: bool
    var parserDone: bool
    const parser: StringParser

    /** The iterator knows that the queue is exhausted exactly when it is. */
    ghost predicate Valid()
      reads this, parser
    {
      parserDone <==> parser.parsedTerms == []
    }

    /** What the iterator has yet to show, the current triple included. */
    ghost function Remaining(): seq<Triple>
      reads this, parser
    {
      if done then [] else [parser.currentTriple] + parser.parsedTerms
    }

    constructor (p: StringParser)
      modifies p
      ensures Valid() && parser == p && !done
      ensures Remaining() == if old(p.parsedTerms) == [] then [old(p.currentTriple)] else old(p.parsedTerms)
    {
      done, parserDone, parser := false, false, p;
      new;
      var more := parser.HasNextTriple();
      if more {
        Increment();
      } else {
        parserDone := true;
      }
    }

    /** One step shows exactly one more triple, or ends. */
    method Increment()
      requires Valid()
      modifies this, parser
      ensures Valid()
      ensures old(parserDone) ==> done && Remaining() == []
      ensures !old(parserDone)
              ==> done == old(done) && [parser.currentTriple] + parser.parsedTerms == old(parser.parsedTerms)
      ensures old(parserDone) ==> unchanged(parser)
    {
      if parserDone {
        done := true;
      } else {
        parser.NextTriple();
        var more := parser.HasNextTriple();
        if !more {
          parserDone := true;
        }
      }
    }

    method Current() returns (triple: Triple)
      ensures triple == parser.currentTriple
    {
      triple := parser.currentTriple;
    }
  }

  /** Walks a parser from the construction of an iterator until it converts to false. */
  method Walk(parser: StringParser) returns (visited: seq<Triple>)
    modifies parser
    ensures visited == if old(parser.parsedTerms) == [] then [old(parser.currentTriple)] else old(parser.parsedTerms)
  {
    var it := new Iterator(parser);
    ghost var all := it.Remaining();
    visited := [];
    while !it.done
      invariant it.Valid() && it.parser == parser
      invariant visited + it.Remaining() == all
      decreases !it.done, |parser.parsedTerms|
    {
      ghost var remaining := it.Remaining();
      var triple := it.Current();
      it.Increment();
      assert remaining == [triple] + it.Remaining();
      assert visited + remaining == visited + [triple] + it.Remaining();
      visited := visited + [triple];
    }
  }

  /**
   Parses a document and walks it. A document without triples yields the one default triple;
   a safe document yields its meaning, in order, once each.
   */
  method VisitAll(document: seq<Statement>) returns (visited: seq<Triple>)
    ensures var queue := RunDocument(document, START).queue;
            visited == if queue == [] then [NO_TRIPLE] else queue
    ensures DerivableDocument(document) ==> (RunDocument(document, START).queue == [] <==> document == [])
    ensures DerivableDocument(document) && SafeDocument(document) && document != []
            ==> visited == MeaningOfDocument(document, 1).triples
  {
    var parser := new StringParser(document);
    visited := Walk(parser);
    QueueIsMeaning(document);
    if DerivableDocument(document) {
      QueueIsEmptyExactly(document);
    }
  }

  /** Main result: safe or not, only a document without statements leaves nothing to visit. */
  lemma QueueIsEmptyExactly(document: seq<Statement>)
    requires DerivableDocument(document)
    ensures RunDocument(document, START).queue == [] <==> document == []
  {
    var queue, meaning := RunDocument(document, START).queue, MeaningOfDocument(document, 1).triples;
    DocumentConserves(document);
    SameBagSameLength(Erase(queue), Erase(meaning));
    if document != [] {
      StatementHasTriples(document[0], 1);
    }
  }

  lemma QueueIsMeaning(document: seq<Statement>)
    ensures DerivableDocument(document) && SafeDocument(document)
            ==> RunDocument(document, START).queue == MeaningOfDocument(document, 1).triples
    ensures DerivableDocument(document) && document != [] ==> MeaningOfDocument(document, 1).triples != []
  {
    if DerivableDocument(document) && document != [] {
      StatementHasTriples(document[0], 1);
    }
    if DerivableDocument(document) && SafeDocument(document) {
      SafeDocumentIsExact(document, START);
      assert START.queue + MeaningOfDocument(document, 1).triples == MeaningOfDocument(document, 1).triples;
    }
  }

  lemma ClausesHavePairs(clauses: seq<Clause>, first: nat)
    requires DerivableClauses(clauses) && clauses != []
    ensures MeaningOfClauses(clauses, first).pairs != []
  {
  }

  /** Every statement has triples, so only the empty document makes the iterator show the default triple. */
  lemma StatementHasTriples(statement: Statement, first: nat)
    requires DerivableStatement(statement)
    ensures MeaningOfStatement(statement, first).triples != []
  {
    var node := MeaningOfNode(statement.subject, first);
    if statement.body != [] {
      ClausesHavePairs(statement.body, node.next);
    } else {
      ClausesHavePairs(statement.subject.clauses, first);
    }
  }
}
