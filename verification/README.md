# Turtle parsing, terms and the two-thread file parser, verified

This project models the core of the Tentris RDF parser in Dafny and proves properties of the model. `dafny verify
dfyconfig.toml` checks all of it. It has three parts, which meet in `Pipeline`.

**The structure compiler.** Nested Turtle is flattened to triples by a state machine of four stacks and lists, driven
by the grammar's actions. `Turtle` is the shape of a derived statement, `Reference` its recursive meaning in the
manner of section 7.3 of RDF 1.1 Turtle with the program's own vocabulary, `Machine` the state as a value, `States`
and `Actions` the state as an object and the calls that the grammar makes on it, each method proved equal to its
function on `Machine`. The size counters that decide when to save the outer pair list are a heuristic: they save for
the first property list under a verb only. `StackLaw` says exactly what that does to every nesting, `Attribution` and
`Documents` turn it into an if-and-only-if for statements and documents, `Conservation` shows what holds for all of
them, `Nesting` states the condition in terms of the grammar and gives statements that fail, and `Moments` bounds the
saved lists at every moment inside a statement. `Lists`, `DocumentLists`, `Labels`, `Freshness` and `Iteration` treat
collections, alone and in the final queue of a document, generated labels, their distinctness over a document, and the
look-ahead iterator. `Direct` writes the triples of a document out one by one, from the syntax alone and with every
text spelt, and shows the queue to be a permutation of them; `Spelling` gives the order for written terms and for the
cells of collections.

**The file parser.** A parsing thread and a reading thread share a bounded queue and three flags. `Interleaving` has
one step for every atomic read, write, push, pop and wait; a schedule is any sequence of turns, and a wait can proceed
exactly when its flag is true, so spurious wake-ups are included. `FileParsers` keeps the same fields in an object
that the steps update in place. `BackPressure` bounds the queue and compares what is delivered with the sequential
parser, `Waiting` characterises internal errors, stuck states and the end of input, `Alone` follows the producer while
only it moves and says when a sleeping consumer can still be woken, `Looks` says what the looks at the queue and the
signals between the threads come to, and `Accidents` says for which documents and sizes runs end badly. `Endings` says
for which parsers "no further triple" can be answered too early, and `Peaks` how much room each statement needs in the
queue, and so which documents and sizes lose nothing. `Sizes` counts the triples of a statement from its syntax.

**Terms as text.** A term is an identifier text with offset views into it (`Terms`); the parser is a PEG with actions
(`Peg`, `Tokens`, `TermRules`, `TermStates`). `PegLaws`, `Names` and `Numbers` compare PEG rules with the productions
of section 6.5 of RDF 1.1 Turtle, `Identity` says what equal identifiers mean, `RoundTrip` that printing and parsing
undo each other, `Memory` that earlier terms do not matter, `Unparsable` which texts are refused or found empty, and
`Abbreviations` and `PrefixedTypes` treat numbers and datatypes written in short. `Readings` says what booleans,
numbers and empty brackets read as, with every text written out, `Quotes` treats the four forms of strings,
`Alphabets` compares the characters of the terminals with the tables of the standard, and `Wholes` shows that the
legal texts are exactly those that the terminals consume whole.

## Where the code departs from its documentation

The model follows the code.

- An empty collection is not nil but a node whose first is nil, and the list vocabulary is the literal text
  `rdf:first`, `rdf:rest`, `rdf:nil` (`include/Dice/rdf-parser/internal/Turtle/States/State.hpp:102-109`).
- A verb can reach two property lists, and then pairs get a wrong subject; `Documents.StatementExactly` says exactly
  when (`include/Dice/rdf-parser/internal/Turtle/States/State.hpp:94`).
- The constructor of the file parser documents that processing stops when the queue is full. With the default sizes
  the upper threshold equals the capacity, the parsing thread never sleeps, and triples of a full queue are dropped
  (`include/Dice/rdf-parser/TurtleFileParser.hpp:81-91`). A document is safe from this exactly if all its triples fit
  into the queue (`Pipeline.DefaultKeepsDocumentExactly`); for other thresholds `Pipeline.KeepsDocumentExactly` gives
  the exact capacity it needs.
- Neither the absence of internal errors nor progress is guaranteed by the flags, for any document and any sizes
  (`Accidents.AnyRunCanFail`, `Accidents.AnyRunCanStick`); `Waiting` and `Alone` say exactly in which runs and states.
- The answer "no further triple" does not mean that everything was delivered: the reader looks at the queue first and
  at the end of parsing later. It always means an empty queue exactly if there is nothing to read, or the capacity or
  the upper threshold is zero; in every other parser some run leaves the last triple behind
  (`Endings.EndMeansEmptyExactly`, `Pipeline.EndOfDocumentExactly`).
- `parse_term` documents an exception for texts that cannot be parsed, but does not look at the result of the match:
  only a throwing action fails, exactly for a prefixed name, alone or as a datatype, and any other text gives the
  default term or a term of its first characters (`include/Dice/RDF/ParseTerm.hpp:16-26`, `TermStates.ParseTerm`).
- `term_parsable` catches the documented exception, but the message of that exception is formatted without its
  argument (`include/Dice/RDF/ParseTerm.hpp:24`), which in fmt 7.1.2, the version the build pins, raises a formatting
  error that is no `std::logic_error`; so the question is never answered with no (`TermStates.TermParsable`). The
  library itself is not part of this model.
- A base is inserted after the first character of an IRI, so under a base only blank nodes and literals whose type is
  not the empty IRI read back as themselves (`RoundTrip.TermReadsBack`); and redefining a prefix has no effect
  (`include/Dice/rdf-parser/internal/Turtle/Actions/BasicActions.hpp:145`,
  `include/Dice/rdf-parser/internal/Turtle/States/BasicState.hpp:66`).
- A string in three quotes is stored with two of them at each end of its value, since only one is cut
  (`include/Dice/rdf-parser/internal/Turtle/Actions/BasicActions.hpp:289-300`, `Quotes.ValueIsTextExactly`).
- Labels written in a document can equal generated ones; `Labels.ClashExactly` says which.
- An iterator over a parser without triples shows one default triple
  (`include/Dice/rdf-parser/internal/Turtle/Parsers/AbstractParser.hpp:81-84`).

## Model

| member | source | states |
|---|---|---|
| `States.State.constructor` | include/Dice/rdf-parser/internal/Turtle/States/State.hpp:37-64 | a new state has empty stacks and lists, zero sizes and label counter 1 |
| `States.State.ProcessVerb` | include/Dice/rdf-parser/internal/Turtle/States/State.hpp:89-98 | the verb is pushed, and the current pair list is saved exactly when the stack is one deeper than at the previous verb |
| `States.State.ProcessCollection` | include/Dice/rdf-parser/internal/Turtle/States/State.hpp:100-138 | the loop from the last object to the first queues exactly the recursive list meaning and leaves its head cell as element; an empty collection becomes a node whose first is nil |
| `States.State.ProcessBlankNodePropertyList` | include/Dice/rdf-parser/internal/Turtle/States/State.hpp:140-162 | a fresh node gets every current pair in order; the last saved pair list returns, or the node is remembered as the first list when none is saved |
| `States.State.ProcessPredicateObjectListInner` | include/Dice/rdf-parser/internal/Turtle/States/State.hpp:164-171 | the innermost verb is popped and paired with each collected object in order; the object list is emptied |
| `States.State.ProcessTripleSeq` | include/Dice/rdf-parser/internal/Turtle/States/State.hpp:174-181 | one triple per current pair, in order, under the statement's subject |
| `States.State.ClearTripleParameters` | include/Dice/rdf-parser/internal/Turtle/States/State.hpp:75-81 | the size counters, objects and current pairs are cleared, while saved lists stay |
| `States.State.SetSubject` | include/Dice/rdf-parser/internal/Turtle/States/State.hpp:84-86 | only the subject changes |
| `States.State.MoveObjectsIntoStack` | include/Dice/rdf-parser/internal/Turtle/States/State.hpp:183-186 | the object list is saved and a new one begun |
| `States.State.PushCurrentTermIntoObjects` | include/Dice/rdf-parser/internal/Turtle/States/State.hpp:188-190 | the element joins the object list |
| `States.State.CreateBlankNodeLabel` | include/Dice/rdf-parser/internal/Turtle/States/BasicState.hpp:126-128 | the label is that of the counter, which moves on by one |
| `States.State.InsertTriple` | include/Dice/rdf-parser/internal/Turtle/States/SequentialState.hpp:40-42 | the triple goes to the end of the queue and nothing else changes |
| `Actions.MatchNode` | include/Dice/rdf-parser/internal/Turtle/Actions/Actions.hpp:74-105 | the calls of an object or subject, its own last, bring the state to the run of that node |
| `Actions.MatchObjects` | include/Dice/rdf-parser/internal/Turtle/Actions/Actions.hpp:66-72 | each object joins the list after its own parts are done |
| `Actions.MatchClause` | include/Dice/rdf-parser/internal/Turtle/Actions/Actions.hpp:58-114 | verb, objects, then the pairing of both |
| `Actions.MatchClauses` | include/Dice/rdf-parser/internal/Turtle/Grammar.hpp:328-337 | the clauses of a list in order |
| `Actions.MatchStatement` | include/Dice/rdf-parser/internal/Turtle/Actions/Actions.hpp:23-56 | both forms of a statement: a property list as subject is found again through the first list |
| `Actions.MatchDocument` | include/Dice/rdf-parser/internal/Turtle/Grammar.hpp:378-392 | statements one after the other over one state |
| `Machine.RunNode` | include/Dice/rdf-parser/internal/Turtle/States/State.hpp:100-162 | no stack is popped when empty; verbs, saved object lists, subject and object list are as before the node, and the queue only grows |
| `Machine.RunNodes` | include/Dice/rdf-parser/internal/Turtle/States/State.hpp:183-190 | the same for a list of nodes |
| `Machine.RunClause` | include/Dice/rdf-parser/internal/Turtle/States/State.hpp:89-171 | the same for one verb with its objects; the object list ends empty |
| `Machine.RunClauses` | include/Dice/rdf-parser/internal/Turtle/States/State.hpp:89-171 | the same for a list of clauses |
| `StackLaw.RunNodeLaw` | include/Dice/rdf-parser/internal/Turtle/States/State.hpp:89-162 | for every nesting: element and counter as meant, the pending pair lists shortened by exactly the number of missed saves, and the heuristic ready to save again exactly if it was before and the node opened no list |
| `StackLaw.RunNodesLaw` | include/Dice/rdf-parser/internal/Turtle/States/State.hpp:89-98 | so a save happens exactly for the first property list reached under an open verb |
| `StackLaw.RunClausesLaw` | include/Dice/rdf-parser/internal/Turtle/States/State.hpp:89-171 | the pending lists and the first list after any clauses; having read a clause the heuristic never saves until a deeper verb |
| `StackLaw.PropertiesLaw` | include/Dice/rdf-parser/internal/Turtle/States/State.hpp:140-162 | leaving a property list undoes its save, or takes one pending list too many if none was made |
| `StackLaw.TopKeepsOwnPairs` | include/Dice/rdf-parser/internal/Turtle/States/State.hpp:140-171 | if later clauses miss no save, the current list ends with all the list's own pairs, in order |
| `Attribution.OutcomeOfClauses` | include/Dice/rdf-parser/internal/Turtle/States/State.hpp:89-171 | either exactly the meant triples are queued, or the queue has diverged for good; which one is decided by safety and by the lists taken from outside being empty |
| `Nesting.NoMissExactly` | include/Dice/rdf-parser/internal/Turtle/States/State.hpp:89-98 | no save is missed if and only if every object list, at every depth, reaches at most one property list through collections |
| `Nesting.OneListPerVerbIsExact` | include/Dice/rdf-parser/internal/Turtle/States/State.hpp:75-195 | statements of that shape are queued as their recursive meaning, on every state between statements |
| `Nesting.EarlierPairIsTaken` | include/Dice/rdf-parser/internal/Turtle/States/State.hpp:140-162 | witness: with two property lists under one verb an earlier pair is given to the second list's node |
| `Nesting.FirstListIsOverwritten` | include/Dice/rdf-parser/internal/Turtle/Actions/Actions.hpp:39-47 | witness: after a property list as subject, a missed save replaces the subject itself |
| `Nesting.AccidentallyRight` | include/Dice/rdf-parser/internal/Turtle/States/State.hpp:140-162 | witness: an unsafe statement can still be queued right if the document itself names the node that wrongly gets the pair |
| `Spelling.GrammarAllowsExactly` | include/Dice/rdf-parser/internal/Turtle/Grammar.hpp:296-376 | which statements are derivable, level by level: any term, brackets and collection of allowed items, and lists in which every verb has an object |
| `Documents.StatementRestoresIdle` | include/Dice/rdf-parser/internal/Turtle/States/State.hpp:133-171 | after every derivable statement all stacks and lists are empty again and the counter is as meant |
| `Documents.DocumentRestoresIdle` | include/Dice/rdf-parser/internal/Turtle/Actions/Actions.hpp:23-56 | the same after any document |
| `Moments.NeverDeeperThanSaved` | include/Dice/rdf-parser/internal/Turtle/States/State.hpp:89-162 | at every moment inside every statement of a document, after each verb, object, collection and list, at most one pair list is saved for each property list then open whose verb saved one, whatever saves are missed |
| `Documents.SafeStatementIsExact` | include/Dice/rdf-parser/internal/Turtle/States/State.hpp:75-195 | a statement whose saves are missed only under first clauses is queued as meant, whatever its subject |
| `Documents.StatementExactly` | include/Dice/rdf-parser/internal/Turtle/States/State.hpp:75-195 | a statement is queued as meant if and only if it is safe, provided its subject is not a label it generates itself |
| `Documents.DocumentExactly` | include/Dice/rdf-parser/internal/Turtle/Actions/Actions.hpp:13-56 | a document is queued as meant if and only if all its statements are safe |
| `Documents.SafeDocumentIsExact` | include/Dice/rdf-parser/internal/Turtle/Actions/Actions.hpp:13-56 | safe documents are queued as meant from any idle state, with no condition on labels |
| `Conservation.StatementConservesOne` | include/Dice/rdf-parser/internal/Turtle/States/State.hpp:140-181 | with no condition on nesting, a statement adds each verb-object pair as often as meant |
| `Conservation.DocumentConserves` | include/Dice/rdf-parser/internal/Turtle/States/State.hpp:140-181 | over a whole document the multiset of predicate-object pairs is the meant one: pairs may be misattributed, never lost or duplicated |
| `Direct.SafeDocumentIsWritten` | include/Dice/rdf-parser/internal/Turtle/States/State.hpp:100-181 | the queue of a safe document is a permutation of its triples written out one by one from the syntax: subject, verb and element of each object, and two triples for each item, with the labels counted from the syntax and the list vocabulary spelt |
| `Direct.PairsAreWritten` | include/Dice/rdf-parser/internal/Turtle/States/State.hpp:100-181 | with no condition on nesting, the queue has the verb with the element of each object, of each clause at any depth, and the cells, each as often as written |
| `Spelling.WrittenStatement` | include/Dice/rdf-parser/internal/Turtle/States/State.hpp:164-181 | a statement of written terms queues one triple for each object of each verb, in the order written |
| `Spelling.ObjectsOfOneVerb` | include/Dice/rdf-parser/internal/Turtle/States/State.hpp:164-171 | under one verb the i-th triple has the i-th object |
| `Lists.CellOfList` | include/Dice/rdf-parser/internal/Turtle/States/State.hpp:110-138 | every cell of a list has exactly one first and one rest, to the right item and the next cell or nil |
| `Spelling.CollectionIsSpelt` | include/Dice/rdf-parser/internal/Turtle/States/State.hpp:110-138 | in the machine's own queue, for every nesting, a collection adds after what its items add exactly two triples for each item: `<rdf:rest>` to the cell made before it or to `<rdf:nil>`, and `<rdf:first>` to the item |
| `Spelling.EmptyCollectionIsSpelt` | include/Dice/rdf-parser/internal/Turtle/States/State.hpp:102-109 | an empty collection adds exactly one triple, from its own node by `<rdf:first>` to `<rdf:nil>` |
| `Lists.NodeAdds` | include/Dice/rdf-parser/internal/Turtle/States/State.hpp:100-162 | every triple a run of any node adds has a subject generated during that run, whatever saves it misses |
| `Lists.CollectionReadsBack` | include/Dice/rdf-parser/internal/Turtle/States/State.hpp:110-138 | for every non-empty derivable collection, in the queue the state machine itself leaves and whatever saves are missed inside, following rest from its element visits the objects in order through first and ends at nil, as long as no other triple is a cell under its labels |
| `DocumentLists.DocumentListsReadBack` | include/Dice/rdf-parser/internal/Turtle/States/State.hpp:100-181 | in the final queue of a document, whatever saves are missed, every non-empty collection at any depth reads back from its element as its items in order, provided that verbs named first or rest stand at the top of a statement only under a written subject whose label does not look generated |
| `DocumentLists.HandWrittenFirst` | include/Dice/rdf-parser/internal/Turtle/States/State.hpp:174-181 | witness: a second first written under a collection makes it unreadable |
| `Labels.DecimalRoundTrip` | include/Dice/rdf-parser/internal/Turtle/States/BasicState.hpp:126-128 | a printed counter consists of digits and reads back as itself |
| `Labels.GeneratedInjective` | include/Dice/rdf-parser/internal/Turtle/States/BasicState.hpp:53-128 | labels generated at different counter values differ |
| `Labels.ClashExactly` | include/Dice/rdf-parser/internal/Turtle/Actions/BasicActions.hpp:330-341 | a label written in a document equals a generated one if and only if it is b followed by a positive decimal without leading zero |
| `Freshness.MadeNodesAreDistinct` | include/Dice/rdf-parser/internal/Turtle/States/BasicState.hpp:53-128 | all nodes made over a whole document have different identifiers, none of them that of a written term whose label does not look generated |
| `Freshness.ElementIsListed` | include/Dice/rdf-parser/internal/Turtle/States/State.hpp:100-162 | those nodes are the ones the run makes: in every state, an object or subject that is not written leaves an element of the list |
| `Freshness.SubjectsAreListed` | include/Dice/rdf-parser/internal/Turtle/States/State.hpp:100-181 | every subject in the final queue is one of those distinct nodes, or is written as the subject of a statement |
| `Freshness.DocumentExactlyByLabels` | include/Dice/rdf-parser/internal/Turtle/Actions/Actions.hpp:13-56 | for documents whose written labels do not look generated, safety alone decides whether the queue is the meaning |
| `Iteration.StringParser.constructor` | include/Dice/rdf-parser/internal/Turtle/Parsers/BaseStringParser.hpp:40-49 | the queue of a new parser is what the document's run queues |
| `Iteration.StringParser.HasNextTriple` | include/Dice/rdf-parser/internal/Turtle/Parsers/BaseStringParser.hpp:71-73 | a triple is there exactly while the queue is not empty |
| `Iteration.StringParser.NextTriple` | include/Dice/rdf-parser/internal/Turtle/Parsers/BaseStringParser.hpp:77-80 | the front of the queue becomes the current triple and leaves the queue |
| `Iteration.Iterator.constructor` | include/Dice/rdf-parser/internal/Turtle/Parsers/AbstractParser.hpp:79-85 | a new iterator still has the whole queue to show, or the one default triple |
| `Iteration.Iterator.Increment` | include/Dice/rdf-parser/internal/Turtle/Parsers/AbstractParser.hpp:87-95 | each step moves past exactly one triple; the step after the last one ends it |
| `Iteration.Walk` | include/Dice/rdf-parser/internal/Turtle/Parsers/AbstractParser.hpp:66-102 | construct, read, increment until done visits what remained, once each, in order |
| `Iteration.VisitAll` | include/Dice/rdf-parser/internal/Turtle/Parsers/BaseStringParser.hpp:40-85 | parsing and walking a document visits its queue, hence for safe documents its meaning; an empty queue shows one default triple |
| `Iteration.StatementHasTriples` | include/Dice/rdf-parser/internal/Turtle/Parsers/AbstractParser.hpp:81-84 | every derivable statement means at least one triple |
| `Iteration.QueueIsEmptyExactly` | include/Dice/rdf-parser/internal/Turtle/Parsers/AbstractParser.hpp:81-84 | safe or not, the queue is empty, and the default triple shown, if and only if the document has no statement |
| `FileParsers.FileParser.constructor` | include/Dice/rdf-parser/TurtleFileParser.hpp:86-101 | flags false, queue empty, both threads at their first action |
| `FileParsers.Open` | include/Dice/rdf-parser/TurtleFileParser.hpp:86-105 | opening is refused if and only if the lower threshold is above the upper one |
| `FileParsers.FileParser.Insert` | include/Dice/rdf-parser/internal/Turtle/States/ConcurrentState.hpp:74-85 | one triple is handed to the queue, and dropped when the queue is full |
| `FileParsers.FileParser.ProducerMoves` | include/Dice/rdf-parser/internal/Turtle/States/ConcurrentState.hpp:64-97 | one atomic action of the parsing thread changes the shared fields as its step says |
| `FileParsers.FileParser.NextTriple` | include/Dice/rdf-parser/TurtleFileParser.hpp:108-117 | the front of the queue is delivered and becomes the current triple |
| `FileParsers.FileParser.ConsumerMoves` | include/Dice/rdf-parser/TurtleFileParser.hpp:108-142 | one atomic action of the reading thread; the current triple stays the last one delivered |
| `FileParsers.FileParser.CanMove` | include/Dice/rdf-parser/TurtleFileParser.hpp:128-130 | a thread can move unless it waits on a false flag, on the flag's mutex, or has ended |
| `FileParsers.FileParser.Turn` | include/Dice/rdf-parser/TurtleFileParser.hpp:108-142 | a turn moves the thread if it can move and passes otherwise |
| `FileParsers.Execute` | include/Dice/rdf-parser/TurtleFileParser.hpp:44-61 | the loop over any schedule reaches the state that the step system gives for it |
| `Interleaving.RunPosition` | include/Dice/rdf-parser/internal/Turtle/States/ConcurrentState.hpp:74-97 | in every interleaving, inserted plus pending triples are exactly the statements begun, and done is set only at the end |
| `BackPressure.QueueIsBounded` | include/Dice/rdf-parser/internal/Turtle/States/ConcurrentState.hpp:64-72 | in every interleaving the queue holds at most upper + 2s triples for statements of at most s triples; a late wake-up is why it is 2s |
| `BackPressure.NothingIsLost` | include/Dice/rdf-parser/internal/Turtle/States/ConcurrentState.hpp:80-83 | no push fails, and inserted = delivered followed by queued throughout, if the whole script fits into the queue, whatever the thresholds, or the thresholds leave room for every statement |
| `BackPressure.EmittedIsPrefix` | include/Dice/rdf-parser/internal/Turtle/States/SequentialState.hpp:40-42 | what has been handed to push is a prefix of the sequential queue |
| `BackPressure.DeliveredIsSubsequence` | include/Dice/rdf-parser/internal/Turtle/States/ConcurrentState.hpp:74-85 | for all sizes and interleavings the delivered triples are a subsequence of the sequential queue |
| `BackPressure.DeliveredIsPrefix` | include/Dice/rdf-parser/internal/Turtle/States/ConcurrentState.hpp:74-85 | if the script fits in either way they are a prefix of it |
| `BackPressure.NeverSleeps` | include/Dice/rdf-parser/internal/Turtle/States/ConcurrentState.hpp:65-69 | with the upper threshold at the capacity, as built by default, or not below the number of triples, the parsing thread never sleeps |
| `Waiting.WokenForAReason` | include/Dice/rdf-parser/TurtleFileParser.hpp:128-138 | asleep with the flag set implies a triple, the end, or a producer between setting the flag and what it announces |
| `Waiting.FailsExactlyInWindow` | include/Dice/rdf-parser/TurtleFileParser.hpp:132-138 | a consumer at its recheck that moves on throws the internal error if and only if it finds the queue empty, not done, and the producer in that window |
| `Waiting.FailureNeedsWindow` | include/Dice/rdf-parser/TurtleFileParser.hpp:132-138 | every failed run made its empty recheck in such a window |
| `Waiting.FailedExactly` | include/Dice/rdf-parser/TurtleFileParser.hpp:128-138 | a run fails with the internal error if and only if the consumer made two turns in a row, the first rechecking an empty queue while the producer stood in its window, the second finding the end not yet announced |
| `Looks.MutexIsNeverContended` | include/Dice/rdf-parser/TurtleFileParser.hpp:128-138 | in every interleaving the flag is set only while it is false and while the consumer does not hold the flag's mutex, so the producer never waits for it |
| `Looks.SignalExactly` | include/Dice/rdf-parser/internal/Turtle/States/ConcurrentState.hpp:64-97 | in every run each of the two flags between the threads, and the mark that the first has been read, is up exactly if some turn raised it and none has lowered it since |
| `Looks.FoundIsDelivered` | include/Dice/rdf-parser/TurtleFileParser.hpp:108-134 | a consumer that finds a triple, when it first looks or after waking, takes exactly that triple at its next turn, whatever the producer does in between |
| `Looks.LastLookIsRecorded` | include/Dice/rdf-parser/TurtleFileParser.hpp:119-138 | what is remembered of the last empty look: how much had been inserted, and whether the producer stood in its window |
| `Waiting.StuckExactly` | include/Dice/rdf-parser/TurtleFileParser.hpp:119-140 | a reachable state is stuck if and only if the consumer sleeps on a false flag that the producer has not read since it was cleared, and the producer sleeps on its own false flag or has finished |
| `Alone.ProducerAlone` | include/Dice/rdf-parser/internal/Turtle/States/ConcurrentState.hpp:64-97 | left alone, the producer comes to a point where it cannot move, having kept the first triples as many as fit |
| `Alone.SleepsForeverExactly` | include/Dice/rdf-parser/TurtleFileParser.hpp:128-130 | a consumer asleep on a false flag stays asleep in every continuation if and only if the producer stands past its last read of the flag, decided by its point, its pending triples and the size of the queue |
| `Waiting.EndExactly` | include/Dice/rdf-parser/TurtleFileParser.hpp:119-127 | if the script fits, what a consumer told that nothing is left has, and what is still in the queue: the split is at its last empty reading; for which parsers something can be left, see the next rows |
| `Endings.EndMeansEmptyExactly` | include/Dice/rdf-parser/TurtleFileParser.hpp:119-127 | for all sizes and thresholds lower <= upper: the answer that there is no further triple means an empty queue in every run if and only if the capacity is zero, the upper threshold is zero, or there is no triple |
| `Endings.EndLeavesLast` | include/Dice/rdf-parser/TurtleFileParser.hpp:119-127 | otherwise some run gives that answer with the last triple alone still in the queue |
| `Accidents.AnyRunCanFail` | include/Dice/rdf-parser/TurtleFileParser.hpp:132-138 | whatever the document and the sizes, some interleaving throws the internal error |
| `Accidents.AnyRunCanStick` | include/Dice/rdf-parser/TurtleFileParser.hpp:119-140 | whatever the document and the sizes, some interleaving gets stuck |
| `Accidents.StuckAtTheEnd` | include/Dice/rdf-parser/internal/Turtle/States/ConcurrentState.hpp:87-97 | with the default threshold, for every document, some run gets stuck after everything was inserted and with nothing delivered |
| `Accidents.StuckAsleep` | include/Dice/rdf-parser/internal/Turtle/States/ConcurrentState.hpp:64-72 | witness: both threads sleep with an empty queue after a lost wake-up |
| `Accidents.BoundIsReached` | include/Dice/rdf-parser/internal/Turtle/States/ConcurrentState.hpp:64-72 | the bound upper + 2s is attained for all thresholds 0 < lower <= upper and every s > 0 |
| `Accidents.EndComesEarly` | include/Dice/rdf-parser/TurtleFileParser.hpp:120-126 | how much can be left when the threshold is out of reach: everything that fits, with nothing delivered at all (`Endings.EndMeansEmptyExactly` covers all thresholds) |
| `Accidents.DefaultDropsTriples` | include/Dice/rdf-parser/TurtleFileParser.hpp:38-91 | with the default threshold, for every document, a run can leave only the first triples, as many as the capacity |
| `Accidents.DefaultKeepsExactly` | include/Dice/rdf-parser/TurtleFileParser.hpp:38-91 | with the default threshold no interleaving loses a triple if and only if the queue can hold all of them |
| `Peaks.RunPeak` | include/Dice/rdf-parser/internal/Turtle/States/ConcurrentState.hpp:64-97 | in every interleaving the queue with the pending triples stays within the room of the current statement: its size, and before it either upper or what a late wake-up allows |
| `Peaks.KeepsAllExactly` | include/Dice/rdf-parser/internal/Turtle/States/ConcurrentState.hpp:64-97 | for all thresholds lower <= upper: no interleaving loses a triple if and only if the capacity is at least the room of every statement; each room is reached by a run |
| `Pipeline.ScriptIsQueue` | include/Dice/rdf-parser/internal/Turtle/States/SequentialState.hpp:37-42 | what the entries of a document, directives included, insert one by one, joined, is what one thread alone queues for its statements |
| `Sizes.StatementSizeIs` | include/Dice/rdf-parser/internal/Turtle/States/State.hpp:100-181 | the number of meant triples follows from the syntax alone |
| `Sizes.InsertedSize` | include/Dice/rdf-parser/internal/Turtle/States/State.hpp:100-181 | a statement inserts that many triples even when subjects go wrong |
| `Pipeline.ParserSize` | include/Dice/rdf-parser/internal/Turtle/States/State.hpp:100-181 | so the number of triples of a whole script follows from the document's syntax, safe or not |
| `Pipeline.SafeDocumentStreams` | include/Dice/rdf-parser/TurtleFileParser.hpp:44-61 | for every safe document, with directives anywhere, that fits the capacity as a whole or whose statements fit the thresholds, in every interleaving, the reader holds a prefix of the document's recursive meaning |
| `Pipeline.SafeDocumentArrives` | include/Dice/rdf-parser/TurtleFileParser.hpp:119-142 | and once told that nothing is left it holds all of it if and only if its last empty reading came after the last insertion |
| `Pipeline.EndOfDocumentExactly` | include/Dice/rdf-parser/TurtleFileParser.hpp:119-142 | for any document: the answer that there is no further triple means an empty queue in every run if and only if the capacity or upper is zero or the document, counted from its syntax, has no triple |
| `Pipeline.SafeDocumentArrivesExactly` | include/Dice/rdf-parser/TurtleFileParser.hpp:119-142 | for a safe document and a parser with the room it needs, that answer means in every run that the whole recursive meaning was delivered, under exactly the same condition |
| `Pipeline.KeepsDocumentExactly` | include/Dice/rdf-parser/TurtleFileParser.hpp:70-91 | for all thresholds lower <= upper a document loses nothing in any interleaving if and only if the capacity is the room that each entry needs, counted from the syntax |
| `Pipeline.DefaultKeepsDocumentExactly` | include/Dice/rdf-parser/TurtleFileParser.hpp:38-91 | with the default sizes a document loses nothing in any interleaving if and only if its number of triples, counted from the syntax, is at most the capacity |
| `Pipeline.NothingIsInvented` | include/Dice/rdf-parser/TurtleFileParser.hpp:108-142 | with no condition on nesting, sizes or interleaving, every predicate-object pair is received at most as often as the document means it |
| `PegLaws.TailLongest` | include/Dice/rdf-parser/internal/Turtle/Grammar.hpp:76-88 | star of dots and units consumes exactly the longest tail of the production, in both ways the grammar writes it |
| `Names.PnLocalIsLongest` | include/Dice/rdf-parser/internal/Turtle/Grammar.hpp:67-82 | PN_LOCAL consumes exactly the longest prefix in its production of section 6.5 of RDF 1.1 Turtle, and fails only if there is none |
| `Names.PnPrefixIsLongest` | include/Dice/rdf-parser/internal/Turtle/Grammar.hpp:84-89 | likewise PN_PREFIX |
| `Names.BlankNodeLabelIsLongest` | include/Dice/rdf-parser/internal/Turtle/Grammar.hpp:176-185 | likewise BLANK_NODE_LABEL |
| `Names.PnLocalNeverEndsInDot` | include/Dice/rdf-parser/internal/Turtle/Grammar.hpp:67-82 | a local name never ends in an unescaped dot |
| `Names.PnPrefixNeverEndsInDot` | include/Dice/rdf-parser/internal/Turtle/Grammar.hpp:84-89 | a prefix never ends in a dot |
| `Names.BlankNodeLabelNeverEndsInDot` | include/Dice/rdf-parser/internal/Turtle/Grammar.hpp:176-185 | a blank-node label never ends in a dot |
| `Numbers.NumericIsLongest` | include/Dice/rdf-parser/internal/Turtle/Grammar.hpp:156-171 | the ordered choice of DOUBLE, DECIMAL and INTEGER consumes the longest prefix in any of the three productions |
| `Abbreviations.ClassesAreApart` | include/Dice/rdf-parser/internal/Turtle/Grammar.hpp:156-171 | no text lies in two of the three productions |
| `Abbreviations.NumericLiteralRuns` | include/Dice/rdf-parser/internal/Turtle/Actions/BasicActions.hpp:175-212 | the stored literal is that longest prefix with the datatype of the one class it belongs to |
| `Abbreviations.NumberParses` | include/Dice/rdf-parser/internal/Turtle/Actions/BasicActions.hpp:175-212 | a whole number text parses to the literal of that text and type |
| `Abbreviations.NumberAbbreviates` | include/Dice/RDF/ParseTerm.hpp:16-26 | a number parses to the same term as its text in quotes with the full datatype |
| `Readings.NumberTypes` | include/Dice/rdf-parser/internal/Turtle/Actions/BasicActions.hpp:175-212 | a whole number text shows its own text as value and, as datatype text, integer, decimal or double of XML Schema if and only if it lies in that production |
| `Readings.BooleanRuns` | include/Dice/rdf-parser/internal/Turtle/Actions/BasicActions.hpp:160-173 | in any state and whatever follows, true and false are consumed and give the literal of that text with the boolean datatype text |
| `Readings.BooleanParses` | include/Dice/RDF/ParseTerm.hpp:16-26 | and parse to the term of their text in quotes with the full datatype |
| `Readings.AnonRuns` | include/Dice/rdf-parser/internal/Turtle/Actions/BasicActions.hpp:152-158 | in any state, empty brackets with any white space inside are consumed and are the node of the counter, which moves on by one |
| `Readings.BracketsDiffer` | include/Dice/rdf-parser/internal/Turtle/States/BasicState.hpp:126-128 | any number of them read one after the other through one state are pairwise different nodes |
| `Readings.EmptyBracketsParse` | include/Dice/RDF/ParseTerm.hpp:16-26 | from the fresh state of the driver they are the node labelled b1 |
| `Tokens.StringReads` | include/Dice/rdf-parser/internal/Turtle/Grammar.hpp:118-129 | a legal value in double quotes is consumed whole, whatever follows |
| `Tokens.IriReads` | include/Dice/rdf-parser/internal/Turtle/Grammar.hpp:193-199 | a legal IRI in angle brackets is consumed whole, whatever follows |
| `Tokens.LangReads` | include/Dice/rdf-parser/internal/Turtle/Grammar.hpp:173-174 | a legal language tag is consumed whole |
| `Tokens.LabelReads` | include/Dice/rdf-parser/internal/Turtle/Grammar.hpp:176-185 | a legal blank-node label is consumed whole |
| `Wholes.LegalExactly` | include/Dice/rdf-parser/internal/Turtle/Grammar.hpp:118-199 | the parts of a term are legal if and only if each of their texts is consumed whole by its terminal |
| `Quotes.FormReads` | include/Dice/rdf-parser/internal/Turtle/Grammar.hpp:107-154 | a legal text in any of the four forms of quotes is consumed whole |
| `Quotes.LiteralInForm` | include/Dice/rdf-parser/internal/Turtle/Actions/BasicActions.hpp:289-300 | with any tag, in any state between terms, it gives the literal whose value is the text without one quote at each end |
| `Quotes.ValueIsTextExactly` | include/Dice/rdf-parser/internal/Turtle/Actions/BasicActions.hpp:289-300 | so the value is the text between the delimiters if and only if these are single quotes or double quotes, not three of them |
| `Alphabets.PrefixAlphabet` | include/Dice/rdf-parser/internal/Turtle/Grammar.hpp:52-89 | the characters of prefixes, first and later, are those of the tables of the standard |
| `Alphabets.LocalAlphabet` | include/Dice/rdf-parser/internal/Turtle/Grammar.hpp:17-82 | likewise those of local names, with the characters that a backslash may stand before |
| `Alphabets.LabelAlphabet` | include/Dice/rdf-parser/internal/Turtle/Grammar.hpp:176-185 | likewise those of blank-node labels |
| `Alphabets.PercentReads` | include/Dice/rdf-parser/internal/Turtle/Grammar.hpp:41-50 | a percent sign takes two hexadecimal digits |
| `Alphabets.TextAlphabet` | include/Dice/rdf-parser/internal/Turtle/Grammar.hpp:118-199 | the characters of quoted values and of IRIs |
| `Alphabets.EscapeAlphabet` | include/Dice/rdf-parser/internal/Turtle/Grammar.hpp:103-105 | the letters that a backslash may stand before in a value |
| `Alphabets.UnicodeEscapes` | include/Dice/rdf-parser/internal/Turtle/Grammar.hpp:97-101 | numeric escapes have exactly four or eight hexadecimal digits |
| `Alphabets.EscapesAreLegal` | include/Dice/rdf-parser/internal/Turtle/Grammar.hpp:97-105 | numeric escapes may stand in IRIs and values, letter escapes in values |
| `Alphabets.FormAlphabet` | include/Dice/rdf-parser/internal/Turtle/Grammar.hpp:107-154 | in each of the four forms: no own quote, no backslash, and no line end unless there are three quotes |
| `Alphabets.LangAlphabet` | include/Dice/rdf-parser/internal/Turtle/Grammar.hpp:173-174 | language tags are letters, and letters or digits after a hyphen |
| `Alphabets.IntegerAlphabet` | include/Dice/rdf-parser/internal/Turtle/Grammar.hpp:156-157 | integers are an optional sign and decimal digits |
| `Alphabets.ExponentAlphabet` | include/Dice/rdf-parser/internal/Turtle/Grammar.hpp:162-164 | exponents begin with either letter e |
| `Alphabets.SpaceAlphabet` | include/Dice/rdf-parser/internal/Turtle/Grammar.hpp:91-95 | the white space between empty brackets is space, tab, carriage return and line feed |
| `TermStates.BasicState.constructor` | include/Dice/rdf-parser/internal/Turtle/States/BasicState.hpp:38-56 | flags false, texts empty, label counter 1, no prefixes |
| `TermStates.BasicState.AddPrefix` | include/Dice/rdf-parser/internal/Turtle/States/BasicState.hpp:65-67 | a new prefix is bound; a bound one keeps its first value |
| `PrefixedTypes.FirstBindingStays` | include/Dice/rdf-parser/internal/Turtle/States/BasicState.hpp:65-67 | over any sequence of declarations a prefix has the value of its first one, and only declared prefixes are bound |
| `TermStates.BasicState.ApplyIriRef` | include/Dice/rdf-parser/internal/Turtle/Actions/BasicActions.hpp:134-150 | the brackets are cut and a base is inserted after the first character, which throws on an empty IRI |
| `TermStates.BasicState.ApplyPrefixedName` | include/Dice/rdf-parser/internal/Turtle/Actions/BasicActions.hpp:108-132 | the first colon splits the name; an unbound prefix throws and changes nothing |
| `TermStates.BasicState.ApplyRdfLiteral` | include/Dice/rdf-parser/internal/Turtle/Actions/BasicActions.hpp:214-252 | the pending tag is used and its flag cleared; a type wins over a language |
| `TermStates.BasicState.Perform` | include/Dice/rdf-parser/internal/Turtle/Actions/BasicActions.hpp:108-341 | every action of a term updates the fields as its specification says, or throws |
| `TermStates.MatchRule` | include/Dice/rdf-parser/internal/Turtle/Grammar.hpp:187-268 | matching a rule fires its actions as it goes, and what a failed alternative changed stays changed |
| `TermStates.ParseTerm` | include/Dice/RDF/ParseTerm.hpp:16-26 | the driver returns the element left in a fresh state, without looking at whether the rule matched; it throws exactly for a prefixed name, alone or as the datatype of a string, and gives the default term exactly when no term begins the text |
| `TermStates.TermParsable` | include/Dice/RDF/ParseTerm.hpp:33-40 | never answers no: the answer is yes exactly for texts that are not such a prefixed name, and for those a formatting error escapes |
| `Unparsable.TermEndsExactly` | include/Dice/rdf-parser/internal/Turtle/Actions/BasicActions.hpp:108-150 | in any state: reading a term throws if and only if the IRI it reads, alone or as the type tag of a string, is a name with an unbound prefix or an empty IRI under a base; it finds nothing if and only if no terminal begins the text |
| `Unparsable.RefusedExactly` | include/Dice/RDF/ParseTerm.hpp:16-26 | the same from the fresh state of the driver, decided by the terminals alone |
| `Unparsable.NothingFoundExactly` | include/Dice/RDF/ParseTerm.hpp:16-26 | the default term comes back if and only if no term begins the text |
| `Unparsable.GarbageIsAccepted` | include/Dice/RDF/ParseTerm.hpp:16-26 | witness: texts that begin with an exclamation mark are no terms and are accepted all the same |
| `Identity.ViewsReadBack` | include/Dice/RDF/Term.hpp:163-203 | kind, value, language and datatype read through the offset views are those the term was made of |
| `Identity.LiteralChoices` | include/Dice/RDF/Term.hpp:188-203 | a language wins over any datatype, and the datatype text of plain strings counts as none |
| `Identity.SameIdentifierExactly` | include/Dice/RDF/Term.hpp:122-124 | for tags without a double quote: equal identifiers if and only if kind, value, language and datatype agree, xsd:string being none, whatever quotes the value holds |
| `Identity.SameViewsExactly` | include/Dice/RDF/Term.hpp:122-203 | the same through the views, for tags that are not empty |
| `Identity.ViewsAgreeExactly` | include/Dice/RDF/Term.hpp:163-220 | for any two terms: the views agree if and only if the parts are equal, xsd:string being no datatype, or both are literals of one value whose tags show nothing: none, an empty language or datatype, or xsd:string |
| `Identity.LookAlikesExactly` | include/Dice/RDF/Term.hpp:122-220 | so for tags without a double quote, terms with agreeing views and different identifiers are exactly literals of one value under two different tags that show nothing |
| `Identity.EmptyDatatypeIsInvisible` | include/Dice/RDF/Term.hpp:214-220 | witness: a literal typed by the empty IRI reads like an untyped one and yet differs |
| `Identity.QuoteInTagConfuses` | include/Dice/RDF/Term.hpp:188-203 | witness: with a quote in the language tag different literals share an identifier |
| `RoundTrip.TermReadsBack` | include/Dice/rdf-parser/internal/Turtle/Actions/BasicActions.hpp:108-341 | in any state between terms: a legal term's identifier is read whole and gives that term, with no tag left pending, if and only if there is no base, or the term is a blank node, or a literal whose type is not the empty IRI |
| `RoundTrip.ParseUndoesPrint` | include/Dice/RDF/ParseTerm.hpp:16-26 | parsing the identifier of any URIRef, BNode or Literal with legal parts gives the equal term with the same type and views |
| `RoundTrip.AllReadBack` | include/Dice/rdf-parser/internal/Turtle/Actions/BasicActions.hpp:108-341 | over any sequence of legal terms read through one state, all are given back if and only if each of them survives the base |
| `RoundTrip.LegalTermsEqualExactly` | include/Dice/RDF/Term.hpp:122-124 | among terms the grammar can write, equal identifiers mean equal parts |
| `Memory.HistoryDoesNotMatter` | include/Dice/rdf-parser/internal/Turtle/Actions/BasicActions.hpp:108-341 | how any text reads as a term depends only on base, prefixes and label counter, and both tag flags are false afterwards |
| `Memory.NoTagLeaks` | include/Dice/rdf-parser/internal/Turtle/Actions/BasicActions.hpp:214-287 | over any sequence of texts, one shared state reads what a state renewed before each text reads |
| `PrefixedTypes.NameReads` | include/Dice/rdf-parser/internal/Turtle/Grammar.hpp:187-225 | a prefixed name, with either part possibly empty, is consumed whole |
| `PrefixedTypes.NamedTypeRuns` | include/Dice/rdf-parser/internal/Turtle/Actions/BasicActions.hpp:214-272 | a datatype given as a prefixed name is stored as the IRI it stands for |
| `PrefixedTypes.NamedTypeAbbreviates` | include/Dice/rdf-parser/internal/Turtle/Actions/BasicActions.hpp:134-272 | and in any state between terms it reads as the same literal as the expanded IRI in brackets, if and only if there is no base or the expansion is not empty |

## Left out

- Labels.GeneratedInjective: the counter is unbounded here; the program's `int` would overflow after 2^31 - 1 labels.
- Documents.StatementExactly: (`Freshness.DocumentExactlyByLabels` replaces the condition by one on the written labels) needs that the written subject is not one of the labels generated while reading the statement (`Nesting.AccidentallyRight` shows why); for the direction from safe to exact, `Documents.SafeStatementIsExact` needs nothing.
- Identity.SameViewsExactly: excludes empty tags, which the views cannot show (`Identity.EmptyDatatypeIsInvisible`); `Identity.SameIdentifierExactly` includes them.
- PrefixedTypes.NamedTypeAbbreviates: speaks of expansions that can be written in angle brackets; `PrefixedTypes.NamedTypeRuns` covers all others.
- The statement machine starts from the actions of a successful derivation: matching statements as text, white space, comments, and actions fired inside alternatives that fail later are not modelled there. For terms, actions of failed alternatives are modelled.
- The term that stands for `a` (with doubled brackets, `include/Dice/rdf-parser/internal/Turtle/Actions/BasicActions.hpp:323-324`) is a given term of the statement model.
- Directives: base and prefix lines, and their splitting at white space. Bindings and base are part of the state that a term is read in, and `AddPrefix` is modelled.
- A directive inserts nothing and is an entry of its own in `Pipeline`; its effect on prefixes and base is not followed there, since the terms of a statement are given.
- A text without any statement or directive is refused by the grammar; the models of documents and scripts allow it.
- The fields of a state used by terms and those used by statements are two classes here, where the program inherits one from the other.
- The two size counters of the verb stack: both are fields of `States.State`, but the value model keeps the younger one only, since the older is read only while a verb is processed.
- Characters are code points; decoding of UTF-8 is not modelled.
- Escape sequences stay as written in values, IRIs and local names, as in the program.
- Memory ordering is sequentially consistent, and the queue is one of fixed capacity with a single producer and consumer. The producer's mutex is merged into its steps, the flag's mutex is held by a consumer at its recheck, and a notification is merged into the write of the flag it announces.
- File streams, buffers, starting and joining threads, and parse errors in a file: the parsing thread's script is a list of statements followed by the end.
- Results that need the order of the thresholds require it; `FileParsers.Open` refuses sizes without it.
- Waiting.EndExactly: needs a queue that can hold a triple; the program's capacity is a positive constant. Its condition is on the history of the run; `Endings.EndMeansEmptyExactly` has the one on the parser.
- Accidents.EndComesEarly: speaks of thresholds out of reach, where nothing at all need be delivered; `Endings.EndLeavesLast` covers all others.
- DocumentLists.DocumentListsReadBack: verbs named first or rest nested inside a property list need no condition; at the top of a statement the condition is sufficient, not exact.
- SPARQL variables and triple patterns, hashing, formatting, the comparison order of terms and unchecked casts: only easy members.
