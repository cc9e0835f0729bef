/** The two halves together: a document parsed on one thread and read on the other, in every interleaving. */
module Pipeline {
  import opened Terms
  import opened Turtle
  import opened Machine
  import opened Documents
  import opened Conservation
  import opened Sizes
  import Threads = Interleaving
  import opened BackPressure
  import opened Waiting
  import Accidents
  import Endings
  import Peaks

  /** A directive inserts nothing, but the parsing thread reports its size, and may sleep, after it too. */
  datatype Entry = Directive | Sentence(statement: Statement)

  function Statements(entries: seq<Entry>): seq<Statement> {
    if entries == [] then []
    else (if entries[0].Directive? then [] else [entries[0].statement]) + Statements(entries[1..])
  }

  /** The parsing thread's script: entry by entry, what the state machine inserts. */
  function ScriptOf(entries: seq<Entry>, m: Machine): (r: seq<seq<Triple>>)
    requires m.open != []
    ensures |r| == |entries|
  {
    if entries == [] then []
    else
      match entries[0]
      case Directive => [[]] + ScriptOf(entries[1..], m)
      case Sentence(statement) => [Inserted(statement, m)] + ScriptOf(entries[1..], RunStatement(statement, m))
  }

  lemma {:induction false} FlattenFromFront(head: seq<Triple>, rest: seq<seq<Triple>>, n: nat)
    requires n <= |rest|
    ensures Threads.Flatten([head] + rest, n + 1) == head + Threads.Flatten(rest, n)
  {
    if n > 0 {
      FlattenFromFront(head, rest, n - 1);
      FlattenNext(head, rest, n);
    } else {
      assert Threads.Flatten([head] + rest, 0) == [];
    }
  }

  lemma FlattenNext(head: seq<Triple>, rest: seq<seq<Triple>>, n: nat)
    requires 0 < n <= |rest|
    ensures Threads.Flatten([head] + rest, n + 1) == Threads.Flatten([head] + rest, n) + rest[n - 1]
    ensures Threads.Flatten(rest, n) == Threads.Flatten(rest, n - 1) + rest[n - 1]
  {
  }

  /** The triples of a whole script, in order. */
  function All(script: seq<seq<Triple>>): seq<Triple> {
    Threads.Flatten(script, |script|)
  }

  /** The script, entry after entry, is exactly what one thread alone would queue for the statements. */
  lemma {:induction false} ScriptIsQueue(entries: seq<Entry>, m: Machine)
    requires m.open != []
    ensures m.queue + All(ScriptOf(entries, m)) == RunDocument(Statements(entries), m).queue
  {
    if entries != [] {
      match entries[0] {
        case Directive =>
          ScriptIsQueue(entries[1..], m);
          AfterDirective(entries, m);
        case Sentence(statement) =>
          ScriptIsQueue(entries[1..], RunStatement(statement, m));
          AfterSentence(entries, m, RunStatement(statement, m));
      }
    }
  }

  lemma AfterDirective(entries: seq<Entry>, m: Machine)
    requires m.open != [] && entries != [] && entries[0].Directive?
    ensures All(ScriptOf(entries, m)) == All(ScriptOf(entries[1..], m))
    ensures Statements(entries) == Statements(entries[1..])
  {
    var rest := ScriptOf(entries[1..], m);
    FlattenFromFront([], rest, |rest|);
  }

  lemma SentenceInserts(entries: seq<Entry>, m: Machine, r: Machine)
    requires m.open != [] && entries != [] && entries[0].Sentence? && r == RunStatement(entries[0].statement, m)
    ensures All(ScriptOf(entries, m)) == Inserted(entries[0].statement, m) + All(ScriptOf(entries[1..], r))
  {
    var rest := ScriptOf(entries[1..], r);
    FlattenFromFront(Inserted(entries[0].statement, m), rest, |rest|);
  }

  lemma SentenceRuns(entries: seq<Entry>, m: Machine, r: Machine)
    requires m.open != [] && entries != [] && entries[0].Sentence? && r == RunStatement(entries[0].statement, m)
    ensures RunDocument(Statements(entries), m) == RunDocument(Statements(entries[1..]), r)
  {
    RunFirst(entries[0].statement, Statements(entries[1..]), m);
  }

  lemma AfterSentence(entries: seq<Entry>, m: Machine, r: Machine)
    requires m.open != [] && entries != [] && entries[0].Sentence? && r == RunStatement(entries[0].statement, m)
    requires r.queue + All(ScriptOf(entries[1..], r)) == RunDocument(Statements(entries[1..]), r).queue
    ensures m.queue + All(ScriptOf(entries, m)) == RunDocument(Statements(entries), m).queue
  {
    SentenceInserts(entries, m, r);
    SentenceRuns(entries, m, r);
    InsertedIsAdded(entries[0].statement, m);
    JoinQueue(m.queue, Inserted(entries[0].statement, m), r.queue, All(ScriptOf(entries[1..], r)));
  }

  lemma JoinQueue(queue: seq<Triple>, own: seq<Triple>, after: seq<Triple>, rest: seq<Triple>)
    requires queue + own == after
    ensures queue + (own + rest) == after + rest
  {
  }

  lemma RunFirst(statement: Statement, rest: seq<Statement>, m: Machine)
    requires m.open != []
    ensures RunDocument([statement] + rest, m) == RunDocument(rest, RunStatement(statement, m))
  {
    assert ([statement] + rest)[1..] == rest;
  }

  /** A file parser built for a document, with any sizes. */
  function ParserOf(entries: seq<Entry>, capacity: nat, upper: nat, lower: nat): Threads.Config {
    Threads.Config(capacity, upper, lower, ScriptOf(entries, START))
  }

  lemma ParserQueues(entries: seq<Entry>, capacity: nat, upper: nat, lower: nat)
    ensures Threads.Sequential(ParserOf(entries, capacity, upper, lower))
            == RunDocument(Statements(entries), START).queue
  {
    ScriptIsQueue(entries, START);
    assert START.queue == [];
  }

  lemma SafeParserQueues(entries: seq<Entry>, capacity: nat, upper: nat, lower: nat)
    requires DerivableDocument(Statements(entries)) && SafeDocument(Statements(entries))
    ensures Threads.Sequential(ParserOf(entries, capacity, upper, lower))
            == MeaningOfDocument(Statements(entries), 1).triples
  {
    ParserQueues(entries, capacity, upper, lower);
    SafeDocumentIsExact(Statements(entries), START);
    assert START.queue == [];
  }

  // ---- Sizes, from the syntax of the entries.

  function EntrySize(entry: Entry): nat {
    if entry.Directive? then 0 else StatementSize(entry.statement)
  }

  function DocumentSize(entries: seq<Entry>): nat {
    if entries == [] then 0 else EntrySize(entries[0]) + DocumentSize(entries[1..])
  }

  ghost predicate SizesAtMost(entries: seq<Entry>, most: nat) {
    forall i :: 0 <= i < |entries| ==> EntrySize(entries[i]) <= most
  }

  ghost predicate Derivable(entries: seq<Entry>) {
    DerivableDocument(Statements(entries))
  }

  lemma DerivableRest(entries: seq<Entry>)
    requires Derivable(entries) && entries != []
    ensures Derivable(entries[1..]) && (entries[0].Sentence? ==> DerivableStatement(entries[0].statement))
  {
    var rest := Statements(entries[1..]);
    var all := Statements(entries);
    assert forall i :: 0 <= i < |rest| ==> rest[i] == all[i + |all| - |rest|];
    assert entries[0].Sentence? ==> all[0] == entries[0].statement;
  }

  lemma {:induction false} ScriptSizes(entries: seq<Entry>, m: Machine)
    requires Derivable(entries) && Idle(m)
    ensures forall i :: 0 <= i < |entries| ==> |ScriptOf(entries, m)[i]| == EntrySize(entries[i])
  {
    if entries != [] {
      DerivableRest(entries);
      match entries[0] {
        case Directive => ScriptSizes(entries[1..], m);
        case Sentence(statement) =>
          InsertedSize(statement, m);
          StatementRestoresIdle(statement, m);
          ScriptSizes(entries[1..], RunStatement(statement, m));
      }
    }
  }

  lemma {:induction false} FlattenSize(entries: seq<Entry>, script: seq<seq<Triple>>)
    requires |script| == |entries| && forall i :: 0 <= i < |entries| ==> |script[i]| == EntrySize(entries[i])
    ensures |Threads.Flatten(script, |script|)| == DocumentSize(entries)
  {
    if entries != [] {
      FlattenSize(entries[1..], script[1..]);
      FlattenFromFront(script[0], script[1..], |script| - 1);
      assert [script[0]] + script[1..] == script;
    }
  }

  /** The number of triples the parsing thread will insert can be read off the document, safe or not. */
  lemma ParserSize(entries: seq<Entry>, capacity: nat, upper: nat, lower: nat)
    requires Derivable(entries)
    ensures |Threads.Sequential(ParserOf(entries, capacity, upper, lower))| == DocumentSize(entries)
  {
    ScriptSizes(entries, START);
    FlattenSize(entries, ScriptOf(entries, START));
  }

  /** The document fits into the queue, or the thresholds leave room for each of its statements. */
  ghost predicate FitsInto(entries: seq<Entry>, most: nat, capacity: nat, upper: nat, lower: nat) {
    || DocumentSize(entries) <= capacity
    || (lower <= upper && SizesAtMost(entries, most) && upper + 2 * most <= capacity)
  }

  lemma ParserFits(entries: seq<Entry>, most: nat, capacity: nat, upper: nat, lower: nat)
    requires Derivable(entries) && FitsInto(entries, most, capacity, upper, lower)
    ensures Fits(ParserOf(entries, capacity, upper, lower), most)
  {
    ParserSize(entries, capacity, upper, lower);
    ScriptSizes(entries, START);
  }

  // ---- The composed results.

  /**
   Main result: in every interleaving the reading thread has received a prefix of the recursive meaning of the
   document, for every safe document that fits.
   */
  lemma SafeDocumentStreams(entries: seq<Entry>, most: nat, capacity: nat, upper: nat, lower: nat,
                            schedule: seq<Threads.Who>)
    requires Derivable(entries) && SafeDocument(Statements(entries)) && FitsInto(entries, most, capacity, upper, lower)
    ensures Threads.Run(ParserOf(entries, capacity, upper, lower), schedule).history.delivered
            <= MeaningOfDocument(Statements(entries), 1).triples
  {
    ParserFits(entries, most, capacity, upper, lower);
    DeliveredIsPrefix(ParserOf(entries, capacity, upper, lower), schedule, most);
    SafeParserQueues(entries, capacity, upper, lower);
  }

  lemma EndSplits(c: Threads.Config, schedule: seq<Threads.Who>, most: nat)
    requires c.capacity > 0 && Fits(c, most) && Threads.Run(c, schedule).consumer == Threads.Ended
    ensures var s := Threads.Run(c, schedule);
            && s.history.delivered + s.shared.queue == Threads.Sequential(c)
            && (s.history.delivered == Threads.Sequential(c) <==> s.history.emptyAt == |Threads.Sequential(c)|)
  {
    EndExactly(c, schedule, most);
  }

  /**
   Main result: when the reading thread has been told that no triple is left, it has the whole meaning exactly
   if its last empty reading came after the last insertion; otherwise the rest is left in the queue.
   */
  lemma SafeDocumentArrives(entries: seq<Entry>, most: nat, capacity: nat, upper: nat, lower: nat,
                            schedule: seq<Threads.Who>)
    requires Derivable(entries) && SafeDocument(Statements(entries)) && FitsInto(entries, most, capacity, upper, lower)
    requires capacity > 0
    requires Threads.Run(ParserOf(entries, capacity, upper, lower), schedule).consumer == Threads.Ended
    ensures var s := Threads.Run(ParserOf(entries, capacity, upper, lower), schedule);
            var meaning := MeaningOfDocument(Statements(entries), 1).triples;
            && s.history.delivered + s.shared.queue == meaning
            && (s.history.delivered == meaning <==> s.history.emptyAt == |meaning|)
  {
    ParserFits(entries, most, capacity, upper, lower);
    EndSplits(ParserOf(entries, capacity, upper, lower), schedule, most);
    SafeParserQueues(entries, capacity, upper, lower);
  }

  // ---- The room a document needs.

  /** The most triples the queue can hold when entry n has been inserted, counted from the syntax. */
  function EntryPeak(entries: seq<Entry>, n: nat, upper: nat, lower: nat): int
    requires 0 < n <= |entries|
  {
    var before := DocumentSize(entries[..n - 1]);
    var late := if lower > 0 && n >= 2 then Peaks.Min(upper + EntrySize(entries[n - 2]), before - 1) else 0;
    EntrySize(entries[n - 1]) + Peaks.Max(Peaks.Min(upper, before), late)
  }

  predicate HasRoom(entries: seq<Entry>, capacity: nat, upper: nat, lower: nat) {
    forall n :: 0 < n <= |entries| ==> EntryPeak(entries, n, upper, lower) <= capacity
  }

  lemma {:induction false} SizeOfOneMore(entries: seq<Entry>, n: nat)
    requires n < |entries|
    ensures DocumentSize(entries[..n + 1]) == DocumentSize(entries[..n]) + EntrySize(entries[n])
  {
    if n == 0 {
      assert entries[..1][1..] == [] && entries[..0] == [];
    } else {
      SizeOfOneMore(entries[1..], n - 1);
      assert entries[..n + 1][1..] == entries[1..][..n] && entries[..n][1..] == entries[1..][..n - 1];
    }
  }

  lemma {:induction false} TotalIs(entries: seq<Entry>, script: seq<seq<Triple>>, n: nat)
    requires n <= |script| == |entries| && forall i :: 0 <= i < |entries| ==> |script[i]| == EntrySize(entries[i])
    ensures |Threads.Flatten(script, n)| == DocumentSize(entries[..n])
  {
    if n > 0 {
      TotalIs(entries, script, n - 1);
      SizeOfOneMore(entries, n - 1);
    }
  }

  lemma PeakIs(entries: seq<Entry>, capacity: nat, upper: nat, lower: nat, n: nat)
    requires Derivable(entries) && 0 < n <= |entries|
    ensures Peaks.Peak(ParserOf(entries, capacity, upper, lower), n) == EntryPeak(entries, n, upper, lower)
  {
    ScriptSizes(entries, START);
    TotalIs(entries, ScriptOf(entries, START), n - 1);
  }

  /**
   Main result: for all sizes and thresholds that a parser can be built with, a document is safe from loss in every
   interleaving if and only if the capacity is the room it needs, counted from its syntax.
   */
  lemma KeepsDocumentExactly(entries: seq<Entry>, capacity: nat, upper: nat, lower: nat)
    requires Derivable(entries) && lower <= upper
    ensures Peaks.KeepsAll(ParserOf(entries, capacity, upper, lower)) <==> HasRoom(entries, capacity, upper, lower)
  {
    var c := ParserOf(entries, capacity, upper, lower);
    Peaks.KeepsAllExactly(c);
    forall n | 0 < n <= |entries|
      ensures Peaks.Peak(c, n) == EntryPeak(entries, n, upper, lower)
    {
      PeakIs(entries, capacity, upper, lower, n);
    }
    assert Peaks.RoomForAll(c) <==> HasRoom(entries, capacity, upper, lower);
  }

  /**
   Main result: being told that there is no further triple means that none is left in the queue, in every
   interleaving, exactly for a document without triples or sizes of which the capacity or upper is zero.
   */
  lemma EndOfDocumentExactly(entries: seq<Entry>, capacity: nat, upper: nat, lower: nat)
    requires Derivable(entries) && lower <= upper
    ensures Endings.EndMeansEmpty(ParserOf(entries, capacity, upper, lower))
       <==> capacity == 0 || upper == 0 || DocumentSize(entries) == 0
  {
    ParserSize(entries, capacity, upper, lower);
    Endings.EndMeansEmptyExactly(ParserOf(entries, capacity, upper, lower));
  }

  /** Nothing lost and the producer at its end: what is not delivered is in the queue. */
  lemma EndDivides(c: Threads.Config, schedule: seq<Threads.Who>)
    requires Lossless(Threads.Run(c, schedule)) && Threads.Run(c, schedule).consumer == Threads.Ended
    ensures var s := Threads.Run(c, schedule);
            && s.history.delivered + s.shared.queue == Threads.Sequential(c)
            && (s.history.delivered == Threads.Sequential(c) <==> s.shared.queue == [])
  {
    Endings.EndedIsFinished(c, schedule);
    Accidents.AtTheEnd(c, schedule);
    AllOrSome(Threads.Run(c, schedule).history.delivered, Threads.Run(c, schedule).shared.queue);
  }

  /** The answer that there is no further triple is given only when all of them have been delivered. */
  ghost predicate EndMeansAll(c: Threads.Config, triples: seq<Triple>) {
    forall schedule ::
      Threads.Run(c, schedule).consumer == Threads.Ended ==> Threads.Run(c, schedule).history.delivered == triples
  }

  /**
   Main result: for a safe document and a parser with the room it needs, the reader who was told that there is no
   further triple always has the whole meaning, exactly if the document means no triple or the capacity or the upper
   threshold is zero.
   */
  lemma SafeDocumentArrivesExactly(entries: seq<Entry>, capacity: nat, upper: nat, lower: nat)
    requires Derivable(entries) && SafeDocument(Statements(entries)) && lower <= upper
    requires HasRoom(entries, capacity, upper, lower)
    ensures EndMeansAll(ParserOf(entries, capacity, upper, lower), MeaningOfDocument(Statements(entries), 1).triples)
       <==> capacity == 0 || upper == 0 || DocumentSize(entries) == 0
  {
    var c := ParserOf(entries, capacity, upper, lower);
    EndOfDocumentExactly(entries, capacity, upper, lower);
    KeepsDocumentExactly(entries, capacity, upper, lower);
    SafeParserQueues(entries, capacity, upper, lower);
    forall schedule | Threads.Run(c, schedule).consumer == Threads.Ended
      ensures Threads.Run(c, schedule).history.delivered == MeaningOfDocument(Statements(entries), 1).triples
         <==> Threads.Run(c, schedule).shared.queue == []
    {
      assert Lossless(Threads.Run(c, schedule));
      EndDivides(c, schedule);
    }
  }

  lemma AllOrSome(delivered: seq<Triple>, queue: seq<Triple>)
    ensures delivered == delivered + queue <==> queue == []
  {
    assert queue == [] || |delivered + queue| > |delivered|;
  }

  /**
   Main result: with the sizes as built by default, a document is safe from loss in every interleaving if and only if
   the number of its triples, counted from its syntax, is at most the capacity.
   */
  lemma DefaultKeepsDocumentExactly(entries: seq<Entry>, capacity: nat, upper: nat, lower: nat)
    requires Derivable(entries) && capacity <= upper
    ensures (forall schedule :: Lossless(Threads.Run(ParserOf(entries, capacity, upper, lower), schedule)))
            <==> DocumentSize(entries) <= capacity
  {
    ParserSize(entries, capacity, upper, lower);
    Accidents.DefaultKeepsExactly(ParserOf(entries, capacity, upper, lower));
  }

  lemma BagOfOneMore(a: seq<Triple>, x: Triple)
    ensures Bag(a + [x]) == Bag(a) + multiset{(x.predicate_, x.object_)}
  {
    assert Erase(a + [x]) == Erase(a) + [(x.predicate_, x.object_)];
  }

  lemma {:induction false} SubsequenceHasFewer(a: seq<Triple>, b: seq<Triple>)
    requires Subsequence(a, b)
    ensures Bag(a) <= Bag(b)
    decreases |b|
  {
    if a == [] {
      assert Erase(a) == [];
    } else {
      var x, y := a[|a| - 1], b[|b| - 1];
      var rest := b[..|b| - 1];
      assert b == rest + [y] && a == a[..|a| - 1] + [x];
      BagOfOneMore(rest, y);
      if x == y && Subsequence(a[..|a| - 1], rest) {
        SubsequenceHasFewer(a[..|a| - 1], rest);
        BagOfOneMore(a[..|a| - 1], x);
      } else {
        SubsequenceHasFewer(a, rest);
      }
    }
  }

  /**
   Main result, with no condition on nesting, sizes or interleaving: every verb-object pair has been received at
   most as often as the document means it. Triples may be lost and subjects may be wrong, but nothing is invented.
   */
  lemma NothingIsInvented(entries: seq<Entry>, capacity: nat, upper: nat, lower: nat, schedule: seq<Threads.Who>)
    requires Derivable(entries)
    ensures Bag(Threads.Run(ParserOf(entries, capacity, upper, lower), schedule).history.delivered)
            <= Bag(MeaningOfDocument(Statements(entries), 1).triples)
  {
    var c := ParserOf(entries, capacity, upper, lower);
    DeliveredIsSubsequence(c, schedule);
    ParserQueues(entries, capacity, upper, lower);
    SubsequenceHasFewer(Threads.Run(c, schedule).history.delivered, RunDocument(Statements(entries), START).queue);
    DocumentConserves(Statements(entries));
  }
}
