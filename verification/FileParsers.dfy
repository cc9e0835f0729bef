/** The file parser's shared fields and its two threads, updated in place one atomic action at a time. */
module FileParsers {
  import opened Terms
  import opened Interleaving

  class FileParser {
    const config: Config

    // Shared by the threads.
    var parsedTerms: seq<Triple>
    var termCountWithinThresholds: bool
    var termsCountIsNotEmpty: bool
    var parsingIsDone: bool

    // The parsing thread.
    var statement: nat
    var pending: seq<Triple>
    var producer: ProducerPoint

    // The reading thread.
    var currentTriple: Triple
    var consumer: ConsumerPoint

    ghost var history: History

    ghost function Snapshot(): Sys
      reads this
    {
      Sys(Shared(parsedTerms, termCountWithinThresholds, termsCountIsNotEmpty, parsingIsDone),
          Script(statement, pending), history, producer, consumer)
    }

    /** The triple at hand is the last one delivered. */
    ghost predicate HoldsLast()
      reads this
    {
      history.delivered != [] ==> currentTriple == history.delivered[|history.delivered| - 1]
    }

    constructor (config: Config)
      ensures this.config == config && Snapshot() == Start(config) && HoldsLast()
    {
      this.config := config;
      parsedTerms, termCountWithinThresholds, termsCountIsNotEmpty, parsingIsDone := [], false, false, false;
      statement, pending, producer := 0, [], ReadFlag;
      currentTriple, consumer := NO_TRIPLE, Available;
      history := History([], [], 0, false, false);
      new;
      BeginStatement();
    }

    method BeginStatement()
      modifies this`statement, this`pending, this`producer
      ensures Snapshot() == NextStatement(config, old(Snapshot()))
    {
      if statement < |config.script| {
        pending := config.script[statement];
        statement := statement + 1;
        producer := if pending == [] then CheckSize else ReadFlag;
      } else {
        pending := [];
        producer := ReadFlagAtEnd;
      }
    }

    /** The queue refuses a triple when full, and nobody looks at its answer. */
    method Insert()
      requires pending != []
      modifies this`parsedTerms, this`pending, this`producer, this`history
      ensures Snapshot() == PushPending(config, old(Snapshot()))
    {
      var triple := pending[0];
      if |parsedTerms| < config.capacity {
        parsedTerms := parsedTerms + [triple];
      }
      history := history.(emitted := history.emitted + [triple]);
      pending := pending[1..];
      producer := if pending == [] then CheckSize else ReadFlag;
    }

    method ReadNotEmptyFlag(ifSet: ProducerPoint, otherwise: ProducerPoint)
      modifies this`producer, this`history
      ensures Snapshot() == Reads(old(Snapshot()), ifSet, otherwise)
    {
      history := history.(readSinceClear := true);
      producer := if termsCountIsNotEmpty then ifSet else otherwise;
    }

    /** One action of the parsing thread: inserting, reporting its size, sleeping, or ending. */
    method ProducerMoves()
      requires ProducerEnabled(Snapshot()) && Position(config, Snapshot())
      modifies this
      ensures Snapshot() == ProducerStep(config, old(Snapshot()))
      ensures currentTriple == old(currentTriple)
    {
      match producer
      case ReadFlag => ReadNotEmptyFlag(Push, SetFlag);
      case SetFlag =>
        termsCountIsNotEmpty := true;
        producer := PushAfterSet;
      case PushAfterSet => Insert();
      case Push => Insert();
      case CheckSize =>
        if |parsedTerms| > config.upper {
          producer := ClearWithin;
        } else {
          BeginStatement();
        }
      case ClearWithin =>
        termCountWithinThresholds := false;
        producer := Sleep;
      case Sleep => BeginStatement();
      case ReadFlagAtEnd => ReadNotEmptyFlag(Done, SetFlagAtEnd);
      case SetFlagAtEnd =>
        termsCountIsNotEmpty := true;
        producer := DoneAfterSet;
      case DoneAfterSet =>
        parsingIsDone := true;
        producer := Finished;
      case Done =>
        parsingIsDone := true;
        producer := Finished;
      case Finished =>
    }

    method FindEmpty(point: ConsumerPoint)
      modifies this`consumer, this`history
      ensures Snapshot() == FindsEmpty(old(Snapshot()), point)
    {
      history := history.(emptyAt := |history.emitted|, inWindow := Window(producer));
      consumer := point;
    }

    method NextTriple()
      requires parsedTerms != []
      modifies this`parsedTerms, this`currentTriple, this`consumer, this`history
      ensures Snapshot() == PopFront(old(Snapshot())) && HoldsLast()
    {
      currentTriple := parsedTerms[0];
      parsedTerms := parsedTerms[1..];
      history := history.(delivered := history.delivered + [currentTriple]);
      consumer := CheckLower;
    }

    /** One action of the reading thread: asking whether a triple is there, waiting for one, or taking it. */
    method ConsumerMoves()
      requires ConsumerEnabled(Snapshot()) && Position(config, Snapshot()) && HoldsLast()
      modifies this
      ensures Snapshot() == ConsumerStep(config, old(Snapshot())) && HoldsLast()
    {
      match consumer
      case Available =>
        if parsedTerms != [] {
          consumer := Pop;
        } else {
          FindEmpty(ReadDone);
        }
      case ReadDone => consumer := if parsingIsDone then Ended else ClearFlag;
      case ClearFlag =>
        termsCountIsNotEmpty := false;
        history := history.(readSinceClear := false);
        consumer := Wait;
      case Wait => consumer := Recheck;
      case Recheck =>
        if parsedTerms != [] {
          consumer := Pop;
        } else {
          FindEmpty(RecheckDone);
        }
      case RecheckDone => consumer := if parsingIsDone then Ended else Failed;
      case Pop => NextTriple();
      case CheckLower => consumer := if |parsedTerms| < config.lower then SetWithin else Available;
      case SetWithin =>
        termCountWithinThresholds := true;
        consumer := Available;
      case Ended =>
      case Failed =>
    }

    method CanMove(who: Who) returns (enabled: bool)
      ensures enabled == if who == Producer then ProducerEnabled(Snapshot()) else ConsumerEnabled(Snapshot())
    {
      var holdsMutex := HoldsFlagMutex(consumer);
      match who
      case Producer =>
        enabled :=
          if producer == SetFlag || producer == SetFlagAtEnd then !holdsMutex
          else if producer == Sleep then termCountWithinThresholds
          else producer != Finished;
      case Consumer =>
        enabled := if consumer == Wait then termsCountIsNotEmpty else consumer != Ended && consumer != Failed;
    }

    /** One turn: the thread moves if it can. */
    method Turn(who: Who)
      requires Position(config, Snapshot()) && HoldsLast()
      modifies this
      ensures Snapshot() == Step(config, old(Snapshot()), who) && HoldsLast()
    {
      var enabled := CanMove(who);
      if enabled {
        match who
        case Producer => ProducerMoves();
        case Consumer => ConsumerMoves();
      }
    }
  }

  /** Opening a file: a lower threshold above the upper one is refused, though the parsing thread has been started. */
  method Open(config: Config) returns (parser: Option<FileParser>)
    ensures parser.Some? <==> config.lower <= config.upper
    ensures parser.Some? ==> fresh(parser.value) && parser.value.config == config
                             && parser.value.Snapshot() == Start(config) && parser.value.HoldsLast()
  {
    var started := new FileParser(config);
    parser := if config.upper < config.lower then None else Some(started);
  }

  /** Runs a schedule from the start; the triple at hand is then the last one delivered. */
  method Execute(config: Config, schedule: seq<Who>) returns (parser: FileParser)
    ensures fresh(parser) && parser.config == config
    ensures parser.Snapshot() == Run(config, schedule) && parser.HoldsLast()
  {
    parser := new FileParser(config);
    var i := 0;
    while i < |schedule|
      invariant 0 <= i <= |schedule|
      invariant fresh(parser) && parser.config == config
      invariant parser.Snapshot() == Run(config, schedule[..i]) && parser.HoldsLast()
    {
      RunPosition(config, schedule[..i]);
      RunOne(config, schedule[..i], schedule[i]);
      assert schedule[..i + 1] == schedule[..i] + [schedule[i]];
      parser.Turn(schedule[i]);
      i := i + 1;
    }
    assert schedule[..|schedule|] == schedule;
  }
}
