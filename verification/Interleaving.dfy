/**
 The file parser's two threads as a step system: one program counter each, one step for every atomic read, write,
 push or pop. A wait can proceed exactly when its flag is set, so spurious wake-ups are allowed. Names of program
 points give the action about to be taken; the number is its line in ConcurrentState.hpp or TurtleFileParser.hpp.
 */
module Interleaving {
  import opened Terms

  /** What the parsing thread will insert, statement by statement, and the sizes the parser was built with. */
  datatype Config = Config(capacity: nat, upper: nat, lower: nat, script: seq<seq<Triple>>)

  datatype ProducerPoint =
    | ReadFlag        // 75
    | SetFlag         // 78
    | PushAfterSet    // 80
    | Push            // 83
    | CheckSize       // 65
    | ClearWithin     // 67
    | Sleep           // 69
    | ReadFlagAtEnd   // 89
    | SetFlagAtEnd    // 92
    | DoneAfterSet    // 96, on the way from 92
    | Done            // 96, directly from 89
    | Finished

  datatype ConsumerPoint =
    | Available       // 120
    | ReadDone        // 125
    | ClearFlag       // 129
    | Wait            // 130
    | Recheck         // 132
    | RecheckDone     // 135
    | Pop             // 109
    | CheckLower      // 110
    | SetWithin       // 113
    | Ended
    | Failed

  datatype Who = Producer | Consumer

  /** What the two threads share. */
  datatype Shared = Shared(queue: seq<Triple>, within: bool, notEmpty: bool, done: bool)

  /** The producer's place in its script: the next statement, and what the current one has still to insert. */
  datatype Script = Script(statement: nat, pending: seq<Triple>)

  /**
   History that no step reads: all triples handed to push, all delivered, how many had been handed to push at
   the last empty read, whether the producer was then between setting the flag and what the flag announces,
   and whether it has read the flag since the flag was last cleared.
   */
  datatype History = History(emitted: seq<Triple>, delivered: seq<Triple>, emptyAt: nat, inWindow: bool,
                             readSinceClear: bool)

  datatype Sys = Sys(shared: Shared, script: Script, history: History, producer: ProducerPoint, consumer: ConsumerPoint)

  /** The flag is set but neither the triple nor the end that it announces is there yet. */
  predicate Window(point: ProducerPoint) {
    point == PushAfterSet || point == DoneAfterSet
  }

  /** After waking, the consumer holds the flag's mutex until it returns or throws. */
  predicate HoldsFlagMutex(point: ConsumerPoint) {
    point == Recheck || point == RecheckDone
  }

  function NextStatement(c: Config, s: Sys): Sys {
    var n := s.script.statement;
    if n < |c.script| then
      s.(script := Script(n + 1, c.script[n]), producer := if c.script[n] == [] then CheckSize else ReadFlag)
    else
      s.(script := Script(n, []), producer := ReadFlagAtEnd)
  }

  /** The result of push is ignored: a full queue drops the triple. */
  function PushPending(c: Config, s: Sys): Sys
    requires s.script.pending != []
  {
    var triple := s.script.pending[0];
    s.(shared := if |s.shared.queue| < c.capacity then s.shared.(queue := s.shared.queue + [triple]) else s.shared,
       script := s.script.(pending := s.script.pending[1..]),
       history := s.history.(emitted := s.history.emitted + [triple]),
       producer := if |s.script.pending| == 1 then CheckSize else ReadFlag)
  }

  function ClearsWithin(s: Sys, point: ProducerPoint): Sys {
    s.(shared := s.shared.(within := false), producer := point)
  }

  function SetsFlag(s: Sys, point: ProducerPoint): Sys {
    s.(shared := s.shared.(notEmpty := true), producer := point)
  }

  function Reads(s: Sys, ifSet: ProducerPoint, otherwise: ProducerPoint): Sys {
    s.(history := s.history.(readSinceClear := true), producer := if s.shared.notEmpty then ifSet else otherwise)
  }

  function Finishes(s: Sys): Sys {
    s.(shared := s.shared.(done := true), producer := Finished)
  }

  predicate ProducerEnabled(s: Sys) {
    match s.producer
    case SetFlag => !HoldsFlagMutex(s.consumer)
    case SetFlagAtEnd => !HoldsFlagMutex(s.consumer)
    case Sleep => s.shared.within
    case Finished => false
    case _ => true
  }

  function ProducerStep(c: Config, s: Sys): Sys {
    match s.producer
    case ReadFlag => Reads(s, Push, SetFlag)
    case SetFlag => SetsFlag(s, PushAfterSet)
    case PushAfterSet => if s.script.pending == [] then s else PushPending(c, s)
    case Push => if s.script.pending == [] then s else PushPending(c, s)
    case CheckSize => if |s.shared.queue| > c.upper then s.(producer := ClearWithin) else NextStatement(c, s)
    case ClearWithin => ClearsWithin(s, Sleep)
    case Sleep => NextStatement(c, s)
    case ReadFlagAtEnd => Reads(s, Done, SetFlagAtEnd)
    case SetFlagAtEnd => SetsFlag(s, DoneAfterSet)
    case DoneAfterSet => Finishes(s)
    case Done => Finishes(s)
    case Finished => s
  }

  predicate ConsumerEnabled(s: Sys) {
    match s.consumer
    case Wait => s.shared.notEmpty
    case Ended => false
    case Failed => false
    case _ => true
  }

  function FindsEmpty(s: Sys, point: ConsumerPoint): Sys {
    s.(history := s.history.(emptyAt := |s.history.emitted|, inWindow := Window(s.producer)), consumer := point)
  }

  function PopFront(s: Sys): Sys
    requires s.shared.queue != []
  {
    s.(shared := s.shared.(queue := s.shared.queue[1..]),
       history := s.history.(delivered := s.history.delivered + [s.shared.queue[0]]), consumer := CheckLower)
  }

  function ConsumerStep(c: Config, s: Sys): Sys {
    match s.consumer
    case Available => if s.shared.queue != [] then s.(consumer := Pop) else FindsEmpty(s, ReadDone)
    case ReadDone => s.(consumer := if s.shared.done then Ended else ClearFlag)
    case ClearFlag =>
      s.(shared := s.shared.(notEmpty := false), history := s.history.(readSinceClear := false), consumer := Wait)
    case Wait => s.(consumer := Recheck)
    case Recheck => if s.shared.queue != [] then s.(consumer := Pop) else FindsEmpty(s, RecheckDone)
    case RecheckDone => s.(consumer := if s.shared.done then Ended else Failed)
    case Pop => if s.shared.queue == [] then s.(consumer := CheckLower) else PopFront(s)
    case CheckLower => s.(consumer := if |s.shared.queue| < c.lower then SetWithin else Available)
    case SetWithin => s.(shared := s.shared.(within := true), consumer := Available)
    case Ended => s
    case Failed => s
  }

  /** A thread whose turn comes while it cannot move lets its turn pass. */
  function Step(c: Config, s: Sys, who: Who): Sys {
    match who
    case Producer => if ProducerEnabled(s) then ProducerStep(c, s) else s
    case Consumer => if ConsumerEnabled(s) then ConsumerStep(c, s) else s
  }

  function Start(c: Config): Sys {
    NextStatement(c, Sys(Shared([], false, false, false), Script(0, []), History([], [], 0, false, false), ReadFlag,
                         Available))
  }

  /** The state after a schedule; every interleaving is some schedule. */
  function Run(c: Config, schedule: seq<Who>): Sys {
    if schedule == [] then Start(c)
    else Step(c, Run(c, schedule[..|schedule| - 1]), schedule[|schedule| - 1])
  }

  lemma RunOne(c: Config, schedule: seq<Who>, who: Who)
    ensures Run(c, schedule + [who]) == Step(c, Run(c, schedule), who)
  {
  }

  /** The triples of the first n statements. */
  function Flatten(script: seq<seq<Triple>>, n: nat): seq<Triple>
    requires n <= |script|
  {
    if n == 0 then [] else Flatten(script, n - 1) + script[n - 1]
  }

  /** What the sequential state would queue for the same statements. */
  function Sequential(c: Config): seq<Triple> {
    Flatten(c.script, |c.script|)
  }

  predicate Inserting(point: ProducerPoint) {
    point == ReadFlag || point == SetFlag || point == PushAfterSet || point == Push
  }

  predicate Ending(point: ProducerPoint) {
    point == ReadFlagAtEnd || point == SetFlagAtEnd || point == DoneAfterSet || point == Done || point == Finished
  }

  /** Inserted so far and still pending: together the statements begun. */
  ghost predicate InScript(c: Config, emitted: seq<Triple>, pending: seq<Triple>, statement: nat) {
    statement <= |c.script| && emitted + pending == Flatten(c.script, statement)
  }

  /** Where the producer stands in its script. */
  ghost predicate Position(c: Config, s: Sys) {
    && InScript(c, s.history.emitted, s.script.pending, s.script.statement)
    && (Inserting(s.producer) <==> s.script.pending != [])
    && (Ending(s.producer) ==> s.script.statement == |c.script|)
    && (s.shared.done <==> s.producer == Finished)
    && (s.consumer == Pop ==> s.shared.queue != [])
  }

  lemma StartPosition(c: Config)
    ensures Position(c, Start(c))
  {
  }

  lemma NextStatementPosition(c: Config, s: Sys)
    requires Position(c, s) && s.script.pending == [] && !s.shared.done
    ensures Position(c, NextStatement(c, s))
  {
    assert s.history.emitted + [] == s.history.emitted;
  }

  lemma PushPosition(c: Config, s: Sys)
    requires Position(c, s) && s.script.pending != []
    ensures Position(c, PushPending(c, s))
  {
    assert s.history.emitted + [s.script.pending[0]] + s.script.pending[1..] == s.history.emitted + s.script.pending;
  }

  lemma ProducerPosition(c: Config, s: Sys)
    requires Position(c, s)
    ensures Position(c, ProducerStep(c, s))
  {
    match s.producer
    case CheckSize => NextStatementPosition(c, s);
    case Sleep => NextStatementPosition(c, s);
    case PushAfterSet => PushPosition(c, s);
    case Push => PushPosition(c, s);
    case _ =>
  }

  lemma StepPosition(c: Config, s: Sys, who: Who)
    requires Position(c, s)
    ensures Position(c, Step(c, s, who))
  {
    match who
    case Producer => ProducerPosition(c, s);
    case Consumer => ConsumerPosition(c, s);
  }

  lemma ConsumerPosition(c: Config, s: Sys)
    requires Position(c, s)
    ensures Position(c, ConsumerStep(c, s))
  {
  }

  lemma {:induction false} RunPosition(c: Config, schedule: seq<Who>)
    ensures Position(c, Run(c, schedule))
  {
    if schedule == [] {
      StartPosition(c);
    } else {
      RunPosition(c, schedule[..|schedule| - 1]);
      StepPosition(c, Run(c, schedule[..|schedule| - 1]), schedule[|schedule| - 1]);
    }
  }
}
