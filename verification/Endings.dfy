/** For which parsers the answer "no further triple" can come while a triple is still in the queue. */
module Endings {
  import opened Interleaving
  import opened BackPressure
  import opened Alone
  import opened Accidents

  /** Both threads keep step: all that was inserted has been delivered, and nobody waits. */
  ghost predicate InStep(s: Sys) {
    && s.consumer == Available && s.shared.queue == [] && s.history.delivered == s.history.emitted
    && (s.producer == ReadFlag || s.producer == CheckSize)
  }

  /** The producer inserts one triple and the consumer takes it. */
  lemma PassOne(c: Config, before: seq<Who>, s0: Sys) returns (schedule: seq<Who>, s: Sys)
    requires Run(c, before) == s0 && InStep(s0) && s0.producer == ReadFlag && s0.script.pending != [] && c.capacity > 0
    ensures Run(c, schedule) == s && InStep(s) && s.history.emitted == s0.history.emitted + [s0.script.pending[0]]
    ensures s.script == Script(s0.script.statement, s0.script.pending[1..])
  {
    schedule, s := InsertOne(c, before, s0);
    schedule, s := DrainOne(c, schedule, s);
  }

  /** The next statement begins, if anything is left to insert. */
  lemma BeginNext(c: Config, before: seq<Who>, s0: Sys) returns (schedule: seq<Who>, s: Sys)
    requires Run(c, before) == s0 && Position(c, s0) && InStep(s0) && s0.producer == CheckSize
    requires |s0.history.emitted| < |Sequential(c)|
    ensures Run(c, schedule) == s && InStep(s) && s.history == s0.history
    ensures s.script.statement == s0.script.statement + 1
  {
    assert s0.history.emitted + [] == s0.history.emitted;
    schedule, s := Move(c, before, s0, Producer);
  }

  /** In step until n triples have been passed on, with the next one pending. */
  lemma {:induction false} PassFirst(c: Config, before: seq<Who>, s0: Sys, n: nat) returns (schedule: seq<Who>, s: Sys)
    requires Run(c, before) == s0 && InStep(s0) && |s0.history.emitted| <= n < |Sequential(c)|
    requires |s0.history.emitted| < n ==> c.capacity > 0
    ensures Run(c, schedule) == s && InStep(s) && s.producer == ReadFlag && |s.history.emitted| == n
    decreases n - |s0.history.emitted|, |c.script| - s0.script.statement
  {
    schedule, s := before, s0;
    RunPosition(c, before);
    if s0.producer == CheckSize {
      schedule, s := BeginNext(c, before, s0);
      RunPosition(c, schedule);
      schedule, s := PassFirst(c, schedule, s, n);
    } else if |s0.history.emitted| < n {
      schedule, s := PassOne(c, before, s0);
      schedule, s := PassFirst(c, schedule, s, n);
    }
  }

  /** All is inserted, and the queue does not put the producer to sleep. */
  ghost predicate Closing(c: Config, s: Sys) {
    && s.history.emitted == Sequential(c) && |s.shared.queue| <= c.upper
    && (s.producer == CheckSize || Ending(s.producer)) && !HoldsFlagMutex(s.consumer)
  }

  lemma CloseStep(c: Config, s: Sys)
    requires Position(c, s) && Closing(c, s) && s.producer != Finished
    ensures Position(c, ProducerStep(c, s)) && Closing(c, ProducerStep(c, s))
    ensures ProducerStep(c, s).shared.queue == s.shared.queue && ProducerStep(c, s).consumer == s.consumer
  {
    ProducerPosition(c, s);
    BegunIsPrefix(c, ProducerStep(c, s));
  }

  /** Only empty statements are left: the producer goes on to its end. */
  lemma {:induction false} CloseDown(c: Config, before: seq<Who>, s0: Sys) returns (schedule: seq<Who>, s: Sys)
    requires Run(c, before) == s0 && Position(c, s0) && Closing(c, s0)
    ensures Run(c, schedule) == s && Position(c, s) && s.producer == Finished && s.history.emitted == Sequential(c)
    ensures s.shared.queue == s0.shared.queue && s.consumer == s0.consumer
    decreases |c.script| - s0.script.statement, |s0.script.pending|, Rank(s0.producer)
  {
    schedule, s := before, s0;
    if s0.producer != Finished {
      StepIsNearer(c, s0);
      CloseStep(c, s0);
      schedule, s := Move(c, before, s0, Producer);
      schedule, s := CloseDown(c, schedule, s);
    }
  }

  lemma BeginsInStep(c: Config)
    requires Sequential(c) != []
    ensures InStep(Start(c))
  {
  }

  /** The consumer reads the empty queue just before the last triple is inserted. */
  lemma ReadBeforeLast(c: Config, before: seq<Who>, s0: Sys) returns (schedule: seq<Who>, s: Sys)
    requires Run(c, before) == s0 && InStep(s0) && s0.producer == ReadFlag && |s0.script.pending| == 1 && c.capacity > 0
    ensures Run(c, schedule) == s && s.consumer == ReadDone && s.producer == CheckSize
    ensures s.shared.queue == s0.script.pending && s.history.delivered == s0.history.emitted
    ensures s.history.emitted == s0.history.emitted + s0.script.pending
  {
    schedule, s := Move(c, before, s0, Consumer);
    schedule, s := InsertOne(c, schedule, s);
  }

  /** The producer ends, and then the consumer reads that the parsing is done. */
  lemma EndAfterClose(c: Config, before: seq<Who>, s0: Sys) returns (schedule: seq<Who>)
    requires Run(c, before) == s0 && Closing(c, s0) && s0.consumer == ReadDone
    ensures Run(c, schedule).consumer == Ended && Run(c, schedule).shared.queue == s0.shared.queue
  {
    var s;
    RunPosition(c, before);
    schedule, s := CloseDown(c, before, s0);
    schedule, s := Move(c, schedule, s, Consumer);
  }

  /** The reader can be told that there is no further triple when all but the last one are delivered. */
  lemma EndLeavesLast(c: Config) returns (schedule: seq<Who>)
    requires c.capacity > 0 && c.upper > 0 && Sequential(c) != []
    ensures Run(c, schedule).consumer == Ended
    ensures Run(c, schedule).shared.queue == [Sequential(c)[|Sequential(c)| - 1]]
  {
    BeginsInStep(c);
    var s;
    schedule, s := PassFirst(c, [], Start(c), |Sequential(c)| - 1);
    RunPosition(c, schedule);
    BegunIsPrefix(c, s);
    schedule, s := ReadBeforeLast(c, schedule, s);
    assert s.history.emitted[|s.history.emitted| - 1] == s.shared.queue[0];
    schedule := EndAfterClose(c, schedule, s);
  }

  // ---- Where it cannot happen.

  /** Without thresholds the producer begins a statement, or ends, only at an empty queue. */
  ghost predicate EndsEmpty(s: Sys) {
    !s.shared.within && s.consumer != SetWithin && (Ending(s.producer) ==> s.shared.queue == [])
  }

  lemma StepEndsEmpty(c: Config, s: Sys, who: Who)
    requires c.upper == 0 && c.lower == 0 && Position(c, s) && EndsEmpty(s)
    ensures EndsEmpty(Step(c, s, who))
  {
  }

  lemma {:induction false} RunEndsEmpty(c: Config, schedule: seq<Who>)
    requires c.upper == 0 && c.lower == 0
    ensures EndsEmpty(Run(c, schedule))
  {
    if schedule != [] {
      var before := schedule[..|schedule| - 1];
      RunEndsEmpty(c, before);
      RunPosition(c, before);
      StepEndsEmpty(c, Run(c, before), schedule[|schedule| - 1]);
    }
  }

  /** The consumer gives that answer only when the producer has ended, for good. */
  lemma {:induction false} EndedIsFinished(c: Config, schedule: seq<Who>)
    ensures Run(c, schedule).consumer == Ended ==> Run(c, schedule).producer == Finished
  {
    if schedule != [] {
      EndedIsFinished(c, schedule[..|schedule| - 1]);
      RunPosition(c, schedule[..|schedule| - 1]);
    }
  }

  lemma NothingIsLeft(c: Config, schedule: seq<Who>)
    requires c.lower <= c.upper && (c.capacity == 0 || c.upper == 0 || Sequential(c) == [])
    requires Run(c, schedule).consumer == Ended
    ensures Run(c, schedule).shared.queue == []
  {
    if c.upper == 0 {
      RunEndsEmpty(c, schedule);
      EndedIsFinished(c, schedule);
    } else {
      NeverSleeps(c, schedule);
      EmittedIsPrefix(c, schedule);
    }
  }

  ghost predicate EndMeansEmpty(c: Config) {
    forall schedule :: Run(c, schedule).consumer == Ended ==> Run(c, schedule).shared.queue == []
  }

  /**
   Main result: the answer "no further triple" always means an empty queue exactly if there is nothing to read, or
   the queue can hold nothing, or the upper threshold is zero. Every other parser has a run in which a triple is left.
   */
  lemma EndMeansEmptyExactly(c: Config)
    requires c.lower <= c.upper
    ensures EndMeansEmpty(c) <==> c.capacity == 0 || c.upper == 0 || Sequential(c) == []
  {
    if c.capacity == 0 || c.upper == 0 || Sequential(c) == [] {
      forall schedule | Run(c, schedule).consumer == Ended
        ensures Run(c, schedule).shared.queue == []
      {
        NothingIsLeft(c, schedule);
      }
    } else {
      var schedule := EndLeavesLast(c);
    }
  }
}
