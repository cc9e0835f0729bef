/** How long the queue can grow, and what the consumer can have received, in every interleaving. */
module BackPressure {
  import opened Terms
  import opened Interleaving

  ghost predicate StatementsAtMost(c: Config, most: nat) {
    forall i :: 0 <= i < |c.script| ==> |c.script[i]| <= most
  }

  /**
   A statement starts when the queue is at most upper, or when the producer is woken. The consumer may wake it late,
   on a reading below lower made before the producer went to sleep; then the queue may already hold upper + most.
   */
  ghost predicate Bounded(c: Config, s: Sys, most: nat) {
    && |s.script.pending| <= most
    && |s.shared.queue| + |s.script.pending| <= c.upper + 2 * most
    && (s.consumer == SetWithin ==> |s.shared.queue| + |s.script.pending| <= c.upper + most)
    && (s.producer == Sleep && s.shared.within ==> |s.shared.queue| <= c.upper + most)
    && (s.producer == Sleep && s.shared.within && s.consumer == SetWithin ==> |s.shared.queue| < c.lower)
  }

  lemma StepBounded(c: Config, s: Sys, who: Who, most: nat)
    requires c.lower <= c.upper && StatementsAtMost(c, most)
    requires Position(c, s) && Bounded(c, s, most)
    ensures Bounded(c, Step(c, s, who), most)
  {
  }

  /**
   Main result: in every interleaving the queue holds at most upper + 2 * most triples, if lower is not above
   upper and no statement has more than most triples.
   */
  lemma {:induction false} QueueIsBounded(c: Config, schedule: seq<Who>, most: nat)
    requires c.lower <= c.upper && StatementsAtMost(c, most)
    ensures Bounded(c, Run(c, schedule), most)
    ensures |Run(c, schedule).shared.queue| <= c.upper + 2 * most
  {
    if schedule != [] {
      var before := schedule[..|schedule| - 1];
      QueueIsBounded(c, before, most);
      RunPosition(c, before);
      StepBounded(c, Run(c, before), schedule[|schedule| - 1], most);
    }
  }

  /** The queue and what left it make up all that was inserted: no push has failed. */
  ghost predicate Lossless(s: Sys) {
    s.history.emitted == s.history.delivered + s.shared.queue
  }

  lemma StepLossless(c: Config, s: Sys, who: Who)
    requires Position(c, s) && Lossless(s)
    requires s.script.pending != [] ==> |s.shared.queue| < c.capacity
    ensures Lossless(Step(c, s, who))
  {
    match who
    case Producer => if ProducerEnabled(s) { ProducerLossless(c, s); }
    case Consumer => if ConsumerEnabled(s) { ConsumerLossless(c, s); }
  }

  lemma ProducerLossless(c: Config, s: Sys)
    requires Lossless(s) && (s.script.pending != [] ==> |s.shared.queue| < c.capacity)
    ensures Lossless(ProducerStep(c, s))
  {
  }

  lemma ConsumerLossless(c: Config, s: Sys)
    requires Lossless(s)
    ensures Lossless(ConsumerStep(c, s))
  {
  }

  /** A triple that leaves the queue is delivered. */
  lemma PopMoves(s: Sys)
    requires s.shared.queue != []
    ensures PopFront(s).history.delivered + PopFront(s).shared.queue == s.history.delivered + s.shared.queue
    ensures PopFront(s).history.emitted == s.history.emitted
  {
  }

  /** The sizes leave room for every statement, however late a wake-up comes. */
  ghost predicate RoomFor(c: Config, most: nat) {
    c.lower <= c.upper && StatementsAtMost(c, most) && c.upper + 2 * most <= c.capacity
  }

  /** Either the whole script fits into the queue, or the sizes leave room for each statement. */
  ghost predicate Fits(c: Config, most: nat) {
    |Sequential(c)| <= c.capacity || RoomFor(c, most)
  }

  lemma {:induction false} FlattenGrows(script: seq<seq<Triple>>, n: nat, m: nat)
    requires n <= m <= |script|
    ensures Flatten(script, n) <= Flatten(script, m)
    decreases m
  {
    if n < m {
      FlattenGrows(script, n, m - 1);
    }
  }

  lemma BegunIsPrefix(c: Config, s: Sys)
    requires Position(c, s)
    ensures s.history.emitted + s.script.pending <= Sequential(c)
  {
    FlattenGrows(c.script, s.script.statement, |c.script|);
  }

  /** The next push finds room, in any lossless state. */
  lemma NextFits(c: Config, schedule: seq<Who>, most: nat)
    requires Fits(c, most) && Lossless(Run(c, schedule))
    ensures Run(c, schedule).script.pending != [] ==> |Run(c, schedule).shared.queue| < c.capacity
  {
    RunPosition(c, schedule);
    if RoomFor(c, most) {
      QueueIsBounded(c, schedule, most);
    } else {
      BegunIsPrefix(c, Run(c, schedule));
    }
  }

  /**
   Main result: if the whole script fits into the queue, whatever the thresholds, or the thresholds leave room for
   every statement, then no push ever fails.
   */
  lemma {:induction false} NothingIsLost(c: Config, schedule: seq<Who>, most: nat)
    requires Fits(c, most)
    ensures Lossless(Run(c, schedule))
  {
    if schedule != [] {
      var before := schedule[..|schedule| - 1];
      NothingIsLost(c, before, most);
      RunPosition(c, before);
      NextFits(c, before, most);
      StepLossless(c, Run(c, before), schedule[|schedule| - 1]);
    }
  }

  /** Is a obtained from b by leaving elements out? */
  predicate Subsequence<T(==)>(a: seq<T>, b: seq<T>) {
    if a == [] then true
    else if b == [] then false
    else if a[|a| - 1] == b[|b| - 1] && Subsequence(a[..|a| - 1], b[..|b| - 1]) then true
    else Subsequence(a, b[..|b| - 1])
  }

  lemma SubsequenceGrows<T>(a: seq<T>, b: seq<T>, x: T)
    requires Subsequence(a, b)
    ensures Subsequence(a, b + [x]) && Subsequence(a + [x], b + [x])
  {
  }

  lemma {:induction false} SubsequenceOfPrefix<T>(a: seq<T>, a': seq<T>, b: seq<T>)
    requires a <= a' && Subsequence(a', b)
    ensures Subsequence(a, b)
    decreases |b|
  {
    if a != [] && |a| < |a'| {
      var rest := b[..|b| - 1];
      if a'[|a'| - 1] == b[|b| - 1] && Subsequence(a'[..|a'| - 1], rest) {
        SubsequenceOfPrefix(a, a'[..|a'| - 1], rest);
      } else {
        SubsequenceOfPrefix(a, a', rest);
      }
    } else if |a| == |a'| {
      assert a == a';
    }
  }

  lemma {:induction false} SubsequenceOfLonger<T>(a: seq<T>, b: seq<T>, b': seq<T>)
    requires Subsequence(a, b) && b <= b'
    ensures Subsequence(a, b')
    decreases |b'|
  {
    if |b| < |b'| {
      SubsequenceOfLonger(a, b, b'[..|b'| - 1]);
    } else {
      assert b == b';
    }
  }

  lemma EmittedIsPrefix(c: Config, schedule: seq<Who>)
    ensures Run(c, schedule).history.emitted <= Sequential(c)
  {
    var s := Run(c, schedule);
    RunPosition(c, schedule);
    BegunIsPrefix(c, s);
    assert s.history.emitted <= s.history.emitted + s.script.pending;
  }

  lemma {:induction false} QueuedIsSubsequence(c: Config, schedule: seq<Who>)
    ensures Subsequence(Run(c, schedule).history.delivered + Run(c, schedule).shared.queue,
                        Run(c, schedule).history.emitted)
  {
    if schedule != [] {
      var before := schedule[..|schedule| - 1];
      QueuedIsSubsequence(c, before);
      StepSubsequence(c, Run(c, before), schedule[|schedule| - 1]);
    }
  }

  lemma StepSubsequence(c: Config, s: Sys, who: Who)
    requires Subsequence(s.history.delivered + s.shared.queue, s.history.emitted)
    ensures Subsequence(Step(c, s, who).history.delivered + Step(c, s, who).shared.queue,
                        Step(c, s, who).history.emitted)
  {
    match who
    case Producer => ProducerSubsequence(c, s);
    case Consumer => ConsumerSubsequence(c, s);
  }

  lemma ConsumerSubsequence(c: Config, s: Sys)
    requires Subsequence(s.history.delivered + s.shared.queue, s.history.emitted)
    ensures Subsequence(ConsumerStep(c, s).history.delivered + ConsumerStep(c, s).shared.queue,
                        ConsumerStep(c, s).history.emitted)
  {
    match s.consumer
    case Available =>
    case ReadDone =>
    case ClearFlag =>
    case Wait =>
    case Recheck =>
    case RecheckDone =>
    case Pop =>
      if s.shared.queue != [] {
        PopMoves(s);
      }
    case CheckLower =>
    case SetWithin =>
    case Ended =>
    case Failed =>
  }

  lemma ProducerSubsequence(c: Config, s: Sys)
    requires Subsequence(s.history.delivered + s.shared.queue, s.history.emitted)
    ensures Subsequence(ProducerStep(c, s).history.delivered + ProducerStep(c, s).shared.queue,
                        ProducerStep(c, s).history.emitted)
  {
    match s.producer
    case PushAfterSet => if s.script.pending != [] { PushSubsequence(c, s); }
    case Push => if s.script.pending != [] { PushSubsequence(c, s); }
    case _ =>
  }

  lemma PushSubsequence(c: Config, s: Sys)
    requires Subsequence(s.history.delivered + s.shared.queue, s.history.emitted) && s.script.pending != []
    ensures Subsequence(s.history.delivered + PushPending(c, s).shared.queue, PushPending(c, s).history.emitted)
  {
    SubsequenceGrows(s.history.delivered + s.shared.queue, s.history.emitted, s.script.pending[0]);
    assert s.history.delivered + s.shared.queue + [s.script.pending[0]]
        == s.history.delivered + (s.shared.queue + [s.script.pending[0]]);
  }

  /**
   Main result: whatever the sizes and the interleaving, the consumer has received triples that the
   sequential state queues too, in the same order; triples may be missing.
   */
  lemma DeliveredIsSubsequence(c: Config, schedule: seq<Who>)
    ensures Subsequence(Run(c, schedule).history.delivered, Sequential(c))
  {
    var s := Run(c, schedule);
    QueuedIsSubsequence(c, schedule);
    SubsequenceOfPrefix(s.history.delivered, s.history.delivered + s.shared.queue, s.history.emitted);
    EmittedIsPrefix(c, schedule);
    SubsequenceOfLonger(s.history.delivered, s.history.emitted, Sequential(c));
  }

  /** Main result: if the script fits, it has received a prefix of what the sequential state queues. */
  lemma DeliveredIsPrefix(c: Config, schedule: seq<Who>, most: nat)
    requires Fits(c, most)
    ensures Run(c, schedule).history.delivered <= Sequential(c)
  {
    NothingIsLost(c, schedule, most);
    EmittedIsPrefix(c, schedule);
  }

  /** An upper threshold that the queue cannot exceed: at its capacity, as built by default, or above all triples. */
  predicate OutOfReach(c: Config) {
    c.capacity <= c.upper || |Sequential(c)| <= c.upper
  }

  ghost predicate NeverSleeping(c: Config, s: Sys) {
    && |s.shared.queue| <= c.capacity && |s.shared.queue| <= |s.history.emitted|
    && s.producer != ClearWithin && s.producer != Sleep
  }

  /** With such a threshold the producer never sleeps. */
  lemma {:induction false} NeverSleeps(c: Config, schedule: seq<Who>)
    requires OutOfReach(c)
    ensures NeverSleeping(c, Run(c, schedule))
  {
    if schedule != [] {
      var before := schedule[..|schedule| - 1];
      NeverSleeps(c, before);
      EmittedIsPrefix(c, before);
      StepNeverSleeps(c, Run(c, before), schedule[|schedule| - 1]);
    }
  }

  lemma StepNeverSleeps(c: Config, s: Sys, who: Who)
    requires OutOfReach(c) && NeverSleeping(c, s) && |s.history.emitted| <= |Sequential(c)|
    ensures NeverSleeping(c, Step(c, s, who))
  {
  }
}
