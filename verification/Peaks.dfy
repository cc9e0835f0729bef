/**
 How much room a parser needs: the longest the queue can get while each statement is inserted, and so exactly which
 documents and sizes are safe from loss in every interleaving.
 */
module Peaks {
  import opened Terms
  import opened Interleaving
  import opened BackPressure
  import opened Alone
  import opened Accidents
  import opened Endings

  function Min(a: int, b: int): int {
    if a <= b then a else b
  }

  function Max(a: int, b: int): int {
    if a >= b then a else b
  }

  /** The triples of the first n statements, counted. */
  function Total(c: Config, n: nat): nat
    requires n <= |c.script|
  {
    |Flatten(c.script, n)|
  }

  function SizeOf(c: Config, n: nat): nat
    requires 0 < n <= |c.script|
  {
    |c.script[n - 1]|
  }

  /** How long the queue can be when statement n begins because it is not above upper. */
  function CalmStart(c: Config, n: nat): int
    requires 0 < n <= |c.script|
  {
    Min(c.upper, Total(c, n - 1))
  }

  /**
   How long it can be when statement n begins after a late wake-up: the statement before it began at most at upper,
   and at least one triple had left the queue.
   */
  function LateStart(c: Config, n: nat): int
    requires 0 < n <= |c.script|
  {
    if c.lower > 0 && n >= 2 then Min(c.upper + SizeOf(c, n - 1), Total(c, n - 1) - 1) else 0
  }

  /** The room that statement n needs. */
  function Peak(c: Config, n: nat): int
    requires 0 < n <= |c.script|
  {
    SizeOf(c, n) + Max(CalmStart(c, n), LateStart(c, n))
  }

  // ---- No run needs more.

  /** The producer's part: what is pending belongs to the current statement. */
  ghost predicate InStatement(c: Config, s: Sys) {
    && s.script.statement <= |c.script|
    && (s.script.statement == 0 ==> Ending(s.producer) && s.script.pending == [])
    && (s.script.statement > 0 ==> |s.script.pending| <= SizeOf(c, s.script.statement))
  }

  /** The queue holds at most what is inserted and not delivered; a pop comes before every word of the consumer. */
  ghost predicate Counted(c: Config, s: Sys) {
    && |s.history.delivered| + |s.shared.queue| <= |s.history.emitted|
    && (s.consumer == CheckLower ==> s.history.delivered != [])
    && (s.consumer == SetWithin || s.shared.within ==> c.lower > 0 && s.history.delivered != [])
  }

  ghost predicate Within(c: Config, s: Sys)
    requires 0 < s.script.statement <= |c.script|
  {
    var n := s.script.statement;
    && |s.shared.queue| + |s.script.pending| <= Peak(c, n)
    && (s.consumer == SetWithin ==> |s.shared.queue| + |s.script.pending| <= c.upper + SizeOf(c, n))
    && (s.producer == Sleep && s.shared.within ==> |s.shared.queue| <= c.upper + SizeOf(c, n))
    && (s.producer == Sleep && s.shared.within && s.consumer == SetWithin ==> |s.shared.queue| < c.lower)
  }

  ghost predicate PeakInvariant(c: Config, s: Sys) {
    InStatement(c, s) && Counted(c, s) && (s.script.statement > 0 ==> Within(c, s))
  }

  lemma StartPeak(c: Config)
    ensures PeakInvariant(c, Start(c))
  {
  }

  lemma BeginInStatement(c: Config, s: Sys)
    requires Position(c, s) && InStatement(c, s) && s.script.pending == []
    ensures InStatement(c, NextStatement(c, s))
  {
  }

  lemma StepInStatement(c: Config, s: Sys)
    requires Position(c, s) && InStatement(c, s)
    ensures InStatement(c, ProducerStep(c, s))
  {
    match s.producer
    case CheckSize => BeginInStatement(c, s);
    case Sleep => BeginInStatement(c, s);
    case _ =>
  }

  lemma StepCounted(c: Config, s: Sys, who: Who)
    requires Position(c, s) && Counted(c, s)
    ensures Counted(c, Step(c, s, who))
  {
  }

  /** A new statement begins at the start the two cases allow. */
  lemma BeginWithin(c: Config, s: Sys)
    requires c.lower <= c.upper && Position(c, s) && PeakInvariant(c, s) && s.script.pending == []
    requires s.script.statement > 0
    requires |s.shared.queue| <= c.upper || (s.producer == Sleep && s.shared.within)
    ensures s.script.statement < |c.script| ==> Within(c, NextStatement(c, s))
  {
    InsertedBetween(c, s);
    if s.script.statement < |c.script| {
      StartIsAllowed(c, s.script.statement + 1, |s.shared.queue|, |s.history.delivered|, |s.shared.queue| <= c.upper);
      NextIsWithin(c, s, NextStatement(c, s));
    }
  }

  /** The queue before statement n, when that many triples were delivered. */
  lemma StartIsAllowed(c: Config, n: nat, queued: nat, delivered: nat, calm: bool)
    requires 1 < n <= |c.script| && delivered + queued <= Total(c, n - 1)
    requires if calm then queued <= c.upper
             else c.lower > 0 && delivered > 0 && queued <= c.upper + SizeOf(c, n - 1)
    ensures queued + SizeOf(c, n) <= Peak(c, n)
  {
  }

  lemma NextIsWithin(c: Config, s: Sys, r: Sys)
    requires c.lower <= c.upper && 0 < r.script.statement <= |c.script|
    requires |s.shared.queue| + SizeOf(c, r.script.statement) <= Peak(c, r.script.statement)
    requires |r.script.pending| == SizeOf(c, r.script.statement)
    requires r.shared == s.shared && r.consumer == s.consumer && r.producer != Sleep
    requires s.consumer == SetWithin ==> |s.shared.queue| <= c.upper
    ensures Within(c, r)
  {
  }

  /** Between two statements everything begun is inserted. */
  lemma InsertedBetween(c: Config, s: Sys)
    requires Position(c, s) && s.script.pending == []
    ensures s.script.statement <= |c.script| && |s.history.emitted| == Total(c, s.script.statement)
  {
    assert s.history.emitted + [] == s.history.emitted;
  }

  lemma ConsumerWithin(c: Config, s: Sys)
    requires c.lower <= c.upper && Position(c, s) && PeakInvariant(c, s) && s.script.statement > 0
    requires ConsumerEnabled(s)
    ensures Within(c, ConsumerStep(c, s))
  {
  }

  lemma PushWithin(c: Config, s: Sys)
    requires PeakInvariant(c, s) && s.script.statement > 0 && s.script.pending != []
    ensures Within(c, PushPending(c, s))
  {
  }

  lemma ProducerWithin(c: Config, s: Sys)
    requires c.lower <= c.upper && Position(c, s) && PeakInvariant(c, s) && s.script.statement > 0
    requires ProducerEnabled(s)
    ensures Within(c, ProducerStep(c, s))
  {
    match s.producer
    case CheckSize => if |s.shared.queue| <= c.upper { BeginWithin(c, s); }
    case Sleep => BeginWithin(c, s);
    case PushAfterSet => PushWithin(c, s);
    case Push => PushWithin(c, s);
    case _ =>
  }

  lemma StepPeak(c: Config, s: Sys, who: Who)
    requires c.lower <= c.upper && Position(c, s) && PeakInvariant(c, s)
    ensures PeakInvariant(c, Step(c, s, who))
  {
    StepInStatement(c, s);
    StepCounted(c, s, who);
    if s.script.statement > 0 {
      match who
      case Producer => if ProducerEnabled(s) { ProducerWithin(c, s); }
      case Consumer => if ConsumerEnabled(s) { ConsumerWithin(c, s); }
    }
  }

  /** In every interleaving the queue, with what is pending, stays within the room its statement needs. */
  lemma {:induction false} RunPeak(c: Config, schedule: seq<Who>)
    requires c.lower <= c.upper
    ensures PeakInvariant(c, Run(c, schedule))
  {
    if schedule == [] {
      StartPeak(c);
    } else {
      var before := schedule[..|schedule| - 1];
      RunPeak(c, before);
      RunPosition(c, before);
      StepPeak(c, Run(c, before), schedule[|schedule| - 1]);
    }
  }

  ghost predicate RoomForAll(c: Config) {
    forall n :: 0 < n <= |c.script| ==> Peak(c, n) <= c.capacity
  }

  lemma {:induction false} RoomKeepsAll(c: Config, schedule: seq<Who>)
    requires c.lower <= c.upper && RoomForAll(c)
    ensures Lossless(Run(c, schedule))
  {
    if schedule != [] {
      var before := schedule[..|schedule| - 1];
      RoomKeepsAll(c, before);
      RunPosition(c, before);
      RunPeak(c, before);
      StepLossless(c, Run(c, before), schedule[|schedule| - 1]);
    }
  }

  // ---- Some run needs it.

  ghost predicate KeepsAll(c: Config) {
    forall schedule :: Lossless(Run(c, schedule))
  }

  /** What is in the queue, counted, when nothing can be lost. */
  lemma QueueIs(c: Config, schedule: seq<Who>, s: Sys)
    requires KeepsAll(c) && Run(c, schedule) == s
    ensures |s.shared.queue| == |s.history.emitted| - |s.history.delivered|
  {
    assert Lossless(Run(c, schedule));
  }

  lemma {:induction false} QueueFits(c: Config, schedule: seq<Who>)
    ensures |Run(c, schedule).shared.queue| <= c.capacity
  {
    if schedule != [] {
      QueueFits(c, schedule[..|schedule| - 1]);
      StepFits(c, Run(c, schedule[..|schedule| - 1]), schedule[|schedule| - 1]);
    }
  }

  lemma StepFits(c: Config, s: Sys, who: Who)
    requires |s.shared.queue| <= c.capacity
    ensures |Step(c, s, who).shared.queue| <= c.capacity
  {
  }

  lemma TotalGrows(c: Config, n: nat, m: nat)
    requires n <= m <= |c.script|
    ensures Total(c, n) <= Total(c, m) <= |Sequential(c)|
    ensures 0 < n ==> Total(c, n) == Total(c, n - 1) + SizeOf(c, n)
  {
    FlattenGrows(c.script, n, m);
    FlattenGrows(c.script, m, |c.script|);
  }

  lemma CalmStep(c: Config, s: Sys)
    requires s.producer == CheckSize && |s.shared.queue| <= c.upper && s.script.statement < |c.script|
    ensures var r := Step(c, s, Producer);
            && r.consumer == s.consumer && r.history == s.history && r.script.statement == s.script.statement + 1
            && (r.producer == CheckSize || r.producer == ReadFlag)
  {
  }

  /** The next statement begins at a queue that is not above upper. */
  lemma BeginCalm(c: Config, before: seq<Who>, s0: Sys, n: nat) returns (schedule: seq<Who>, s: Sys)
    requires KeepsAll(c) && Run(c, before) == s0 && s0.producer == CheckSize && s0.script.statement < n <= |c.script|
    requires Total(c, n - 1) - |s0.history.delivered| <= c.upper
    ensures Run(c, schedule) == s && s.consumer == s0.consumer && s.history == s0.history
    ensures s.script.statement == s0.script.statement + 1 && (s.producer == CheckSize || s.producer == ReadFlag)
  {
    RunPosition(c, before);
    InsertedBetween(c, s0);
    TotalGrows(c, s0.script.statement, n - 1);
    QueueIs(c, before, s0);
    CalmStep(c, s0);
    schedule, s := Move(c, before, s0, Producer);
  }

  /** The producer alone inserts up to the end of statement n. */
  lemma {:induction false} GrowTo(c: Config, before: seq<Who>, s0: Sys, n: nat) returns (schedule: seq<Who>, s: Sys)
    requires KeepsAll(c) && Run(c, before) == s0 && !HoldsFlagMutex(s0.consumer)
    requires s0.producer == CheckSize || s0.producer == ReadFlag
    requires s0.script.statement <= n && 0 < n <= |c.script|
    requires s0.script.statement < n ==> Total(c, n - 1) - |s0.history.delivered| <= c.upper
    ensures Run(c, schedule) == s && s.producer == CheckSize && s.consumer == s0.consumer
    ensures s.script.statement == n && |s.shared.queue| == Total(c, n) - |s0.history.delivered|
    ensures s.history.delivered == s0.history.delivered
    decreases n - s0.script.statement, |s0.script.pending|
  {
    schedule, s := before, s0;
    RunPosition(c, before);
    if s0.producer == ReadFlag {
      schedule, s := InsertOne(c, before, s0);
      schedule, s := GrowTo(c, schedule, s, n);
    } else if s0.script.statement < n {
      schedule, s := BeginCalm(c, before, s0, n);
      schedule, s := GrowTo(c, schedule, s, n);
    } else {
      InsertedBetween(c, s0);
      QueueIs(c, before, s0);
    }
  }

  /** A triple of the first n statements is still pending: no later statement has begun. */
  lemma StatementSoFar(c: Config, s: Sys, n: nat)
    requires Position(c, s) && InStatement(c, s) && n <= |c.script| && |s.history.emitted| < Total(c, n)
    ensures s.script.statement <= n
  {
    var k := s.script.statement;
    assert |s.history.emitted| + |s.script.pending| == Total(c, k);
    if k > n {
      TotalGrows(c, k, |c.script|);
      TotalGrows(c, n, k - 1);
    }
  }

  /** In step up to the first p triples, which lie in the first n statements. */
  lemma PassUpTo(c: Config, p: nat, n: nat) returns (schedule: seq<Who>, s: Sys)
    requires c.lower <= c.upper && n <= |c.script| && p < Total(c, n) && (p > 0 ==> c.capacity > 0)
    ensures Run(c, schedule) == s && InStep(s) && s.producer == ReadFlag && s.script.pending != []
    ensures |s.history.emitted| == p && s.script.statement <= n
  {
    TotalGrows(c, n, n);
    BeginsInStep(c);
    assert Start(c).history.emitted == [];
    schedule, s := PassFirst(c, [], Start(c), p);
    RunPosition(c, schedule);
    RunPeak(c, schedule);
    StatementSoFar(c, s, n);
  }

  lemma SomeCapacity(c: Config)
    requires KeepsAll(c) && c.lower <= c.upper && Sequential(c) != []
    ensures c.capacity > 0
  {
    var schedule, s := PassUpTo(c, 0, |c.script|);
    schedule, s := InsertOne(c, schedule, s);
    QueueIs(c, schedule, s);
    QueueFits(c, schedule);
  }

  lemma CalmIsReached(c: Config, n: nat)
    requires KeepsAll(c) && c.lower <= c.upper && 0 < n <= |c.script|
    ensures SizeOf(c, n) + CalmStart(c, n) <= c.capacity
  {
    var p := Max(0, Total(c, n - 1) - c.upper);
    TotalGrows(c, n, n);
    if p < Total(c, n) {
      SomeCapacity(c);
      var schedule, s := PassUpTo(c, p, n);
      schedule, s := GrowTo(c, schedule, s, n);
      QueueFits(c, schedule);
    }
  }

  /** One triple more, and the consumer that took it is about to say that few are left. */
  lemma TakeNext(c: Config, before: seq<Who>, s0: Sys) returns (schedule: seq<Who>, s: Sys)
    requires Run(c, before) == s0 && InStep(s0) && s0.producer == ReadFlag && s0.script.pending != []
    requires c.lower > 0 && c.capacity > 0
    ensures Run(c, schedule) == s && s.consumer == SetWithin && |s.history.delivered| == |s0.history.emitted| + 1
    ensures s.script.statement == s0.script.statement && (s.producer == CheckSize || s.producer == ReadFlag)
  {
    schedule, s := InsertOne(c, before, s0);
    schedule, s := TakeOnly(c, schedule, s);
  }

  /** The producer falls asleep above upper, is woken late and goes on with the next statement. */
  lemma GrowAfterWake(c: Config, before: seq<Who>, s0: Sys) returns (schedule: seq<Who>, s: Sys)
    requires KeepsAll(c) && Run(c, before) == s0 && s0.producer == CheckSize && s0.consumer == SetWithin
    requires |s0.shared.queue| > c.upper && s0.script.statement < |c.script|
    ensures Run(c, schedule) == s && |s.shared.queue| == Total(c, s0.script.statement + 1) - |s0.history.delivered|
  {
    schedule, s := WakeLate(c, before, s0);
    schedule, s := Move(c, schedule, s, Producer);
    schedule, s := GrowTo(c, schedule, s, s0.script.statement + 1);
  }

  /** The consumer takes p triples and stays behind, about to say that few are left, while statement n is inserted. */
  lemma GrowUnsaid(c: Config, p: nat, n: nat) returns (schedule: seq<Who>, s: Sys)
    requires KeepsAll(c) && 0 < c.lower <= c.upper && 0 < n <= |c.script|
    requires 0 < p <= Total(c, n) && Total(c, n - 1) - p <= c.upper
    ensures Run(c, schedule) == s && s.producer == CheckSize && s.consumer == SetWithin && s.script.statement == n
    ensures |s.history.delivered| == p && |s.shared.queue| == Total(c, n) - p
  {
    TotalGrows(c, n, n);
    SomeCapacity(c);
    schedule, s := PassUpTo(c, p - 1, n);
    schedule, s := TakeNext(c, schedule, s);
    schedule, s := GrowTo(c, schedule, s, n);
  }

  lemma LateIsReached(c: Config, n: nat)
    requires KeepsAll(c) && 0 < c.lower <= c.upper && 2 <= n <= |c.script|
    requires SizeOf(c, n - 1) > 0 && Total(c, n - 1) - 1 > c.upper
    ensures SizeOf(c, n) + LateStart(c, n) <= c.capacity
  {
    var p := Max(1, Total(c, n - 2) - c.upper);
    TotalGrows(c, n, n);
    TotalGrows(c, n - 1, n);
    var schedule, s := GrowUnsaid(c, p, n - 1);
    schedule, s := GrowAfterWake(c, schedule, s);
    QueueFits(c, schedule);
  }

  lemma PeakIsReached(c: Config, n: nat)
    requires KeepsAll(c) && c.lower <= c.upper && 0 < n <= |c.script|
    ensures Peak(c, n) <= c.capacity
  {
    CalmIsReached(c, n);
    if c.lower > 0 && n >= 2 && SizeOf(c, n - 1) > 0 && Total(c, n - 1) - 1 > c.upper {
      LateIsReached(c, n);
    }
  }

  /**
   Main result, for all sizes and thresholds that a parser can be built with: no run loses a triple if and only if the
   queue has the room that each statement needs.
   */
  lemma KeepsAllExactly(c: Config)
    requires c.lower <= c.upper
    ensures KeepsAll(c) <==> RoomForAll(c)
  {
    if RoomForAll(c) {
      forall schedule
        ensures Lossless(Run(c, schedule))
      {
        RoomKeepsAll(c, schedule);
      }
    }
    if KeepsAll(c) {
      forall n | 0 < n <= |c.script|
        ensures Peak(c, n) <= c.capacity
      {
        PeakIsReached(c, n);
      }
      assert RoomForAll(c);
    }
  }
}
