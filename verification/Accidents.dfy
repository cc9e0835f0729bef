/** Runs of the file parser that end badly: for which documents and sizes each kind exists, one schedule each. */
module Accidents {
  import opened Terms
  import opened Interleaving
  import opened BackPressure
  import opened Waiting
  import opened Alone

  /** The consumer finds the empty queue of the start, and no end, and is about to clear the flag. */
  lemma AboutToClear(c: Config) returns (schedule: seq<Who>, s: Sys)
    ensures Run(c, schedule) == s && s.consumer == ClearFlag && !s.shared.within && HoldsFirst(c, s)
  {
    schedule, s := [], Start(c);
    schedule, s := Move(c, schedule, s, Consumer);
    schedule, s := Move(c, schedule, s, Consumer);
  }

  /** The producer goes as far as it can before the consumer clears the flag that announced it. */
  lemma ClearTooLate(c: Config) returns (schedule: seq<Who>, s: Sys)
    ensures Run(c, schedule) == s && !ProducerEnabled(s) && s.consumer == Wait && !s.shared.notEmpty && HoldsFirst(c, s)
  {
    schedule, s := AboutToClear(c);
    RunPosition(c, schedule);
    schedule, s := ProducerAlone(c, schedule, s);
    schedule, s := Move(c, schedule, s, Consumer);
  }

  /** Main result: whatever the document and the sizes, some run gets stuck. */
  lemma AnyRunCanStick(c: Config)
    ensures exists schedule :: Stuck(Run(c, schedule))
  {
    var schedule, s := ClearTooLate(c);
    assert Stuck(Run(c, schedule));
  }

  lemma AtTheEnd(c: Config, schedule: seq<Who>)
    requires Run(c, schedule).producer == Finished
    ensures Run(c, schedule).history.emitted == Sequential(c)
  {
    RunPosition(c, schedule);
    assert Run(c, schedule).history.emitted + [] == Run(c, schedule).history.emitted;
  }

  /** With a threshold out of reach, a run can get stuck when all is inserted and nothing has been delivered. */
  lemma StuckAtTheEnd(c: Config)
    requires OutOfReach(c)
    ensures exists schedule ::
              && Stuck(Run(c, schedule)) && Run(c, schedule).producer == Finished
              && Run(c, schedule).history.delivered == []
              && Run(c, schedule).shared.queue == FirstOf(Sequential(c), c.capacity)
  {
    var schedule, s := ClearTooLate(c);
    NeverSleeps(c, schedule);
    AtTheEnd(c, schedule);
    assert Stuck(Run(c, schedule));
  }

  /** With a threshold out of reach, the producer can insert everything before the consumer first looks. */
  lemma InsertAllFirst(c: Config) returns (schedule: seq<Who>, s: Sys)
    requires OutOfReach(c)
    ensures Run(c, schedule) == s && s.producer == Finished && s.consumer == Available && HoldsFirst(c, s)
    ensures s.history.emitted == Sequential(c)
  {
    RunPosition(c, []);
    schedule, s := ProducerAlone(c, [], Start(c));
    NeverSleeps(c, schedule);
    AtTheEnd(c, schedule);
  }

  /** What does not fit into the queue is dropped: all that can be left is its first triples. */
  lemma DefaultDropsTriples(c: Config)
    requires c.capacity <= c.upper
    ensures exists schedule ::
              && Run(c, schedule).producer == Finished && Run(c, schedule).history.delivered == []
              && Run(c, schedule).shared.queue == FirstOf(Sequential(c), c.capacity)
  {
    var schedule, s := InsertAllFirst(c);
    assert Run(c, schedule).producer == Finished;
  }

  /**
   Main result: with the upper threshold at the capacity, as built by default, no run loses a triple if and only if
   the queue can hold the whole document.
   */
  lemma DefaultKeepsExactly(c: Config)
    requires c.capacity <= c.upper
    ensures (forall schedule :: Lossless(Run(c, schedule))) <==> |Sequential(c)| <= c.capacity
  {
    if |Sequential(c)| <= c.capacity {
      forall schedule
        ensures Lossless(Run(c, schedule))
      {
        NothingIsLost(c, schedule, 0);
      }
    } else {
      var schedule, s := InsertAllFirst(c);
      assert |s.shared.queue| == c.capacity;
      assert !Lossless(Run(c, schedule));
    }
  }

  /** "No further triple" can be said before any triple was delivered: the document arrives between the two reads. */
  lemma EndComesEarly(c: Config)
    requires OutOfReach(c)
    ensures exists schedule ::
              && Run(c, schedule).consumer == Ended && Run(c, schedule).history.delivered == []
              && Run(c, schedule).shared.queue == FirstOf(Sequential(c), c.capacity)
  {
    var schedule: seq<Who>, s := [], Start(c);
    schedule, s := Move(c, schedule, s, Consumer);
    RunPosition(c, schedule);
    assert HoldsFirst(c, s);
    schedule, s := ProducerAlone(c, schedule, s);
    NeverSleeps(c, schedule);
    AtTheEnd(c, schedule);
    RunPosition(c, schedule);
    schedule, s := Move(c, schedule, s, Consumer);
    assert Run(c, schedule).consumer == Ended;
  }

  // ---- The internal error.

  /** The consumer may reach its wait before anything has been inserted. */
  lemma ConsumerSleepsFirst(c: Config) returns (schedule: seq<Who>, s: Sys)
    ensures Run(c, schedule) == s
    ensures s == Start(c).(consumer := Wait, history := Start(c).history)
  {
    schedule, s := [], Start(c);
    schedule, s := Move(c, schedule, s, Consumer);
    schedule, s := Move(c, schedule, s, Consumer);
    schedule, s := Move(c, schedule, s, Consumer);
  }

  /** Past empty statements the producer comes to its window, with the flag set and nothing in the queue. */
  lemma {:induction false} IntoTheWindow(c: Config, before: seq<Who>, s0: Sys) returns (schedule: seq<Who>, s: Sys)
    requires Run(c, before) == s0 && Position(c, s0) && s0.consumer == Wait && !s0.shared.notEmpty
    requires s0.shared.queue == [] && !s0.shared.done
    requires s0.producer in {ReadFlag, SetFlag, CheckSize, ReadFlagAtEnd, SetFlagAtEnd}
    ensures Run(c, schedule) == s && Window(s.producer) && s.consumer == Wait && s.shared.notEmpty
    ensures s.shared.queue == [] && !s.shared.done
    decreases |c.script| - s0.script.statement, |s0.script.pending|, Rank(s0.producer)
  {
    StepIsNearer(c, s0);
    ProducerPosition(c, s0);
    schedule, s := Move(c, before, s0, Producer);
    if !s.shared.notEmpty {
      schedule, s := IntoTheWindow(c, schedule, s);
    }
  }

  /** Main result: whatever the document and the sizes, some run ends in the internal error. */
  lemma AnyRunCanFail(c: Config)
    ensures exists schedule :: Run(c, schedule).consumer == Failed
  {
    var schedule, s := ConsumerSleepsFirst(c);
    RunPosition(c, schedule);
    schedule, s := IntoTheWindow(c, schedule, s);
    schedule, s := Move(c, schedule, s, Consumer);
    schedule, s := Move(c, schedule, s, Consumer);
    schedule, s := Move(c, schedule, s, Consumer);
    assert Run(c, schedule).consumer == Failed;
  }

  // ---- A wake-up lost although the queue is drained.

  /** The producer inserts one triple, whichever way it finds the flag. */
  lemma InsertOne(c: Config, schedule: seq<Who>, s: Sys) returns (longer: seq<Who>, r: Sys)
    requires Run(c, schedule) == s && s.producer == ReadFlag && s.script.pending != [] && !HoldsFlagMutex(s.consumer)
    ensures Run(c, longer) == r && r.consumer == s.consumer && r.shared.notEmpty
    ensures r.shared.queue
         == if |s.shared.queue| < c.capacity then s.shared.queue + [s.script.pending[0]] else s.shared.queue
    ensures r.shared.within == s.shared.within && r.shared.done == s.shared.done
    ensures r.script == Script(s.script.statement, s.script.pending[1..])
    ensures r.producer == if |s.script.pending| == 1 then CheckSize else ReadFlag
    ensures r.history.delivered == s.history.delivered
    ensures r.history.emitted == s.history.emitted + [s.script.pending[0]]
  {
    longer, r := Move(c, schedule, s, Producer);
    if !s.shared.notEmpty {
      longer, r := Move(c, longer, r, Producer);
    }
    longer, r := Move(c, longer, r, Producer);
  }

  /** Two triples are in the queue and the producer is about to clear its flag. */
  lemma FillTwo(c: Config, t: Triple, u: Triple) returns (schedule: seq<Who>, s: Sys)
    requires c.capacity >= 2 && c.upper == 1 && c.script == [[t, u]]
    ensures Run(c, schedule) == s && s.producer == ClearWithin && s.consumer == Available
    ensures s.shared.queue == [t, u] && !s.shared.done
  {
    schedule, s := [], Start(c);
    schedule, s := InsertOne(c, schedule, s);
    schedule, s := InsertOne(c, schedule, s);
    schedule, s := Move(c, schedule, s, Producer);
  }

  /** The consumer takes one triple and comes back for the next. */
  lemma DrainOne(c: Config, schedule: seq<Who>, s: Sys) returns (longer: seq<Who>, r: Sys)
    requires Run(c, schedule) == s && s.consumer == Available && s.shared.queue != []
    ensures Run(c, longer) == r && r.consumer == Available && r.shared.queue == s.shared.queue[1..]
    ensures r.producer == s.producer && r.script == s.script && r.shared.done == s.shared.done
    ensures r.shared.within == (s.shared.within || |s.shared.queue| - 1 < c.lower)
    ensures r.history.emitted == s.history.emitted
    ensures r.history.delivered == s.history.delivered + [s.shared.queue[0]]
  {
    longer, r := Move(c, schedule, s, Consumer);
    longer, r := Move(c, longer, r, Consumer);
    longer, r := Move(c, longer, r, Consumer);
    if r.consumer == SetWithin {
      longer, r := Move(c, longer, r, Consumer);
    }
  }

  /** With the queue empty, the producer clears its flag and sleeps, and the consumer waits for a triple. */
  lemma BothSleep(c: Config, before: seq<Who>, s0: Sys) returns (schedule: seq<Who>, s: Sys)
    requires Run(c, before) == s0 && s0.producer == ClearWithin && s0.consumer == Available
    requires s0.shared.queue == [] && !s0.shared.done
    ensures Run(c, schedule) == s && s.producer == Sleep && s.consumer == Wait
    ensures s.shared.queue == [] && !s.shared.within && !s.shared.notEmpty
  {
    schedule, s := Move(c, before, s0, Producer);
    schedule, s := Move(c, schedule, s, Consumer);
    schedule, s := Move(c, schedule, s, Consumer);
    schedule, s := Move(c, schedule, s, Consumer);
  }

  /** The consumer drains the queue and sets the flag just before the producer clears it and sleeps. */
  lemma StuckAsleep(c: Config, t: Triple, u: Triple)
    requires c.capacity >= 2 && c.upper == 1 && c.lower == 1 && c.script == [[t, u]]
    ensures exists schedule ::
              Stuck(Run(c, schedule)) && Run(c, schedule).producer == Sleep && Run(c, schedule).shared.queue == []
  {
    var schedule, s := FillTwo(c, t, u);
    schedule, s := DrainOne(c, schedule, s);
    schedule, s := DrainOne(c, schedule, s);
    schedule, s := BothSleep(c, schedule, s);
    assert Stuck(Run(c, schedule));
  }

  // ---- The bound on the queue.

  /** The rest of a statement is inserted while the consumer waits elsewhere. */
  lemma {:induction false} InsertPending(c: Config, before: seq<Who>, s0: Sys) returns (schedule: seq<Who>, s: Sys)
    requires Run(c, before) == s0 && s0.producer == ReadFlag && s0.script.pending != [] && !HoldsFlagMutex(s0.consumer)
    requires |s0.shared.queue| + |s0.script.pending| <= c.capacity
    ensures Run(c, schedule) == s && s.producer == CheckSize && s.consumer == s0.consumer
    ensures |s.shared.queue| == |s0.shared.queue| + |s0.script.pending|
    ensures s.script.statement == s0.script.statement
    decreases |s0.script.pending|
  {
    schedule, s := InsertOne(c, before, s0);
    if |s0.script.pending| > 1 {
      schedule, s := InsertPending(c, schedule, s);
    }
  }

  /** The next statement, from a queue that is not above upper or after a wake-up. */
  lemma NextWhole(c: Config, before: seq<Who>, s0: Sys) returns (schedule: seq<Who>, s: Sys)
    requires Run(c, before) == s0 && !HoldsFlagMutex(s0.consumer) && s0.script.statement < |c.script|
    requires var next := c.script[s0.script.statement];
             next != [] && |s0.shared.queue| + |next| <= c.capacity
    requires (s0.producer == CheckSize && |s0.shared.queue| <= c.upper) || (s0.producer == Sleep && s0.shared.within)
    ensures Run(c, schedule) == s && s.producer == CheckSize && s.consumer == s0.consumer
    ensures |s.shared.queue| == |s0.shared.queue| + |c.script[s0.script.statement]|
    ensures s.script.statement == s0.script.statement + 1
  {
    schedule, s := Move(c, before, s0, Producer);
    schedule, s := InsertPending(c, schedule, s);
  }

  /** Statements of one triple each, up to the upper threshold. */
  lemma {:induction false} FillUp(c: Config, before: seq<Who>, s0: Sys, n: nat) returns (schedule: seq<Who>, s: Sys)
    requires Run(c, before) == s0 && s0.producer == CheckSize && !HoldsFlagMutex(s0.consumer)
    requires s0.script.statement + n <= |c.script| && |s0.shared.queue| + n <= c.upper <= c.capacity
    requires forall i :: s0.script.statement <= i < s0.script.statement + n ==> |c.script[i]| == 1
    ensures Run(c, schedule) == s && s.producer == CheckSize && s.consumer == s0.consumer
    ensures |s.shared.queue| == |s0.shared.queue| + n && s.script.statement == s0.script.statement + n
    decreases n
  {
    schedule, s := before, s0;
    if n > 0 {
      schedule, s := NextWhole(c, schedule, s);
      schedule, s := FillUp(c, schedule, s, n - 1);
    }
  }

  /** The consumer has taken the only triple, found few, and is about to say so. */
  lemma TakeOnly(c: Config, before: seq<Who>, s0: Sys) returns (schedule: seq<Who>, s: Sys)
    requires Run(c, before) == s0 && s0.consumer == Available && |s0.shared.queue| == 1 && c.lower > 0
    ensures Run(c, schedule) == s && s.consumer == SetWithin && s.shared.queue == []
    ensures s.producer == s0.producer && s.script == s0.script
    ensures s.history.emitted == s0.history.emitted
    ensures s.history.delivered == s0.history.delivered + s0.shared.queue
  {
    schedule, s := Move(c, before, s0, Consumer);
    schedule, s := Move(c, schedule, s, Consumer);
    schedule, s := Move(c, schedule, s, Consumer);
  }

  /** Above upper the producer sleeps; the consumer's late word wakes it at once. */
  lemma WakeLate(c: Config, before: seq<Who>, s0: Sys) returns (schedule: seq<Who>, s: Sys)
    requires Run(c, before) == s0 && s0.producer == CheckSize && s0.consumer == SetWithin && |s0.shared.queue| > c.upper
    ensures Run(c, schedule) == s && s.producer == Sleep && s.shared.within && s.consumer == Available
    ensures s.shared.queue == s0.shared.queue && s.script == s0.script
    ensures s.history == s0.history
  {
    schedule, s := Move(c, before, s0, Producer);
    schedule, s := Move(c, schedule, s, Producer);
    schedule, s := Move(c, schedule, s, Consumer);
  }

  function Copies(t: Triple, n: nat): (r: seq<Triple>)
    ensures |r| == n
  {
    seq(n, _ => t)
  }

  /** One triple, then as many single ones as upper says, then two statements of the greatest size. */
  function Filling(t: Triple, upper: nat, most: nat): seq<seq<Triple>> {
    seq(upper + 1, _ => [t]) + [Copies(t, most), Copies(t, most)]
  }

  lemma FillingFills(c: Config, t: Triple, most: nat) returns (schedule: seq<Who>, s: Sys)
    requires c.lower > 0 && most > 0 && c.upper + 2 * most <= c.capacity && c.script == Filling(t, c.upper, most)
    ensures Run(c, schedule) == s && |s.shared.queue| == c.upper + 2 * most
  {
    schedule, s := [], Start(c);
    schedule, s := InsertPending(c, schedule, s);
    schedule, s := TakeOnly(c, schedule, s);
    schedule, s := FillUp(c, schedule, s, c.upper);
    schedule, s := NextWhole(c, schedule, s);
    schedule, s := WakeLate(c, schedule, s);
    schedule, s := NextWhole(c, schedule, s);
  }

  /** Main result: the bound on the queue is attained, for any thresholds that ever wake the producer and any size. */
  lemma BoundIsReached(capacity: nat, upper: nat, lower: nat, most: nat, t: Triple)
    requires 0 < lower <= upper && most > 0 && upper + 2 * most <= capacity
    ensures exists script, schedule ::
              && StatementsAtMost(Config(capacity, upper, lower, script), most)
              && |Run(Config(capacity, upper, lower, script), schedule).shared.queue| == upper + 2 * most
  {
    var c := Config(capacity, upper, lower, Filling(t, upper, most));
    var schedule, s := FillingFills(c, t, most);
    assert StatementsAtMost(c, most) && |Run(c, schedule).shared.queue| == upper + 2 * most;
  }
}
