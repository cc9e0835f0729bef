/** What the producer does when only it moves, from any point of any run, and what follows for every document. */
module Alone {
  import opened Terms
  import opened Interleaving

  /** Extends a schedule by one turn. */
  lemma Move(c: Config, schedule: seq<Who>, s: Sys, who: Who) returns (longer: seq<Who>, r: Sys)
    requires Run(c, schedule) == s
    ensures longer == schedule + [who] && r == Step(c, s, who) && Run(c, longer) == r
  {
    longer, r := schedule + [who], Step(c, s, who);
    RunOne(c, schedule, who);
  }

  /** How far a program point is from the end of a statement, or of the script. */
  function Rank(point: ProducerPoint): nat {
    match point
    case ReadFlag => 3
    case SetFlag => 2
    case PushAfterSet => 1
    case Push => 1
    case CheckSize => 9
    case ClearWithin => 8
    case Sleep => 7
    case ReadFlagAtEnd => 6
    case SetFlagAtEnd => 5
    case DoneAfterSet => 4
    case Done => 4
    case Finished => 0
  }

  /** Statements still to begin, triples still to insert, and the way to go at this point. */
  ghost predicate Nearer(c: Config, s: Sys, r: Sys) {
    || r.script.statement > s.script.statement
    || (r.script.statement == s.script.statement && |r.script.pending| < |s.script.pending|)
    || (r.script.statement == s.script.statement && |r.script.pending| == |s.script.pending|
        && Rank(r.producer) < Rank(s.producer))
  }

  lemma StepIsNearer(c: Config, s: Sys)
    requires Position(c, s) && s.producer != Finished
    ensures Nearer(c, s, ProducerStep(c, s))
  {
  }

  /** The queue holds the first triples inserted, as many as fit. */
  ghost predicate HoldsFirst(c: Config, s: Sys) {
    s.history.delivered == [] && s.shared.queue == FirstOf(s.history.emitted, c.capacity)
  }

  function FirstOf(triples: seq<Triple>, n: nat): seq<Triple> {
    if |triples| <= n then triples else triples[..n]
  }

  lemma StepHoldsFirst(c: Config, s: Sys)
    requires HoldsFirst(c, s)
    ensures HoldsFirst(c, ProducerStep(c, s))
  {
    match s.producer
    case PushAfterSet => if s.script.pending != [] { PushHoldsFirst(c, s); }
    case Push => if s.script.pending != [] { PushHoldsFirst(c, s); }
    case _ =>
  }

  lemma PushHoldsFirst(c: Config, s: Sys)
    requires HoldsFirst(c, s) && s.script.pending != []
    ensures HoldsFirst(c, PushPending(c, s))
  {
  }

  /** What only the consumer changes, while the producer has not been told that it may go on. */
  ghost predicate Unattended(c: Config, s: Sys, r: Sys) {
    && r.consumer == s.consumer && !r.shared.within
    && r.history.delivered == s.history.delivered
    && (HoldsFirst(c, s) ==> HoldsFirst(c, r))
  }

  lemma StepUnattended(c: Config, s: Sys)
    requires Position(c, s) && ProducerEnabled(s) && !s.shared.within
    ensures Unattended(c, s, ProducerStep(c, s)) && Position(c, ProducerStep(c, s))
  {
    ProducerPosition(c, s);
    if HoldsFirst(c, s) {
      StepHoldsFirst(c, s);
    }
  }

  /** Left alone, the producer reaches a point where it cannot move: asleep, or past its last action. */
  lemma {:induction false} ProducerAlone(c: Config, schedule: seq<Who>, s: Sys) returns (longer: seq<Who>, r: Sys)
    requires Run(c, schedule) == s && Position(c, s) && !HoldsFlagMutex(s.consumer) && !s.shared.within
    ensures Run(c, longer) == r && !ProducerEnabled(r) && Unattended(c, s, r)
    decreases |c.script| - s.script.statement, |s.script.pending|, Rank(s.producer)
  {
    if ProducerEnabled(s) {
      StepIsNearer(c, s);
      StepUnattended(c, s);
      longer, r := Move(c, schedule, s, Producer);
      longer, r := ProducerAlone(c, longer, r);
    } else {
      longer, r := schedule, s;
    }
  }

  // ---- A consumer asleep on a cleared flag: whether anything can still wake it.

  function SizeAfterPush(c: Config, s: Sys): nat {
    |s.shared.queue| + if |s.shared.queue| < c.capacity then 1 else 0
  }

  /** The producer, where it stands, ends or goes to sleep before it would set the flag again. */
  predicate SetsNoMore(c: Config, s: Sys) {
    match s.producer
    case ReadFlag => false
    case SetFlag => false
    case PushAfterSet => |s.script.pending| == 1 && SizeAfterPush(c, s) > c.upper
    case Push => |s.script.pending| == 1 && SizeAfterPush(c, s) > c.upper
    case CheckSize => |s.shared.queue| > c.upper
    case ClearWithin => true
    case Sleep => s.shared.within ==> NextIsEmpty(c, s) && |s.shared.queue| > c.upper
    case ReadFlagAtEnd => false
    case SetFlagAtEnd => false
    case DoneAfterSet => true
    case Done => true
    case Finished => true
  }

  predicate NextIsEmpty(c: Config, s: Sys) {
    s.script.statement < |c.script| && c.script[s.script.statement] == []
  }

  ghost predicate Asleep(s: Sys) {
    s.consumer == Wait && !s.shared.notEmpty
  }

  lemma StaysAsleep(c: Config, s: Sys, who: Who)
    requires Position(c, s) && Asleep(s) && SetsNoMore(c, s)
    ensures Asleep(Step(c, s, who)) && SetsNoMore(c, Step(c, s, who))
  {
  }

  /** The state after further turns. */
  function Onward(c: Config, s: Sys, more: seq<Who>): Sys
    decreases |more|
  {
    if more == [] then s else Onward(c, Step(c, s, more[0]), more[1..])
  }

  lemma {:induction false} RunOnward(c: Config, schedule: seq<Who>, more: seq<Who>)
    ensures Run(c, schedule + more) == Onward(c, Run(c, schedule), more)
    decreases |more|
  {
    if more == [] {
      assert schedule + more == schedule;
    } else {
      RunOne(c, schedule, more[0]);
      RunOnward(c, schedule + [more[0]], more[1..]);
      assert schedule + [more[0]] + more[1..] == schedule + more;
    }
  }

  lemma {:induction false} SleepsOn(c: Config, s: Sys, more: seq<Who>)
    requires Position(c, s) && Asleep(s) && SetsNoMore(c, s)
    ensures Asleep(Onward(c, s, more))
    decreases |more|
  {
    if more != [] {
      StepPosition(c, s, more[0]);
      StaysAsleep(c, s, more[0]);
      SleepsOn(c, Step(c, s, more[0]), more[1..]);
    }
  }

  lemma StepTowardsSet(c: Config, s: Sys)
    requires Position(c, s) && Asleep(s) && !SetsNoMore(c, s)
    ensures ProducerEnabled(s)
    ensures var r := ProducerStep(c, s);
            r.consumer == Wait && (!r.shared.notEmpty ==> !SetsNoMore(c, r))
  {
  }

  lemma {:induction false} WillWake(c: Config, s: Sys) returns (more: seq<Who>)
    requires Position(c, s) && Asleep(s) && !SetsNoMore(c, s)
    ensures Onward(c, s, more).consumer == Recheck
    decreases |c.script| - s.script.statement, |s.script.pending|, Rank(s.producer)
  {
    var r := ProducerStep(c, s);
    StepIsNearer(c, s);
    StepTowardsSet(c, s);
    ProducerPosition(c, s);
    if r.shared.notEmpty {
      more := [Producer, Consumer];
      WakesNow(c, s);
    } else {
      var rest := WillWake(c, r);
      more := [Producer] + rest;
      assert more[1..] == rest;
    }
  }

  lemma WakesNow(c: Config, s: Sys)
    requires ProducerEnabled(s) && ProducerStep(c, s).shared.notEmpty && ProducerStep(c, s).consumer == Wait
    ensures Onward(c, s, [Producer, Consumer]).consumer == Recheck
  {
    var r := ProducerStep(c, s);
    assert [Producer, Consumer][1..] == [Consumer] && [Consumer][1..] == [];
    assert Onward(c, r, [Consumer]) == Onward(c, Step(c, r, Consumer), []);
  }

  /**
   Main result: a consumer asleep on a cleared flag stays asleep in every continuation if and only if the producer
   stands past its last read of the flag: about to sleep above upper with no wake-up on the way, or at its end.
   */
  lemma SleepsForeverExactly(c: Config, schedule: seq<Who>)
    requires Asleep(Run(c, schedule))
    ensures (forall more: seq<Who> :: Run(c, schedule + more).consumer == Wait) <==> SetsNoMore(c, Run(c, schedule))
  {
    RunPosition(c, schedule);
    forall more: seq<Who>
      ensures Run(c, schedule + more) == Onward(c, Run(c, schedule), more)
    {
      RunOnward(c, schedule, more);
    }
    if SetsNoMore(c, Run(c, schedule)) {
      forall more: seq<Who>
        ensures Run(c, schedule + more).consumer == Wait
      {
        SleepsOn(c, Run(c, schedule), more);
      }
    } else {
      var more := WillWake(c, Run(c, schedule));
      assert Run(c, schedule + more).consumer == Recheck;
    }
  }
}
