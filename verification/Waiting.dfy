/** How a run of the file parser can end: delivered in full, ended early, failed, or stuck. */
module Waiting {
  import opened Interleaving
  import opened BackPressure

  /** What a waking consumer can rely on, with a queue that holds anything at all. */
  ghost predicate Announced(s: Sys) {
    s.shared.queue != [] || s.shared.done || Window(s.producer)
  }

  ghost predicate WakeInvariant(s: Sys) {
    && (s.consumer == Wait && s.shared.notEmpty ==> Announced(s))
    && (s.consumer == Recheck ==> Announced(s))
    && (s.consumer == RecheckDone ==> s.shared.done || s.history.inWindow)
    && (s.consumer == Failed ==> s.history.inWindow)
    && (s.consumer == Ended ==> s.shared.done)
  }

  lemma StepWakes(c: Config, s: Sys, who: Who)
    requires c.capacity > 0 && Position(c, s) && WakeInvariant(s)
    ensures WakeInvariant(Step(c, s, who))
  {
  }

  /** A consumer woken by the flag finds a triple, the end, or a producer that is about to bring one of them. */
  lemma {:induction false} WokenForAReason(c: Config, schedule: seq<Who>)
    requires c.capacity > 0
    ensures WakeInvariant(Run(c, schedule))
  {
    if schedule != [] {
      var before := schedule[..|schedule| - 1];
      WokenForAReason(c, before);
      RunPosition(c, before);
      StepWakes(c, Run(c, before), schedule[|schedule| - 1]);
    } else {
      StartPosition(c);
    }
  }

  /**
   Main result: once the consumer is awake at its recheck, it goes on to the internal error if it moves twice,
   exactly when it finds the queue empty while the producer stands between setting the flag and what it announces.
   */
  lemma FailsExactlyInWindow(c: Config, schedule: seq<Who>)
    requires c.capacity > 0 && Run(c, schedule).consumer == Recheck
    ensures var s := Run(c, schedule);
            Run(c, schedule + [Consumer] + [Consumer]).consumer == Failed
            <==> s.shared.queue == [] && !s.shared.done && Window(s.producer)
  {
    WokenForAReason(c, schedule);
    RunOne(c, schedule, Consumer);
    RunOne(c, schedule + [Consumer], Consumer);
  }

  /** Main result: every failed run made its last empty recheck in such a window. */
  lemma FailureNeedsWindow(c: Config, schedule: seq<Who>)
    requires c.capacity > 0 && Run(c, schedule).consumer == Failed
    ensures Run(c, schedule).history.inWindow
  {
    WokenForAReason(c, schedule);
  }

  /** Turn i is the consumer's empty recheck in such a window, and turn j its next one, with the end still not there. */
  ghost predicate FailsAt(c: Config, schedule: seq<Who>, i: nat, j: nat) {
    && i < j < |schedule| && schedule[i] == Consumer && schedule[j] == Consumer
    && (forall k :: i < k < j ==> schedule[k] == Producer)
    && Run(c, schedule[..i]).consumer == Recheck && Run(c, schedule[..i]).shared.queue == []
    && Window(Run(c, schedule[..i]).producer) && !Run(c, schedule[..j]).shared.done
  }

  lemma StepToRecheckDone(c: Config, s: Sys, who: Who)
    requires Step(c, s, who).consumer == RecheckDone
    ensures if who == Consumer then s.consumer == Recheck && s.shared.queue == []
            else s.consumer == RecheckDone && (s.shared.done ==> Step(c, s, who).shared.done)
    ensures who == Consumer ==> Step(c, s, who).shared.done == s.shared.done
  {
  }

  lemma StepToFailed(c: Config, s: Sys, who: Who)
    requires Step(c, s, who).consumer == Failed && s.consumer != Failed
    ensures who == Consumer && s.consumer == RecheckDone && !s.shared.done
  {
  }

  lemma CameToRecheckDone(c: Config, schedule: seq<Who>) returns (before: seq<Who>, s: Sys, who: Who)
    requires Run(c, schedule).consumer == RecheckDone
    ensures schedule == before + [who] && s == Run(c, before)
    ensures if who == Consumer then s.consumer == Recheck && s.shared.queue == []
                                    && Run(c, schedule).shared.done == s.shared.done
            else s.consumer == RecheckDone && (s.shared.done ==> Run(c, schedule).shared.done)
  {
    before, who := schedule[..|schedule| - 1], schedule[|schedule| - 1];
    s := Run(c, before);
    StepToRecheckDone(c, s, who);
  }

  lemma CameToFailed(c: Config, schedule: seq<Who>) returns (before: seq<Who>, s: Sys, who: Who)
    requires Run(c, schedule).consumer == Failed
    ensures schedule == before + [who] && s == Run(c, before)
    ensures s.consumer == Failed || (who == Consumer && s.consumer == RecheckDone && !s.shared.done)
  {
    before, who := schedule[..|schedule| - 1], schedule[|schedule| - 1];
    s := Run(c, before);
    if s.consumer != Failed {
      StepToFailed(c, s, who);
    }
  }

  /** Turn i is an empty recheck, and the producer moves from then on. */
  ghost predicate RecheckedIn(c: Config, schedule: seq<Who>, i: nat) {
    && i < |schedule| && schedule[i] == Consumer && (forall k :: i < k < |schedule| ==> schedule[k] == Producer)
    && Run(c, schedule[..i]).consumer == Recheck && Run(c, schedule[..i]).shared.queue == []
  }

  lemma RecheckedLonger(c: Config, before: seq<Who>, schedule: seq<Who>, i: nat)
    requires RecheckedIn(c, before, i) && schedule == before + [Producer]
    ensures RecheckedIn(c, schedule, i) && before[..i] == schedule[..i]
  {
    assert before[..i] == schedule[..i];
  }

  lemma RecheckedNow(c: Config, before: seq<Who>, schedule: seq<Who>)
    requires c.capacity > 0 && schedule == before + [Consumer]
    requires Run(c, before).consumer == Recheck && Run(c, before).shared.queue == []
    ensures RecheckedIn(c, schedule, |before|) && schedule[..|before|] == before
    ensures Run(c, before).shared.done || Window(Run(c, before).producer)
  {
    WokenForAReason(c, before);
    assert schedule[..|before|] == before;
  }

  /** A consumer about to recheck the end last moved when it found the queue empty. */
  lemma {:induction false} RecheckedAt(c: Config, schedule: seq<Who>) returns (i: nat)
    requires c.capacity > 0 && Run(c, schedule).consumer == RecheckDone
    ensures RecheckedIn(c, schedule, i)
    ensures Run(c, schedule).shared.done || Window(Run(c, schedule[..i]).producer)
    decreases |schedule|
  {
    var before, s, who := CameToRecheckDone(c, schedule);
    if who == Consumer {
      i := |before|;
      RecheckedNow(c, before, schedule);
    } else {
      i := RecheckedAt(c, before);
      RecheckedLonger(c, before, schedule, i);
    }
  }

  lemma {:induction false} FailureStarts(c: Config, schedule: seq<Who>) returns (i: nat, j: nat)
    requires c.capacity > 0 && Run(c, schedule).consumer == Failed
    ensures FailsAt(c, schedule, i, j)
    decreases |schedule|
  {
    var before, s, who := CameToFailed(c, schedule);
    if s.consumer == Failed {
      i, j := FailureStarts(c, before);
      assert before[..i] == schedule[..i] && before[..j] == schedule[..j];
    } else {
      i := RecheckedAt(c, before);
      j := |before|;
      assert before[..i] == schedule[..i] && schedule[..j] == before;
    }
  }

  /** Where the consumer does not move it stays, and a failure is for good. */
  lemma {:induction false} ConsumerStays(c: Config, schedule: seq<Who>, from: nat)
    requires from <= |schedule|
    requires || Run(c, schedule[..from]).consumer == Failed
             || forall k :: from <= k < |schedule| ==> schedule[k] == Producer
    ensures Run(c, schedule).consumer == Run(c, schedule[..from]).consumer
    decreases |schedule|
  {
    if from < |schedule| {
      var before := schedule[..|schedule| - 1];
      assert before[..from] == schedule[..from];
      ConsumerStays(c, before, from);
    } else {
      assert schedule[..from] == schedule;
    }
  }

  lemma StepTaken(c: Config, schedule: seq<Who>, i: nat)
    requires i < |schedule|
    ensures Run(c, schedule[..i + 1]) == Step(c, Run(c, schedule[..i]), schedule[i])
  {
    assert schedule[..i + 1] == schedule[..i] + [schedule[i]];
    RunOne(c, schedule[..i], schedule[i]);
  }

  /** The two turns themselves. */
  lemma EmptyRecheck(c: Config, s: Sys)
    requires s.consumer == Recheck && s.shared.queue == []
    ensures Step(c, s, Consumer).consumer == RecheckDone
  {
  }

  lemma EndNotThere(c: Config, s: Sys)
    requires s.consumer == RecheckDone && !s.shared.done
    ensures Step(c, s, Consumer).consumer == Failed
  {
  }

  lemma RecheckLasts(c: Config, schedule: seq<Who>, i: nat, j: nat)
    requires FailsAt(c, schedule, i, j)
    ensures Run(c, schedule[..j]).consumer == RecheckDone
  {
    StepTaken(c, schedule, i);
    EmptyRecheck(c, Run(c, schedule[..i]));
    assert schedule[..j][..i + 1] == schedule[..i + 1];
    ConsumerStays(c, schedule[..j], i + 1);
  }

  lemma FailureFollows(c: Config, schedule: seq<Who>, i: nat, j: nat)
    requires FailsAt(c, schedule, i, j)
    ensures Run(c, schedule).consumer == Failed
  {
    RecheckLasts(c, schedule, i, j);
    StepTaken(c, schedule, j);
    EndNotThere(c, Run(c, schedule[..j]));
    ConsumerStays(c, schedule, j + 1);
  }

  /**
   Main result: a run fails with the internal error if and only if the consumer made two turns in a row, the first
   finding the queue empty while the producer stood in its window, the second finding the end not yet announced.
   */
  lemma FailedExactly(c: Config, schedule: seq<Who>)
    requires c.capacity > 0
    ensures Run(c, schedule).consumer == Failed <==> exists i, j :: FailsAt(c, schedule, i, j)
  {
    if Run(c, schedule).consumer == Failed {
      var i, j := FailureStarts(c, schedule);
    }
    if i, j :| FailsAt(c, schedule, i, j) {
      FailureFollows(c, schedule, i, j);
    }
  }

  /** Neither thread can move, and the consumer has neither ended nor failed. */
  predicate Stuck(s: Sys) {
    !ProducerEnabled(s) && !ConsumerEnabled(s) && s.consumer != Ended && s.consumer != Failed
  }

  /** A flag read after the clear is followed by setting it. */
  ghost predicate ReadLeadsToSet(s: Sys) {
    s.consumer == Wait && !s.shared.notEmpty && s.history.readSinceClear
    ==> s.producer == SetFlag || s.producer == SetFlagAtEnd
  }

  lemma StepReads(c: Config, s: Sys, who: Who)
    requires ReadLeadsToSet(s)
    ensures ReadLeadsToSet(Step(c, s, who))
  {
  }

  lemma {:induction false} RunReads(c: Config, schedule: seq<Who>)
    ensures ReadLeadsToSet(Run(c, schedule))
  {
    if schedule != [] {
      RunReads(c, schedule[..|schedule| - 1]);
      StepReads(c, Run(c, schedule[..|schedule| - 1]), schedule[|schedule| - 1]);
    }
  }

  /**
   Main result: a reachable state is stuck exactly when the consumer sleeps on a flag that the producer has not read
   since it was cleared, and the producer sleeps on its own cleared flag or has finished.
   */
  lemma StuckExactly(c: Config, schedule: seq<Who>)
    ensures var s := Run(c, schedule);
            Stuck(s) <==> s.consumer == Wait && !s.shared.notEmpty && !s.history.readSinceClear
                          && ((s.producer == Sleep && !s.shared.within) || s.producer == Finished)
  {
    RunReads(c, schedule);
  }

  /** After an empty read the consumer holds everything that had been inserted when it made the read. */
  ghost predicate EmptyReadInvariant(s: Sys) {
    s.consumer in {ReadDone, ClearFlag, Wait, Recheck, RecheckDone, Ended, Failed}
    ==> |s.history.delivered| == s.history.emptyAt
  }

  lemma StepEmptyRead(c: Config, s: Sys, who: Who)
    requires Lossless(s) && EmptyReadInvariant(s)
    ensures EmptyReadInvariant(Step(c, s, who))
  {
  }

  lemma {:induction false} RunEmptyRead(c: Config, schedule: seq<Who>, most: nat)
    requires Fits(c, most)
    ensures EmptyReadInvariant(Run(c, schedule))
  {
    if schedule != [] {
      var before := schedule[..|schedule| - 1];
      RunEmptyRead(c, before, most);
      NothingIsLost(c, before, most);
      StepEmptyRead(c, Run(c, before), schedule[|schedule| - 1]);
    }
  }

  /**
   Main result: a consumer told that there is no further triple has received everything exactly when the whole
   script had been inserted before its last empty read; otherwise it is missing all that was inserted after that read.
   */
  lemma EndExactly(c: Config, schedule: seq<Who>, most: nat)
    requires c.capacity > 0 && Fits(c, most)
    requires Run(c, schedule).consumer == Ended
    ensures var s := Run(c, schedule);
            && s.history.emptyAt <= |Sequential(c)|
            && s.history.delivered == Sequential(c)[..s.history.emptyAt]
            && s.shared.queue == Sequential(c)[s.history.emptyAt..]
            && (s.history.delivered == Sequential(c) <==> s.history.emptyAt == |Sequential(c)|)
  {
    var s := Run(c, schedule);
    WokenForAReason(c, schedule);
    RunPosition(c, schedule);
    NothingIsLost(c, schedule, most);
    RunEmptyRead(c, schedule, most);
    assert s.history.emitted + [] == s.history.emitted;
  }
}
