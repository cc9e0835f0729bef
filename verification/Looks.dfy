/** What the reading thread's looks at the queue and at the flag come to: the mutex, the triple found, the history. */
module Looks {
  import opened Terms
  import opened Interleaving

  // ---- The flag's mutex.

  /** The flag is set only when it is false, and never while the consumer holds its mutex. */
  ghost predicate SetsFreely(s: Sys) {
    s.producer == SetFlag || s.producer == SetFlagAtEnd
    ==> !s.shared.notEmpty && s.consumer != Recheck && s.consumer != RecheckDone
  }

  /** What makes it so: a consumer past its wait still sees the flag that woke it. */
  ghost predicate AwakeUnderFlag(s: Sys) {
    s.consumer == Recheck || s.consumer == RecheckDone ==> s.shared.notEmpty
  }

  lemma StepSetsFreely(c: Config, s: Sys, who: Who)
    requires SetsFreely(s) && AwakeUnderFlag(s)
    ensures SetsFreely(Step(c, s, who)) && AwakeUnderFlag(Step(c, s, who))
  {
  }

  /** Main result: in every interleaving, the producer never has to wait for the mutex of the flag. */
  lemma {:induction false} MutexIsNeverContended(c: Config, schedule: seq<Who>)
    ensures SetsFreely(Run(c, schedule)) && AwakeUnderFlag(Run(c, schedule))
  {
    if schedule != [] {
      MutexIsNeverContended(c, schedule[..|schedule| - 1]);
      StepSetsFreely(c, Run(c, schedule[..|schedule| - 1]), schedule[|schedule| - 1]);
    }
  }

  // ---- A triple that is there.

  lemma LookFinds(c: Config, s: Sys)
    requires (s.consumer == Available || s.consumer == Recheck) && s.shared.queue != []
    ensures Step(c, s, Consumer) == s.(consumer := Pop)
  {
  }

  lemma PopTakes(c: Config, s: Sys)
    requires s.consumer == Pop && s.shared.queue != []
    ensures Step(c, s, Consumer).history.delivered == s.history.delivered + [s.shared.queue[0]]
    ensures Step(c, s, Consumer).shared.queue == s.shared.queue[1..]
  {
  }

  lemma ProducerKeepsFront(c: Config, s: Sys, front: Triple)
    requires s.consumer == Pop && s.shared.queue != [] && s.shared.queue[0] == front
    ensures var r := Step(c, s, Producer);
            && r.consumer == Pop && r.shared.queue != [] && r.shared.queue[0] == front
            && r.history.delivered == s.history.delivered
  {
  }

  lemma {:induction false} FrontStays(c: Config, schedule: seq<Who>, turns: nat, front: Triple)
    requires turns <= |schedule| && forall k :: turns <= k < |schedule| ==> schedule[k] == Producer
    requires var s := Run(c, schedule[..turns]);
             s.consumer == Pop && s.shared.queue != [] && s.shared.queue[0] == front
    ensures var s, r := Run(c, schedule[..turns]), Run(c, schedule);
            && r.consumer == Pop && r.shared.queue != [] && r.shared.queue[0] == front
            && r.history.delivered == s.history.delivered
    decreases |schedule|
  {
    if turns < |schedule| {
      var before := schedule[..|schedule| - 1];
      assert before[..turns] == schedule[..turns];
      FrontStays(c, before, turns, front);
      ProducerKeepsFront(c, Run(c, before), front);
    } else {
      assert schedule[..turns] == schedule;
    }
  }

  /**
   Main result: a consumer that finds a triple when it looks, first or after waking, takes exactly that triple at its
   next turn, however often the producer moves in between.
   */
  lemma FoundIsDelivered(c: Config, schedule: seq<Who>, between: seq<Who>)
    requires var s := Run(c, schedule); (s.consumer == Available || s.consumer == Recheck) && s.shared.queue != []
    requires forall k :: 0 <= k < |between| ==> between[k] == Producer
    ensures var s := Run(c, schedule);
            Run(c, schedule + [Consumer] + between + [Consumer]).history.delivered
            == s.history.delivered + [s.shared.queue[0]]
  {
    var s := Run(c, schedule);
    var looked := schedule + [Consumer];
    var later := looked + between;
    LookFinds(c, s);
    RunOne(c, schedule, Consumer);
    assert later[..|looked|] == looked;
    FrontStays(c, later, |looked|, s.shared.queue[0]);
    PopTakes(c, Run(c, later));
    RunOne(c, later, Consumer);
  }

  // ---- Signals: the two flags between the threads, and the reading of one of them.

  datatype Signal = NotEmpty | WithinThresholds | ReadSinceClear

  function Level(signal: Signal, s: Sys): bool {
    match signal
    case NotEmpty => s.shared.notEmpty
    case WithinThresholds => s.shared.within
    case ReadSinceClear => s.history.readSinceClear
  }

  /** The turn raises the signal; setting the flag has to wait while the consumer holds its mutex. */
  predicate Raises(signal: Signal, s: Sys, who: Who) {
    match signal
    case NotEmpty =>
      && who == Producer && (s.producer == SetFlag || s.producer == SetFlagAtEnd)
      && s.consumer != Recheck && s.consumer != RecheckDone
    case WithinThresholds => who == Consumer && s.consumer == SetWithin
    case ReadSinceClear => who == Producer && (s.producer == ReadFlag || s.producer == ReadFlagAtEnd)
  }

  predicate Lowers(signal: Signal, s: Sys, who: Who) {
    match signal
    case NotEmpty => who == Consumer && s.consumer == ClearFlag
    case WithinThresholds => who == Producer && s.producer == ClearWithin
    case ReadSinceClear => who == Consumer && s.consumer == ClearFlag
  }

  lemma StepSignals(c: Config, signal: Signal, s: Sys, who: Who)
    ensures Level(signal, Step(c, s, who))
         == if Raises(signal, s, who) then true else if Lowers(signal, s, who) then false else Level(signal, s)
  {
  }

  /** Turn i raises the signal, and no later turn lowers it. */
  ghost predicate RaisedAt(c: Config, schedule: seq<Who>, signal: Signal, i: nat) {
    && i < |schedule| && Raises(signal, Run(c, schedule[..i]), schedule[i])
    && forall j :: i < j < |schedule| ==> !LoweredAt(c, schedule, signal, j)
  }

  ghost predicate LoweredAt(c: Config, schedule: seq<Who>, signal: Signal, j: nat) {
    j < |schedule| && Lowers(signal, Run(c, schedule[..j]), schedule[j])
  }

  lemma LoweredBefore(c: Config, before: seq<Who>, who: Who, signal: Signal, j: nat)
    requires j <= |before|
    ensures LoweredAt(c, before + [who], signal, j)
       <==> if j < |before| then LoweredAt(c, before, signal, j) else Lowers(signal, Run(c, before), who)
  {
    assert (before + [who])[..j] == before[..j] && before[..|before|] == before;
  }

  lemma RaisedBefore(c: Config, before: seq<Who>, who: Who, signal: Signal, i: nat)
    requires i < |before|
    ensures RaisedAt(c, before + [who], signal, i)
       <==> RaisedAt(c, before, signal, i) && !Lowers(signal, Run(c, before), who)
  {
    var schedule := before + [who];
    assert schedule[..i] == before[..i] && schedule[i] == before[i];
    forall j | 0 <= j <= |before|
      ensures LoweredAt(c, schedule, signal, j)
         <==> if j < |before| then LoweredAt(c, before, signal, j) else Lowers(signal, Run(c, before), who)
    {
      LoweredBefore(c, before, who, signal, j);
    }
    if RaisedAt(c, schedule, signal, i) {
      assert !LoweredAt(c, schedule, signal, |before|);
      forall j | i < j < |before|
        ensures !LoweredAt(c, before, signal, j)
      {
        assert !LoweredAt(c, schedule, signal, j);
      }
    }
  }

  lemma RaisedLast(c: Config, before: seq<Who>, who: Who, signal: Signal)
    ensures RaisedAt(c, before + [who], signal, |before|) <==> Raises(signal, Run(c, before), who)
  {
    assert (before + [who])[..|before|] == before;
  }

  /** Main result: a signal is up exactly if some turn of the run raised it and none has lowered it since. */
  lemma {:induction false} SignalExactly(c: Config, schedule: seq<Who>, signal: Signal)
    ensures Level(signal, Run(c, schedule)) <==> exists i :: RaisedAt(c, schedule, signal, i)
  {
    if schedule == [] {
      StartIsSilent(c, signal);
    } else {
      var before, who := schedule[..|schedule| - 1], schedule[|schedule| - 1];
      assert schedule == before + [who];
      SignalExactly(c, before, signal);
      RunOne(c, before, who);
      NextSignal(c, before, who, signal);
    }
  }

  lemma StartIsSilent(c: Config, signal: Signal)
    ensures !Level(signal, Run(c, []))
  {
  }

  lemma NextSignal(c: Config, before: seq<Who>, who: Who, signal: Signal)
    requires Level(signal, Run(c, before)) <==> exists i :: RaisedAt(c, before, signal, i)
    ensures Level(signal, Step(c, Run(c, before), who)) <==> exists i :: RaisedAt(c, before + [who], signal, i)
  {
    StepSignals(c, signal, Run(c, before), who);
    RaisedLast(c, before, who, signal);
    forall i: nat | i < |before|
      ensures RaisedAt(c, before + [who], signal, i)
         <==> RaisedAt(c, before, signal, i) && !Lowers(signal, Run(c, before), who)
    {
      RaisedBefore(c, before, who, signal, i);
    }
    NotBoth(signal, Run(c, before), who);
  }

  lemma NotBoth(signal: Signal, s: Sys, who: Who)
    ensures !(Raises(signal, s, who) && Lowers(signal, s, who))
  {
  }

  // ---- The last look in vain.

  /** Turn i is the consumer's last look at an empty queue. */
  ghost predicate LastLook(c: Config, schedule: seq<Who>, i: nat) {
    && i < |schedule| && LooksInVain(c, schedule, i)
    && forall j :: i < j < |schedule| ==> !LooksInVain(c, schedule, j)
  }

  ghost predicate LooksInVain(c: Config, schedule: seq<Who>, i: nat)
    requires i < |schedule|
  {
    var s := Run(c, schedule[..i]);
    schedule[i] == Consumer && s.consumer in {Available, Recheck} && s.shared.queue == []
  }

  lemma StepRecordsLook(c: Config, s: Sys, who: Who)
    ensures var r := Step(c, s, who).history;
            if who == Consumer && s.consumer in {Available, Recheck} && s.shared.queue == [] then
              r.emptyAt == |s.history.emitted| && r.inWindow == (s.producer in {PushAfterSet, DoneAfterSet})
            else r.emptyAt == s.history.emptyAt && r.inWindow == s.history.inWindow
  {
  }

  /** What is remembered of it: how much had been inserted, and whether the producer was in its window. */
  lemma {:induction false} LastLookIsRecorded(c: Config, schedule: seq<Who>, i: nat)
    requires LastLook(c, schedule, i)
    ensures var s, r := Run(c, schedule[..i]), Run(c, schedule);
            && r.history.emptyAt == |s.history.emitted|
            && r.history.inWindow == (s.producer in {PushAfterSet, DoneAfterSet})
    decreases |schedule|
  {
    var before := schedule[..|schedule| - 1];
    StepRecordsLook(c, Run(c, before), schedule[|before|]);
    if i < |before| {
      assert before[..i] == schedule[..i];
      assert !LooksInVain(c, schedule, |before|) && schedule[..|before|] == before;
      forall j | i < j < |before|
        ensures !LooksInVain(c, before, j)
      {
        assert before[..j] == schedule[..j] && !LooksInVain(c, schedule, j);
      }
      LastLookIsRecorded(c, before, i);
    }
  }
}
