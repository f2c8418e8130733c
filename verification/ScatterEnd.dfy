/** The end of the stream in src/jitter_sg.c: when the consumer is told of the empty block that the producer pushes,
    and when it has got everything by then. The producer stops after its empty block. */
module ScatterEnd {
  import opened ScatterGather
  import opened ScatterMachine

  /** The moment of the empty block: `m` is reached, and the producer holds the slot that it gives back. */
  ghost predicate AtEnd(c: Config, m: Machine) {
    0 < c.count && !c.resumes && Reachable(c, m) && m.ring.Indexed() && m.producer.Filling?
  }

  /** Where the consumer must stand then, and what must be queued. It has seen its slot free and will look at the state
      next; or nothing is queued and it has not yet passed that look; or there is no threshold, so that the state stays. */
  predicate Told(c: Config, m: Machine) {
    || m.consumer.SawFree?
    || (m.ring.level == 0 && !m.consumer.Locking? && !m.consumer.AsleepOnPeer?)
    || (m.ring.level > 0 && c.threshold == 0)
  }

  /** It is told too early: blocks were queued after it had seen its slot free. */
  predicate TooEarly(m: Machine) {
    m.consumer.SawFree? && m.ring.level > 0
  }

  // ----- what holds after the empty block -----

  /** The producer only finishes its tests; the state leaves COMPLETE only when the last block is popped. */
  ghost predicate Closing(c: Config, m: Machine) {
    && 0 < c.count == |m.ring.slots| && !c.resumes && m.ring.Indexed() && m.ring.level >= 0 && Shaped(m) && m.closed
    && (m.ring.state == Complete || (m.ring.state == RunState.Filling && m.ring.level == 0 && c.threshold > 0))
    && m.producer in {ProducerAt.Away, Testing, NotRunning, SawFilling}
    && (m.producer.SawFilling? ==> m.ring.state == RunState.Filling)
  }

  /** The consumer is on its way to be told. */
  predicate Hopeful(c: Config, m: Machine) {
    || m.consumer.Finished?
    || (m.ring.state == Complete
        && (|| m.consumer.SawFree?
            || (m.ring.level == 0 && !m.consumer.Locking? && !m.consumer.AsleepOnPeer?)
            || (m.ring.level > 0 && c.threshold == 0 && !m.consumer.AsleepOnPeer?)))
  }

  /** It will never be told: it sleeps or is about to, or COMPLETE is overwritten, or will be with the last block. */
  predicate Hopeless(c: Config, m: Machine) {
    && !m.consumer.Finished?
    && (|| m.ring.state == RunState.Filling
        || (m.ring.level == 0 && (m.consumer.Locking? || m.consumer.AsleepOnPeer?))
        || (m.ring.level > 0 && c.threshold > 0 && !m.consumer.SawFree?))
  }

  /** It has been told, or is about to be, with blocks still queued. */
  predicate Early(m: Machine) {
    m.ring.level > 0 && (m.consumer.Finished? || (m.consumer.SawFree? && m.ring.state == Complete))
  }

  predicate NeverEarly(m: Machine) {
    m.consumer.Finished? || m.consumer.SawFree? ==> m.ring.level == 0
  }

  lemma ClosingProducer(c: Config, m: Machine, step: Step)
    requires Closing(c, m) && Enabled(c, m, step) && OfProducer(step)
    ensures var m' := Apply(c, m, step);
      && Closing(c, m') && m'.ring == m.ring && m'.consumer == m.consumer && m'.pushed == m.pushed && m'.popped == m.popped
  {
    ShapedStep(c, m, step);
  }

  lemma ClosingConsumer(c: Config, m: Machine, step: Step)
    requires Closing(c, m) && Enabled(c, m, step) && !OfProducer(step)
    ensures Closing(c, Apply(c, m, step))
  {
    ShapedStep(c, m, step);
  }

  lemma FateConsumer(c: Config, m: Machine, step: Step)
    requires Closing(c, m) && Enabled(c, m, step) && !OfProducer(step)
    ensures Hopeful(c, m) ==> Hopeful(c, Apply(c, m, step))
    ensures Hopeless(c, m) ==> Hopeless(c, Apply(c, m, step))
  {
    SlotState(m);
  }

  lemma EarlyConsumer(c: Config, m: Machine, step: Step)
    requires Closing(c, m) && Enabled(c, m, step) && !OfProducer(step)
    ensures Early(m) ==> Early(Apply(c, m, step))
    ensures NeverEarly(m) ==> NeverEarly(Apply(c, m, step))
  {
    SlotState(m);
  }

  lemma SlotState(m: Machine)
    requires Shaped(m) && !m.producer.Filling? && |m.ring.slots| > 0
    ensures m.ring.Indexed()
    ensures m.ring.slots[m.ring.outp].state == Free <==> m.ring.level == 0
    ensures m.ring.slots[m.ring.outp].state == Ready <==> m.ring.level > 0 && !m.consumer.Reading?
    ensures m.consumer.Reading? ==> m.ring.level > 0
  {
    m.ring.ReadyAtOut(false, m.consumer.Reading?);
    assert m.ring.slots[m.ring.At(0)].state == m.ring.Expected(0, false, m.consumer.Reading?);
  }

  lemma FateStep(c: Config, m: Machine, step: Step)
    requires Closing(c, m) && Enabled(c, m, step)
    ensures Closing(c, Apply(c, m, step))
    ensures Hopeful(c, m) ==> Hopeful(c, Apply(c, m, step))
    ensures Hopeless(c, m) ==> Hopeless(c, Apply(c, m, step))
    ensures Early(m) ==> Early(Apply(c, m, step))
    ensures NeverEarly(m) ==> NeverEarly(Apply(c, m, step))
  {
    hide Apply, Enabled, Closing;
    if OfProducer(step) {
      ClosingProducer(c, m, step);
    } else {
      ClosingConsumer(c, m, step);
      FateConsumer(c, m, step);
      EarlyConsumer(c, m, step);
    }
  }

  lemma {:induction false} FateRuns(c: Config, m: Machine, steps: seq<Step>, m': Machine)
    requires Closing(c, m) && Runs(c, m, steps, m')
    ensures Closing(c, m')
    ensures Hopeful(c, m) ==> Hopeful(c, m')
    ensures Hopeless(c, m) ==> Hopeless(c, m')
    ensures Early(m) ==> Early(m')
    ensures NeverEarly(m) ==> NeverEarly(m')
    decreases steps
  {
    hide Apply, Enabled, Hopeful, Hopeless, Early, NeverEarly, Shaped;
    if steps != [] {
      FateStep(c, m, steps[0]);
      FateRuns(c, Apply(c, m, steps[0]), steps[1..], m');
    }
  }

  // ----- the way to the end -----

  /** The step that leads a hopeful consumer on; it pops its blocks. */
  function Onward(m: Machine): Step {
    match m.consumer
    case Away => Step.Peer
    case Looking => LookSlot
    case SawFree => LookComplete
    case Locking => LockPeer
    case AsleepOnPeer => WakeConsumer
    case Reading => PopBlock
    case Signalling => SignalPush
    case Finished => LookComplete
  }

  function Distance(m: Machine): nat
    requires m.ring.level >= 0
  {
    6 * m.ring.level +
    match m.consumer
    case Reading => 0
    case Locking => 1
    case SawFree => 1
    case AsleepOnPeer => 0
    case Looking => 2
    case Away => 3
    case Signalling => 4
    case Finished => 0
  }

  lemma OnwardStep(c: Config, m: Machine)
    requires Closing(c, m) && Hopeful(c, m) && !m.consumer.Finished?
    ensures Enabled(c, m, Onward(m)) && !OfProducer(Onward(m))
    ensures var m' := Apply(c, m, Onward(m));
      m'.ring.level >= 0 && (m'.consumer.Finished? || Distance(m') < Distance(m))
  {
    SlotState(m);
  }

  /** From wherever a hopeful consumer stands, it comes to its end by popping what is left. */
  lemma {:induction false} ReachesEnd(c: Config, m: Machine) returns (steps: seq<Step>, m': Machine)
    requires Closing(c, m) && Hopeful(c, m)
    ensures Runs(c, m, steps, m') && m'.consumer.Finished?
    decreases !m.consumer.Finished?, if m.ring.level >= 0 then Distance(m) else 0
  {
    hide Apply, Enabled, Hopeful, Distance, Onward, Shaped;
    if m.consumer.Finished? {
      return [], m;
    }
    OnwardStep(c, m);
    FateStep(c, m, Onward(m));
    var rest;
    rest, m' := ReachesEnd(c, Apply(c, m, Onward(m)));
    steps := [Onward(m)] + rest;
    assert steps[1..] == rest;
  }

  // ----- the theorems -----

  /** The invariants of every run, at the moment of the empty block. */
  lemma AtEndHolds(c: Config, m: Machine)
    requires AtEnd(c, m)
    ensures Shaped(m) && Phased(c, m) && Watched(c, m) && |m.ring.slots| == c.count && Enabled(c, m, PushNothing)
    ensures !m.closed && !m.consumer.Finished?
  {
    var steps :| Runs(c, Start(c), steps, m);
    FreshShape(c.count);
    WatchedRuns(c, Start(c), steps, m);
  }

  lemma ClosingFrom(c: Config, m: Machine)
    requires AtEnd(c, m) && Shaped(m) && Phased(c, m) && Watched(c, m) && |m.ring.slots| == c.count
    requires !m.closed && !m.consumer.Finished?
    ensures var m' := Apply(c, m, PushNothing);
      && Closing(c, m') && m'.ring.level == m.ring.level && m'.consumer == m.consumer
      && (if Told(c, m) then Hopeful(c, m') else Hopeless(c, m'))
      && (if TooEarly(m) then Early(m') else NeverEarly(m'))
  {
    hide Phased;
    ShapedStep(c, m, PushNothing);
    NotAsleep(c, m);
    StateAtEnd(c, m);
  }

  lemma StateAtEnd(c: Config, m: Machine)
    requires m.producer.Filling? && Phased(c, m) && !m.closed
    ensures m.ring.state in {RunState.Filling, Running} && (m.ring.state == RunState.Filling ==> c.threshold > 0)
  {
  }

  lemma NotAsleep(c: Config, m: Machine)
    requires m.producer.Filling? && Phased(c, m) && Watched(c, m) && !m.closed
    ensures c.threshold == 0 && m.ring.level > 0 ==> !m.consumer.AsleepOnPeer?
  {
  }

  lemma Closes(c: Config, m: Machine, steps: seq<Step>, m': Machine)
    requires AtEnd(c, m) && Runs(c, Apply(c, m, PushNothing), steps, m')
    ensures Closing(c, m')
    ensures if Told(c, m) then Hopeful(c, m') else Hopeless(c, m')
    ensures if TooEarly(m) then Early(m') else NeverEarly(m')
  {
    hide Apply, Runs, Closing, Hopeful, Hopeless, Early, NeverEarly, Told, TooEarly, Phased, Watched, Shaped;
    AtEndHolds(c, m);
    ClosingFrom(c, m);
    FateRuns(c, Apply(c, m, PushNothing), steps, m');
  }

  ghost predicate CanFinish(c: Config, m: Machine)
    requires m.ring.Indexed()
  {
    exists steps, m' :: Runs(c, m, steps, m') && m'.consumer.Finished?
  }

  /** The consumer can still be told of the end if and only if it stands there. Then it can be from everywhere that the
      threads may go; otherwise from nowhere. */
  lemma ToldExactly(c: Config, m: Machine)
    requires AtEnd(c, m)
    ensures Told(c, m) <==> CanFinish(c, Apply(c, m, PushNothing))
    ensures forall steps, m' :: Runs(c, Apply(c, m, PushNothing), steps, m') ==>
      m'.ring.Indexed() && (CanFinish(c, m') <==> Told(c, m))
  {
    hide Apply, Runs, Hopeful, Hopeless, Early, NeverEarly, Told, TooEarly, Shaped;
    var m1 := Apply(c, m, PushNothing);
    assert Runs(c, m1, [], m1) by { NoSteps(c, m1); }
    forall steps, m' | Runs(c, m1, steps, m')
      ensures m'.ring.Indexed() && (CanFinish(c, m') <==> Told(c, m))
    {
      Closes(c, m, steps, m');
      if Told(c, m) {
        var rest, last := ReachesEnd(c, m');
      } else {
        forall rest, last | Runs(c, m', rest, last)
          ensures !last.consumer.Finished?
        {
          FateRuns(c, m', rest, last);
          HopelessGoesOn(c, last);
        }
      }
    }
  }

  lemma NoSteps(c: Config, m: Machine)
    requires m.ring.Indexed()
    ensures Runs(c, m, [], m)
  {
  }

  lemma HopelessGoesOn(c: Config, m: Machine)
    requires Hopeless(c, m)
    ensures !m.consumer.Finished?
  {
  }

  /** A consumer that has been told has got everything if and only if it was not told too early. */
  lemma CompleteExactly(c: Config, m: Machine, steps: seq<Step>, m': Machine)
    requires AtEnd(c, m) && Runs(c, Apply(c, m, PushNothing), steps, m') && m'.consumer.Finished?
    ensures m'.popped == m'.pushed <==> !TooEarly(m)
  {
    hide Apply, Runs, Hopeful, Hopeless, Told, TooEarly, AtEnd;
    Closes(c, m, steps, m');
  }

  /** Every run in which the stream was closed passed such a moment. */
  lemma {:induction false} PassedEnd(c: Config, m0: Machine, steps: seq<Step>, m': Machine)
    returns (m: Machine, rest: seq<Step>)
    requires 0 < c.count && !c.resumes && Reachable(c, m0) && m0.ring.Indexed() && !m0.closed
    requires Runs(c, m0, steps, m') && m'.closed
    ensures AtEnd(c, m) && Runs(c, Apply(c, m, PushNothing), rest, m')
    decreases steps
  {
    hide Reachable;
    if steps[0] == PushNothing {
      return m0, steps[1..];
    }
    StillOpen(c, m0, steps[0]);
    ReachStep(c, m0, steps[0]);
    m, rest := PassedEnd(c, Apply(c, m0, steps[0]), steps[1..], m');
  }

  lemma StillOpen(c: Config, m: Machine, step: Step)
    requires m.ring.Indexed() && Enabled(c, m, step) && step != PushNothing && !m.closed
    ensures !Apply(c, m, step).closed
  {
  }

  // ----- the runs that go wrong -----

  /** The empty block wakes nobody: a consumer that already sleeps is never told, whatever the ring. */
  lemma EndNotSignalled(c: Config) returns (m: Machine)
    requires 0 < c.count && !c.resumes
    ensures AtEnd(c, m) && m.consumer.AsleepOnPeer? && m.ring.level == 0 && !Told(c, m)
  {
    hide Apply, Reachable, Runs, Shaped;
    m := SleepFirst(c);
    m := TakeSlot(c, m);
    m := Positioned(c, m);
  }

  lemma Positioned(c: Config, m: Machine) returns (m': Machine)
    requires InRun(c, m) && !c.resumes && m.producer.Filling?
    ensures m' == m && AtEnd(c, m)
  {
    m' := m;
  }

  /** One block is queued, and the producer holds the next slot; the consumer has not moved. */
  lemma OneQueued(c: Config, m: Machine) returns (m': Machine)
    requires InRun(c, m) && 2 <= c.count && !m.closed && m.producer.Away? && m.ring.level == 0 && m.pushed == []
    requires m.ring.state in {Stop, RunState.Filling, Running} && !m.consumer.AsleepOnPeer?
    ensures InRun(c, m') && m'.producer.Filling? && !m'.closed && m'.ring.level == 1 && m'.consumer == m.consumer
    ensures m'.pushed == [[0]] && m'.popped == m.popped
  {
    hide Apply, Reachable, Runs, Shaped;
    m' := TakeSlot(c, m);
    m' := QueueBlock(c, m');
    m' := RunTests(c, m');
    m' := TakeSlot(c, m');
  }

  lemma Begin(c: Config) returns (m: Machine)
    requires 0 < c.count
    ensures m == Start(c) && InRun(c, m)
  {
    FreshShape(c.count);
    m := Start(c);
    assert Runs(c, m, [], m);
  }

  lemma OneMore(c: Config, m0: Machine, steps: seq<Step>, m: Machine, step: Step)
    requires m0.ring.Indexed() && m.ring.Indexed() && Runs(c, m0, steps, m) && Enabled(c, m, step)
    ensures Runs(c, m0, steps + [step], Apply(c, m, step))
  {
    hide Apply, Enabled;
    assert Runs(c, Apply(c, m, step), [], Apply(c, m, step));
    assert Runs(c, m, [step], Apply(c, m, step));
    RunsAppend(c, m0, steps, m, [step], Apply(c, m, step));
  }

  lemma Next(c: Config, m0: Machine, steps: seq<Step>, m: Machine, step: Step) returns (m': Machine)
    requires m0.ring.Indexed() && Closing(c, m) && Runs(c, m0, steps, m) && Enabled(c, m, step)
    ensures m' == Apply(c, m, step) && Closing(c, m') && Runs(c, m0, steps + [step], m')
  {
    hide Runs, Shaped;
    m' := Apply(c, m, step);
    FateStep(c, m, step);
    OneMore(c, m0, steps, m, step);
  }

  /** After the end, an awake consumer still gets its next block. */
  lemma TakesBlock(c: Config, m: Machine) returns (m': Machine)
    requires Closing(c, m) && m.consumer.Away? && m.ring.level > 0 && m.ring.state == Complete
    ensures Closing(c, m') && Runs(c, m, [Step.Peer, LookSlot, LockPeer], m') && m'.consumer.Reading?
    ensures SameQueues(m, m') && m'.ring.state == Complete
  {
    hide Runs, Shaped;
    NoSteps(c, m);
    SlotState(m);
    assert [] + [Step.Peer] == [Step.Peer] && [Step.Peer] + [LookSlot] == [Step.Peer, LookSlot];
    assert [Step.Peer, LookSlot] + [LockPeer] == [Step.Peer, LookSlot, LockPeer];
    m' := Next(c, m, [], m, Step.Peer);
    SlotState(m');
    m' := Next(c, m, [Step.Peer], m', LookSlot);
    m' := Next(c, m, [Step.Peer, LookSlot], m', LockPeer);
  }

  /** COMPLETE is overwritten: the consumer is awake, with one block to pop. With it, the state becomes FILLING again,
      and the consumer goes to sleep for good. */
  lemma EndOverwritten(c: Config) returns (m: Machine, steps: seq<Step>, m': Machine)
    requires 2 <= c.count && 0 < c.threshold && !c.resumes
    ensures AtEnd(c, m) && m.consumer.Away? && m.ring.level == 1 && !Told(c, m)
    ensures Runs(c, Apply(c, m, PushNothing), steps, m')
    ensures m'.popped == m'.pushed == [[0]] && m'.ring.state == RunState.Filling
  {
    hide Reachable, Runs, Shaped, Apply;
    m := Begin(c);
    m := OneQueued(c, m);
    m := Positioned(c, m);
    var m1 := Closed(c, m);
    m' := TakesBlock(c, m1);
    m' := PopsLast(c, m1, [Step.Peer, LookSlot, LockPeer], m');
    steps := [Step.Peer, LookSlot, LockPeer] + [PopBlock];
  }

  lemma Closed(c: Config, m: Machine) returns (m': Machine)
    requires AtEnd(c, m)
    ensures m' == Apply(c, m, PushNothing) && Closing(c, m') && m'.consumer == m.consumer && m'.ring.state == Complete
    ensures m'.ring.level == m.ring.level && m'.pushed == m.pushed && m'.popped == m.popped
  {
    hide Phased, Watched, Shaped;
    AtEndHolds(c, m);
    ClosingFrom(c, m);
    m' := Apply(c, m, PushNothing);
  }

  lemma PopsLast(c: Config, m0: Machine, steps: seq<Step>, m: Machine) returns (m': Machine)
    requires m0.ring.Indexed() && Closing(c, m) && Runs(c, m0, steps, m)
    requires m.consumer.Reading? && m.ring.level == 1 && c.threshold > 0
    ensures Runs(c, m0, steps + [PopBlock], m') && m'.popped == m'.pushed == m.pushed && m'.ring.state == RunState.Filling
  {
    hide Runs;
    m' := Next(c, m0, steps, m, PopBlock);
  }

  /** The consumer is told too early: it has seen its slot free, then a block and the end are pushed. The block is lost. */
  lemma EndTooEarly(c: Config) returns (m: Machine, m': Machine)
    requires 2 <= c.count && !c.resumes
    ensures AtEnd(c, m) && TooEarly(m) && Reachable(c, m')
    ensures Runs(c, Apply(c, m, PushNothing), [LookComplete], m')
    ensures m'.consumer.Finished? && m'.popped == [] && m'.pushed == [[0]]
  {
    hide Reachable, Runs, Shaped, Apply;
    m := LookFirst(c);
    m := OneQueued(c, m);
    m := Positioned(c, m);
    var m1 := CloseStream(c, m);
    m' := LooksLast(c, m1);
  }

  lemma LooksLast(c: Config, m: Machine) returns (m': Machine)
    requires InRun(c, m) && m.consumer.SawFree? && m.ring.state == Complete
    ensures Reachable(c, m') && Runs(c, m, [LookComplete], m')
    ensures m'.consumer.Finished? && m'.popped == m.popped && m'.pushed == m.pushed
  {
    m' := Reach(c, m, LookComplete);
    NoSteps(c, m');
    assert [LookComplete][1..] == [];
  }

  /** So blocks can be lost at the end if and only if the ring has two slots or more. */
  lemma LossExactly(c: Config)
    requires 0 < c.count && !c.resumes
    ensures (exists m :: Reachable(c, m) && m.consumer.Finished? && m.popped != m.pushed) <==> 2 <= c.count
  {
    hide Apply, Runs, Shaped, Watched, Phased;
    if 2 <= c.count {
      var m, m' := EndTooEarly(c);
    } else {
      forall m | Reachable(c, m) && m.consumer.Finished?
        ensures m.popped == m.pushed
      {
        OneSlot(c, m);
      }
    }
  }

  lemma OneSlot(c: Config, m': Machine)
    requires c.count == 1 && !c.resumes && Reachable(c, m') && m'.consumer.Finished?
    ensures m'.popped == m'.pushed
  {
    hide Apply, Runs;
    var steps :| Runs(c, Start(c), steps, m');
    FreshShape(c.count);
    WatchedRuns(c, Start(c), steps, m');
    NoSteps(c, Start(c));
    var m, rest := PassedEnd(c, Start(c), steps, m');
    AtEndHolds(c, m);
    CompleteExactly(c, m, rest, m');
  }
}
