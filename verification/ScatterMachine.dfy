/** The producer and the consumer thread of src/jitter_sg.c, interleaved on one ring.

    A step is one section under the mutex, one unlocked read or write of the global state, or
    one broadcast. A thread asleep on a condition variable moves only when it is woken; spurious
    wake-ups are allowed as well. */
module ScatterMachine {
  import opened Bytes
  import opened ScatterGather

  datatype ProducerAt =
    | Away             // between two calls
    | Retrying         // woken inside `pull`
    | AsleepOnPush
    | Filling          // holds the slot at `inp`
    | Testing          // has queued its block, and will read the state
    | NotRunning       // has read a state other than RUNNING
    | SawFilling       // has read FILLING, and will read the level
    | AtThreshold      // has read the threshold level, and will write RUNNING
    | Signalling       // has read RUNNING, and will broadcast `condpeer`

  datatype ConsumerAt =
    | Away
    | Looking          // inside `peer`, before the unlocked look at its slot
    | SawFree
    | Locking
    | AsleepOnPeer
    | Reading          // holds the slot at `outp`
    | Signalling       // has popped, and will broadcast `condpush`
    | Finished         // was told that the stream is over

  datatype Machine = Machine(
    ring: Ring,
    producer: ProducerAt,
    consumer: ConsumerAt,
    closed: bool,                // the producer has pushed its empty block
    pushed: seq<seq<byte>>,
    popped: seq<seq<byte>>
  )

  /** `resumes`: does the producer go on pulling after its empty block? */
  datatype Config = Config(count: nat, threshold: nat, resumes: bool)

  datatype Step =
    | Pull | PullAgain | PushBlock(block: seq<byte>) | PushNothing
    | TestRunning | TestFilling | TestLevel | WriteRunning | SignalPeer
    | Peer | LookSlot | LookComplete | LockPeer | PopBlock | PopNothing | SignalPush
    | WakeProducer | WakeConsumer

  function Start(c: Config): Machine {
    Machine(Fresh(c.count), ProducerAt.Away, ConsumerAt.Away, false, [], [])
  }

  predicate Enabled(c: Config, m: Machine, step: Step) {
    match step
    case Pull => m.producer.Away? && (c.resumes || !m.closed)
    case PullAgain => m.producer.Retrying?
    case PushBlock(block) => m.producer.Filling? && block != []
    case PushNothing => m.producer.Filling?
    case TestRunning => m.producer.Testing?
    case TestFilling => m.producer.NotRunning?
    case TestLevel => m.producer.SawFilling?
    case WriteRunning => m.producer.AtThreshold?
    case SignalPeer => m.producer.Signalling?
    case Peer => m.consumer.Away?
    case LookSlot => m.consumer.Looking?
    case LookComplete => m.consumer.SawFree?
    case LockPeer => m.consumer.Locking?
    case PopBlock => m.consumer.Reading?
    case PopNothing => m.consumer.Reading?
    case SignalPush => m.consumer.Signalling?
    case WakeProducer => m.producer.AsleepOnPush?
    case WakeConsumer => m.consumer.AsleepOnPeer?
  }

  /** The section of `pull`, entered with the mutex held. */
  function PullSection(m: Machine): (m': Machine)
    requires m.ring.Indexed()
    ensures m'.ring.Indexed()
  {
    if m.ring.CanPull() then m.(ring := m.ring.Pulled(), producer := ProducerAt.Filling)
    else m.(producer := AsleepOnPush)
  }

  function Apply(c: Config, m: Machine, step: Step): (m': Machine)
    requires m.ring.Indexed() && Enabled(c, m, step)
    ensures m'.ring.Indexed()
  {
    var r := m.ring;
    match step
    case Pull => PullSection(m.(ring := r.Started(c.threshold)))
    case PullAgain => PullSection(m)
    case PushBlock(block) => m.(ring := r.Pushed(block), producer := Testing, pushed := m.pushed + [block])
    case PushNothing => m.(ring := r.Ended(), producer := Testing, closed := true)
    case TestRunning => m.(producer := if r.state == Running then ProducerAt.Signalling else NotRunning)
    case TestFilling => m.(producer := if r.state == RunState.Filling then SawFilling else ProducerAt.Away)
    case TestLevel => m.(producer := if r.level == c.threshold then AtThreshold else ProducerAt.Away)
    case WriteRunning => m.(ring := r.(state := Running), producer := ProducerAt.Away)
    case SignalPeer =>
      m.(producer := ProducerAt.Away, consumer := if m.consumer.AsleepOnPeer? then Locking else m.consumer)
    case Peer => m.(ring := r.Started(c.threshold), consumer := Looking)
    case LookSlot => m.(consumer := if r.slots[r.outp].state == Free then SawFree else Locking)
    case LookComplete => m.(consumer := if r.state == Complete then Finished else Locking)
    case LockPeer =>
      if r.CanPeer() then m.(ring := r.Peered(), consumer := Reading) else m.(consumer := AsleepOnPeer)
    case PopBlock =>
      m.(ring := r.Popped(c.threshold), consumer := ConsumerAt.Signalling, popped := m.popped + [r.slots[r.outp].block])
    case PopNothing => m.(ring := r.PutBack(), consumer := ConsumerAt.Signalling)
    case SignalPush =>
      m.(consumer := ConsumerAt.Away, producer := if m.producer.AsleepOnPush? then Retrying else m.producer)
    case WakeProducer => m.(producer := Retrying)
    case WakeConsumer => m.(consumer := Locking)
  }

  /** `m'` is reached from `m` by running `steps`, each of them enabled in its turn. */
  predicate Runs(c: Config, m: Machine, steps: seq<Step>, m': Machine)
    requires m.ring.Indexed()
    decreases steps
  {
    if steps == [] then m == m'
    else Enabled(c, m, steps[0]) && Runs(c, Apply(c, m, steps[0]), steps[1..], m')
  }

  ghost predicate Reachable(c: Config, m: Machine)
    requires c.count > 0
  {
    exists steps :: Runs(c, Start(c), steps, m)
  }

  // ----- the bounded queue -----

  ghost predicate Shaped(m: Machine) {
    && m.ring.Shaped(m.producer.Filling?, m.consumer.Reading?)
    && m.pushed == m.popped + m.ring.Queue(m.ring.level)
  }

  predicate OfProducer(step: Step) {
    match step
    case Pull => true
    case PullAgain => true
    case PushBlock(_) => true
    case PushNothing => true
    case TestRunning => true
    case TestFilling => true
    case TestLevel => true
    case WriteRunning => true
    case SignalPeer => true
    case WakeProducer => true
    case _ => false
  }

  lemma ShapedStep(c: Config, m: Machine, step: Step)
    requires Shaped(m) && |m.ring.slots| > 0 && Enabled(c, m, step)
    ensures Shaped(Apply(c, m, step)) && |Apply(c, m, step).ring.slots| == |m.ring.slots|
  {
    hide Apply, Enabled;
    if OfProducer(step) {
      ShapedProducer(c, m, step);
    } else {
      ShapedConsumer(c, m, step);
    }
  }

  lemma ShapedProducer(c: Config, m: Machine, step: Step)
    requires Shaped(m) && |m.ring.slots| > 0 && Enabled(c, m, step) && OfProducer(step)
    ensures Shaped(Apply(c, m, step)) && |Apply(c, m, step).ring.slots| == |m.ring.slots|
  {
    var r := m.ring;
    var popping := m.consumer.Reading?;
    match step
    case Pull =>
      SameSlots(r, r.Started(c.threshold), false, popping);
      ShapedPull(m.(ring := r.Started(c.threshold)));
    case PullAgain => ShapedPull(m);
    case PushBlock(block) => ShapedPush(m, block);
    case PushNothing => r.EndedShape(popping);
    case WriteRunning => SameSlots(r, r.(state := Running), false, popping);
    case _ =>
  }

  lemma ShapedPull(m: Machine)
    requires Shaped(m) && |m.ring.slots| > 0 && !m.producer.Filling?
    ensures Shaped(PullSection(m)) && |PullSection(m).ring.slots| == |m.ring.slots|
  {
    if m.ring.CanPull() {
      m.ring.PulledShape(m.consumer.Reading?);
    }
  }

  lemma ShapedPush(m: Machine, block: seq<byte>)
    requires Shaped(m) && m.producer.Filling?
    ensures Shaped(m.(ring := m.ring.Pushed(block), producer := Testing, pushed := m.pushed + [block]))
  {
    m.ring.PushedShape(block, m.consumer.Reading?);
    QueueGrows(m.popped, m.ring.Queue(m.ring.level), block);
  }

  lemma ShapedConsumer(c: Config, m: Machine, step: Step)
    requires Shaped(m) && |m.ring.slots| > 0 && Enabled(c, m, step) && !OfProducer(step)
    ensures Shaped(Apply(c, m, step)) && |Apply(c, m, step).ring.slots| == |m.ring.slots|
  {
    var r := m.ring;
    var pulling := m.producer.Filling?;
    match step
    case Peer => SameSlots(r, r.Started(c.threshold), pulling, false);
    case LockPeer =>
      if r.CanPeer() {
        r.PeeredShape(pulling);
      }
    case PopBlock => ShapedPop(c, m);
    case PopNothing => r.PutBackShape(pulling);
    case _ =>
  }

  lemma ShapedPop(c: Config, m: Machine)
    requires Shaped(m) && m.consumer.Reading?
    ensures var r := m.ring;
      Shaped(m.(ring := r.Popped(c.threshold), consumer := ConsumerAt.Signalling, popped := m.popped + [r.slots[r.outp].block]))
  {
    var r := m.ring;
    r.PoppedShape(c.threshold, m.producer.Filling?);
    QueueShrinks(m.popped, r.slots[r.outp].block, r.Popped(c.threshold).Queue(r.level - 1));
  }

  lemma SameSlots(r: Ring, r': Ring, pulling: bool, popping: bool)
    requires r.Shaped(pulling, popping) && r' == r.(state := r'.state)
    ensures r'.Shaped(pulling, popping) && r'.Queue(r.level) == r.Queue(r.level)
  {
    forall k | 0 <= k < |r.slots|
      ensures r'.At(k) == r.At(k) && r'.slots[r'.At(k)].state == r'.Expected(k, pulling, popping)
    {
      assert r.slots[r.At(k)].state == r.Expected(k, pulling, popping);
    }
  }

  lemma QueueGrows(popped: seq<seq<byte>>, queue: seq<seq<byte>>, block: seq<byte>)
    ensures (popped + queue) + [block] == popped + (queue + [block])
  {
  }

  lemma QueueShrinks(popped: seq<seq<byte>>, block: seq<byte>, queue: seq<seq<byte>>)
    ensures popped + ([block] + queue) == (popped + [block]) + queue
  {
  }

  lemma {:induction false} ShapedRuns(c: Config, m: Machine, steps: seq<Step>, m': Machine)
    requires Shaped(m) && |m.ring.slots| == c.count > 0 && Runs(c, m, steps, m')
    ensures Shaped(m') && |m'.ring.slots| == c.count
    decreases steps
  {
    if steps != [] {
      ShapedStep(c, m, steps[0]);
      ShapedRuns(c, Apply(c, m, steps[0]), steps[1..], m');
    }
  }

  /** In every run: the ring keeps its shape, so the two threads never hold the same slot, and what was
      popped is a prefix of what was pushed, with at most `count` blocks in between. */
  lemma BoundedQueue(c: Config, m: Machine)
    requires c.count > 0 && Reachable(c, m)
    ensures m.ring.Shaped(m.producer.Filling?, m.consumer.Reading?)
    ensures m.producer.Filling? && m.consumer.Reading? ==> m.ring.inp != m.ring.outp
    ensures m.popped <= m.pushed <= m.popped + m.ring.Queue(m.ring.level) && |m.pushed| - |m.popped| <= c.count
  {
    var steps :| Runs(c, Start(c), steps, m);
    FreshShape(c.count);
    ShapedRuns(c, Start(c), steps, m);
    if m.producer.Filling? && m.consumer.Reading? {
      m.ring.ReadyAtOut(true, true);
      assert m.ring.slots[m.ring.At(m.ring.level)].state == m.ring.Expected(m.ring.level, true, true);
    }
  }

  // ----- the global state and the wake-ups -----

  /** Between filling and running: the level reaches the threshold exactly once, and while it stands there
      the producer is on its way to write RUNNING. */
  ghost predicate Phased(c: Config, m: Machine) {
    var r := m.ring;
    && r.state in {Stop, RunState.Filling, Running, Complete}
    && (r.state == Stop ==> m == Start(c))
    && (r.state == Complete ==> m.closed)
    && (r.state == RunState.Filling ==>
          && c.threshold > 0 && !m.consumer.Reading? && r.level <= c.threshold
          && (r.level == c.threshold ==>
                m.producer in {Testing, NotRunning, SawFilling, AtThreshold}))
    && (m.producer.NotRunning? ==> r.state != Running)
    && (m.producer.SawFilling? ==> r.state == RunState.Filling)
    && (m.producer.AtThreshold? ==> r.state == RunState.Filling && r.level == c.threshold)
  }

  lemma PhasedStep(c: Config, m: Machine, step: Step)
    requires Shaped(m) && Phased(c, m) && |m.ring.slots| == c.count > 0 && Enabled(c, m, step)
    ensures Phased(c, Apply(c, m, step))
  {
    hide Apply, Enabled, Phased;
    if OfProducer(step) {
      PhasedProducer(c, m, step);
    } else {
      PhasedConsumer(c, m, step);
    }
  }

  lemma PhasedProducer(c: Config, m: Machine, step: Step)
    requires Shaped(m) && Phased(c, m) && |m.ring.slots| == c.count > 0 && Enabled(c, m, step) && OfProducer(step)
    ensures Phased(c, Apply(c, m, step))
  {
    m.ring.FreeAtIn(m.producer.Filling?, m.consumer.Reading?);
  }

  lemma PhasedConsumer(c: Config, m: Machine, step: Step)
    requires Shaped(m) && Phased(c, m) && |m.ring.slots| == c.count > 0 && Enabled(c, m, step) && !OfProducer(step)
    ensures Phased(c, Apply(c, m, step))
  {
    m.ring.ReadyAtOut(m.producer.Filling?, m.consumer.Reading?);
  }

  /** A sleeper sleeps for a reason, or somebody is about to wake it. */
  ghost predicate Watched(c: Config, m: Machine) {
    && (m.producer.AsleepOnPush? ==> m.ring.level == c.count || m.consumer.Signalling?)
    && (m.consumer.AsleepOnPeer? && m.ring.state == Running && m.ring.level > c.threshold ==>
          m.producer.Testing? || m.producer.Signalling?)
    && (m.closed && !c.resumes ==> !(m.producer.Filling? || m.producer.AsleepOnPush? || m.producer.Retrying?))
    && (m.consumer.Finished? ==> m.closed)
  }

  lemma WatchedStep(c: Config, m: Machine, step: Step)
    requires Shaped(m) && Phased(c, m) && Watched(c, m) && |m.ring.slots| == c.count > 0 && Enabled(c, m, step)
    ensures Watched(c, Apply(c, m, step))
  {
    hide Apply, Enabled, Phased, Watched;
    if OfProducer(step) {
      WatchedProducer(c, m, step);
    } else {
      WatchedConsumer(c, m, step);
    }
  }

  lemma WatchedProducer(c: Config, m: Machine, step: Step)
    requires Shaped(m) && Phased(c, m) && Watched(c, m) && |m.ring.slots| == c.count > 0
    requires Enabled(c, m, step) && OfProducer(step)
    ensures Watched(c, Apply(c, m, step))
  {
    m.ring.FreeAtIn(m.producer.Filling?, m.consumer.Reading?);
  }

  lemma WatchedConsumer(c: Config, m: Machine, step: Step)
    requires Shaped(m) && Phased(c, m) && Watched(c, m) && |m.ring.slots| == c.count > 0
    requires Enabled(c, m, step) && !OfProducer(step)
    ensures Watched(c, Apply(c, m, step))
  {
    m.ring.ReadyAtOut(m.producer.Filling?, m.consumer.Reading?);
  }

  lemma {:induction false} WatchedRuns(c: Config, m: Machine, steps: seq<Step>, m': Machine)
    requires Shaped(m) && Phased(c, m) && Watched(c, m) && |m.ring.slots| == c.count > 0 && Runs(c, m, steps, m')
    ensures Shaped(m') && Phased(c, m') && Watched(c, m') && |m'.ring.slots| == c.count
    decreases steps
  {
    if steps != [] {
      ShapedStep(c, m, steps[0]);
      PhasedStep(c, m, steps[0]);
      WatchedStep(c, m, steps[0]);
      WatchedRuns(c, Apply(c, m, steps[0]), steps[1..], m');
    }
  }

  /** In every run, a filling ring never holds more than the threshold: the `==` test cannot be jumped over. */
  lemma FillingNeverOvershoots(c: Config, m: Machine)
    requires c.count > 0 && Reachable(c, m) && m.ring.state == RunState.Filling
    ensures m.ring.level <= c.threshold
    ensures m.ring.level == c.threshold ==> m.producer in {Testing, NotRunning, SawFilling, AtThreshold}
  {
    var steps :| Runs(c, Start(c), steps, m);
    FreshShape(c.count);
    WatchedRuns(c, Start(c), steps, m);
  }

  // ----- deadlock -----

  /** Each thread waits for the other one. */
  predicate Deadlocked(m: Machine) {
    m.producer.AsleepOnPush? && m.consumer.AsleepOnPeer?
  }

  lemma NoDeadlock(c: Config, m: Machine)
    requires 0 < c.count && c.threshold < c.count && !c.resumes && Reachable(c, m)
    ensures !Deadlocked(m)
  {
    var steps :| Runs(c, Start(c), steps, m);
    FreshShape(c.count);
    WatchedRuns(c, Start(c), steps, m);
  }

  lemma {:induction false} RunsAppend(c: Config, m: Machine, first: seq<Step>, mid: Machine, second: seq<Step>, m': Machine)
    requires m.ring.Indexed() && mid.ring.Indexed()
    requires Runs(c, m, first, mid) && Runs(c, mid, second, m')
    ensures Runs(c, m, first + second, m')
    decreases first
  {
    hide Apply, Enabled;
    if first == [] {
      assert first + second == second;
    } else {
      assert (first + second)[1..] == first[1..] + second;
      RunsAppend(c, Apply(c, m, first[0]), first[1..], mid, second, m');
    }
  }

  /** One more step at the end of a run. */
  lemma ReachStep(c: Config, m: Machine, step: Step)
    requires c.count > 0 && Reachable(c, m) && m.ring.Indexed() && Enabled(c, m, step)
    ensures Reachable(c, Apply(c, m, step))
  {
    var steps :| Runs(c, Start(c), steps, m);
    var m' := Apply(c, m, step);
    assert Runs(c, m', [], m');
    assert Runs(c, m, [step], m');
    RunsAppend(c, Start(c), steps, m, [step], m');
  }

  /** The consumer sleeps and the producer fills: nothing will flip the state before the ring is full. */
  ghost predicate FillingUp(c: Config, m: Machine, n: nat) {
    && 0 < c.count && Reachable(c, m) && Shaped(m) && |m.ring.slots| == c.count
    && m.producer.Away? && m.consumer.AsleepOnPeer? && m.ring.level == n
    && (|| (m.ring.state == Complete && c.resumes)
        || (m.ring.state == RunState.Filling && n < c.threshold && !m.closed)
        || (m.ring.state == Running && n == c.count <= c.threshold && !m.closed))
  }

  lemma FillOne(c: Config, m: Machine, n: nat) returns (m': Machine)
    requires 0 < c.count && n < c.count && (c.count <= c.threshold || c.resumes) && FillingUp(c, m, n)
    requires m.ring.state == RunState.Filling ==> c.count <= c.threshold
    ensures FillingUp(c, m', n + 1) && (m'.ring.state == RunState.Filling ==> c.count <= c.threshold)
  {
    hide Apply, Reachable, Runs, Shaped;
    m' := TakeSlot(c, m);
    m' := QueueBlock(c, m');
    m' := RunTests(c, m');
  }

  /** The fields that most steps leave alone. */
  predicate SameQueues(m: Machine, m': Machine) {
    m'.closed == m.closed && m'.pushed == m.pushed && m'.popped == m.popped && m'.ring.level == m.ring.level
  }

  ghost predicate InRun(c: Config, m: Machine) {
    0 < c.count && Reachable(c, m) && Shaped(m) && |m.ring.slots| == c.count
  }

  /** The producer takes a free slot. */
  lemma TakeSlot(c: Config, m: Machine) returns (m': Machine)
    requires InRun(c, m) && m.producer.Away? && (c.resumes || !m.closed)
    requires m.ring.level < c.count && m.ring.state != Flush
    ensures InRun(c, m') && m'.producer.Filling? && m'.consumer == m.consumer && SameQueues(m, m')
    ensures m'.ring.state == m.ring.Started(c.threshold).state
  {
    m.ring.FreeAtIn(false, m.consumer.Reading?);
    m' := Reach(c, m, Step.Pull);
  }

  lemma QueueBlock(c: Config, m: Machine) returns (m': Machine)
    requires InRun(c, m) && m.producer.Filling?
    ensures InRun(c, m') && m'.producer.Testing? && m'.consumer == m.consumer && m'.ring.state == m.ring.state
    ensures m'.ring.level == m.ring.level + 1 && m'.closed == m.closed && m'.popped == m.popped
    ensures m'.pushed == m.pushed + [[0]]
  {
    m' := Reach(c, m, PushBlock([0]));
  }

  lemma CloseStream(c: Config, m: Machine) returns (m': Machine)
    requires InRun(c, m) && m.producer.Filling?
    ensures InRun(c, m') && m' == Apply(c, m, PushNothing)
    ensures m'.producer.Testing? && m'.consumer == m.consumer && m'.ring.state == Complete && m'.closed
    ensures m'.ring.level == m.ring.level && m'.pushed == m.pushed && m'.popped == m.popped
  {
    m' := Reach(c, m, PushNothing);
  }

  /** The unlocked tests that end a `push`. */
  lemma RunTests(c: Config, m: Machine) returns (m': Machine)
    requires InRun(c, m) && m.producer.Testing?
    ensures InRun(c, m') && m'.producer.Away? && SameQueues(m, m')
    ensures m'.consumer == if m.ring.state == Running && m.consumer.AsleepOnPeer? then Locking else m.consumer
    ensures m'.ring.state == if m.ring.state == RunState.Filling && m.ring.level == c.threshold then Running else m.ring.state
  {
    hide Reachable, Runs, Shaped;
    m' := Reach(c, m, TestRunning);
    if m.ring.state == Running {
      m' := Reach(c, m', SignalPeer);
    } else {
      m' := Reach(c, m', TestFilling);
      if m.ring.state == RunState.Filling {
        m' := TestTheLevel(c, m');
      }
    }
  }

  lemma TestTheLevel(c: Config, m: Machine) returns (m': Machine)
    requires InRun(c, m) && m.producer.SawFilling?
    ensures InRun(c, m') && m'.producer.Away? && m'.consumer == m.consumer && SameQueues(m, m')
    ensures m'.ring.state == if m.ring.level == c.threshold then Running else m.ring.state
  {
    hide Reachable, Runs, Shaped;
    m' := Reach(c, m, TestLevel);
    if m.ring.level == c.threshold {
      m' := Reach(c, m', WriteRunning);
    }
  }

  lemma Reach(c: Config, m: Machine, step: Step) returns (m': Machine)
    requires 0 < c.count && Reachable(c, m) && Shaped(m) && |m.ring.slots| == c.count && Enabled(c, m, step)
    ensures m' == Apply(c, m, step) && Reachable(c, m') && Shaped(m') && |m'.ring.slots| == c.count
  {
    m' := Apply(c, m, step);
    ShapedStep(c, m, step);
    ReachStep(c, m, step);
  }

  lemma {:induction false} FillUp(c: Config, m: Machine, n: nat) returns (m': Machine)
    requires 0 < c.count && n <= c.count && (c.count <= c.threshold || c.resumes) && FillingUp(c, m, n)
    requires m.ring.state == RunState.Filling ==> c.count <= c.threshold
    ensures Reachable(c, m') && Deadlocked(m')
    decreases c.count - n
  {
    if n < c.count {
      m' := FillOne(c, m, n);
      m' := FillUp(c, m', n + 1);
    } else {
      m.ring.FreeAtIn(false, false);
      m' := Reach(c, m, Step.Pull);
    }
  }

  /** The consumer finds the ring empty and goes to sleep. */
  lemma SleepFirst(c: Config) returns (m: Machine)
    requires 0 < c.count
    ensures Reachable(c, m) && Shaped(m) && |m.ring.slots| == c.count && m.ring.level == 0
    ensures m.producer.Away? && m.consumer.AsleepOnPeer? && !m.closed
    ensures m.ring.state == if c.threshold == 0 then Running else RunState.Filling
  {
    m := LookFirst(c);
    m := Reach(c, m, LookComplete);
    m.ring.ReadyAtOut(false, false);
    m := Reach(c, m, LockPeer);
  }

  /** The consumer looks at its slot before anything was pushed. */
  lemma LookFirst(c: Config) returns (m: Machine)
    requires 0 < c.count
    ensures InRun(c, m) && m.ring.level == 0 && m.pushed == [] && m.popped == []
    ensures m.producer.Away? && m.consumer.SawFree? && !m.closed
    ensures m.ring.state == if c.threshold == 0 then Running else RunState.Filling
  {
    FreshShape(c.count);
    m := Start(c);
    assert Runs(c, m, [], m);
    m := Reach(c, m, Step.Peer);
    m.ring.ReadyAtOut(false, false);
    m := Reach(c, m, LookSlot);
  }

  lemma SomeDeadlock(c: Config) returns (m: Machine)
    requires 0 < c.count && (c.count <= c.threshold || c.resumes)
    ensures Reachable(c, m) && Deadlocked(m)
  {
    hide Apply, Reachable, Runs, Shaped;
    m := SleepFirst(c);
    if c.resumes {
      m := TakeSlot(c, m);
      m := CloseStream(c, m);
      m := RunTests(c, m);
    }
    m := FillUp(c, m, 0);
  }

  /** The two threads can block each other for good exactly when the threshold does not leave a slot free,
      or when the producer goes on after its empty block. */
  lemma DeadlockExactly(c: Config)
    requires 0 < c.count
    ensures (exists m :: Reachable(c, m) && Deadlocked(m)) <==> c.threshold >= c.count || c.resumes
  {
    if c.threshold >= c.count || c.resumes {
      var m := SomeDeadlock(c);
    } else {
      forall m | Reachable(c, m)
        ensures !Deadlocked(m)
      {
        NoDeadlock(c, m);
      }
    }
  }
}
