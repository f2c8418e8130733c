/** The two threads of src/jitter_sg.c in place: the locked sections of the jitter, and the unlocked reads and the unlocked
    write of the state between them. Each step does to the fields what ScatterMachine.Apply says. */
module ScatterThreads {
  import opened Bytes
  import opened ScatterGather
  import opened ScatterMachine

  class Threads {
    const config: Config
    const jitter: Jitter
    var producer: ProducerAt
    var consumer: ConsumerAt
    ghost var closed: bool
    ghost var pushed: seq<seq<byte>>
    ghost var popped: seq<seq<byte>>

    ghost predicate Valid()
      reads this, jitter
    {
      jitter.Valid() && jitter.count == config.count && jitter.thredhold == config.threshold
    }

    ghost function View(): (m: Machine)
      requires Valid()
      reads this, jitter, jitter.slots
      ensures m.ring.Indexed()
    {
      Machine(jitter.View(), producer, consumer, closed, pushed, popped)
    }

    constructor (config: Config)
      requires config.count > 0
      ensures Valid() && this.config == config && fresh(jitter) && fresh(jitter.slots)
      ensures View() == ScatterMachine.Start(config)
    {
      this.config := config;
      jitter := new Jitter(config.count);
      producer, consumer, closed, pushed, popped := ProducerAt.Away, ConsumerAt.Away, false, [], [];
      new;
      jitter.thredhold := config.threshold;
    }

    /** The section of `pull`, with the mutex held. */
    method PullSection()
      requires Valid() && jitter.state != Stop && jitter.state != Flush
      modifies this`producer, jitter.slots
      ensures Valid() && View() == ScatterMachine.PullSection(old(View()))
    {
      var answer := jitter.Pull();
      producer := if answer == Grant then ProducerAt.Filling else AsleepOnPush;
    }

    method Pull()
      requires Valid() && Enabled(config, View(), Step.Pull) && jitter.state != Flush
      modifies this`producer, jitter`state, jitter.slots
      ensures Valid() && View() == Apply(config, old(View()), Step.Pull)
    {
      jitter.Start();
      PullSection();
    }

    method PullAgain()
      requires Valid() && Enabled(config, View(), Step.PullAgain) && jitter.state != Stop && jitter.state != Flush
      modifies this`producer, jitter.slots
      ensures Valid() && View() == Apply(config, old(View()), Step.PullAgain)
    {
      PullSection();
    }

    /** The locked part of `push`. */
    method Push(block: seq<byte>)
      requires Valid() && producer.Filling? && Shaped(View())
      modifies this`producer, this`closed, this`pushed
      modifies jitter`inp, jitter`level, jitter`state, jitter.slots
      ensures Valid()
      ensures View() == Apply(config, old(View()), if block == [] then PushNothing else PushBlock(block))
    {
      PulledAtIn(View());
      var accepted := jitter.Push(block);
      producer := Testing;
      if |block| == 0 {
        closed := true;
      } else {
        pushed := pushed + [block];
      }
    }

    /** The unlocked end of `push`: one read of the state or the level, or the write of RUNNING, or the broadcast. */
    method AfterPush() returns (step: Step)
      requires Valid() && producer in {Testing, NotRunning, SawFilling, AtThreshold, ProducerAt.Signalling}
      modifies this`producer, this`consumer, jitter`state
      ensures Valid() && OfProducer(step) && Enabled(config, old(View()), step) && View() == Apply(config, old(View()), step)
    {
      match producer {
        case Testing =>
          producer, step := if jitter.state == Running then ProducerAt.Signalling else NotRunning, TestRunning;
        case NotRunning =>
          producer, step := if jitter.state == RunState.Filling then SawFilling else ProducerAt.Away, TestFilling;
        case SawFilling =>
          producer, step := if jitter.level == jitter.thredhold then AtThreshold else ProducerAt.Away, TestLevel;
        case AtThreshold =>
          jitter.state := Running;
          producer, step := ProducerAt.Away, WriteRunning;
        case Signalling =>
          producer, step := ProducerAt.Away, SignalPeer;
          if consumer == AsleepOnPeer {
            consumer := Locking;
          }
      }
    }

    /** `peer`, up to the section under the mutex: COMPLETE is only looked at when the slot was seen free. */
    method BeforePeer() returns (step: Step)
      requires Valid() && consumer in {ConsumerAt.Away, Looking, SawFree}
      modifies this`consumer, jitter`state
      ensures Valid() && !OfProducer(step) && Enabled(config, old(View()), step) && View() == Apply(config, old(View()), step)
    {
      match consumer {
        case Away =>
          jitter.Start();
          consumer, step := Looking, Step.Peer;
        case Looking =>
          consumer, step := if jitter.slots[jitter.outp].state == Free then SawFree else Locking, LookSlot;
        case SawFree =>
          consumer, step := if jitter.state == Complete then Finished else Locking, LookComplete;
      }
    }

    method Peer()
      requires Valid() && consumer == Locking
      modifies this`consumer, jitter.slots
      ensures Valid() && View() == Apply(config, old(View()), LockPeer)
    {
      var granted := jitter.Peer();
      consumer := if granted then Reading else AsleepOnPeer;
    }

    /** `pop` of the block that the consumer holds; with 0 it is put back. */
    method Pop(len: nat)
      requires Valid() && consumer == Reading && Shaped(View()) && jitter.state != Stop
      modifies this`consumer, this`popped, jitter`outp, jitter`level, jitter`state, jitter.slots
      ensures Valid() && View() == Apply(config, old(View()), if len == 0 then PopNothing else PopBlock)
    {
      View().ring.ReadyAtOut(producer.Filling?, true);
      ghost var block := jitter.slots[jitter.outp].block;
      jitter.Pop(len);
      consumer := ConsumerAt.Signalling;
      if len > 0 {
        popped := popped + [block];
      }
    }

    /** The broadcast that ends `pop`. */
    method AfterPop()
      requires Valid() && consumer == ConsumerAt.Signalling
      modifies this`consumer, this`producer
      ensures Valid() && View() == Apply(config, old(View()), SignalPush)
    {
      consumer := ConsumerAt.Away;
      if producer == AsleepOnPush {
        producer := Retrying;
      }
    }
  }

  lemma PulledAtIn(m: Machine)
    requires Shaped(m) && m.producer.Filling?
    ensures m.ring.slots[m.ring.inp].state == SlotState.Pull
  {
    assert m.ring.slots[m.ring.At(m.ring.level)].state == m.ring.Expected(m.ring.level, true, m.consumer.Reading?);
  }
}
