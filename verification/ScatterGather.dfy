/** The scatter-gather ring of src/jitter_sg.c, between one producer and one consumer thread.

    The ring is a circle of slots. `Jitter` holds its fields and runs the critical sections;
    `Ring` is the same state as a value, on which the sections are specified. The machine of
    the two threads that interleave these sections is in ScatterMachine.dfy. */
module ScatterGather {
  import opened Bytes

  datatype SlotState = Free | Pull | Pop | Ready

  /** A slot and the block it holds; the block counts only from `Ready` on. */
  datatype Slot = Slot(state: SlotState, block: seq<byte>)

  datatype RunState = Stop | Filling | Running | Overflow | Flush | Complete

  datatype Ring = Ring(slots: seq<Slot>, inp: nat, outp: nat, level: int, state: RunState) {

    predicate Indexed() {
      inp < |slots| && outp < |slots|
    }

    /** The slot `k` places after `outp`. */
    function At(k: nat): nat
      requires Indexed() && k <= |slots|
    {
      if outp + k < |slots| then outp + k else outp + k - |slots|
    }

    /** The `next` pointer of the circle. */
    function Next(i: nat): (j: nat)
      requires i < |slots|
      ensures j < |slots|
    {
      if i + 1 == |slots| then 0 else i + 1
    }

    /** `_jitter_init`: the first call of either thread leaves STOP. */
    function Started(threshold: nat): Ring {
      if state != Stop then this else this.(state := if threshold == 0 then Running else Filling)
    }

    predicate CanPull()
      requires Indexed()
    {
      slots[inp].state == Free && state != Flush && state != Stop
    }

    function Pulled(): (r: Ring)
      requires Indexed()
      ensures r.Indexed()
    {
      this.(slots := slots[inp := slots[inp].(state := Pull)])
    }

    function Pushed(block: seq<byte>): (r: Ring)
      requires Indexed()
      ensures r.Indexed()
    {
      this.(slots := slots[inp := Slot(Ready, block)], inp := Next(inp), level := level + 1)
    }

    /** Pushing nothing ends the stream. */
    function Ended(): (r: Ring)
      requires Indexed()
      ensures r.Indexed()
    {
      this.(slots := slots[inp := slots[inp].(state := Free)], state := Complete)
    }

    predicate CanPeer()
      requires Indexed()
    {
      state != Filling && slots[outp].state == Ready
    }

    function Peered(): (r: Ring)
      requires Indexed()
      ensures r.Indexed()
    {
      this.(slots := slots[outp := slots[outp].(state := Pop)])
    }

    function Popped(threshold: nat): (r: Ring)
      requires Indexed()
      ensures r.Indexed()
    {
      this.(slots := slots[outp := slots[outp].(state := Free)], outp := Next(outp), level := level - 1,
            state := if level - 1 == 0 && threshold > 0 then Filling else state)
    }

    /** Popping nothing puts the block back. */
    function PutBack(): (r: Ring)
      requires Indexed()
      ensures r.Indexed()
    {
      this.(slots := slots[outp := slots[outp].(state := Ready)])
    }

    /** The blocks between `outp` and `inp`, oldest first. */
    function Queue(n: nat): (q: seq<seq<byte>>)
      requires Indexed() && n <= |slots|
      ensures |q| == n
    {
      seq(n, k requires 0 <= k < n => slots[At(k)].block)
    }

    // ----- the shape that every run keeps -----

    /** What the slot `k` places after `outp` must be. */
    function Expected(k: nat, pulling: bool, popping: bool): SlotState {
      if k < level then (if k == 0 && popping then Pop else Ready)
      else if k == level && pulling then Pull
      else Free
    }

    /** `level` slots from `outp` are ready (the first may be with the consumer), then comes `inp`
        (which may be with the producer), and all the others are free. */
    ghost predicate Shaped(pulling: bool, popping: bool) {
      && Indexed() && 0 <= level <= |slots| && inp == At(level)
      && (pulling ==> level < |slots|)
      && (popping ==> level > 0)
      && forall k :: 0 <= k < |slots| ==> slots[At(k)].state == Expected(k, pulling, popping)
    }

    lemma NextAt(k: nat)
      requires Indexed() && k < |slots|
      ensures At(k) < |slots| && Next(At(k)) == At(k + 1)
    {
    }

    /** The slot at `inp` is free exactly when the ring is neither full nor already pulled. */
    lemma FreeAtIn(pulling: bool, popping: bool)
      requires Shaped(pulling, popping) && |slots| > 0
      ensures slots[inp].state == Free <==> level < |slots| && !pulling
    {
      assert slots[At(0)].state == Expected(0, pulling, popping);
      if level < |slots| {
        assert slots[At(level)].state == Expected(level, pulling, popping);
      }
    }

    lemma ReadyAtOut(pulling: bool, popping: bool)
      requires Shaped(pulling, popping)
      ensures slots[outp].state == Ready <==> level > 0 && !popping
      ensures slots[outp].state == Pop <==> popping
    {
      assert slots[At(0)].state == Expected(0, pulling, popping);
    }

    lemma PulledShape(popping: bool)
      requires Shaped(false, popping) && slots[inp].state == Free
      ensures Pulled().Shaped(true, popping)
      ensures Pulled().Queue(level) == Queue(level)
    {
      FreeAtIn(false, popping);
      var r := Pulled();
      forall k | 0 <= k < |slots|
        ensures r.slots[r.At(k)].state == r.Expected(k, true, popping)
      {
        assert slots[At(k)].state == Expected(k, false, popping);
      }
    }

    lemma PushedShape(block: seq<byte>, popping: bool)
      requires Shaped(true, popping)
      ensures Pushed(block).Shaped(false, popping)
      ensures Pushed(block).Queue(level + 1) == Queue(level) + [block]
    {
      var r := Pushed(block);
      NextAt(level);
      forall k | 0 <= k < |slots|
        ensures r.slots[r.At(k)] == if k == level then Slot(Ready, block) else slots[At(k)]
        ensures r.slots[r.At(k)].state == r.Expected(k, false, popping)
      {
        assert slots[At(k)].state == Expected(k, true, popping);
      }
    }

    lemma EndedShape(popping: bool)
      requires Shaped(true, popping)
      ensures Ended().Shaped(false, popping)
      ensures Ended().Queue(level) == Queue(level)
    {
      var r := Ended();
      forall k | 0 <= k < |slots|
        ensures r.slots[r.At(k)].state == r.Expected(k, false, popping)
      {
        assert slots[At(k)].state == Expected(k, true, popping);
      }
    }

    lemma PeeredShape(pulling: bool)
      requires Shaped(pulling, false) && slots[outp].state == Ready
      ensures Peered().Shaped(pulling, true)
      ensures Peered().Queue(level) == Queue(level)
    {
      ReadyAtOut(pulling, false);
      OutUpdated(Peered(), Pop, pulling, false, true);
    }

    lemma PutBackShape(pulling: bool)
      requires Shaped(pulling, true)
      ensures PutBack().Shaped(pulling, false)
      ensures PutBack().Queue(level) == Queue(level)
    {
      OutUpdated(PutBack(), Ready, pulling, true, false);
    }

    lemma OutUpdated(r: Ring, state': SlotState, pulling: bool, popping: bool, popping': bool)
      requires Shaped(pulling, popping) && level > 0
      requires r == this.(slots := slots[outp := slots[outp].(state := state')])
      requires state' == if popping' then Pop else Ready
      ensures r.Shaped(pulling, popping') && r.Queue(level) == Queue(level)
    {
      forall k | 0 <= k < |slots|
        ensures r.slots[r.At(k)].state == r.Expected(k, pulling, popping')
        ensures r.slots[r.At(k)].block == slots[At(k)].block
      {
        assert slots[At(k)].state == Expected(k, pulling, popping);
      }
    }

    lemma PoppedShape(threshold: nat, pulling: bool)
      requires Shaped(pulling, true)
      ensures Popped(threshold).Shaped(pulling, false)
      ensures Queue(level) == [slots[outp].block] + Popped(threshold).Queue(level - 1)
    {
      var r := Popped(threshold);
      NextAt(0);
      forall k | 0 <= k < |slots|
        ensures r.At(k) == At(k + 1)
        ensures k < |slots| - 1 ==> r.slots[r.At(k)] == slots[At(k + 1)]
        ensures r.slots[r.At(k)].state == r.Expected(k, pulling, false)
      {
        if k < |slots| - 1 {
          assert slots[At(k + 1)].state == Expected(k + 1, pulling, true);
        }
      }
    }
  }

  function Fresh(count: nat): Ring {
    Ring(seq(count, _ => Slot(Free, [])), 0, 0, 0, Stop)
  }

  lemma FreshShape(count: nat)
    requires count > 0
    ensures Fresh(count).Shaped(false, false) && Fresh(count).Queue(0) == []
  {
  }

  datatype Answer = Wait | Refuse | Grant

  /** The mutable ring; each method is one section that runs under the mutex. */
  class Jitter {
    const count: nat
    var thredhold: nat
    const slots: array<Slot>
    var inp: nat
    var outp: nat
    var level: int
    var state: RunState

    ghost predicate Valid()
      reads this
    {
      slots.Length == count > 0 && inp < count && outp < count
    }

    ghost function View(): (r: Ring)
      requires Valid()
      reads this, slots
      ensures r.Indexed() && |r.slots| == count
    {
      Ring(slots[..], inp, outp, level, state)
    }

    constructor (count: nat)
      requires count > 0
      ensures Valid() && fresh(slots) && this.count == count && View() == Fresh(count)
    {
      this.count := count;
      thredhold := 0;
      slots := new Slot[count](_ => Slot(Free, []));
      inp, outp, level, state := 0, 0, 0, Stop;
    }

    /** Leaves STOP, as the first call of `pull` or `peer` does. */
    method Start()
      requires Valid()
      modifies this`state
      ensures View() == old(View().Started(thredhold))
    {
      if state == Stop {
        state := if thredhold == 0 then Running else Filling;
      }
    }

    /** The section of `pull`: sleep while the slot is taken, unless the jitter is flushed. */
    method Pull() returns (answer: Answer)
      requires Valid()
      modifies slots
      ensures answer == Grant <==> old(View().CanPull())
      ensures answer == Wait <==> old(slots[inp].state != Free && state != Flush)
      ensures View() == if answer == Grant then old(View().Pulled()) else old(View())
    {
      if slots[inp].state != Free && state != Flush {
        return Wait;
      }
      if state != Flush && state != Stop && slots[inp].state == Free {
        slots[inp] := slots[inp].(state := SlotState.Pull);
        return Grant;
      }
      return Refuse;
    }

    /** The two sections of `push`: an empty block ends the stream, any other is queued. */
    method Push(block: seq<byte>) returns (accepted: bool)
      requires Valid()
      modifies this`inp, this`level, this`state, slots
      ensures Valid()
      ensures accepted == old(slots[inp].state == SlotState.Pull)
      ensures View() == if !accepted then old(View())
                        else if block == [] then old(View().Ended()) else old(View().Pushed(block))
    {
      if slots[inp].state != SlotState.Pull {
        return false;
      }
      if |block| == 0 {
        slots[inp] := slots[inp].(state := Free);
        state := Complete;
      } else {
        slots[inp] := Slot(Ready, block);
        level := level + 1;
        inp := if inp + 1 == count then 0 else inp + 1;
      }
      return true;
    }

    /** The section of `peer`: sleep while the ring fills or the slot is not ready. */
    method Peer() returns (granted: bool)
      requires Valid()
      modifies slots
      ensures granted == old(View().CanPeer())
      ensures View() == if granted then old(View().Peered()) else old(View())
    {
      if state == Filling || slots[outp].state != Ready {
        return false;
      }
      slots[outp] := slots[outp].(state := SlotState.Pop);
      return true;
    }

    /** The sections of `pop`: nothing puts the block back, a block that was never peered is just freed. */
    method Pop(len: nat)
      requires Valid()
      modifies this`outp, this`level, this`state, slots
      ensures Valid()
      ensures View() == if len == 0 then old(View().PutBack())
                        else if old(state == Stop || slots[outp].state != SlotState.Pop)
                        then old(View().(slots := slots[..][outp := slots[outp].(state := Free)]))
                        else old(View().Popped(thredhold))
    {
      if len == 0 {
        slots[outp] := slots[outp].(state := Ready);
        return;
      }
      if state == Stop || slots[outp].state != SlotState.Pop {
        slots[outp] := slots[outp].(state := Free);
        return;
      }
      slots[outp] := slots[outp].(state := Free);
      level := level - 1;
      outp := if outp + 1 == count then 0 else outp + 1;
      if level == 0 && thredhold > 0 {
        state := Filling;
      }
    }

    /** What the consumer may read, in any state that a run reaches: when it holds a block, all of the oldest one that is
        queued, and otherwise nothing. */
    method Length(ghost pulling: bool, ghost popping: bool) returns (len: int)
      requires Valid() && View().Shaped(pulling, popping)
      ensures popping ==> level > 0 && len == |View().Queue(level)[0]|
      ensures !popping ==> len == -1
    {
      View().ReadyAtOut(pulling, popping);
      len := if slots[outp].state == SlotState.Pop then |slots[outp].block| else -1;
    }
  }
}
