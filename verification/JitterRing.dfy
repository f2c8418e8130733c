/** The byte ring of src/jitter_ring.c, with the producer running in the consumer's thread.

    One spare block lies before the ring and one after it. `Push` copies what overflowed
    into the rear spare block back to the start; `Peer` moves a short tail in front of the
    start. So every block is written and read contiguously, and the ring is a byte queue. */
module JitterRing {
  import opened Bytes
  import opened Options

  datatype RunState = Stop | Filling | Running | Overflow | Flush

  // ----- the producer -----

  /** The code behind the `produce` callback. It hands over its stream one chunk at a time,
      and may scribble over the whole block it is given. */
  class Producer {
    var chunks: seq<seq<byte>>
    ghost var produced: seq<byte>

    ghost predicate Fits(size: nat)
      reads this
    {
      forall i :: 0 <= i < |chunks| ==> 1 <= |chunks[i]| <= size
    }

    method Produce(buffer: array<byte>, at: nat, size: nat) returns (len: int)
      requires Fits(size) && at + size <= buffer.Length
      modifies this, buffer
      ensures Fits(size)
      ensures forall k :: 0 <= k < buffer.Length && !(at <= k < at + size) ==> buffer[k] == old(buffer[k])
      ensures old(chunks) == [] ==> len == 0 && chunks == [] && produced == old(produced)
      ensures old(chunks) != [] ==>
        && 0 < len <= size && buffer[at..at + len] == old(chunks[0])
        && chunks == old(chunks[1..]) && produced == old(produced + chunks[0])
    {
      if chunks == [] {
        return 0;
      }
      var chunk := chunks[0];
      for i := 0 to |chunk|
        invariant forall k :: 0 <= k < buffer.Length && !(at <= k < at + size) ==> buffer[k] == old(buffer[k])
        invariant buffer[at..at + i] == chunk[..i]
        invariant chunks == old(chunks) && produced == old(produced)
      {
        buffer[at + i] := chunk[i];
      }
      chunks := chunks[1..];
      produced := produced + chunk;
      return |chunk|;
    }
  }

  /** How many chunks a filling ring takes: it stops with the one that reaches the threshold. */
  ghost function Taken(level: nat, chunks: seq<seq<byte>>, threshold: nat): nat
    decreases chunks
  {
    if chunks == [] then 0
    else if level + |chunks[0]| >= threshold then 1
    else 1 + Taken(level + |chunks[0]|, chunks[1..], threshold)
  }

  lemma FlattenFirst(chunks: seq<seq<byte>>, queue: seq<byte>)
    ensures queue + Flatten(chunks[..0]) == queue
    ensures chunks != [] ==> queue + Flatten(chunks[..1]) == queue + chunks[0]
  {
    if chunks != [] {
      assert chunks[..1] == [] + [chunks[0]];
      FlattenAppend([], chunks[0]);
      assert [] + chunks[0] == chunks[0];
    }
  }

  /** `memcpy` inside one buffer: source and target must not overlap. */
  method CopyWithin(buffer: array<byte>, target: nat, source: nat, n: nat)
    requires target + n <= source <= source + n <= buffer.Length
    modifies buffer
    ensures buffer[target..target + n] == old(buffer[source..source + n])
    ensures forall k :: 0 <= k < buffer.Length && !(target <= k < target + n) ==> buffer[k] == old(buffer[k])
  {
    for i := 0 to n
      invariant buffer[target..target + i] == old(buffer[source..source + i])
      invariant forall k :: 0 <= k < buffer.Length && !(target <= k < target + i) ==> buffer[k] == old(buffer[k])
    {
      buffer[target + i] := buffer[source + i];
    }
  }

  /** Whole blocks, in bytes. */
  function Blocks(n: nat, size: nat): (bytes: nat) {
    n * size
  }

  lemma BlocksGrow(n: nat, m: nat, size: nat)
    requires n <= m
    ensures Blocks(n, size) <= Blocks(m, size) && Blocks(n + 1, size) == Blocks(n, size) + size
  {
    assert (m - n) * size >= 0;
    assert m * size == n * size + (m - n) * size;
  }

  /** The first `n` chunks came behind `base`; `rest` is still to come. */
  ghost predicate Took(chunks: seq<seq<byte>>, n: nat, rest: seq<seq<byte>>, base: seq<byte>, now: seq<byte>) {
    n <= |chunks| && rest == chunks[n..] && now == base + Flatten(chunks[..n])
  }

  lemma TakenStep(level: nat, chunks: seq<seq<byte>>, limit: nat)
    ensures chunks == [] ==> Taken(level, chunks, limit) == 0
    ensures chunks != [] ==>
      && (level + |chunks[0]| >= limit ==> Taken(level, chunks, limit) == 1)
      && (level + |chunks[0]| < limit ==>
            Taken(level, chunks, limit) == 1 + Taken(level + |chunks[0]|, chunks[1..], limit))
  {
  }

  lemma TookNothing(chunks: seq<seq<byte>>, base: seq<byte>)
    ensures Took(chunks, 0, chunks, base, base) && base + Flatten(chunks[..0]) == base
  {
    assert base + Flatten(chunks[..0]) == base;
  }

  lemma TookNext(chunks: seq<seq<byte>>, n: nat, rest: seq<seq<byte>>, base: seq<byte>, now: seq<byte>)
    requires Took(chunks, n, rest, base, now) && rest != []
    ensures Took(chunks, n + 1, rest[1..], base, now + rest[0])
  {
    assert chunks[..n + 1] == chunks[..n] + [chunks[n]];
    FlattenAppend(chunks[..n], chunks[n]);
  }

  lemma TookSome(chunks: seq<seq<byte>>, n: nat, rest: seq<seq<byte>>, base: seq<byte>, now: seq<byte>)
    requires Took(chunks, n, rest, base, now)
    ensures n <= |chunks| && rest == chunks[n..] && now == base + Flatten(chunks[..n])
    ensures |now| <= |base| + |Flatten(chunks)| && (rest == [] ==> |now| == |base| + |Flatten(chunks)|)
  {
    assert chunks == chunks[..n] + chunks[n..];
    FlattenConcat(chunks[..n], chunks[n..]);
  }

  // ----- where the queue lies -----

  lemma SliceAppend(buffer: seq<byte>, i: nat, j: nat, k: nat)
    requires i <= j <= k <= |buffer|
    ensures buffer[i..j] + buffer[j..k] == buffer[i..k]
  {
  }

  lemma SliceOfSlice(buffer: seq<byte>, i: nat, j: nat, n: nat, size: nat)
    requires n <= size && i + size <= j <= |buffer|
    ensures buffer[i..j][n..] == buffer[i + n..j] && buffer[i..j][..size] == buffer[i..i + size]
  {
  }

  lemma DropOfConcat(a: seq<byte>, b: seq<byte>, n: nat, size: nat)
    requires n <= size <= |a|
    ensures (a + b)[n..] == a[n..] + b && (a + b)[..size] == a[..size]
  {
  }

  /** A tail copied in front of the start stands before what is there. */
  lemma TailJoined(before: seq<byte>, after: seq<byte>, i: nat, start: nat, end: nat, j: nat)
    requires end - start <= i <= end <= |before| == |after| && start <= j <= end && end - i <= start
    requires after[start - (end - i)..start] == before[i..end]
    requires forall k :: start <= k < |before| ==> after[k] == before[k]
    ensures after[start - (end - i)..j] == before[i..end] + before[start..j] && after[start..j] == before[start..j]
  {
    SliceAppend(after, start - (end - i), start, j);
  }

  lemma NothingBefore(a: seq<byte>, b: seq<byte>)
    requires a == []
    ensures a + b == b
  {
  }

  lemma Associates(a: seq<byte>, b: seq<byte>, c: seq<byte>)
    ensures (a + b) + c == a + (b + c)
  {
  }

  /** The two fixed marks and the two moving positions, as offsets in the buffer. */
  datatype Layout = Layout(start: nat, end: nat, inp: nat, outp: nat, level: nat) {

    /** The unread bytes do not wrap. */
    predicate Linear() {
      outp + level == inp
    }

    predicate Placed() {
      && start <= inp < end && outp <= end && level <= end - start
      && (|| Linear()
          || (start <= outp && inp <= outp && level == (end - outp) + (inp - start))
          || (outp == end && inp == start && level == end - start))
    }

    /** The queue, in the order in which it will be read. */
    function Queue(buffer: seq<byte>): (q: seq<byte>)
      requires Placed() && end <= |buffer|
      ensures |q| == level
    {
      if Linear() then buffer[outp..inp]
      else if outp == end then buffer[start..start + level]
      else buffer[outp..end] + buffer[start..inp]
    }

    /** How much of a queue that wraps lies behind the start. */
    function Wrapped(): int {
      level - (end - outp)
    }

    lemma QueueIs(buffer: seq<byte>)
      requires Placed() && end <= |buffer|
      ensures if Linear() then outp <= inp && Queue(buffer) == buffer[outp..inp]
              else 0 <= Wrapped() <= end - start && Queue(buffer) == buffer[outp..end] + buffer[start..start + Wrapped()]
    {
      if outp == end && !Linear() {
        NothingBefore(buffer[end..end], buffer[start..start + level]);
      }
    }

    /** A block fits behind `inp` without touching an unread byte. */
    predicate WindowFree(size: nat) {
      level + size <= end - start && (!Linear() ==> inp + size <= outp)
    }

    lemma RoomForBlock(size: nat)
      requires Placed() && 1 <= size && level + size <= end - start
      ensures WindowFree(size)
    {
    }

    /** Bytes written behind `inp` leave the queue as it is. */
    lemma Untouched(size: nat, before: seq<byte>, after: seq<byte>)
      requires 1 <= size && Placed() && WindowFree(size) && inp + size <= |before| == |after| && end <= |before|
      requires forall k :: 0 <= k < |before| && !(inp <= k < inp + size) ==> after[k] == before[k]
      ensures Queue(after) == Queue(before)
    {
    }

    function Advanced(len: nat): Layout {
      var inp' := inp + len;
      Layout(start, end, if inp' >= end then start + (inp' - end) else inp', outp, level + len)
    }

    /** Advancing without overflow appends what was written at `inp`. */
    lemma AdvanceInside(len: nat, buffer: seq<byte>)
      requires Placed() && 0 < len && level + len <= end - start && inp + len < end <= |buffer|
      ensures Advanced(len).Placed()
      ensures Advanced(len).Queue(buffer) == Queue(buffer) + buffer[inp..inp + len]
    {
      hide Queue, Placed;
      InsidePlaced(len);
      QueueIs(buffer);
      Advanced(len).QueueIs(buffer);
      if Linear() {
        SliceAppend(buffer, outp, inp, inp + len);
      } else {
        SliceAppend(buffer, start, inp, inp + len);
        Associates(buffer[outp..end], buffer[start..inp], buffer[inp..inp + len]);
      }
    }

    lemma InsidePlaced(len: nat)
      requires Placed() && 0 < len && level + len <= end - start && inp + len < end
      ensures Advanced(len).Placed() && (Advanced(len).Linear() <==> Linear())
      ensures start <= inp && outp <= end && (Linear() ==> outp <= inp) && (!Linear() ==> start + Wrapped() == inp)
    {
    }

    /** `after` is `before` with what overflowed past the end copied to the start. */
    ghost predicate Overflowed(len: nat, before: seq<byte>, after: seq<byte>)
      requires end <= inp + len <= |before| == |after|
    {
      var over := inp + len - end;
      && start + over <= end
      && after[start..start + over] == before[end..end + over]
      && forall k :: 0 <= k < |before| && !(start <= k < start + over) ==> after[k] == before[k]
    }

    /** Advancing past the end appends it too, once the overflow has been copied to the start. */
    lemma AdvanceAround(len: nat, before: seq<byte>, after: seq<byte>)
      requires Placed() && 0 < len && level + len <= end - start
      requires end <= inp + len <= |before| == |after| && Overflowed(len, before, after)
      ensures Advanced(len).Placed()
      ensures Advanced(len).Queue(after) == Queue(before) + before[inp..inp + len]
    {
      if Linear() {
        AdvanceAroundLinear(len, before, after);
      } else {
        AdvanceAroundFull(len, before, after);
      }
    }

    lemma AdvanceAroundFull(len: nat, before: seq<byte>, after: seq<byte>)
      requires Placed() && !Linear() && 0 < len && level + len <= end - start
      requires end <= inp + len <= |before| == |after| && Overflowed(len, before, after)
      ensures Advanced(len).Placed()
      ensures Advanced(len).Queue(after) == Queue(before) + before[inp..inp + len]
    {
      hide Queue;
      assert inp + len == end && outp == end;
      assert after == before;
      QueueIs(before);
      Advanced(len).QueueIs(before);
      SliceAppend(before, start, inp, inp + len);
      Associates(before[outp..end], before[start..inp], before[inp..inp + len]);
    }

    lemma AdvanceAroundLinear(len: nat, before: seq<byte>, after: seq<byte>)
      requires Placed() && Linear() && 0 < len && level + len <= end - start
      requires end <= inp + len <= |before| == |after| && Overflowed(len, before, after)
      ensures Advanced(len).Placed()
      ensures Advanced(len).Queue(after) == Queue(before) + before[inp..inp + len]
    {
      hide Queue, Placed, Overflowed;
      var over := inp + len - end;
      AroundPlaced(len);
      OverflowCopied(len, before, after);
      QueueIs(before);
      Advanced(len).QueueIs(after);
      SliceAppend(before, inp, end, end + over);
      SliceAppend(before, outp, inp, end);
      Associates(before[outp..inp], before[inp..end], before[end..end + over]);
    }

    lemma AroundPlaced(len: nat)
      requires Placed() && Linear() && 0 < len && level + len <= end - start && end <= inp + len
      ensures var over := inp + len - end; 0 <= over && start + over <= outp <= inp < end
      ensures Advanced(len).Placed() && !Advanced(len).Linear() && Advanced(len).Wrapped() == inp + len - end
    {
    }

    lemma OverflowCopied(len: nat, before: seq<byte>, after: seq<byte>)
      requires end <= inp + len <= |before| == |after| && Overflowed(len, before, after)
      requires start + (inp + len - end) <= outp <= end
      ensures after[start..start + (inp + len - end)] == before[end..inp + len] && after[outp..end] == before[outp..end]
    {
    }

    function TailMoved(): Layout
      requires start >= end - outp >= 0
    {
      Layout(start, end, inp, start - (end - outp), level)
    }

    /** `after` is `before` with the bytes from `outp` to the end copied in front of the start. */
    ghost predicate TailCopied(before: seq<byte>, after: seq<byte>)
      requires 0 <= end - outp <= start <= end <= |before| == |after|
    {
      var tail := end - outp;
      && after[start - tail..start] == before[outp..end]
      && forall k :: 0 <= k < |before| && !(start - tail <= k < start) ==> after[k] == before[k]
    }

    lemma TailPlaced(size: nat)
      requires Placed() && 1 <= size == start && start + size <= end
      requires !Linear() && outp + size > end
      ensures start <= outp <= end && TailMoved().Placed() && start <= inp < end
      ensures level == (end - outp) + (inp - start) || (outp == end && inp == start && level == end - start)
      ensures TailMoved().Linear() <==> level == (end - outp) + (inp - start)
    {
      MoveTailExact(size);
    }

    /** A tail too short to read a block from may be moved in front of the start, if the queue wraps. */
    lemma MoveTail(size: nat, before: seq<byte>, after: seq<byte>)
      requires Placed() && 1 <= size == start && start + size <= end <= |before| == |after|
      requires !Linear() && outp + size > end && TailCopied(before, after)
      ensures start <= outp && TailMoved().Placed()
      ensures TailMoved().Queue(after) == Queue(before)
    {
      hide Placed, Queue, TailCopied;
      TailPlaced(size);
      var tail, j := end - outp, start + Wrapped();
      TailOver(before, after);
      QueueIs(before);
      TailMoved().QueueIs(after);
      TailJoined(before, after, outp, start, end, j);
      if outp == end {
        NothingBefore(before[end..end], before[start..j]);
        SliceAppend(after, start, end, end);
      }
    }

    lemma TailOver(before: seq<byte>, after: seq<byte>)
      requires 0 <= end - outp <= start <= end <= |before| == |after| && TailCopied(before, after)
      ensures after[start - (end - outp)..start] == before[outp..end]
      ensures forall k :: start <= k < |before| ==> after[k] == before[k]
    {
    }

    /** The moved tail is where the queue begins exactly when the queue wraps. It does if there is a block to read. */
    lemma MoveTailExact(size: nat)
      requires Placed() && 1 <= size == start && start + size <= end && outp + size > end
      ensures start <= outp
      ensures TailMoved().Placed() <==> !Linear()
      ensures level >= size ==> !Linear()
    {
      assert start <= outp;
      if Linear() {
        assert TailMoved().outp + level + (end - start) == inp;
      }
    }

    function Dropped(n: nat): Layout
      requires n <= level
    {
      Layout(start, end, inp, outp + n, level - n)
    }

    lemma Drop(n: nat, size: nat, buffer: seq<byte>)
      requires Placed() && n <= size <= level && outp + size <= end <= |buffer| && 1 <= size
      ensures Dropped(n).Placed()
      ensures Dropped(n).Queue(buffer) == Queue(buffer)[n..]
    {
      hide Queue, Placed;
      DropPlaced(n, size);
      QueueIs(buffer);
      Dropped(n).QueueIs(buffer);
      if Linear() {
        SliceOfSlice(buffer, outp, inp, n, size);
      } else {
        SliceOfSlice(buffer, outp, end, n, size);
        DropOfConcat(buffer[outp..end], buffer[start..start + Wrapped()], n, size);
      }
    }

    lemma DropPlaced(n: nat, size: nat)
      requires Placed() && n <= size <= level && outp + size <= end && 1 <= size
      ensures Dropped(n).Placed() && (Dropped(n).Linear() <==> Linear()) && Dropped(n).Wrapped() == Wrapped()
      ensures Linear() ==> outp + size <= inp
    {
    }

    lemma Head(size: nat, buffer: seq<byte>)
      requires Placed() && size <= level && outp + size <= end <= |buffer| && 1 <= size
      ensures buffer[outp..outp + size] == Queue(buffer)[..size]
    {
      if Linear() {
        SliceOfSlice(buffer, outp, inp, 0, size);
      } else {
        SliceOfSlice(buffer, outp, end, 0, size);
        DropOfConcat(buffer[outp..end], buffer[start..inp], 0, size);
      }
    }
  }

  // ----- the ring -----

  class Ring {
    const count: nat
    const size: nat
    const thredhold: nat
    const buffer: array<byte>
    const start: nat
    const end: nat
    var inp: nat
    var outp: nat
    var level: nat
    var state: RunState

    function Marks(): Layout
      reads this
    {
      Layout(start, end, inp, outp, level)
    }

    ghost predicate Shape() {
      && 1 <= size && 1 <= thredhold < count
      && start == size && end == start + Blocks(count, size) && buffer.Length == end + size
    }

    ghost predicate Valid()
      reads this
    {
      && Shape()
      && Marks().Placed()
      && (state.Running? ==> level >= size)
      && (state.Filling? ==> level <= Blocks(thredhold, size))
    }

    /** The states between which an unflushed ring moves. */
    predicate Live()
      reads this
    {
      state == Filling || state == Running
    }

    /** The queue that the ring represents. */
    function Unread(): (q: seq<byte>)
      requires Shape() && Marks().Placed()
      reads this, buffer
      ensures |q| == level
    {
      Marks().Queue(buffer[..])
    }

    constructor (count: nat, size: nat, thredhold: nat)
      requires 1 <= size && 1 <= thredhold < count
      ensures Valid() && fresh(buffer)
      ensures this.count == count && this.size == size && this.thredhold == thredhold
      ensures Unread() == [] && state == Filling && inp == outp == start
    {
      this.count, this.size, this.thredhold := count, size, thredhold;
      BlocksGrow(1, count, size);
      buffer := new byte[(count + 2) * size];
      start, end := size, (count + 1) * size;
      inp, outp, level := size, size, 0;
      state := Filling;
    }

    /** How much may be read at once. */
    function Length(): nat
      reads this
    {
      if level < size then level else size
    }

    /** The write position, when a whole block can still be written; a threaded producer waits otherwise. */
    method Pull() returns (r: Option<nat>)
      requires Valid()
      ensures r == if Live() && level + size <= Blocks(count, size) then Some(inp) else None
      ensures r.Some? ==> Marks().WindowFree(size) && inp + size <= buffer.Length
    {
      if !(state == Running || state == Filling) || level + size > size * count {
        return None;
      }
      return Some(inp);
    }

    /** Takes over the `len` bytes that were written at `inp`. */
    method Push(len: nat)
      requires Shape() && Marks().Placed() && 1 <= len <= size && level + len <= Blocks(count, size)
      modifies this, buffer
      ensures Shape() && Marks().Placed() && Marks() == old(Marks().Advanced(len))
      ensures level == old(level) + len && outp == old(outp)
      ensures Unread() == old(Unread()) + old(buffer[inp..inp + len])
      ensures state == if old(state).Filling? && level >= Blocks(thredhold, size) then Running else old(state)
    {
      Place(len);
      if state == Filling && level >= thredhold * size {
        state := Running;
      }
    }

    /** The part of `Push` under the mutex: advance, and bring the overflow back to the start. */
    method Place(len: nat)
      requires Shape() && Marks().Placed() && 1 <= len <= size && level + len <= Blocks(count, size)
      modifies this`level, this`inp, buffer
      ensures Marks() == old(Marks().Advanced(len)) && Marks().Placed()
      ensures Unread() == old(Unread()) + old(buffer[inp..inp + len])
    {
      hide Blocks, Layout.Queue, Layout.Placed, Layout.Overflowed;
      ghost var was, before := Marks(), buffer[..];
      Bounds();
      Window(inp, len);
      level := level + len;
      inp := inp + len;
      if inp >= end {
        Wrap(was, len);
        was.AdvanceAround(len, before, buffer[..]);
      } else {
        was.AdvanceInside(len, before);
        assert buffer[..] == before;
      }
      assert Marks() == was.Advanced(len);
    }

    lemma Window(i: nat, len: nat)
      requires i + len <= buffer.Length
      ensures buffer[..][i..i + len] == buffer[i..i + len]
    {
    }

    /** Copies what lies past the end back to the start. */
    method Wrap(ghost was: Layout, ghost len: nat)
      requires was.start == start == size && was.end == end && start + size <= end && buffer.Length == end + size
      requires inp == was.inp + len >= end && was.inp < end && len <= size
      modifies this`inp, buffer
      ensures inp == start + (was.inp + len - end) && was.Overflowed(len, old(buffer[..]), buffer[..])
    {
      hide Layout.Overflowed;
      ghost var before := buffer[..];
      var over := inp - end;
      CopyWithin(buffer, start, end, over);
      inp := start + over;
      CopiedOverflow(was, len, before, buffer[..]);
    }

    lemma Bounds()
      requires Shape() && Marks().Placed()
      ensures start <= inp < end && outp <= end && start + size <= end && buffer.Length == end + size
      ensures level <= end - start == Blocks(count, size)
    {
      BlocksGrow(1, count, size);
    }

    lemma CopiedOverflow(was: Layout, len: nat, before: seq<byte>, after: seq<byte>)
      requires was.start == start && was.end == end <= was.inp + len <= |before| == |after|
      requires var over := was.inp + len - end;
        && start + over <= end
        && after[start..start + over] == before[end..end + over]
        && forall k :: 0 <= k < |before| && !(start <= k < start + over) ==> after[k] == before[k]
      ensures was.Overflowed(len, before, after)
    {
    }

    /** One turn of the producing loop. */
    method Refill(p: Producer) returns (len: int)
      requires Valid() && Live() && p.Fits(size) && level <= Blocks(count - 1, size)
      modifies this, buffer, p
      ensures Valid() && Live() && p.Fits(size) && outp == old(outp)
      ensures old(p.chunks) == [] ==> len == 0 && p.chunks == [] && p.produced == old(p.produced)
      ensures old(p.chunks) == [] ==> Unread() == old(Unread()) && state == old(state)
      ensures old(p.chunks) != [] ==>
        && len > 0 && p.chunks == old(p.chunks[1..]) && p.produced == old(p.produced + p.chunks[0])
        && Unread() == old(Unread()) + old(p.chunks[0])
        && state == if level >= Blocks(thredhold, size) then Running else old(state)
    {
      hide Layout.Queue, Layout.Placed, Blocks, Producer.Fits;
      len := Ask(p);
      if len > 0 {
        Push(len);
        Thresholds();
      }
    }

    /** The producer writes its next chunk at the write position. */
    method Ask(p: Producer) returns (len: int)
      requires Valid() && p.Fits(size) && level <= Blocks(count - 1, size)
      modifies buffer, p
      ensures Valid() && p.Fits(size) && Unread() == old(Unread()) && level + size <= Blocks(count, size)
      ensures inp + size <= buffer.Length
      ensures old(p.chunks) == [] ==> len == 0 && p.chunks == [] && p.produced == old(p.produced)
      ensures old(p.chunks) != [] ==>
        && 1 <= len <= size && p.chunks == old(p.chunks[1..]) && p.produced == old(p.produced + p.chunks[0])
        && buffer[inp..inp + len] == old(p.chunks[0])
    {
      hide Layout.Queue, Layout.Placed, Blocks;
      ghost var was, before := Marks(), buffer[..];
      Room();
      len := p.Produce(buffer, inp, size);
      was.Untouched(size, before, buffer[..]);
    }

    /** Whenever the level allows it, a whole block fits behind `inp`. */
    lemma Room()
      requires Shape() && Marks().Placed() && level <= Blocks(count - 1, size)
      ensures inp + size <= buffer.Length && level + size <= Blocks(count, size)
      ensures Marks().WindowFree(size)
    {
      BlocksGrow(count - 1, count, size);
      Marks().RoomForBlock(size);
    }

    lemma Thresholds()
      requires Shape()
      ensures size <= Blocks(thredhold, size) <= Blocks(count - 1, size)
    {
      BlocksGrow(thredhold, count - 1, size);
      BlocksGrow(1, thredhold, size);
    }

    /** The stream ends before `Peer` has a block to give: in RUNNING there is no chunk for its one turn, in FILLING
        what is left does not reach the threshold. Nearly full, it gives a block without a turn. */
    predicate Starves(running: bool, level: nat, chunks: seq<seq<byte>>)
      requires count > 0
    {
      && level <= Blocks(count - 1, size)
      && (chunks == [] || (!running && level + |Flatten(chunks)| < Blocks(thredhold, size)))
    }

    /** The producing loop of `Peer`: at least one chunk, then until the threshold is reached. */
    method Fill(p: Producer) returns (ok: bool)
      requires Valid() && Live() && p.Fits(size) && level <= Blocks(count - 1, size)
      modifies this, buffer, p
      ensures Valid() && Live() && p.Fits(size) && outp == old(outp)
      ensures ok ==> state.Running?
      ensures !ok ==> p.chunks == [] && state == old(state)
      ensures !ok <==> old(Starves(state.Running?, level, p.chunks))
      ensures var n := if old(state).Running? && old(p.chunks) != [] then 1
                       else Taken(old(level), old(p.chunks), Blocks(thredhold, size));
        && n <= |old(p.chunks)| && p.chunks == old(p.chunks)[n..]
        && p.produced == old(p.produced) + Flatten(old(p.chunks)[..n])
        && Unread() == old(Unread()) + Flatten(old(p.chunks)[..n])
    {
      hide Layout.Queue, Layout.Placed, Flatten, Blocks, Took, Taken, Producer.Fits;
      ghost var chunks, produced, queue, limit := p.chunks, p.produced, Unread(), Blocks(thredhold, size);
      TookNothing(chunks, queue);
      TookNothing(chunks, produced);
      TakenStep(level, chunks, limit);
      var len := Refill(p);
      if len == 0 {
        return false;
      }
      ghost var n := 1;
      TookNext(chunks, 0, chunks, queue, queue);
      TookNext(chunks, 0, chunks, produced, produced);
      while state == Filling
        invariant Valid() && Live() && p.Fits(size) && outp == old(outp)
        invariant Took(chunks, n, p.chunks, produced, p.produced) && Took(chunks, n, p.chunks, queue, Unread())
        invariant state.Filling? ==> level < limit && old(state).Filling?
        invariant old(state).Running? ==> n == 1
        invariant old(state).Filling? && state.Running? ==> level >= limit && n == Taken(old(level), chunks, limit)
        invariant state.Filling? ==> n + Taken(level, p.chunks, limit) == Taken(old(level), chunks, limit)
        decreases |p.chunks|
      {
        Thresholds();
        ghost var rest, made, unread := p.chunks, p.produced, Unread();
        TakenStep(level, rest, limit);
        len := Refill(p);
        if len == 0 {
          TookSome(chunks, n, p.chunks, queue, Unread());
          TookSome(chunks, n, p.chunks, produced, p.produced);
          return false;
        }
        TookNext(chunks, n, rest, produced, made);
        TookNext(chunks, n, rest, queue, unread);
        n := n + 1;
      }
      TookSome(chunks, n, p.chunks, queue, Unread());
      TookSome(chunks, n, p.chunks, produced, p.produced);
      return true;
    }

    /** A block can be read in one piece at `outp`. */
    predicate Contiguous()
      reads this
    {
      outp + size <= end && level >= size
    }

    /** The marks are those of a queue, and this is the queue. */
    ghost predicate Holds(queue: seq<byte>)
      requires Shape()
      reads this, buffer
    {
      Marks().Placed() && Unread() == queue
    }

    /** The variatic move of `peer`, which stands before its wait: in the state in which `peer` is entered, it keeps the
        queue if and only if a block lies in front of the end, or the queue wraps. */
    method EnterPeer()
      requires Shape() && Marks().Placed()
      modifies this`outp, buffer
      ensures outp == (if old(outp) + size > end then start - (end - old(outp)) else old(outp)) <= end - size
      ensures old(outp) + size <= end ==> buffer[..] == old(buffer[..])
      ensures Holds(old(Unread())) <==> old(outp + size <= end || !Marks().Linear())
    {
      hide Layout.Queue, Layout.Placed, Layout.TailCopied, Blocks;
      Bounds();
      if outp + size > end {
        ghost var was, before := Marks(), buffer[..];
        var len := end - outp;
        was.MoveTailExact(size);
        CopyWithin(buffer, start - len, outp, len);
        outp := start - len;
        CopiedTail(was, before, buffer[..]);
        if !was.Linear() {
          was.MoveTail(size, before, buffer[..]);
        }
      }
    }

    /** A ring in RUNNING has a block to read, so the move is right there. */
    method MoveTail()
      requires Valid() && state.Running?
      modifies this`outp, buffer
      ensures Valid() && Contiguous()
      ensures Unread() == old(Unread())
      ensures buffer[outp..outp + size] == Unread()[..size]
    {
      hide Layout.Queue, Layout.Placed, Layout.TailCopied, Blocks;
      Bounds();
      if outp + size > end {
        Marks().MoveTailExact(size);
      }
      EnterPeer();
      HeadOfQueue();
    }

    lemma HeadOfQueue()
      requires Valid() && Contiguous()
      ensures buffer[outp..outp + size] == Unread()[..size]
    {
      hide Layout.Queue, Layout.Placed, Layout.TailCopied, Blocks;
      assert buffer[outp..outp + size] == buffer[..][outp..outp + size];
      Bounds();
      Marks().Head(size, buffer[..]);
    }

    lemma HeadBytes(len: nat)
      requires Valid() && Contiguous() && len <= size
      ensures buffer[outp..outp + len] == Unread()[..len]
    {
      hide Layout.Queue, Layout.Placed, Layout.TailCopied, Blocks;
      HeadOfQueue();
      assert buffer[outp..outp + len] == buffer[outp..outp + size][..len];
      assert Unread()[..size][..len] == Unread()[..len];
    }

    lemma CopiedTail(was: Layout, before: seq<byte>, after: seq<byte>)
      requires was.start == start && was.end == end
      requires 0 <= end - was.outp <= start <= end <= |before| == |after|
      requires var tail := end - was.outp;
        && after[start - tail..start] == before[was.outp..was.outp + tail]
        && forall k :: 0 <= k < |before| && !(start - tail <= k < start) ==> after[k] == before[k]
      ensures was.TailCopied(before, after)
    {
    }

    /** Returns the position of the next whole block, or nothing exactly when the stream ends too early. What is unread
        then stays in the ring: a running ring keeps a whole block at least. */
    method Peer(p: Producer) returns (r: Option<nat>)
      requires Valid() && Live() && p.Fits(size)
      modifies this, buffer, p
      ensures Valid() && Live() && p.Fits(size)
      ensures var n := if old(level) > Blocks(count - 1, size) then 0
                       else if old(state).Running? && old(p.chunks) != [] then 1
                       else Taken(old(level), old(p.chunks), Blocks(thredhold, size));
        && n <= |old(p.chunks)| && p.chunks == old(p.chunks)[n..]
        && p.produced == old(p.produced) + Flatten(old(p.chunks)[..n])
        && Unread() == old(Unread()) + Flatten(old(p.chunks)[..n])
      ensures r.Some? ==>
        && state.Running? && Contiguous() && r.value == outp
        && buffer[r.value..r.value + size] == Unread()[..size]
      ensures r.None? <==> old(Starves(state.Running?, level, p.chunks))
      ensures r.None? ==> p.chunks == [] && state == old(state) && level <= Blocks(count - 1, size)
      ensures r.None? ==> if state.Running? then level >= size else level <= Blocks(thredhold, size)
    {
      hide Layout.Queue, Layout.Placed, Flatten, Blocks;
      FlattenFirst(p.chunks, Unread());
      FlattenFirst(p.chunks, p.produced);
      Thresholds();
      if level <= Blocks(count - 1, size) {
        var ok := Fill(p);
        if !ok {
          return None;
        }
      } else {
        state := Running;
      }
      MoveTail();
      return Some(outp);
    }

    /** Gives back the first `len` bytes of the block that `Peer` returned. */
    method Pop(len: nat)
      requires Valid() && len <= Length()
      requires state == Filling || state == Stop || Contiguous()
      modifies this
      ensures Valid()
      ensures old(state) in {Filling, Stop} ==> Marks() == old(Marks()) && state == old(state)
      ensures old(state) !in {Filling, Stop} ==>
        && Unread() == old(Unread())[len..] && Marks() == old(Marks()).Dropped(len)
        && state == if level > size then old(state) else if old(state) == Running then Filling else Stop
    {
      hide Layout.Queue, Layout.Placed, Blocks;
      Thresholds();
      if state == Filling {
        return;
      }
      if state == Stop {
        return;
      }
      Advance(len);
      if level <= size {
        state := if state == Running then Filling else Stop;
      }
    }

    method Advance(len: nat)
      requires Shape() && Marks().Placed() && Contiguous() && len <= size
      modifies this`outp, this`level
      ensures Marks() == old(Marks()).Dropped(len) && Marks().Placed()
      ensures Unread() == old(Unread())[len..]
    {
      hide Layout.Queue, Layout.Placed, Blocks;
      Marks().Drop(len, size, buffer[..]);
      outp := outp + len;
      level := level - len;
    }
  }

  // ----- whole runs -----

  /** What a consumer takes that wants `wants[i]` bytes in its turn `i`, and gets a block at most. */
  function Wanted(wants: seq<nat>, size: nat): nat {
    if wants == [] then 0
    else Wanted(wants[..|wants| - 1], size) + Wish(wants[|wants| - 1], size)
  }

  function Wish(want: nat, size: nat): nat {
    if want < size then want else size
  }

  /** Any consumer that alternates `Peer` and `Pop`. It is served until the stream ends too early for `Peer`. */
  method Consume(ring: Ring, p: Producer, wants: seq<nat>) returns (delivered: seq<byte>, served: nat)
    requires ring.Valid() && ring.Live() && p.Fits(ring.size)
    modifies ring, ring.buffer, p
    ensures ring.Valid() && ring.Live()
    ensures Conserved(delivered, ring.Unread(), p.chunks, old(ring.Unread() + Flatten(p.chunks)))
    ensures served <= |wants| && |delivered| == Wanted(wants[..served], ring.size)
    ensures served < |wants| ==> p.chunks == [] && ring.Starves(ring.state.Running?, ring.level, [])
  {
    hide Flatten, Conserved, Layout.Queue;
    delivered, served := [], 0;
    ghost var stream := ring.Unread() + Flatten(p.chunks);
    ConservedFirst(ring.Unread(), p.chunks);
    while served < |wants|
      invariant ring.Valid() && ring.Live() && p.Fits(ring.size)
      invariant Conserved(delivered, ring.Unread(), p.chunks, stream)
      invariant served <= |wants| && |delivered| == Wanted(wants[..served], ring.size)
    {
      var taken := Turn(ring, p, wants[served], delivered, stream);
      if taken.None? {
        return;
      }
      delivered := delivered + taken.value;
      assert wants[..served + 1][..served] == wants[..served];
      served := served + 1;
    }
  }

  method Turn(ring: Ring, p: Producer, want: nat, ghost delivered: seq<byte>, ghost stream: seq<byte>)
    returns (taken: Option<seq<byte>>)
    requires ring.Valid() && ring.Live() && p.Fits(ring.size)
    requires Conserved(delivered, ring.Unread(), p.chunks, stream)
    modifies ring, ring.buffer, p
    ensures ring.Valid() && ring.Live() && p.Fits(ring.size)
    ensures taken.None? <==> old(ring.Starves(ring.state.Running?, ring.level, p.chunks))
    ensures taken.None? ==> p.chunks == [] && ring.Starves(ring.state.Running?, ring.level, [])
    ensures taken.None? ==> Conserved(delivered, ring.Unread(), p.chunks, stream)
    ensures taken.Some? ==> |taken.value| == Wish(want, ring.size)
    ensures taken.Some? ==> Conserved(delivered + taken.value, ring.Unread(), p.chunks, stream)
  {
    hide Flatten, Conserved, Layout.Queue, Layout.Placed;
    ghost var queue, chunks := ring.Unread(), p.chunks;
    var at := ring.Peer(p);
    ConservedByPeer(delivered, queue, chunks, |chunks| - |p.chunks|, stream);
    if at == None {
      return None;
    }
    queue := ring.Unread();
    var len := if want < ring.Length() then want else ring.Length();
    var bytes := ring.buffer[at.value..at.value + len];
    ring.HeadBytes(len);
    ring.Pop(len);
    ConservedByPop(delivered, queue, len, p.chunks, stream);
    return Some(bytes);
  }

  // ----- a consumer in another thread -----

  /** The producer pushes, then the consumer peers in RUNNING and pops; the block lies in front of the end. */
  method PushPeerPop(ring: Ring, push: nat, pop: nat)
    requires ring.Valid() && ring.Live() && 1 <= push <= ring.size && ring.level + push == ring.size
    requires ring.thredhold == 1 && ring.outp + ring.size <= ring.end && ring.inp + push < ring.end && pop <= ring.size
    modifies ring, ring.buffer
    ensures ring.Valid() && ring.state == Filling && ring.level == old(ring.level) + push - pop
    ensures ring.outp == old(ring.outp) + pop && ring.inp == old(ring.inp) + push
  {
    hide Layout.Queue, Layout.Placed, Blocks;
    OneBlock(ring);
    ring.Push(push);
    ring.EnterPeer();
    ring.Pop(pop);
  }

  lemma OneBlock(ring: Ring)
    requires ring.Shape()
    ensures Blocks(1, ring.size) == ring.size && ring.size <= Blocks(ring.count, ring.size)
  {
    BlocksGrow(1, ring.count, ring.size);
  }

  /** A run of a threaded producer and consumer, each `pop` after its `peer`. The last `peer` is entered in FILLING, with two
      unread bytes that do not wrap and no block in front of the end: its move loses the place of the queue. */
  method PeerTooEarly() returns (ring: Ring)
    ensures fresh(ring) && ring.Shape() && ring.state == Filling
    ensures ring.Marks() == Layout(4, 12, 11, 9, 2).TailMoved() && !ring.Marks().Placed()
  {
    hide Layout.Queue, Layout.Placed, Blocks;
    ring := new Ring(2, 4, 1);
    SmallRing(ring);
    PushPeerPop(ring, 4, 3);
    PushPeerPop(ring, 3, 2);
    TailMoveLoses();
    ring.EnterPeer();
  }

  /** The input at which it fails: the moved tail is not where the bytes that are pushed next will follow. */
  lemma TailMoveLoses()
    ensures var marks := Layout(4, 12, 11, 9, 2);
      && marks.Placed() && marks.Linear() && marks.outp + 4 > marks.end
      && marks.TailMoved() == Layout(4, 12, 11, 1, 2) && !marks.TailMoved().Placed()
  {
  }

  /** What comes of it: the producer pushes four bytes more, and the block that is read then has a stale byte between the
      unread bytes and the rest of the new ones. */
  lemma BlockMisread(before: seq<byte>, moved: seq<byte>, pushed: seq<byte>, block: seq<byte>)
    requires |before| == |moved| == |pushed| == 16 && |block| == 4
    requires Layout(4, 12, 11, 9, 2).TailCopied(before, moved)
    requires pushed == moved[..4] + block[1..] + moved[7..11] + block + moved[15..]
    ensures pushed[1..5] == before[9..12] + [block[1]]
    ensures pushed[1..5] == before[9..11] + block[..2] <==> before[11] == block[0]
  {
    var read := pushed[1..5];
    TailStands(before, moved);
    assert read[0] == moved[1] && read[1] == moved[2] && read[2] == moved[3] && read[3] == block[1];
    assert read == before[9..12] + [block[1]];
    var right := before[9..11] + block[..2];
    assert right[0] == before[9] && right[1] == before[10] && right[2] == block[0] && right[3] == block[1];
    if before[11] == block[0] {
      assert read == right;
    }
  }

  lemma TailStands(before: seq<byte>, moved: seq<byte>)
    requires |before| == |moved| == 16 && Layout(4, 12, 11, 9, 2).TailCopied(before, moved)
    ensures moved[1] == before[9] && moved[2] == before[10] && moved[3] == before[11]
  {
    assert moved[1..4][0] == before[9..12][0] && moved[1..4][1] == before[9..12][1] && moved[1..4][2] == before[9..12][2];
  }

  lemma SmallRing(ring: Ring)
    requires ring.Shape() && ring.count == 2 && ring.size == 4 && ring.thredhold == 1
    ensures ring.start == 4 && ring.end == 12 && Blocks(1, 4) == 4 && Blocks(2, 4) == 8
  {
  }

  lemma ConservedByPop(delivered: seq<byte>, queue: seq<byte>, n: nat, chunks: seq<seq<byte>>, stream: seq<byte>)
    requires n <= |queue| && Conserved(delivered, queue, chunks, stream)
    ensures Conserved(delivered + queue[..n], queue[n..], chunks, stream)
  {
    assert delivered + queue == (delivered + queue[..n]) + queue[n..];
  }

  lemma ConservedFirst(queue: seq<byte>, chunks: seq<seq<byte>>)
    ensures Conserved([], queue, chunks, queue + Flatten(chunks))
  {
    assert [] + queue == queue;
  }

  ghost predicate Conserved(delivered: seq<byte>, queue: seq<byte>, chunks: seq<seq<byte>>, stream: seq<byte>) {
    delivered + queue + Flatten(chunks) == stream
  }

  lemma ConservedByPeer(delivered: seq<byte>, queue: seq<byte>, chunks: seq<seq<byte>>, n: nat, stream: seq<byte>)
    requires n <= |chunks| && Conserved(delivered, queue, chunks, stream)
    ensures Conserved(delivered, queue + Flatten(chunks[..n]), chunks[n..], stream)
  {
    assert chunks == chunks[..n] + chunks[n..];
    FlattenConcat(chunks[..n], chunks[n..]);
  }
}
