/** The PCM filter of src/filter_pcm.c: decoded samples go through a chain of stages and are laid out as
    bytes in the blocks of the output jitter. */
module FilterPcm {
  import opened Bytes

  // ----- one sample -----

  /** An installed callback with its state: (state, sample, bits, rate, channel) to (state, sample). */
  datatype Stage<!S> = Stage(step: (S, int, int, int, int) -> (S, int), arg: S)

  /** The sample on its way through the chain, and the stages afterwards. */
  function Through<S>(stages: seq<Stage<S>>, sample: int, bits: int, rate: int, channel: int): (r: (seq<Stage<S>>, int))
    ensures |r.0| == |stages|
    decreases |stages|
  {
    if stages == [] then ([], sample)
    else
      var (arg, out) := stages[0].step(stages[0].arg, sample, bits, rate, channel);
      var (rest, last) := Through(stages[1..], out, bits, rate, channel);
      ([stages[0].(arg := arg)] + rest, last)
  }

  /** The layout of an output sample: its bytes, and how many of its bits are used. */
  datatype Layout = Layout(samplesize: nat, shift: nat, nchannels: nat) {
    ghost predicate Valid() {
      samplesize > 0 && nchannels > 0
    }

    function FrameSize(): nat {
      nchannels * samplesize
    }

    /** The size of `n` frames. */
    function Bytes(n: nat): nat {
      n * FrameSize()
    }
  }

  /** Byte `k` of a two's-complement number, from the least significant one. */
  function ByteOf(sample: int, k: nat): byte {
    (sample / Pow2(8 * k)) % 256
  }

  /** The number of zero bytes below a sample that is narrower than the format. */
  function Leading(layout: Layout, bits: int): nat {
    if layout.shift <= bits then 0 else (layout.shift - bits + 7) / 8
  }

  function OutByte(layout: Layout, sample: int, bits: int, i: nat): byte {
    if i < Leading(layout, bits) || 8 * i > layout.shift then 0 else ByteOf(sample, i - Leading(layout, bits))
  }

  function SampleBytes(layout: Layout, sample: int, bits: int): (r: seq<byte>)
    ensures |r| == layout.samplesize
  {
    seq(layout.samplesize, i requires 0 <= i < layout.samplesize => OutByte(layout, sample, bits, i))
  }

  // ----- many samples -----

  /** One sample of every output channel. */
  datatype Frame = Frame(samples: seq<int>, bits: int, rate: int)

  /** The channels from `k` on. */
  function EncodeChannels<S>(layout: Layout, stages: seq<Stage<S>>, frame: Frame, k: nat): (r: (seq<Stage<S>>, seq<byte>))
    requires k <= |frame.samples|
    decreases |frame.samples| - k
  {
    if k == |frame.samples| then (stages, [])
    else
      var (stages', sample) := Through(stages, frame.samples[k], frame.bits, frame.rate, k);
      var (stages'', bytes) := EncodeChannels(layout, stages', frame, k + 1);
      (stages'', SampleBytes(layout, sample, frame.bits) + bytes)
  }

  /** The per-sample encoding of a whole stream of frames, with the stages carried along. */
  function Encode<S>(layout: Layout, stages: seq<Stage<S>>, frames: seq<Frame>): (r: (seq<Stage<S>>, seq<byte>))
    decreases |frames|
  {
    if frames == [] then (stages, [])
    else
      var (stages', bytes) := EncodeChannels(layout, stages, frames[0], 0);
      var (stages'', rest) := Encode(layout, stages', frames[1..]);
      (stages'', bytes + rest)
  }

  lemma {:induction false} EncodeConcat<S>(layout: Layout, stages: seq<Stage<S>>, left: seq<Frame>, right: seq<Frame>)
    ensures var (mid, first) := Encode(layout, stages, left);
            var (end, second) := Encode(layout, mid, right);
            Encode(layout, stages, left + right) == (end, first + second)
    decreases |left|
  {
    hide EncodeChannels;
    if left == [] {
      assert left + right == right;
      var (end, second) := Encode(layout, stages, right);
      assert [] + second == second;
    } else {
      var (stages', bytes) := EncodeChannels(layout, stages, left[0], 0);
      EncodeConcat(layout, stages', left[1..], right);
      assert (left + right)[1..] == left[1..] + right;
      var (mid, first) := Encode(layout, stages', left[1..]);
      var (end, second) := Encode(layout, mid, right);
      assert bytes + (first + second) == (bytes + first) + second;
    }
  }

  lemma {:induction false} EncodeLength<S>(layout: Layout, stages: seq<Stage<S>>, frames: seq<Frame>)
    requires forall i :: 0 <= i < |frames| ==> |frames[i].samples| == layout.nchannels
    ensures |Encode(layout, stages, frames).1| == |frames| * layout.FrameSize()
    decreases |frames|
  {
    if frames != [] {
      var (stages', bytes) := EncodeChannels(layout, stages, frames[0], 0);
      ChannelsLength(layout, stages, frames[0], 0);
      EncodeLength(layout, stages', frames[1..]);
      Distribute(|frames| - 1, layout.FrameSize());
    }
  }

  lemma Distribute(n: nat, size: nat)
    ensures (n + 1) * size == n * size + size
  {
  }

  lemma {:induction false} ChannelsLength<S>(layout: Layout, stages: seq<Stage<S>>, frame: Frame, k: nat)
    requires k <= |frame.samples|
    ensures |EncodeChannels(layout, stages, frame, k).1| == (|frame.samples| - k) * layout.samplesize
    decreases |frame.samples| - k
  {
    if k < |frame.samples| {
      var (stages', sample) := Through(stages, frame.samples[k], frame.bits, frame.rate, k);
      ChannelsLength(layout, stages', frame, k + 1);
      Distribute(|frame.samples| - k - 1, layout.samplesize);
    }
  }

  // ----- the decoder's frames -----

  /** The value of a `filter_audio_t`: `samples` are what the sample pointers still have in front of them. */
  datatype Pcm = Pcm(samples: seq<seq<int>>, nsamples: nat, rate: int, bits: int, nchannels: nat, interleaved: bool) {

    /** Every sample that `filter_get` may ask for is there. */
    predicate Holds(channels: nat) {
      && 0 < nchannels
      && if interleaved then channels <= nchannels && |samples| > 0 && |samples[0]| >= nsamples * nchannels
         else |samples| >= nchannels && forall c :: 0 <= c < nchannels ==> |samples[c]| >= nsamples
    }

    /** `filter_get` or `filter_getinterleaved`, by the mode. */
    function Get(channels: nat, channel: nat, index: nat): int
      requires Holds(channels) && channel < channels && index < nsamples
    {
      if interleaved then
        InRange(index, nsamples, nchannels, channel);
        samples[0][index * nchannels + channel]
      else samples[channel % nchannels][index]
    }

    function FrameAt(channels: nat, index: nat): (f: Frame)
      requires Holds(channels) && index < nsamples
      ensures |f.samples| == channels
    {
      Frame(seq(channels, c requires 0 <= c < channels && Holds(channels) && index < nsamples =>
                  Get(channels, c, index)), bits, rate)
    }

    /** The frames that are still to be filtered. */
    function Frames(channels: nat): (r: seq<Frame>)
      requires Holds(channels)
      ensures |r| == nsamples && forall i :: 0 <= i < |r| ==> |r[i].samples| == channels
    {
      seq(nsamples, i requires 0 <= i < nsamples && Holds(channels) => FrameAt(channels, i))
    }

    /** On the way to `i` frames further on, when `j` of the pointer moves are done. */
    ghost predicate Moved(before: Pcm, i: nat, j: nat) {
      && i <= before.nsamples
      && this == before.(samples := samples, nsamples := before.nsamples - i) && |samples| == |before.samples|
      && if interleaved then
           |samples| > 0 && j * i <= |before.samples[0]| && samples[0] == before.samples[0][j * i..]
         else
           |samples| >= nchannels && forall c :: 0 <= c < nchannels ==>
             |before.samples[c]| >= i && samples[c] == if c < j then before.samples[c][i..] else before.samples[c]
    }

    lemma NotMoved(before: Pcm, i: nat, channels: nat)
      requires before.Holds(channels) && i <= before.nsamples && this == before.(nsamples := before.nsamples - i)
      ensures Moved(before, i, 0) && before.Holds(1)
    {
    }

    lemma MoveNext(before: Pcm, i: nat, j: nat)
      requires before.Holds(1) && i <= before.nsamples && j < nchannels && Moved(before, i, j)
      ensures var c := if interleaved then 0 else j;
        c < |samples| && i <= |samples[c]| && this.(samples := samples[c := samples[c][i..]]).Moved(before, i, j + 1)
    {
      if interleaved {
        StepsFit(before.nsamples, nchannels, i, j);
        DropTwice(before.samples[0], j * i, i);
      } else {
        MoveNextPlanar(before, i, j);
      }
    }

    lemma MoveNextPlanar(before: Pcm, i: nat, j: nat)
      requires !interleaved && j < nchannels && Moved(before, i, j)
      ensures j < |samples| && i <= |samples[j]|
      ensures this.(samples := samples[j := samples[j][i..]]).Moved(before, i, j + 1)
    {
    }

    /** `i` frames further on. */
    ghost predicate Behind(before: Pcm, i: nat) {
      Moved(before, i, nchannels)
    }

    lemma FramesBehind(before: Pcm, i: nat, channels: nat)
      requires before.Holds(channels) && Behind(before, i)
      ensures Holds(channels) && Frames(channels) == before.Frames(channels)[i..]
    {
      Scale(nsamples, i, nchannels);
      assert nchannels * i == i * nchannels;
      forall k | 0 <= k < nsamples
        ensures FrameAt(channels, k) == before.FrameAt(channels, k + i)
      {
        forall c | 0 <= c < channels
          ensures Get(channels, c, k) == before.Get(channels, c, k + i)
        {
          GetBehind(before, i, channels, c, k);
        }
      }
    }

    lemma GetBehind(before: Pcm, i: nat, channels: nat, c: nat, k: nat)
      requires before.Holds(channels) && Behind(before, i) && Holds(channels) && c < channels && k < nsamples
      ensures Get(channels, c, k) == before.Get(channels, c, k + i)
    {
      if interleaved {
        InRange(k, nsamples, nchannels, c);
        InRange(k + i, before.nsamples, nchannels, c);
        AtOffset(k, i, nchannels);
        DropAt(before.samples[0], nchannels * i, k * nchannels + c);
      }
    }
  }

  lemma AtOffset(k: nat, i: nat, width: nat)
    ensures (k + i) * width == width * i + k * width
  {
    Scale(k, i, width);
  }

  lemma DropTwice(s: seq<int>, a: nat, b: nat)
    requires a + b <= |s|
    ensures s[a..][b..] == s[a + b..]
  {
  }

  lemma DropAt(s: seq<int>, a: nat, k: nat)
    requires a + k < |s|
    ensures s[a..][k] == s[a + k]
  {
  }

  /** The audio that a decoder hands over, consumed in place. */
  class Audio {
    var samples: seq<seq<int>>
    var nsamples: nat
    const samplerate: int
    const bitspersample: int
    const nchannels: nat
    const interleaved: bool

    constructor (pcm: Pcm)
      ensures View() == pcm
    {
      samples, nsamples := pcm.samples, pcm.nsamples;
      samplerate, bitspersample, nchannels, interleaved := pcm.rate, pcm.bits, pcm.nchannels, pcm.interleaved;
    }

    function View(): Pcm
      reads this
    {
      Pcm(samples, nsamples, samplerate, bitspersample, nchannels, interleaved)
    }

    /** Moves the sample pointers behind the first `i` frames; in interleaved mode one pointer moves once per channel. */
    method Advance(i: nat, ghost channels: nat)
      requires View().Holds(channels) && i <= nsamples
      modifies this
      ensures View().Holds(channels) && nsamples == old(nsamples) - i
      ensures View().Frames(channels) == old(View().Frames(channels))[i..]
    {
      hide Pcm.Frames, Pcm.Moved, Pcm.Holds;
      ghost var before := View();
      nsamples := nsamples - i;
      View().NotMoved(before, i, channels);
      var j := 0;
      while j < nchannels
        invariant 0 <= j <= nchannels && View().Moved(before, i, j)
      {
        View().MoveNext(before, i, j);
        if interleaved {
          samples := samples[0 := samples[0][i..]];
        } else {
          samples := samples[j := samples[j][i..]];
        }
        j := j + 1;
      }
      View().FramesBehind(before, i, channels);
    }
  }

  lemma Scale(a: nat, b: nat, width: nat)
    ensures (a + b) * width == a * width + b * width
  {
  }

  lemma StepsFit(n: nat, width: nat, i: nat, j: nat)
    requires i <= n && j < width
    ensures j * i + i == (j + 1) * i <= n * width
  {
    Scale(j, 1, i);
    NotMore(j + 1, width, i);
    NotMore(i, n, width);
    assert width * i == i * width;
  }

  lemma NotMore(a: nat, b: nat, width: nat)
    requires a <= b
    ensures a * width <= b * width
  {
    Scale(a, b - a, width);
  }

  lemma InRange(index: nat, n: nat, width: nat, offset: nat)
    requires index < n && offset < width
    ensures index * width + offset < n * width
  {
    NotMore(index + 1, n, width);
    Scale(index, 1, width);
  }

  // ----- the filter -----

  /** The first `i` stages have worked on the sample, and the others have not yet. */
  ghost predicate Halfway<S>(start: seq<Stage<S>>, sample: int, stages: seq<Stage<S>>, i: nat, out: int,
                             bits: int, rate: int, channel: int)
  {
    && i <= |stages| == |start|
    && var rest := Through(stages[i..], out, bits, rate, channel);
       Through(start, sample, bits, rate, channel) == (stages[..i] + rest.0, rest.1)
  }

  lemma HalfwayStart<S>(start: seq<Stage<S>>, sample: int, bits: int, rate: int, channel: int)
    ensures Halfway(start, sample, start, 0, sample, bits, rate, channel)
  {
    hide Through;
    assert start[0..] == start;
    var all := Through(start, sample, bits, rate, channel);
    assert start[..0] + all.0 == all.0;
  }

  lemma HalfwayNext<S>(start: seq<Stage<S>>, sample: int, stages: seq<Stage<S>>, i: nat, out: int,
                       bits: int, rate: int, channel: int)
    requires i < |stages| && Halfway(start, sample, stages, i, out, bits, rate, channel)
    ensures var (arg, next) := stages[i].step(stages[i].arg, out, bits, rate, channel);
            Halfway(start, sample, stages[i := stages[i].(arg := arg)], i + 1, next, bits, rate, channel)
  {
    var (arg, next) := stages[i].step(stages[i].arg, out, bits, rate, channel);
    var stages' := stages[i := stages[i].(arg := arg)];
    var tail := stages[i..];
    assert tail[0] == stages[i] && tail[1..] == stages'[i + 1..];
    var (rest, last) := Through(tail[1..], next, bits, rate, channel);
    assert Through(tail, out, bits, rate, channel) == ([stages[i].(arg := arg)] + rest, last);
    assert stages'[..i + 1] == stages[..i] + [stages[i].(arg := arg)];
    assert stages[..i] + ([stages[i].(arg := arg)] + rest) == stages'[..i + 1] + rest;
  }

  lemma HalfwayEnd<S>(start: seq<Stage<S>>, sample: int, stages: seq<Stage<S>>, out: int, bits: int, rate: int, channel: int)
    requires Halfway(start, sample, stages, |stages|, out, bits, rate, channel)
    ensures Through(start, sample, bits, rate, channel) == (stages, out)
  {
    assert stages[|stages|..] == [] && stages[..|stages|] + [] == stages;
  }

  class Filter<S> {
    var stages: seq<Stage<S>>
    const layout: Layout

    constructor (layout: Layout, stages: seq<Stage<S>>)
      ensures this.layout == layout && this.stages == stages
    {
      this.layout, this.stages := layout, stages;
    }

    /** The first loop of `sampled_change`: every stage in turn. */
    method Change(sample: int, bits: int, rate: int, channel: int) returns (out: int)
      modifies this
      ensures (stages, out) == old(Through(stages, sample, bits, rate, channel))
    {
      hide Through;
      out := sample;
      var i := 0;
      ghost var start := stages;
      HalfwayStart(start, sample, bits, rate, channel);
      while i < |stages|
        invariant 0 <= i <= |stages| && Halfway(start, sample, stages, i, out, bits, rate, channel)
      {
        HalfwayNext(start, sample, stages, i, out, bits, rate, channel);
        var stage := stages[i];
        var (arg, next) := stage.step(stage.arg, out, bits, rate, channel);
        stages := stages[i := stage.(arg := arg)];
        out := next;
        i := i + 1;
      }
      HalfwayEnd(start, sample, stages, out, bits, rate, channel);
    }

    /** `sampled_change`: one sample through the chain, and its bytes into the block. */
    method SampledChange(sample: int, bits: int, rate: int, channel: int, out: array<byte>, at: nat) returns (len: nat)
      requires at + layout.samplesize <= out.Length
      modifies this, out
      ensures len == layout.samplesize
      ensures var (stages', changed) := old(Through(stages, sample, bits, rate, channel));
        stages == stages' && out[at..at + len] == SampleBytes(layout, changed, bits)
      ensures forall k :: 0 <= k < out.Length && !(at <= k < at + len) ==> out[k] == old(out[k])
    {
      var changed := Change(sample, bits, rate, channel);
      var i, j := 0, 0;
      ghost var after := stages;
      while i < layout.samplesize
        invariant stages == after
        invariant 0 <= i <= layout.samplesize
        invariant j == if i < Leading(layout, bits) then i else Leading(layout, bits)
        invariant forall k :: 0 <= k < i ==> out[at + k] == OutByte(layout, changed, bits, k)
        invariant forall k :: 0 <= k < out.Length && !(at <= k < at + i) ==> out[k] == old(out[k])
      {
        if i * 8 < layout.shift - bits {
          out[at + i] := 0;
          j := j + 1;
        } else if i * 8 > layout.shift {
          out[at + i] := 0;
        } else {
          out[at + i] := ByteOf(changed, i - j);
        }
        i := i + 1;
      }
      return layout.samplesize;
    }

    /** The inner loop of `filter_run`: the channels of frame `i`, unless the block is full. */
    method RunFrame(audio: Audio, i: nat, buffer: array<byte>, at: nat, end: nat) returns (len: nat, full: bool)
      requires layout.Valid() && audio.View().Holds(layout.nchannels) && i < audio.nsamples
      requires at <= end <= buffer.Length && (at < end ==> at + layout.FrameSize() <= end)
      modifies this, buffer
      ensures full <==> at == end
      ensures full ==> len == 0 && stages == old(stages)
      ensures !full ==> len == layout.FrameSize()
      ensures !full ==> var (stages', bytes) := EncodeChannels(layout, old(stages), audio.View().FrameAt(layout.nchannels, i), 0);
        stages == stages' && buffer[at..at + len] == bytes
      ensures forall k :: 0 <= k < buffer.Length && !(at <= k < at + len) ==> buffer[k] == old(buffer[k])
    {
      hide Through, SampleBytes, Pcm.Holds, Pcm.FrameAt, EncodeChannels, Part;
      ghost var frame, start := audio.View().FrameAt(layout.nchannels, i), stages;
      PartStart(layout, stages, frame, buffer[at..at]);
      len := 0;
      var j := 0;
      while j < layout.nchannels
        invariant 0 <= j <= layout.nchannels && len == j * layout.samplesize
        invariant j > 0 ==> at < end
        invariant j == 0 ==> stages == start
        invariant Part(layout, start, frame, stages, buffer[at..at + len], j)
        invariant forall k :: 0 <= k < buffer.Length && !(at <= k < at + len) ==> buffer[k] == old(buffer[k])
      {
        StepsFit(layout.samplesize, layout.nchannels, layout.samplesize, j);
        if at + len >= end {
          return 0, true;
        }
        var size := NextChannel(audio, i, j, buffer, at, len, start);
        len := len + size;
        j := j + 1;
      }
      PartEnd(layout, start, frame, stages, buffer[at..at + len]);
      return len, false;
    }

    method NextChannel(audio: Audio, i: nat, j: nat, buffer: array<byte>, at: nat, len: nat, ghost start: seq<Stage<S>>)
      returns (size: nat)
      requires audio.View().Holds(layout.nchannels) && i < audio.nsamples && j < layout.nchannels
      requires at + len + layout.samplesize <= buffer.Length
      requires Part(layout, start, audio.View().FrameAt(layout.nchannels, i), stages, buffer[at..at + len], j)
      modifies this, buffer
      ensures size == layout.samplesize
      ensures Part(layout, start, audio.View().FrameAt(layout.nchannels, i), stages, buffer[at..at + len + size], j + 1)
      ensures forall k :: 0 <= k < buffer.Length && !(at + len <= k < at + len + size) ==> buffer[k] == old(buffer[k])
    {
      hide Through, SampleBytes, Pcm.Holds, EncodeChannels, Part;
      ghost var frame, before, stages0 := audio.View().FrameAt(layout.nchannels, i), buffer[at..at + len], stages;
      var sample := audio.View().Get(layout.nchannels, j, i);
      assert sample == frame.samples[j];
      size := SampledChange(sample, audio.bitspersample, audio.samplerate, j, buffer, at + len);
      PartNext(layout, start, frame, stages0, before, j);
      assert buffer[at..at + len + size] == before + buffer[at + len..at + len + size];
    }

    /** `filter_run`: as many whole frames as fit into `size` bytes at `off`. */
    method Run(audio: Audio, buffer: array<byte>, off: nat, size: nat, ghost room: nat) returns (bufferlen: nat)
      requires layout.Valid() && audio.View().Holds(layout.nchannels)
      requires off + size <= buffer.Length && size == layout.Bytes(room)
      modifies this, buffer, audio
      ensures audio.View().Holds(layout.nchannels)
      ensures var n := Min(old(audio.nsamples), room);
        && audio.nsamples == old(audio.nsamples) - n && bufferlen == layout.Bytes(n) <= size
        && audio.View().Frames(layout.nchannels) == old(audio.View().Frames(layout.nchannels))[n..]
        && (stages, buffer[off..off + bufferlen])
           == Encode(layout, old(stages), old(audio.View().Frames(layout.nchannels))[..n])
      ensures forall k :: 0 <= k < buffer.Length && !(off <= k < off + bufferlen) ==> buffer[k] == old(buffer[k])
    {
      hide Encode, Pcm.Holds, Pcm.Frames, Layout.FrameSize, Layout.Bytes;
      var i;
      i, bufferlen := RunFrames(audio, buffer, off, size, room);
      ghost var bytes := buffer[off..off + bufferlen];
      audio.Advance(i, layout.nchannels);
      assert buffer[off..off + bufferlen] == bytes;
    }

    /** The loop over the frames. */
    method RunFrames(audio: Audio, buffer: array<byte>, off: nat, size: nat, ghost room: nat) returns (i: nat, bufferlen: nat)
      requires layout.Valid() && audio.View().Holds(layout.nchannels)
      requires off + size <= buffer.Length && size == layout.Bytes(room)
      modifies this, buffer
      ensures i == Min(audio.nsamples, room) && bufferlen == layout.Bytes(i) <= size
      ensures (stages, buffer[off..off + bufferlen])
           == Encode(layout, old(stages), audio.View().Frames(layout.nchannels)[..i])
      ensures forall k :: 0 <= k < buffer.Length && !(off <= k < off + bufferlen) ==> buffer[k] == old(buffer[k])
    {
      hide Encode, EncodeChannels, Pcm.Holds, Pcm.FrameAt, Layout.FrameSize, Layout.Bytes;
      ghost var frames, start := audio.View().Frames(layout.nchannels), stages;
      ghost var n := Min(audio.nsamples, room);
      EncodeNothing(layout, stages, frames, buffer[off..off]);
      bufferlen := 0;
      i := 0;
      while i < audio.nsamples
        invariant 0 <= i <= n && bufferlen == layout.Bytes(i) <= size
        invariant (stages, buffer[off..off + bufferlen]) == Encode(layout, start, frames[..i])
        invariant forall k :: 0 <= k < buffer.Length && !(off <= k < off + bufferlen) ==> buffer[k] == old(buffer[k])
      {
        FitsOneMore(layout, room, i);
        var len, full := NextFrame(audio, i, buffer, off, bufferlen, off + size, start);
        if full {
          break;
        }
        bufferlen := bufferlen + len;
        i := i + 1;
      }
      FitsOneMore(layout, room, i);
    }

    /** One turn of that loop. */
    method NextFrame(audio: Audio, i: nat, buffer: array<byte>, off: nat, bufferlen: nat, end: nat, ghost start: seq<Stage<S>>)
      returns (len: nat, full: bool)
      requires layout.Valid() && audio.View().Holds(layout.nchannels) && i < audio.nsamples
      requires off + bufferlen <= end <= buffer.Length
      requires off + bufferlen < end ==> off + bufferlen + layout.FrameSize() <= end
      requires (stages, buffer[off..off + bufferlen]) == Encode(layout, start, audio.View().Frames(layout.nchannels)[..i])
      modifies this, buffer
      ensures full <==> off + bufferlen == end
      ensures len == if full then 0 else layout.FrameSize()
      ensures (stages, buffer[off..off + bufferlen + len])
           == Encode(layout, start, audio.View().Frames(layout.nchannels)[..if full then i else i + 1])
      ensures forall k :: 0 <= k < buffer.Length && !(off + bufferlen <= k < off + bufferlen + len) ==>
        buffer[k] == old(buffer[k])
    {
      hide Encode, EncodeChannels, Pcm.Holds, Pcm.FrameAt, Layout.FrameSize;
      ghost var before, mid := buffer[off..off + bufferlen], stages;
      len, full := RunFrame(audio, i, buffer, off + bufferlen, end);
      assert buffer[off..off + bufferlen] == before;
      if !full {
        EncodeSnoc(layout, start, audio.View().Frames(layout.nchannels), i, mid, before);
        SliceConcat(buffer, off, off + bufferlen, off + bufferlen + len);
      }
    }
  }

  lemma SliceConcat(buffer: array<byte>, i: nat, j: nat, k: nat)
    requires i <= j <= k <= buffer.Length
    ensures buffer[i..j] + buffer[j..k] == buffer[i..k]
  {
  }

  function Min(a: nat, b: nat): nat {
    if a < b then a else b
  }

  lemma FramePositive(layout: Layout)
    requires layout.Valid()
    ensures layout.FrameSize() > 0
  {
    Scale(1, layout.nchannels - 1, layout.samplesize);
  }

  /** The block of `room` frames is full exactly when `room` frames are in it. */
  lemma FitsOneMore(layout: Layout, room: nat, i: nat)
    requires layout.Valid() && i <= room
    ensures layout.Bytes(i) <= layout.Bytes(room)
    ensures layout.Bytes(i) == layout.Bytes(room) <==> i == room
    ensures i < room ==> layout.Bytes(i + 1) == layout.Bytes(i) + layout.FrameSize() <= layout.Bytes(room)
  {
    var f := layout.FrameSize();
    FramePositive(layout);
    Scale(i, room - i, f);
    Scale(i, 1, f);
    if i < room {
      Scale(i + 1, room - i - 1, f);
      Scale(1, room - i - 1, f);
    }
  }

  lemma EncodeNothing<S>(layout: Layout, stages: seq<Stage<S>>, frames: seq<Frame>, bytes: seq<byte>)
    requires bytes == []
    ensures Encode(layout, stages, frames[..0]) == (stages, bytes)
    ensures layout.Valid() ==> layout.FrameSize() > 0 && layout.Bytes(0) == 0
  {
    if layout.Valid() {
      FramePositive(layout);
    }
  }

  lemma EncodeSnoc<S>(layout: Layout, start: seq<Stage<S>>, frames: seq<Frame>, i: nat, mid: seq<Stage<S>>, bytes: seq<byte>)
    requires i < |frames| && Encode(layout, start, frames[..i]) == (mid, bytes)
    ensures var (end, more) := EncodeChannels(layout, mid, frames[i], 0);
            Encode(layout, start, frames[..i + 1]) == (end, bytes + more)
  {
    hide EncodeChannels;
    EncodeConcat(layout, start, frames[..i], [frames[i]]);
    assert frames[..i + 1] == frames[..i] + [frames[i]];
    var (end, more) := EncodeChannels(layout, mid, frames[i], 0);
    assert [frames[i]][1..] == [] && Encode(layout, end, []) == (end, []);
    assert more + [] == more;
  }

  /** Some channels of a frame are encoded to `bytes`, and the rest is still to come. */
  ghost predicate Part<S>(layout: Layout, start: seq<Stage<S>>, frame: Frame, stages: seq<Stage<S>>, bytes: seq<byte>, j: nat)
    requires j <= |frame.samples|
  {
    var (all, rest) := (EncodeChannels(layout, start, frame, 0), EncodeChannels(layout, stages, frame, j));
    all.0 == rest.0 && all.1 == bytes + rest.1
  }

  lemma PartStart<S>(layout: Layout, start: seq<Stage<S>>, frame: Frame, bytes: seq<byte>)
    requires bytes == []
    ensures Part(layout, start, frame, start, bytes, 0)
  {
    hide EncodeChannels;
    var all := EncodeChannels(layout, start, frame, 0);
    assert [] + all.1 == all.1;
  }

  lemma PartNext<S>(layout: Layout, start: seq<Stage<S>>, frame: Frame, stages: seq<Stage<S>>, bytes: seq<byte>, j: nat)
    requires j < |frame.samples| && Part(layout, start, frame, stages, bytes, j)
    ensures var (stages', changed) := Through(stages, frame.samples[j], frame.bits, frame.rate, j);
            Part(layout, start, frame, stages', bytes + SampleBytes(layout, changed, frame.bits), j + 1)
  {
    hide Through, SampleBytes;
    var (stages', changed) := Through(stages, frame.samples[j], frame.bits, frame.rate, j);
    var (end, rest) := EncodeChannels(layout, stages', frame, j + 1);
    var added := SampleBytes(layout, changed, frame.bits);
    assert bytes + (added + rest) == (bytes + added) + rest;
    assert EncodeChannels(layout, stages, frame, j) == (end, added + rest);
  }

  lemma PartEnd<S>(layout: Layout, start: seq<Stage<S>>, frame: Frame, stages: seq<Stage<S>>, bytes: seq<byte>)
    requires Part(layout, start, frame, stages, bytes, |frame.samples|)
    ensures EncodeChannels(layout, start, frame, 0) == (stages, bytes)
  {
    assert EncodeChannels(layout, stages, frame, |frame.samples|) == (stages, []);
    assert bytes + [] == bytes;
  }

  // ----- the output blocks -----

  /** The output jitter: it gives out `granted` more blocks to fill before it breaks. */
  class Sink {
    const size: nat
    var granted: nat
    var blocks: seq<seq<byte>>

    constructor (size: nat, granted: nat)
      ensures this.size == size && this.granted == granted && blocks == []
    {
      this.size, this.granted, blocks := size, granted, [];
    }

    method Pull() returns (block: array?<byte>)
      modifies this`granted
      ensures old(granted) == 0 ==> block == null && granted == 0
      ensures old(granted) > 0 ==> block != null && fresh(block) && block.Length == size && granted == old(granted) - 1
    {
      if granted == 0 {
        return null;
      }
      granted := granted - 1;
      return new byte[size];
    }

    method Push(block: array<byte>)
      modifies this`blocks
      ensures blocks == old(blocks) + [block[..]]
    {
      blocks := blocks + [block[..]];
    }
  }

  /** `filter_filloutput` with its two static variables, for one filter and one output. A block of the output
      holds `room` frames, of which `pending` are filled. */
  class Output<S> {
    const filter: Filter<S>
    const out: Sink
    var outbuffer: array?<byte>
    var outbufferlen: nat
    ghost const room: nat
    ghost var pending: nat

    constructor (filter: Filter<S>, out: Sink, ghost room: nat)
      requires filter.layout.Valid() && 0 < room && out.size == filter.layout.Bytes(room)
      ensures this.filter == filter && this.out == out && this.room == room && Valid() && outbuffer == null
    {
      this.filter, this.out, this.room := filter, out, room;
      outbuffer, outbufferlen, pending := null, 0, 0;
    }

    /** The block size is a whole number of frames, and so is what is pending. */
    ghost predicate Loose()
      reads this, filter
    {
      && filter.layout.Valid() && out.size == filter.layout.Bytes(room)
      && pending <= room && outbufferlen == filter.layout.Bytes(pending) <= out.size
      && (outbuffer == null ==> outbufferlen == 0 && pending == 0)
      && (outbuffer != null ==> outbuffer.Length == out.size)
    }

    ghost predicate Valid()
      reads this, filter
    {
      Loose() && pending < room
    }

    /** Everything written so far: the blocks pushed, and the part of a block that is still pending. */
    ghost function Written(): seq<byte>
      requires Loose()
      reads this, filter, out, outbuffer
    {
      Flatten(out.blocks) + (if outbuffer == null then [] else outbuffer[..outbufferlen])
    }

    /** How many frames still go out before the output breaks: what is free in the pending block, and in the blocks that
        the sink will grant. */
    ghost function Capacity(): nat
      requires Loose()
      reads this, filter, out
    {
      Granted(room, out.granted) + if outbuffer == null then 0 else room - pending
    }

    ghost predicate FullBlocks()
      reads out
    {
      forall i :: 0 <= i < |out.blocks| ==> |out.blocks[i]| == out.size
    }

    /** Pulls a block if none is pending. */
    method Prepare() returns (ok: bool)
      requires Valid()
      modifies this`outbuffer, out`granted
      ensures Valid() && (ok <==> outbuffer != null)
      ensures !ok <==> old(outbuffer) == null && old(out.granted) == 0
      ensures !ok ==> out.granted == 0
      ensures outbuffer == old(outbuffer) || fresh(outbuffer)
      ensures Written() == old(Written()) && Capacity() == old(Capacity()) && (!ok <==> Capacity() == 0)
    {
      hide Flatten, Layout.Bytes, Granted;
      GrantedLess(room, out.granted);
      if outbuffer == null {
        ghost var written := Written();
        outbuffer := out.Pull();
        assert outbuffer != null ==> written == Flatten(out.blocks) + outbuffer[..0];
      }
      return outbuffer != null;
    }

    /** Runs the filter on the free end of the pending block. */
    method FillBlock(audio: Audio) returns (ghost n: nat)
      requires Valid() && outbuffer != null && audio.View().Holds(filter.layout.nchannels)
      modifies this`outbufferlen, this`pending, filter, audio, outbuffer
      ensures Loose() && audio.View().Holds(filter.layout.nchannels)
      ensures n == Min(old(audio.nsamples), room - old(pending)) && pending == old(pending) + n
      ensures audio.nsamples == old(audio.nsamples) - n && Capacity() == old(Capacity()) - n
      ensures Taken(filter.layout, old(filter.stages), old(audio.View().Frames(filter.layout.nchannels)), n,
                    filter.stages, audio.View().Frames(filter.layout.nchannels), old(Written()), Written())
    {
      hide Encode, Pcm.Frames, Pcm.Holds, Layout.Bytes, Layout.FrameSize, Flatten, Taken, Granted;
      RoomLeft(filter.layout, room, pending);
      n := Min(audio.nsamples, room - pending);
      ghost var before := outbuffer[..outbufferlen];
      ghost var stages, frames, written := filter.stages, audio.View().Frames(filter.layout.nchannels), Written();
      var len := filter.Run(audio, outbuffer, outbufferlen, out.size - outbufferlen, room - pending);
      MoreFilled(filter.layout, pending, n, room);
      MoreWritten(Flatten(out.blocks), outbuffer, before, outbufferlen, len);
      ghost var bytes := outbuffer[outbufferlen..outbufferlen + len];
      outbufferlen := outbufferlen + len;
      pending := pending + n;
      TakenNow(filter.layout, stages, frames, n, filter.stages, audio.View().Frames(filter.layout.nchannels), bytes,
        written, Written());
    }

    /** Pushes the pending block when it is full. */
    method PushFull()
      requires Loose() && outbuffer != null && FullBlocks() && 0 < room
      modifies this`outbuffer, this`outbufferlen, this`pending, out`blocks
      ensures Valid() && FullBlocks() && Written() == old(Written()) && Capacity() == old(Capacity())
      ensures outbuffer == old(outbuffer) || outbuffer == null
    {
      hide Flatten, Layout.Bytes, Layout.FrameSize, Granted;
      FitsOneMore(filter.layout, room, pending);
      if outbufferlen >= out.size {
        FlattenAppend(out.blocks, outbuffer[..]);
        assert outbuffer[..] == outbuffer[..outbufferlen];
        out.Push(outbuffer);
        outbuffer := null;
        outbufferlen, pending := 0, 0;
        NoFrames(filter.layout);
        assert Flatten(out.blocks) + [] == Flatten(out.blocks);
      }
    }

    /** Fills the pending block with as many frames as it takes, and pushes it when it is full. */
    method FillOutput(audio: Audio) returns (r: int, ghost n: nat)
      requires Valid() && FullBlocks() && audio.View().Holds(filter.layout.nchannels)
      modifies this, filter, out, audio, outbuffer
      ensures Valid() && FullBlocks() && audio.View().Holds(filter.layout.nchannels)
      ensures outbuffer == old(outbuffer) || outbuffer == null || fresh(outbuffer)
      ensures r < 0 <==> old(outbuffer) == null && old(out.granted) == 0
      ensures if r < 0 then out.granted == 0 else r == outbufferlen
      ensures r < 0 <==> old(Capacity()) == 0
      ensures n == if r < 0 then 0 else Min(old(audio.nsamples), room - old(pending))
      ensures audio.nsamples == old(audio.nsamples) - n && Capacity() == old(Capacity()) - n
      ensures Taken(filter.layout, old(filter.stages), old(audio.View().Frames(filter.layout.nchannels)), n,
                    filter.stages, audio.View().Frames(filter.layout.nchannels), old(Written()), Written())
    {
      hide Pcm.Frames, Pcm.Holds, Layout.Bytes, Layout.FrameSize, Flatten, Taken, Granted;
      NothingTaken(filter.layout, filter.stages, audio.View().Frames(filter.layout.nchannels), Written());
      var ok := Prepare();
      if !ok {
        return -1, 0;
      }
      n := FillBlock(audio);
      PushFull();
      return outbufferlen, n;
    }

    /** The decoder's loop: as much of one audio frame as the output has capacity for. */
    method Decode(audio: Audio) returns (ok: bool, ghost n: nat)
      requires Valid() && FullBlocks() && audio.View().Holds(filter.layout.nchannels)
      modifies this, filter, out, audio, outbuffer
      ensures Valid() && FullBlocks() && audio.View().Holds(filter.layout.nchannels)
      ensures outbuffer == old(outbuffer) || outbuffer == null || fresh(outbuffer)
      ensures n == Min(old(audio.nsamples), old(Capacity())) && (ok <==> old(audio.nsamples) <= old(Capacity()))
      ensures Capacity() == old(Capacity()) - n
      ensures !ok ==> out.granted == 0
      ensures Taken(filter.layout, old(filter.stages), old(audio.View().Frames(filter.layout.nchannels)), n,
                    filter.stages, audio.View().Frames(filter.layout.nchannels), old(Written()), Written())
    {
      hide Pcm.Frames, Pcm.Holds, Layout.Bytes, Layout.FrameSize, Flatten, Taken, Granted;
      ghost var stages, frames, written := filter.stages, audio.View().Frames(filter.layout.nchannels), Written();
      n := 0;
      NothingTaken(filter.layout, stages, frames, written);
      while audio.nsamples > 0
        invariant Valid() && FullBlocks() && audio.View().Holds(filter.layout.nchannels)
        invariant outbuffer == old(outbuffer) || outbuffer == null || fresh(outbuffer)
        invariant audio.nsamples + n == old(audio.nsamples) && Capacity() + n == old(Capacity())
        invariant Taken(filter.layout, stages, frames, n,
                        filter.stages, audio.View().Frames(filter.layout.nchannels), written, Written())
        decreases audio.nsamples
      {
        ghost var mid, left, sofar := filter.stages, audio.View().Frames(filter.layout.nchannels), Written();
        var r; ghost var m;
        r, m := FillOutput(audio);
        TakenMore(filter.layout, stages, frames, n, mid, left, written, sofar, m,
                  filter.stages, audio.View().Frames(filter.layout.nchannels), Written());
        n := n + m;
        if r < 0 {
          return false, n;
        }
      }
      return true, n;
    }
  }

  /** The frames that `granted` blocks hold. */
  ghost function Granted(room: nat, granted: nat): nat {
    room * granted
  }

  lemma GrantedLess(room: nat, granted: nat)
    ensures granted == 0 ==> Granted(room, granted) == 0
    ensures granted > 0 ==> Granted(room, granted) == Granted(room, granted - 1) + room
  {
  }

  /** `n` of the frames are gone, encoded behind what was written before. */
  ghost predicate Taken<S>(layout: Layout, stages: seq<Stage<S>>, frames: seq<Frame>, n: nat,
                           stages': seq<Stage<S>>, frames': seq<Frame>, written: seq<byte>, written': seq<byte>)
  {
    && n <= |frames| && frames' == frames[n..]
    && var (end, bytes) := Encode(layout, stages, frames[..n]);
       stages' == end && written' == written + bytes
  }

  lemma TakenNow<S>(layout: Layout, stages: seq<Stage<S>>, frames: seq<Frame>, n: nat, stages': seq<Stage<S>>,
                    frames': seq<Frame>, bytes: seq<byte>, written: seq<byte>, written': seq<byte>)
    requires n <= |frames| && frames' == frames[n..] && (stages', bytes) == Encode(layout, stages, frames[..n])
    requires written' == written + bytes
    ensures Taken(layout, stages, frames, n, stages', frames', written, written')
  {
    hide Encode;
  }

  lemma NothingTaken<S>(layout: Layout, stages: seq<Stage<S>>, frames: seq<Frame>, written: seq<byte>)
    ensures Taken(layout, stages, frames, 0, stages, frames, written, written)
  {
    assert written + [] == written;
  }

  lemma TakenMore<S>(layout: Layout, stages: seq<Stage<S>>, frames: seq<Frame>, n: nat,
                     mid: seq<Stage<S>>, left: seq<Frame>, written: seq<byte>, sofar: seq<byte>, m: nat,
                     stages': seq<Stage<S>>, frames': seq<Frame>, written': seq<byte>)
    requires Taken(layout, stages, frames, n, mid, left, written, sofar)
    requires Taken(layout, mid, left, m, stages', frames', sofar, written')
    ensures Taken(layout, stages, frames, n + m, stages', frames', written, written')
  {
    hide Encode;
    EncodeConcat(layout, stages, frames[..n], frames[n..][..m]);
    assert frames[..n + m] == frames[..n] + frames[n..][..m];
    var (end1, first) := Encode(layout, stages, frames[..n]);
    var (end2, second) := Encode(layout, mid, left[..m]);
    assert written + (first + second) == (written + first) + second;
  }

  lemma RoomLeft(layout: Layout, room: nat, pending: nat)
    requires layout.Valid() && pending <= room
    ensures layout.Bytes(room) - layout.Bytes(pending) == layout.Bytes(room - pending)
  {
    Scale(pending, room - pending, layout.FrameSize());
  }

  lemma MoreFilled(layout: Layout, pending: nat, n: nat, room: nat)
    requires layout.Valid() && pending + n <= room
    ensures layout.Bytes(pending + n) == layout.Bytes(pending) + layout.Bytes(n) <= layout.Bytes(room)
  {
    Scale(pending, n, layout.FrameSize());
    FitsOneMore(layout, room, pending + n);
  }

  lemma MoreWritten(pushed: seq<byte>, block: array<byte>, before: seq<byte>, at: nat, len: nat)
    requires at + len <= block.Length && |before| == at && block[..at] == before
    ensures pushed + block[..at + len] == (pushed + before) + block[at..at + len]
  {
    assert block[..at + len] == block[..at] + block[at..at + len];
  }

  lemma NoFrames(layout: Layout)
    ensures layout.Bytes(0) == 0
  {
  }

  // ----- a whole stream -----

  function AllFrames(chunks: seq<Pcm>, channels: nat): seq<Frame>
    requires forall i :: 0 <= i < |chunks| ==> chunks[i].Holds(channels)
  {
    if chunks == [] then []
    else AllFrames(chunks[..|chunks| - 1], channels) + chunks[|chunks| - 1].Frames(channels)
  }

  lemma AllFramesNext(chunks: seq<Pcm>, channels: nat, i: nat)
    requires forall k :: 0 <= k < |chunks| ==> chunks[k].Holds(channels)
    requires i < |chunks|
    ensures AllFrames(chunks[..i + 1], channels) == AllFrames(chunks[..i], channels) + chunks[i].Frames(channels)
  {
    assert chunks[..i + 1][..i] == chunks[..i];
  }

  /** The first `n` frames, encoded as one stream, are what was written behind `written`. */
  ghost predicate Wrote<S>(layout: Layout, stages: seq<Stage<S>>, frames: seq<Frame>, n: nat, stages': seq<Stage<S>>,
                           written: seq<byte>, written': seq<byte>)
  {
    n <= |frames| && Taken(layout, stages, frames, n, stages', frames[n..], written, written')
  }

  lemma WroteChunk<S>(layout: Layout, stages: seq<Stage<S>>, frames: seq<Frame>, mid: seq<Stage<S>>, chunk: seq<Frame>, m: nat,
                      left: seq<Frame>, stages': seq<Stage<S>>, written: seq<byte>, sofar: seq<byte>, written': seq<byte>)
    requires Wrote(layout, stages, frames, |frames|, mid, written, sofar)
    requires Taken(layout, mid, chunk, m, stages', left, sofar, written')
    ensures Wrote(layout, stages, frames + chunk, |frames| + m, stages', written, written')
  {
    hide Encode;
    var all := frames + chunk;
    assert all[..|frames|] == frames && frames[..|frames|] == frames && all[|frames|..] == chunk;
    assert Taken(layout, stages, all, |frames|, mid, chunk, written, sofar);
    TakenMore(layout, stages, all, |frames|, mid, chunk, written, sofar, m, stages', left, written');
  }

  /** However a stream is cut into decoder frames, what reaches the output is the encoding of the whole stream, as far as the
      output has capacity. */
  method DecodeStream<S>(output: Output<S>, chunks: seq<Pcm>) returns (ok: bool, ghost n: nat)
    requires output.Valid() && output.FullBlocks()
    requires forall i :: 0 <= i < |chunks| ==> chunks[i].Holds(output.filter.layout.nchannels)
    modifies output, output.filter, output.out, output.outbuffer
    ensures output.Valid() && output.FullBlocks()
    ensures Wrote(output.filter.layout, old(output.filter.stages), AllFrames(chunks, output.filter.layout.nchannels), n,
                  output.filter.stages, old(output.Written()), output.Written())
    ensures n == Min(|AllFrames(chunks, output.filter.layout.nchannels)|, old(output.Capacity()))
    ensures ok <==> |AllFrames(chunks, output.filter.layout.nchannels)| <= old(output.Capacity())
    ensures output.Capacity() == old(output.Capacity()) - n && (!ok ==> output.out.granted == 0)
  {
    hide Pcm.Frames, Pcm.Holds, Flatten, Taken, Wrote, AllFrames, Layout.Bytes, Layout.FrameSize, Granted;
    ghost var channels, layout, stages, written :=
      output.filter.layout.nchannels, output.filter.layout, output.filter.stages, output.Written();
    NothingWrote(layout, stages, chunks, written);
    n := 0;
    for i := 0 to |chunks|
      invariant output.Valid() && output.FullBlocks()
      invariant output.outbuffer == old(output.outbuffer) || output.outbuffer == null || fresh(output.outbuffer)
      invariant n == |AllFrames(chunks[..i], channels)| && output.Capacity() + n == old(output.Capacity())
      invariant Wrote(layout, stages, AllFrames(chunks[..i], channels), n, output.filter.stages, written, output.Written())
    {
      ghost var mid, sofar := output.filter.stages, output.Written();
      var audio := new Audio(chunks[i]);
      ghost var m;
      ok, m := output.Decode(audio);
      AllFramesNext(chunks, channels, i);
      WroteChunk(layout, stages, AllFrames(chunks[..i], channels), mid, chunks[i].Frames(channels), m,
                 audio.View().Frames(channels), output.filter.stages, written, sofar, output.Written());
      n := n + m;
      if !ok {
        WrotePrefix(layout, stages, chunks, channels, i + 1, n, output.filter.stages, written, output.Written());
        return;
      }
    }
    assert chunks[..|chunks|] == chunks;
    return true, n;
  }

  lemma NothingWrote<S>(layout: Layout, stages: seq<Stage<S>>, chunks: seq<Pcm>, written: seq<byte>)
    requires forall k :: 0 <= k < |chunks| ==> chunks[k].Holds(layout.nchannels)
    ensures AllFrames(chunks[..0], layout.nchannels) == []
    ensures Wrote(layout, stages, [], 0, stages, written, written)
  {
    NothingTaken(layout, stages, [], written);
  }

  lemma {:induction false} WrotePrefix<S>(layout: Layout, stages: seq<Stage<S>>, chunks: seq<Pcm>, channels: nat, i: nat, n: nat,
                                          stages': seq<Stage<S>>, written: seq<byte>, written': seq<byte>)
    requires forall k :: 0 <= k < |chunks| ==> chunks[k].Holds(channels)
    requires i <= |chunks| && Wrote(layout, stages, AllFrames(chunks[..i], channels), n, stages', written, written')
    ensures Wrote(layout, stages, AllFrames(chunks, channels), n, stages', written, written')
    ensures |AllFrames(chunks[..i], channels)| <= |AllFrames(chunks, channels)|
    decreases |chunks| - i
  {
    hide Encode, Pcm.Frames, Pcm.Holds;
    if i < |chunks| {
      AllFramesNext(chunks, channels, i);
      var frames, more := AllFrames(chunks[..i], channels), AllFrames(chunks[..i + 1], channels);
      assert more[..n] == frames[..n];
      WrotePrefix(layout, stages, chunks, channels, i + 1, n, stages', written, written');
    } else {
      assert chunks[..i] == chunks;
    }
  }
}
