/** Which sample of the decoder reaches which bytes of the output of src/filter_pcm.c, and through which stages. */
module Channels {
  import opened Bytes
  import opened FilterPcm
  import opened Rescale

  // ----- the samples in the order in which they are filtered -----

  datatype Item = Item(sample: int, bits: int, rate: int, channel: nat)

  function FrameItems(frame: Frame): (r: seq<Item>)
    ensures |r| == |frame.samples|
  {
    seq(|frame.samples|, c requires 0 <= c < |frame.samples| => Item(frame.samples[c], frame.bits, frame.rate, c))
  }

  /** Frame by frame, and channel by channel. */
  function Items(frames: seq<Frame>): seq<Item> {
    if frames == [] then [] else FrameItems(frames[0]) + Items(frames[1..])
  }

  lemma {:induction false} ItemsAt(frames: seq<Frame>, width: nat, i: nat, c: nat)
    requires i < |frames| && c < width && forall k :: 0 <= k < |frames| ==> |frames[k].samples| == width
    ensures |Items(frames)| == |frames| * width && i * width + c < |frames| * width
    ensures Items(frames)[i * width + c] == Item(frames[i].samples[c], frames[i].bits, frames[i].rate, c)
    decreases |frames|
  {
    hide FrameItems;
    ItemsLength(frames, width);
    InRange(i, |frames|, width, c);
    var first, rest := FrameItems(frames[0]), Items(frames[1..]);
    if i > 0 {
      ItemsAt(frames[1..], width, i - 1, c);
      Scale(i - 1, 1, width);
      assert (first + rest)[width + ((i - 1) * width + c)] == rest[(i - 1) * width + c];
    } else {
      FrameItemAt(frames[0], c);
      assert (first + rest)[c] == first[c];
    }
  }

  lemma FrameItemAt(frame: Frame, c: nat)
    requires c < |frame.samples|
    ensures FrameItems(frame)[c] == Item(frame.samples[c], frame.bits, frame.rate, c)
  {
  }

  lemma {:induction false} ItemsLength(frames: seq<Frame>, width: nat)
    requires forall k :: 0 <= k < |frames| ==> |frames[k].samples| == width
    ensures |Items(frames)| == |frames| * width
    decreases |frames|
  {
    hide FrameItems;
    if frames != [] {
      ItemsLength(frames[1..], width);
      Scale(|frames| - 1, 1, width);
    }
  }

  /** The samples go through the same stages one after the other. */
  function Series<S>(layout: Layout, stages: seq<Stage<S>>, items: seq<Item>): (r: (seq<Stage<S>>, seq<byte>))
    decreases |items|
  {
    if items == [] then (stages, [])
    else
      var (stages', out) := Through(stages, items[0].sample, items[0].bits, items[0].rate, items[0].channel);
      var (end, rest) := Series(layout, stages', items[1..]);
      (end, SampleBytes(layout, out, items[0].bits) + rest)
  }

  lemma {:induction false} SeriesConcat<S>(layout: Layout, stages: seq<Stage<S>>, left: seq<Item>, right: seq<Item>)
    ensures var (mid, first) := Series(layout, stages, left);
            var (end, second) := Series(layout, mid, right);
            Series(layout, stages, left + right) == (end, first + second)
    decreases |left|
  {
    hide Through, SampleBytes;
    if left == [] {
      assert left + right == right;
      var (end, second) := Series(layout, stages, right);
      assert [] + second == second;
    } else {
      var p := left[0];
      var (stages', out) := Through(stages, p.sample, p.bits, p.rate, p.channel);
      SeriesConcat(layout, stages', left[1..], right);
      assert (left + right)[1..] == left[1..] + right;
      var bytes := SampleBytes(layout, out, p.bits);
      var (mid, first) := Series(layout, stages', left[1..]);
      var (end, second) := Series(layout, mid, right);
      assert bytes + (first + second) == (bytes + first) + second;
    }
  }

  lemma {:induction false} ChannelsSeries<S>(layout: Layout, stages: seq<Stage<S>>, frame: Frame, k: nat)
    requires k <= |frame.samples|
    ensures EncodeChannels(layout, stages, frame, k) == Series(layout, stages, FrameItems(frame)[k..])
    decreases |frame.samples| - k
  {
    hide Through, SampleBytes, FrameItems;
    var items := FrameItems(frame)[k..];
    if k < |frame.samples| {
      FrameItemAt(frame, k);
      var (stages', out) := Through(stages, frame.samples[k], frame.bits, frame.rate, k);
      ChannelsSeries(layout, stages', frame, k + 1);
      assert items[1..] == FrameItems(frame)[k + 1..];
    }
  }

  lemma {:induction false} EncodeSeries<S>(layout: Layout, stages: seq<Stage<S>>, frames: seq<Frame>)
    ensures Encode(layout, stages, frames) == Series(layout, stages, Items(frames))
    decreases |frames|
  {
    hide EncodeChannels, Series, FrameItems;
    if frames == [] {
      NoSeries(layout, stages);
    } else {
      var items := FrameItems(frames[0]);
      var (stages', bytes) := EncodeChannels(layout, stages, frames[0], 0);
      ChannelsSeries(layout, stages, frames[0], 0);
      assert items[0..] == items;
      EncodeSeries(layout, stages', frames[1..]);
      SeriesConcat(layout, stages, items, Items(frames[1..]));
    }
  }

  lemma NoSeries<S>(layout: Layout, stages: seq<Stage<S>>)
    ensures Series(layout, stages, []) == (stages, [])
  {
  }

  /** What the `k`-th sample comes out as, after those before it. */
  function Came<S>(stages: seq<Stage<S>>, items: seq<Item>, k: nat): int
    requires k < |items|
    decreases k
  {
    var (stages', out) := Through(stages, items[0].sample, items[0].bits, items[0].rate, items[0].channel);
    if k == 0 then out else Came(stages', items[1..], k - 1)
  }

  lemma {:induction false} SeriesLength<S>(layout: Layout, stages: seq<Stage<S>>, items: seq<Item>)
    ensures |Series(layout, stages, items).1| == |items| * layout.samplesize
    decreases |items|
  {
    hide Through, SampleBytes;
    if items != [] {
      SeriesLength(layout, Through(stages, items[0].sample, items[0].bits, items[0].rate, items[0].channel).0, items[1..]);
      Scale(|items| - 1, 1, layout.samplesize);
    }
  }

  /** The bytes of the `k`-th sample. */
  lemma {:induction false} SeriesAt<S>(layout: Layout, stages: seq<Stage<S>>, items: seq<Item>, k: nat)
    requires k < |items|
    ensures var bytes, at, size := Series(layout, stages, items).1, k * layout.samplesize, layout.samplesize;
      at + size <= |bytes| && bytes[at..at + size] == SampleBytes(layout, Came(stages, items, k), items[k].bits)
    decreases k
  {
    hide Through, SampleBytes;
    var size := layout.samplesize;
    SeriesLength(layout, stages, items);
    NotMore(k + 1, |items|, size);
    Scale(k, 1, size);
    var (stages', out) := Through(stages, items[0].sample, items[0].bits, items[0].rate, items[0].channel);
    var first, rest := SampleBytes(layout, out, items[0].bits), Series(layout, stages', items[1..]).1;
    if k == 0 {
      assert (first + rest)[0..size] == first;
    } else {
      SeriesAt(layout, stages', items[1..], k - 1);
      Scale(k - 1, 1, size);
      BehindFirst(first, rest, (k - 1) * size, size);
    }
  }

  lemma BehindFirst(first: seq<byte>, rest: seq<byte>, at: nat, size: nat)
    requires at + size <= |rest|
    ensures (first + rest)[|first| + at..|first| + at + size] == rest[at..at + size]
  {
  }

  /** The sample of channel `c` in frame `i` leaves the stages as the samples before it have left them, and its bytes stand
      behind theirs. */
  lemma EncodedAt<S>(layout: Layout, stages: seq<Stage<S>>, frames: seq<Frame>, i: nat, c: nat)
    requires i < |frames| && c < layout.nchannels
    requires forall k :: 0 <= k < |frames| ==> |frames[k].samples| == layout.nchannels
    ensures var items, k, size := Items(frames), i * layout.nchannels + c, layout.samplesize;
      && |items| == |frames| * layout.nchannels && k < |items|
      && items[k] == Item(frames[i].samples[c], frames[i].bits, frames[i].rate, c)
      && var bytes := Encode(layout, stages, frames).1;
         && k * size + size <= |bytes|
         && bytes[k * size..k * size + size] == SampleBytes(layout, Came(stages, items, k), frames[i].bits)
  {
    hide Series, Items, Encode, SampleBytes;
    ItemsAt(frames, layout.nchannels, i, c);
    EncodeSeries(layout, stages, frames);
    SeriesAt(layout, stages, Items(frames), i * layout.nchannels + c);
  }

  // ----- the stages -----

  /** Stages work in the order of the chain: what leaves the first ones goes through the others. */
  lemma {:induction false} ThroughConcat<S>(left: seq<Stage<S>>, right: seq<Stage<S>>, sample: int, bits: int, rate: int,
                                            channel: int)
    ensures var (left', mid) := Through(left, sample, bits, rate, channel);
            var (right', out) := Through(right, mid, bits, rate, channel);
            Through(left + right, sample, bits, rate, channel) == (left' + right', out)
    decreases |left|
  {
    if left == [] {
      assert left + right == right;
      var (right', out) := Through(right, sample, bits, rate, channel);
      assert [] + right' == right';
    } else {
      var (arg, next) := left[0].step(left[0].arg, sample, bits, rate, channel);
      ThroughConcat(left[1..], right, next, bits, rate, channel);
      assert (left + right)[1..] == left[1..] + right;
      var (left', mid) := Through(left[1..], next, bits, rate, channel);
      var (right', out) := Through(right, mid, bits, rate, channel);
      assert [left[0].(arg := arg)] + (left' + right') == ([left[0].(arg := arg)] + left') + right';
    }
  }

  /** One stage is called once for a sample, and keeps its state for the next. */
  lemma ThroughOne<S>(stage: Stage<S>, sample: int, bits: int, rate: int, channel: int)
    ensures var (arg, out) := stage.step(stage.arg, sample, bits, rate, channel);
            Through([stage], sample, bits, rate, channel) == ([stage.(arg := arg)], out)
  {
    var (arg, out) := stage.step(stage.arg, sample, bits, rate, channel);
    assert [stage.(arg := arg)] + [] == [stage.(arg := arg)];
  }

  lemma {:induction false} Unstaged<S>(stages: seq<Stage<S>>, items: seq<Item>, k: nat)
    requires k < |items| && stages == []
    ensures Came(stages, items, k) == items[k].sample
    decreases k
  {
    if k > 0 {
      Unstaged(stages, items[1..], k - 1);
    }
  }

  // ----- the samples of the decoder -----

  /** The bytes read as the sample, above a zero byte for each byte by which the format is wider, if it fits. */
  ghost predicate ReadsAs(layout: Layout, bytes: seq<byte>, sample: int, bits: nat) {
    var j := if layout.shift <= bits then 0 else (layout.shift - bits + 7) / 8;
    && j <= layout.samplesize == |bytes|
    && (Signed(bytes) == sample * Two(8 * j) <==> FitsBytes(sample, layout.samplesize - j))
  }

  /** The sample of channel `c` in frame `i`: of planar audio it is in the array of that channel, the channels beginning
      again if the output has more; of interleaved audio the channels of a frame follow each other. */
  function Original(pcm: Pcm, channels: nat, i: nat, c: nat): int
    requires pcm.Holds(channels) && i < pcm.nsamples && c < channels
  {
    if !pcm.interleaved then
      if c < pcm.nchannels then pcm.samples[c][i] else pcm.samples[c % pcm.nchannels][i]
    else
      InRange(i, pcm.nsamples, pcm.nchannels, c);
      pcm.samples[0][i * pcm.nchannels + c]
  }

  /** Behind `before` frames, the bytes of channel `c` in frame `i` read as that sample. */
  ghost predicate PlaysAt(layout: Layout, pcm: Pcm, before: nat, i: nat, c: nat, bytes: seq<byte>)
    requires pcm.Holds(layout.nchannels) && pcm.bits >= 0 && i < pcm.nsamples && c < layout.nchannels
  {
    var at := ((before + i) * layout.nchannels + c) * layout.samplesize;
    && at + layout.samplesize <= |bytes|
    && ReadsAs(layout, bytes[at..at + layout.samplesize], Original(pcm, layout.nchannels, i, c), pcm.bits)
  }

  lemma SampleReadsAs(layout: Layout, sample: int, bits: nat)
    requires LittleEndian(layout)
    ensures ReadsAs(layout, SampleBytes(layout, sample, bits), sample, bits)
  {
    hide SampleBytes, Signed, Two, FitsBytes;
    ReadBack(layout, sample, bits);
  }

  lemma FrameOriginal(pcm: Pcm, channels: nat, i: nat, c: nat)
    requires pcm.Holds(channels) && i < pcm.nsamples && c < channels
    ensures pcm.FrameAt(channels, i).samples[c] == Original(pcm, channels, i, c)
    ensures pcm.FrameAt(channels, i).bits == pcm.bits
  {
    if !pcm.interleaved && c < pcm.nchannels {
      assert c % pcm.nchannels == c;
    }
  }

  /** Without stages, into a layout that uses every byte: each channel of each frame stands in its place. */
  lemma FramePlays<S>(layout: Layout, stages: seq<Stage<S>>, frames: seq<Frame>, pcm: Pcm, before: nat, i: nat, c: nat)
    requires LittleEndian(layout) && stages == [] && pcm.Holds(layout.nchannels) && pcm.bits >= 0
    requires before + i < |frames| && i < pcm.nsamples && c < layout.nchannels
    requires frames[before + i] == pcm.FrameAt(layout.nchannels, i)
    requires forall f :: 0 <= f < |frames| ==> |frames[f].samples| == layout.nchannels
    ensures PlaysAt(layout, pcm, before, i, c, Encode(layout, stages, frames).1)
  {
    hide Encode, Came, Items, SampleBytes, ReadsAs, Original, Pcm.FrameAt, Pcm.Holds, LittleEndian;
    var k := before + i;
    EncodedAt(layout, stages, frames, k, c);
    Unstaged(stages, Items(frames), k * layout.nchannels + c);
    FrameOriginal(pcm, layout.nchannels, i, c);
    SampleReadsAs(layout, frames[k].samples[c], frames[k].bits);
  }

  // ----- a whole stream -----

  /** How many frames come before the `q`-th chunk. */
  function FramesBefore(chunks: seq<Pcm>, q: nat): nat
    requires q <= |chunks|
  {
    if q == 0 then 0 else FramesBefore(chunks, q - 1) + chunks[q - 1].nsamples
  }

  /** Every sample of the first `n` frames is in its place. */
  ghost predicate Played(layout: Layout, chunks: seq<Pcm>, n: nat, bytes: seq<byte>)
    requires forall q :: 0 <= q < |chunks| ==> chunks[q].Holds(layout.nchannels) && chunks[q].bits >= 0
  {
    forall q :: 0 <= q < |chunks| ==> ChunkPlayed(layout, chunks[q], FramesBefore(chunks, q), n, bytes)
  }

  ghost predicate ChunkPlayed(layout: Layout, pcm: Pcm, before: nat, n: nat, bytes: seq<byte>)
    requires pcm.Holds(layout.nchannels) && pcm.bits >= 0
  {
    forall i: nat, c: nat :: i < pcm.nsamples && before + i < n && c < layout.nchannels
      ==> PlaysAt(layout, pcm, before, i, c, bytes)
  }

  lemma {:induction false} ChunkFrame(chunks: seq<Pcm>, channels: nat, m: nat, q: nat, i: nat)
    requires forall k :: 0 <= k < |chunks| ==> chunks[k].Holds(channels)
    requires q < m <= |chunks| && i < chunks[q].nsamples
    ensures var frames, k := AllFrames(chunks[..m], channels), FramesBefore(chunks, q) + i;
      && |frames| == FramesBefore(chunks, m)
      && k < |frames| && frames[k] == chunks[q].FrameAt(channels, i)
    decreases m
  {
    hide AllFrames, Pcm.Frames, Pcm.Holds, Pcm.FrameAt;
    AllFramesNext(chunks, channels, m - 1);
    AllLength(chunks, channels, m - 1);
    ChunkLength(chunks[m - 1], channels);
    if q < m - 1 {
      ChunkFrame(chunks, channels, m - 1, q, i);
    } else {
      ChunkAt(chunks[q], channels, i);
    }
  }

  lemma ChunkAt(pcm: Pcm, channels: nat, i: nat)
    requires pcm.Holds(channels) && i < pcm.nsamples
    ensures pcm.Frames(channels)[i] == pcm.FrameAt(channels, i)
  {
  }

  lemma ChunkLength(pcm: Pcm, channels: nat)
    requires pcm.Holds(channels)
    ensures |pcm.Frames(channels)| == pcm.nsamples
    ensures forall f :: f in pcm.Frames(channels) ==> |f.samples| == channels
  {
  }

  lemma {:induction false} AllLength(chunks: seq<Pcm>, channels: nat, m: nat)
    requires forall k :: 0 <= k < |chunks| ==> chunks[k].Holds(channels)
    requires m <= |chunks|
    ensures |AllFrames(chunks[..m], channels)| == FramesBefore(chunks, m)
    ensures forall f :: f in AllFrames(chunks[..m], channels) ==> |f.samples| == channels
    decreases m
  {
    hide Pcm.Frames, Pcm.Holds;
    if m > 0 {
      AllLength(chunks, channels, m - 1);
      AllFramesNext(chunks, channels, m - 1);
      ChunkLength(chunks[m - 1], channels);
    }
  }

  lemma StreamPlays<S>(layout: Layout, stages: seq<Stage<S>>, chunks: seq<Pcm>, n: nat)
    requires LittleEndian(layout) && stages == []
    requires forall q :: 0 <= q < |chunks| ==> chunks[q].Holds(layout.nchannels) && chunks[q].bits >= 0
    requires n <= |AllFrames(chunks, layout.nchannels)|
    ensures Played(layout, chunks, n, Encode(layout, stages, AllFrames(chunks, layout.nchannels)[..n]).1)
  {
    hide Encode, AllFrames, PlaysAt, Pcm.Holds, Pcm.FrameAt, LittleEndian;
    var frames := AllFrames(chunks, layout.nchannels);
    assert chunks[..|chunks|] == chunks;
    AllLength(chunks, layout.nchannels, |chunks|);
    forall q | 0 <= q < |chunks|
      ensures ChunkPlayed(layout, chunks[q], FramesBefore(chunks, q), n, Encode(layout, stages, frames[..n]).1)
    {
      var before := FramesBefore(chunks, q);
      forall i: nat, c: nat | i < chunks[q].nsamples && before + i < n && c < layout.nchannels
        ensures PlaysAt(layout, chunks[q], before, i, c, Encode(layout, stages, frames[..n]).1)
      {
        ChunkFrame(chunks, layout.nchannels, |chunks|, q, i);
        FramePlays(layout, stages, frames[..n], chunks[q], before, i, c);
      }
    }
  }

  /** A decoder plays a stream, in any chunks, without stages: each sample of each channel is in the place of its channel, of
      as many frames as the output takes. */
  method Play<S>(output: Output<S>, chunks: seq<Pcm>) returns (ghost n: nat)
    requires output.Valid() && output.FullBlocks() && output.filter.stages == [] && output.Written() == []
    requires LittleEndian(output.filter.layout)
    requires forall q :: 0 <= q < |chunks| ==> chunks[q].Holds(output.filter.layout.nchannels) && chunks[q].bits >= 0
    modifies output, output.filter, output.out, output.outbuffer
    ensures output.Valid() && output.FullBlocks()
    ensures n == Min(FramesBefore(chunks, |chunks|), old(output.Capacity()))
    ensures Played(output.filter.layout, chunks, n, output.Written())
  {
    hide Encode, AllFrames, Played, Pcm.Holds, LittleEndian, Layout.Bytes, Layout.FrameSize, Flatten;
    ghost var layout, stages := output.filter.layout, output.filter.stages;
    var ok;
    ok, n := DecodeStream(output, chunks);
    StreamPlays(layout, stages, chunks, n);
    assert chunks[..|chunks|] == chunks;
    AllLength(chunks, layout.nchannels, |chunks|);
    ghost var bytes := Encode(layout, stages, AllFrames(chunks, layout.nchannels)[..n]).1;
    assert [] + bytes == bytes;
    assert output.Written() == bytes && output.filter.layout == layout;
  }

  // ----- planar and interleaved audio -----

  /** The first `n` frames one behind the other. */
  function Mixed(samples: seq<seq<int>>, width: nat, n: nat): (r: seq<int>)
    requires width <= |samples| && forall c :: 0 <= c < width ==> n <= |samples[c]|
    ensures |r| == n * width
  {
    if n == 0 then []
    else
      Scale(n - 1, 1, width);
      Mixed(samples, width, n - 1) + seq(width, c requires 0 <= c < width => samples[c][n - 1])
  }

  lemma {:induction false} MixedAt(samples: seq<seq<int>>, width: nat, n: nat, i: nat, c: nat)
    requires width <= |samples| && forall k :: 0 <= k < width ==> n <= |samples[k]|
    requires i < n && c < width
    ensures i * width + c < n * width && Mixed(samples, width, n)[i * width + c] == samples[c][i]
    decreases n
  {
    InRange(i, n, width, c);
    Scale(n - 1, 1, width);
    var init, last := Mixed(samples, width, n - 1), seq(width, k requires 0 <= k < width => samples[k][n - 1]);
    if i < n - 1 {
      MixedAt(samples, width, n - 1, i, c);
      assert (init + last)[i * width + c] == init[i * width + c];
    } else {
      assert (init + last)[|init| + c] == last[c];
    }
  }

  /** The same audio, frame by frame in one array. */
  function Interleaving(pcm: Pcm): (r: Pcm)
    requires !pcm.interleaved && pcm.Holds(pcm.nchannels)
    ensures r.Holds(pcm.nchannels)
  {
    Pcm([Mixed(pcm.samples, pcm.nchannels, pcm.nsamples)], pcm.nsamples, pcm.rate, pcm.bits, pcm.nchannels, true)
  }

  /** Both give the same frames, and so the same bytes. */
  lemma InterleavedSame(pcm: Pcm, channels: nat)
    requires !pcm.interleaved && pcm.Holds(pcm.nchannels) && channels <= pcm.nchannels
    ensures pcm.Holds(channels) && Interleaving(pcm).Holds(channels)
    ensures Interleaving(pcm).Frames(channels) == pcm.Frames(channels)
  {
    hide Pcm.FrameAt;
    var r := Interleaving(pcm);
    forall i | 0 <= i < pcm.nsamples
      ensures r.FrameAt(channels, i) == pcm.FrameAt(channels, i)
    {
      SameFrame(pcm, channels, i);
    }
  }

  lemma SameFrame(pcm: Pcm, channels: nat, i: nat)
    requires !pcm.interleaved && pcm.Holds(pcm.nchannels) && channels <= pcm.nchannels && i < pcm.nsamples
    ensures pcm.Holds(channels) && Interleaving(pcm).Holds(channels)
    ensures Interleaving(pcm).FrameAt(channels, i) == pcm.FrameAt(channels, i)
  {
    hide Interleaving, Pcm.Get;
    var r := Interleaving(pcm);
    InterleavingShape(pcm, channels);
    forall c | 0 <= c < channels
      ensures r.Get(channels, c, i) == pcm.Get(channels, c, i)
    {
      SameSample(pcm, channels, i, c);
    }
    assert r.FrameAt(channels, i).samples == pcm.FrameAt(channels, i).samples;
  }

  lemma InterleavingShape(pcm: Pcm, channels: nat)
    requires !pcm.interleaved && pcm.Holds(pcm.nchannels) && channels <= pcm.nchannels
    ensures pcm.Holds(channels) && Interleaving(pcm).Holds(channels)
    ensures var r := Interleaving(pcm);
      r.nsamples == pcm.nsamples && r.bits == pcm.bits && r.rate == pcm.rate
  {
  }

  lemma SameSample(pcm: Pcm, channels: nat, i: nat, c: nat)
    requires !pcm.interleaved && pcm.Holds(pcm.nchannels) && c < channels <= pcm.nchannels && i < pcm.nsamples
    ensures pcm.Holds(channels) && Interleaving(pcm).Holds(channels)
    ensures Interleaving(pcm).Get(channels, c, i) == pcm.Get(channels, c, i)
  {
    hide Mixed;
    MixedAt(pcm.samples, pcm.nchannels, pcm.nsamples, i, c);
    SmallRest(c, pcm.nchannels);
  }

  lemma SmallRest(c: nat, width: nat)
    requires c < width
    ensures c % width == c
  {
  }

  /** So a stream comes out the same, whatever the stages do, whichever of its chunks are interleaved. */
  lemma {:induction false} InterleavedStream(chunks: seq<Pcm>, mixed: seq<Pcm>, channels: nat)
    requires |mixed| == |chunks|
    requires forall q :: 0 <= q < |chunks| ==>
      && !chunks[q].interleaved && chunks[q].Holds(chunks[q].nchannels) && channels <= chunks[q].nchannels
      && (mixed[q] == chunks[q] || mixed[q] == Interleaving(chunks[q]))
    ensures forall q :: 0 <= q < |chunks| ==> chunks[q].Holds(channels) && mixed[q].Holds(channels)
    ensures AllFrames(mixed, channels) == AllFrames(chunks, channels)
    decreases |chunks|
  {
    hide Pcm.Frames, Interleaving, Pcm.Holds;
    forall q | 0 <= q < |chunks|
      ensures chunks[q].Holds(channels) && mixed[q].Holds(channels)
      ensures mixed[q].Frames(channels) == chunks[q].Frames(channels)
    {
      InterleavedSame(chunks[q], channels);
    }
    if chunks != [] {
      InterleavedStream(chunks[..|chunks| - 1], mixed[..|chunks| - 1], channels);
    }
  }
}
