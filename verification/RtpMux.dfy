/** The sending end of the RTP leg, src/mux_rtp.c with one stream: encoder blocks are packed into packets, each
    packet may be sent twice, and the receiver of src/demux_rtp.c gets the blocks back. */
module RtpMux {
  import opened Bytes
  import opened RtpDemux
  import opened RtpDelivery
  import opened Options

  /** `size` is the block size of the output jitter; `double` is the mode with two source ids. */
  datatype Settings = Settings(stream: Stream, size: nat, double: bool) {
    /** The block fits into a packet of its own. */
    predicate Holds(block: seq<byte>) {
      HEADER_SIZE + |block| < size
    }

    predicate HoldsAll(blocks: seq<seq<byte>>) {
      forall i :: 0 <= i < |blocks| ==> Holds(blocks[i])
    }
  }

  /** The header fields that change, the pending control command, and the encoder blocks not yet packed. */
  datatype Sender = Sender(seqnum: nat, marker: bool, control: Option<Command>, input: seq<seq<byte>>)

  /** The number 65535 is passed over. */
  function NextSeqnum(seqnum: nat): nat {
    if (seqnum + 1) % 0x10000 == 0xFFFF then 0 else (seqnum + 1) % 0x10000
  }

  /** How many leading blocks go into a packet that is already `len` long. */
  function Packed(blocks: seq<seq<byte>>, len: nat, size: nat): (k: nat)
    ensures k <= |blocks|
    ensures k == 0 <==> blocks == [] || len + |blocks[0]| >= size
    decreases |blocks|
  {
    if blocks == [] || len + |blocks[0]| >= size then 0 else 1 + Packed(blocks[1..], len + |blocks[0]|, size)
  }

  function PackCount(s: Settings, input: seq<seq<byte>>): (k: nat)
    ensures k <= |input|
  {
    Packed(input, HEADER_SIZE, s.size)
  }

  /** The encoder ended before a block arrived that does not fit. */
  predicate Ended(s: Settings, st: Sender) {
    PackCount(s, st.input) == |st.input|
  }

  function First(s: Settings, st: Sender): Packet {
    Data(s.stream.ssrc, st.seqnum, s.stream.pt, st.marker, Flatten(st.input[..PackCount(s, st.input)]))
  }

  function Copy(s: Settings, p: Packet): Packet
    requires p.Data?
  {
    Data(s.stream.ssrc + 1, p.seqnum, p.pt, p.marker, p.payload)
  }

  /** The control packet, if a command is pending; it carries the next number. */
  function CommandOf(s: Settings, st: Sender): seq<Packet> {
    if st.control.Some? then [Control(s.stream.ssrc, NextSeqnum(st.seqnum), st.control.value)] else []
  }

  /** The packets of one call. */
  function Emit(s: Settings, st: Sender): seq<Packet> {
    if Ended(s, st) then []
    else
      [First(s, st)]
      + (if s.double then [Copy(s, First(s, st))] else [])
      + CommandOf(s, st)
  }

  /** What one call leaves. The blocks packed when the encoder ends are gone. */
  function After(s: Settings, st: Sender): Sender {
    if st.input == [] then st
    else
      Sender(NextSeqnum(st.seqnum), (st.seqnum + 1) % 0x10000 == 0xFFFF, if Ended(s, st) then st.control else None,
        st.input[PackCount(s, st.input)..])
  }

  /** `_mux_player_cb`: a stop or a new volume puts its command in place of the pending one. */
  function Ordered(st: Sender, order: Option<Command>): Sender {
    if order.Some? then st.(control := order) else st
  }

  /** The sender after as many calls as `orders`, each after what the player has ordered meanwhile, if anything. */
  function Later(s: Settings, st: Sender, orders: seq<Option<Command>>): Sender
    decreases |orders|
  {
    if orders == [] then st else Later(s, After(s, Ordered(st, orders[0])), orders[1..])
  }

  /** Everything that these calls send. */
  function Emitted(s: Settings, st: Sender, orders: seq<Option<Command>>): seq<Packet>
    decreases |orders|
  {
    if orders == [] then []
    else Emit(s, Ordered(st, orders[0])) + Emitted(s, After(s, Ordered(st, orders[0])), orders[1..])
  }

  /** How many blocks `n` calls send. */
  function SentCount(s: Settings, input: seq<seq<byte>>, n: nat): (k: nat)
    ensures k <= |input|
    decreases n
  {
    var first := PackCount(s, input);
    if n == 0 || first == |input| then 0 else first + SentCount(s, input[first..], n - 1)
  }

  class Mux {
    const settings: Settings
    var seqnum: nat
    var marker: bool
    var control: Option<Command>
    var input: seq<seq<byte>>
    var sent: seq<Packet>

    ghost function View(): Sender
      reads this
    {
      Sender(seqnum, marker, control, input)
    }

    /** The first sequence number is random. */
    constructor (settings: Settings, seqnum: nat, input: seq<seq<byte>>)
      ensures this.settings == settings && sent == []
      ensures View() == Sender(seqnum, true, Some(SetVolume(20)), input)
    {
      this.settings, this.seqnum, this.marker, this.control := settings, seqnum, true, Some(SetVolume(20));
      this.input, sent := input, [];
    }

    /** The packing loop: takes blocks while they fit; false if the encoder ends meanwhile. */
    method Pack() returns (payload: seq<byte>, more: bool)
      requires input != []
      modifies this`input
      ensures var k := PackCount(settings, old(input));
        input == old(input)[k..] && payload == Flatten(old(input)[..k]) && more == (k < |old(input)|)
    {
      hide Flatten, Packed;
      payload := [];
      NothingPacked(input);
      ghost var k: nat := 0;
      while HEADER_SIZE + |payload| + |input[0]| < settings.size
        invariant k < |old(input)| && input == old(input)[k..] && payload == Flatten(old(input)[..k])
        invariant PackCount(settings, old(input)) == k + Packed(input, HEADER_SIZE + |payload|, settings.size)
        decreases |input|
      {
        PayloadGrows(old(input), k);
        PackedMore(input, HEADER_SIZE + |payload|, settings.size);
        payload := payload + input[0];
        input := input[1..];
        k := k + 1;
        if input == [] {
          return payload, false;
        }
      }
      return payload, true;
    }

    /** `_mux_run`; false at the end of the input. */
    method Run() returns (more: bool)
      modifies this
      ensures View() == After(settings, old(View())) && sent == old(sent) + Emit(settings, old(View()))
      ensures more == !Ended(settings, old(View()))
    {
      hide Flatten, PackCount;
      if input == [] {
        return false;
      }
      var number, first := seqnum, marker;
      marker := false;
      seqnum := (seqnum + 1) % 0x10000;
      if seqnum == 0xFFFF {
        seqnum := 0;
        marker := true;
      }
      var payload;
      payload, more := Pack();
      if !more {
        assert Ended(settings, old(View()));
        assert sent == old(sent) + [];
        return;
      }
      var packet := Data(settings.stream.ssrc, number, settings.stream.pt, first, payload);
      sent := sent + [packet];
      if settings.double {
        sent := sent + [Copy(settings, packet)];
      }
      if control.Some? {
        sent := sent + [Control(settings.stream.ssrc, seqnum, control.value)];
        control := None;
      }
    }

    method Order(order: Option<Command>)
      modifies this`control
      ensures View() == Ordered(old(View()), order)
    {
      if order.Some? {
        control := order;
      }
    }

    /** The thread of the multiplexer, with its one stream: at most as many turns of its loop as `orders`. */
    method Thread(orders: seq<Option<Command>>) returns (run: bool)
      modifies this
      ensures sent == old(sent) + Emitted(settings, old(View()), orders)
      ensures if run then View() == Later(settings, old(View()), orders) else input == []
    {
      hide Emit, After, Ended, Emitted, Later;
      run := true;
      ghost var st := View();
      assert orders[0..] == orders;
      NoTurn(settings, View());
      for i := 0 to |orders|
        invariant run
        invariant sent + Emitted(settings, View(), orders[i..]) == old(sent) + Emitted(settings, st, orders)
        invariant Later(settings, View(), orders[i..]) == Later(settings, st, orders)
      {
        ghost var before, was := sent, View();
        OneTurn(settings, was, orders, i);
        Order(orders[i]);
        ghost var ready := View();
        run := Run();
        assert before + Emitted(settings, was, orders[i..]) == sent + Emitted(settings, View(), orders[i + 1..]);
        if !run {
          StopsFor(settings, ready, orders[i + 1..]);
          return;
        }
      }
      assert orders[|orders|..] == [];
      NoTurn(settings, View());
    }
  }

  lemma NoTurn(s: Settings, st: Sender)
    ensures Emitted(s, st, []) == [] && Later(s, st, []) == st
  {
  }

  lemma OneTurn(s: Settings, st: Sender, orders: seq<Option<Command>>, i: nat)
    requires i < |orders|
    ensures var ready := Ordered(st, orders[i]);
      && Emitted(s, st, orders[i..]) == Emit(s, ready) + Emitted(s, After(s, ready), orders[i + 1..])
      && Later(s, st, orders[i..]) == Later(s, After(s, ready), orders[i + 1..])
  {
    hide Emit, After, Ordered;
    assert orders[i..][1..] == orders[i + 1..];
  }

  /** Once the encoder has ended, nothing is sent any more. */
  lemma {:induction false} StopsFor(s: Settings, st: Sender, orders: seq<Option<Command>>)
    requires Ended(s, st)
    ensures After(s, st).input == [] && Emit(s, st) == []
    ensures Emitted(s, After(s, st), orders) == []
    decreases |orders|
  {
    if orders != [] {
      StopsFor(s, Ordered(After(s, st), orders[0]), orders[1..]);
    }
  }

  lemma PackedMore(blocks: seq<seq<byte>>, len: nat, size: nat)
    requires blocks != [] && len + |blocks[0]| < size
    ensures Packed(blocks, len, size) == 1 + Packed(blocks[1..], len + |blocks[0]|, size)
    ensures |blocks| == 1 ==> Packed(blocks[1..], len + |blocks[0]|, size) == 0
  {
  }

  lemma NothingPacked(blocks: seq<seq<byte>>)
    ensures Flatten(blocks[..0]) == [] && blocks[0..] == blocks
  {
  }

  lemma PayloadGrows(blocks: seq<seq<byte>>, k: nat)
    requires k < |blocks|
    ensures Flatten(blocks[..k + 1]) == Flatten(blocks[..k]) + blocks[k] && blocks[k..][1..] == blocks[k + 1..]
  {
    assert blocks[..k + 1] == blocks[..k] + [blocks[k]];
    FlattenAppend(blocks[..k], blocks[k]);
  }

  /** The packed blocks fit, and the first block left out, if any, does not. */
  lemma {:induction false} PackedExact(blocks: seq<seq<byte>>, len: nat, size: nat)
    requires len < size
    ensures var k := Packed(blocks, len, size);
      && len + |Flatten(blocks[..k])| < size
      && (k < |blocks| ==> len + |Flatten(blocks[..k])| + |blocks[k]| >= size)
    decreases |blocks|
  {
    if blocks != [] && len + |blocks[0]| < size {
      var k := Packed(blocks[1..], len + |blocks[0]|, size);
      PackedExact(blocks[1..], len + |blocks[0]|, size);
      assert blocks[..k + 1] == [blocks[0]] + blocks[1..][..k];
      FlattenConcat([blocks[0]], blocks[1..][..k]);
      FlattenOne(blocks[0]);
    }
  }

  /** Every data packet is shorter than the output block. */
  lemma EmitFits(s: Settings, st: Sender, i: nat)
    requires HEADER_SIZE < s.size && i < |Emit(s, st)| && Emit(s, st)[i].Data?
    ensures HEADER_SIZE + |Emit(s, st)[i].payload| < s.size
  {
    hide Flatten, Packed;
    PackedExact(st.input, HEADER_SIZE, s.size);
  }

  // ----- what the receiver makes of it -----

  /** The source id is even and not zero, and the numbers do not wrap within `n` calls. */
  predicate Sendable(s: Settings, st: Sender, n: nat) {
    && s.stream.ssrc > 0 && s.stream.ssrc % 2 == 0 && HEADER_SIZE < s.size
    && 1 <= st.seqnum && st.seqnum + n <= 65534
  }

  lemma {:induction false} InOrderSooner(s: Stream, packets: seq<Packet>, last: int, sooner: int)
    requires InOrder(s, packets, last) && sooner <= last
    ensures InOrder(s, packets, sooner)
    decreases packets
  {
    if packets != [] {
      InOrderSooner(s, packets[1..], KeyAfter(s, packets[0], last), KeyAfter(s, packets[0], sooner));
    }
  }

  /** The packets of one call open a stream: they are in order, and add one payload however often it was sent. */
  lemma EmitOpens(s: Settings, st: Sender, rest: seq<Packet>, cur: nat)
    requires Sendable(s, st, 1) && !Ended(s, st) && cur < st.seqnum
    requires InOrder(s.stream, rest, 2 * st.seqnum + 1)
    ensures InOrder(s.stream, Emit(s, st) + rest, 2 * st.seqnum - 1)
    ensures FirstCopies(Emit(s, st) + rest, cur) == [First(s, st)] + FirstCopies(rest, st.seqnum)
  {
    hide First, FirstCopies, InOrder, PackCount, Copy, Emit;
    var p := First(s, st);
    FirstFields(s, st);
    var tail := CommandOf(s, st) + rest;
    EmitParts(s, st, rest);
    ControlSkipped(s.stream, tail, rest, 2 * st.seqnum + 1, st.seqnum);
    InOrderSooner(s.stream, tail, 2 * st.seqnum + 1, 2 * st.seqnum);
    var copied := (if s.double then [Copy(s, p)] else []) + tail;
    CopySkipped(s, p, copied, tail);
    FirstOpens(s.stream, p, copied, cur);
  }

  lemma EmitParts(s: Settings, st: Sender, rest: seq<Packet>)
    requires !Ended(s, st)
    ensures var p := First(s, st);
      var copied := (if s.double then [Copy(s, p)] else []) + (CommandOf(s, st) + rest);
      p.Data? && Emit(s, st) + rest == [p] + copied
  {
    hide PackCount, Flatten;
  }

  lemma FirstFields(s: Settings, st: Sender)
    ensures First(s, st).Data? && First(s, st).ssrc == s.stream.ssrc && First(s, st).pt == s.stream.pt
    ensures First(s, st).seqnum == st.seqnum
  {
  }

  lemma FirstOpens(s: Stream, p: Packet, rest: seq<Packet>, cur: nat)
    requires p.Data? && p.ssrc == s.ssrc && p.pt == s.pt && 1 <= p.seqnum <= 65534 && cur < p.seqnum
    requires InOrder(s, rest, Key(s, p))
    ensures InOrder(s, [p] + rest, Key(s, p) - 1) && FirstCopies([p] + rest, cur) == [p] + FirstCopies(rest, p.seqnum)
  {
    assert ([p] + rest)[1..] == rest;
  }

  lemma ControlSkipped(s: Stream, tail: seq<Packet>, rest: seq<Packet>, last: int, cur: nat)
    requires tail == rest || (|tail| > 0 && tail[0].Control? && tail[0].ssrc == s.ssrc && tail[1..] == rest)
    requires InOrder(s, rest, last)
    ensures InOrder(s, tail, last) && FirstCopies(tail, cur) == FirstCopies(rest, cur)
  {
  }

  lemma CopySkipped(s: Settings, p: Packet, copied: seq<Packet>, tail: seq<Packet>)
    requires p.Data? && p.ssrc == s.stream.ssrc && p.pt == s.stream.pt && 1 <= p.seqnum <= 65534
    requires copied == tail || (|copied| > 0 && copied[0] == Copy(s, p) && copied[1..] == tail)
    requires InOrder(s.stream, tail, 2 * p.seqnum) && InOrder(s.stream, tail, 2 * p.seqnum + 1)
    ensures InOrder(s.stream, copied, Key(s.stream, p)) && FirstCopies(copied, p.seqnum) == FirstCopies(tail, p.seqnum)
  {
  }

  /** Everything sent is in order, and its first copies carry the blocks that were sent, whole and in order. */
  lemma {:induction false} EmittedCarries(s: Settings, st: Sender, orders: seq<Option<Command>>, cur: nat)
    requires Sendable(s, st, |orders|) && cur < st.seqnum
    ensures InOrder(s.stream, Emitted(s, st, orders), 2 * st.seqnum - 1)
    ensures Payloads(FirstCopies(Emitted(s, st, orders), cur)) == Flatten(st.input[..SentCount(s, st.input, |orders|)])
    decreases |orders|
  {
    hide Flatten, PackCount, Emit, FirstCopies, InOrder, Payloads;
    if orders == [] || Ended(s, st) {
      NothingSent(s, st, orders, cur);
    } else {
      var ready, rest := Ordered(st, orders[0]), orders[1..];
      var next := After(s, ready);
      AfterSendable(s, ready);
      EmittedCarries(s, next, rest, st.seqnum);
      EmitOpens(s, ready, Emitted(s, next, rest), cur);
      PayloadsMore(First(s, ready), FirstCopies(Emitted(s, next, rest), st.seqnum));
      FlattenParts(st.input, PackCount(s, st.input), SentCount(s, next.input, |rest|));
    }
  }

  lemma NothingSent(s: Settings, st: Sender, orders: seq<Option<Command>>, cur: nat)
    requires orders == [] || Ended(s, st)
    ensures Emitted(s, st, orders) == [] && InOrder(s.stream, [], 2 * st.seqnum - 1)
    ensures SentCount(s, st.input, |orders|) == 0 && Payloads(FirstCopies([], cur)) == Flatten(st.input[..0])
  {
    hide Flatten, Packed;
    NothingPacked(st.input);
    if orders != [] {
      StopsFor(s, Ordered(st, orders[0]), orders[1..]);
    }
  }

  lemma AfterSendable(s: Settings, st: Sender)
    requires Sendable(s, st, 1) && !Ended(s, st)
    ensures After(s, st).seqnum == st.seqnum + 1 && After(s, st).input == st.input[PackCount(s, st.input)..]
  {
    hide PackCount;
  }

  lemma PayloadsMore(p: Packet, rest: seq<Packet>)
    requires p.Data?
    ensures Payloads([p] + rest) == p.payload + Payloads(rest)
  {
    assert ([p] + rest)[1..] == rest;
  }

  lemma FlattenParts(blocks: seq<seq<byte>>, k: nat, n: nat)
    requires k + n <= |blocks|
    ensures Flatten(blocks[..k]) + Flatten(blocks[k..][..n]) == Flatten(blocks[..k + n])
  {
    assert blocks[..k + n] == blocks[..k] + blocks[k..][..n];
    FlattenConcat(blocks[..k], blocks[k..][..n]);
  }

  /** The packets carry the numbers from `from` on, one by one. */
  predicate Consecutive(packets: seq<Packet>, from: nat) {
    forall i :: 0 <= i < |packets| ==> packets[i].Data? && packets[i].seqnum == from + i
  }

  /** No number is passed over by the sender. */
  lemma {:induction false} EmittedConsecutive(s: Settings, st: Sender, orders: seq<Option<Command>>, cur: nat)
    requires Sendable(s, st, |orders|) && cur < st.seqnum
    ensures Consecutive(FirstCopies(Emitted(s, st, orders), cur), st.seqnum)
    decreases |orders|
  {
    hide Flatten, PackCount, Emit, FirstCopies, InOrder, Payloads;
    if orders == [] || Ended(s, st) {
      NothingSent(s, st, orders, cur);
      NoCopies(cur);
    } else {
      var ready, rest := Ordered(st, orders[0]), orders[1..];
      var next := After(s, ready);
      AfterSendable(s, ready);
      EmittedConsecutive(s, next, rest, st.seqnum);
      EmittedCarries(s, next, rest, st.seqnum);
      EmitOpens(s, ready, Emitted(s, next, rest), cur);
      FirstFields(s, ready);
    }
  }

  lemma NoCopies(cur: nat)
    ensures FirstCopies([], cur) == []
  {
  }

  /** Conservation end to end, after any number of calls and for blocks of any size. Without loss on the channel, the
      decoder behind the receiver has got exactly the blocks that were sent, in order, once each, with or without
      doubling, and nothing else; and no packet counts as missing. */
  lemma EndToEnd(c: Config, s: Settings, st: Sender, orders: seq<Option<Command>>)
    requires Sendable(s, st, |orders|) && s.stream.Valid(c)
    ensures var end := Run(c, FRESH, Emitted(s, st, orders));
      && Flatten(end.pushed) == Flatten(st.input[..SentCount(s, st.input, |orders|)])
      && end.missing == 0 && forall i :: 0 <= i < |end.delivered| ==> end.delivered[i] == st.seqnum + i
  {
    hide Run, FirstCopies, InOrder, Payloads, Emitted, Flatten;
    EmittedCarries(s, st, orders, 0);
    EmittedConsecutive(s, st, orders, 0);
    InOrderSooner(s.stream, Emitted(s, st, orders), 2 * st.seqnum - 1, -1);
    DeliveredFirst(c, s.stream, Emitted(s, st, orders));
  }

  // ----- numbers that wrap -----

  /** The first packet of a call is delivered, its copy is not. */
  lemma CallReceived(c: Config, s: Settings, st: Sender, r: State)
    requires s.stream.Valid(c) && Listening(c, s.stream, r) && !Ended(s, st) && st.seqnum < 0x10000
    ensures var r' := Run(c, r, Emit(s, st));
      && Listening(c, s.stream, r')
      && r'.delivered == r.delivered + [st.seqnum] && r'.seqnum == st.seqnum
      && r'.pushed == r.pushed + Chunks(First(s, st).payload, c.size)
      && r'.missing == r.missing + if r.seqnum == 0 then 0 else (st.seqnum - r.seqnum - 1) % 0x10000
  {
    hide Receive, Chunks, PackCount, Flatten, Run, Listening;
    var p, control := First(s, st), CommandOf(s, st);
    var r1 := Receive(c, r, p);
    ReceivedAnyOrder(c, s.stream, r, p);
    RunNext(c, r, p, (if s.double then [Copy(s, p)] else []) + control);
    if s.double {
      ReceivedAnyOrder(c, s.stream, r1, Copy(s, p));
      RunNext(c, r1, Copy(s, p), control);
      ControlReceived(c, s, st, Receive(c, r1, Copy(s, p)));
      assert Emit(s, st) == [p] + ([Copy(s, p)] + control);
    } else {
      ControlReceived(c, s, st, r1);
      assert Emit(s, st) == [p] + ([] + control) && [] + control == control;
    }
  }

  lemma ControlReceived(c: Config, s: Settings, st: Sender, r: State)
    requires s.stream.Valid(c) && Listening(c, s.stream, r)
    ensures var r' := Run(c, r, CommandOf(s, st));
      && Listening(c, s.stream, r')
      && r'.delivered == r.delivered && r'.seqnum == r.seqnum && r'.pushed == r.pushed && r'.missing == r.missing
  {
    hide Receive, Listening;
    if st.control.Some? {
      ReceivedAnyOrder(c, s.stream, r, CommandOf(s, st)[0]);
      RunNext(c, r, CommandOf(s, st)[0], []);
      assert CommandOf(s, st) == [CommandOf(s, st)[0]] + [];
    }
  }

  /** The receiver expects the sender's number. */
  predicate Expects(r: State, seqnum: nat) {
    r.delivered == [] || (r.seqnum < 0xFFFF && NextSeqnum(r.seqnum) == seqnum)
  }

  /** From `r` to `end`, these consecutive numbers from `seqnum` on were delivered, with these bytes. */
  ghost predicate Gained(r: State, end: State, seqnum: nat, numbers: seq<nat>, bytes: seq<byte>) {
    && end.delivered == r.delivered + numbers && Flatten(end.pushed) == Flatten(r.pushed) + bytes
    && end.missing == r.missing + Wraps(seqnum, |numbers|) + (if numbers != [] && r.delivered != [] && seqnum == 0 then 1 else 0)
    && forall k :: 0 <= k < |numbers| ==> numbers[k] == NumberAt(seqnum, k)
  }

  lemma {:induction false} AllReceived(c: Config, s: Settings, st: Sender, orders: seq<Option<Command>>, r: State)
    returns (numbers: seq<nat>)
    requires s.stream.Valid(c) && Listening(c, s.stream, r) && st.seqnum < 0xFFFF && Expects(r, st.seqnum)
    ensures Gained(r, Run(c, r, Emitted(s, st, orders)), st.seqnum, numbers,
                   Flatten(st.input[..SentCount(s, st.input, |orders|)]))
    decreases |orders|
  {
    hide Flatten, PackCount, Emit, Listening, Run, Gained, Emitted, SentCount, Expects;
    if orders == [] || Ended(s, st) {
      NothingSent(s, st, orders, 0);
      NothingMore(c, r, st.seqnum, st.input);
      return [];
    }
    var ready, rest := Ordered(st, orders[0]), orders[1..];
    var next := After(s, ready);
    var r' := Run(c, r, Emit(s, ready));
    MoreCalls(s, st, orders);
    CallGained(c, s, ready, r);
    RunConcat(c, r, Emit(s, ready), Emitted(s, next, rest));
    NextFields(s, ready);
    var more := AllReceived(c, s, next, rest, r');
    var end := Run(c, r', Emitted(s, next, rest));
    var k, n := PackCount(s, st.input), SentCount(s, next.input, |rest|);
    FlattenParts(st.input, k, n);
    GainedMore(r, r', end, st.seqnum, Flatten(st.input[..k]), more, Flatten(next.input[..n]));
    numbers := [st.seqnum] + more;
  }

  lemma MoreCalls(s: Settings, st: Sender, orders: seq<Option<Command>>)
    requires orders != [] && !Ended(s, st)
    ensures var ready := Ordered(st, orders[0]);
      Emitted(s, st, orders) == Emit(s, ready) + Emitted(s, After(s, ready), orders[1..])
    ensures var k := PackCount(s, st.input);
      SentCount(s, st.input, |orders|) == k + SentCount(s, st.input[k..], |orders| - 1)
  {
    hide Emit, PackCount;
  }

  lemma CallGained(c: Config, s: Settings, st: Sender, r: State)
    requires s.stream.Valid(c) && Listening(c, s.stream, r) && !Ended(s, st) && st.seqnum < 0xFFFF && Expects(r, st.seqnum)
    ensures var r' := Run(c, r, Emit(s, st));
      && Listening(c, s.stream, r') && Expects(r', NextSeqnum(st.seqnum)) && r'.delivered != []
      && Gained(r, r', st.seqnum, [st.seqnum], Flatten(st.input[..PackCount(s, st.input)]))
  {
    hide Flatten, PackCount, Emit, Listening, Run, Chunks, First;
    CallReceived(c, s, st, r);
    NextFields(s, st);
    GapExactly(c, s.stream, r, st.seqnum);
    PushedMore(r.pushed, First(s, st), c.size);
  }

  lemma GainedMore(r: State, r': State, end: State, seqnum: nat, bytes: seq<byte>, more: seq<nat>, rest: seq<byte>)
    requires seqnum < 0xFFFF && r'.delivered != []
    requires Gained(r, r', seqnum, [seqnum], bytes) && Gained(r', end, NextSeqnum(seqnum), more, rest)
    ensures Gained(r, end, seqnum, [seqnum] + more, bytes + rest)
  {
    hide Flatten, Wraps, NumberAt, NextSeqnum;
    var numbers := [seqnum] + more;
    WrapsMore(seqnum, |more|);
    WrapsMore(seqnum, 0);
    Regroup(Flatten(r.pushed), bytes, rest);
    assert (r.delivered + [seqnum]) + more == r.delivered + numbers;
    forall k | 0 <= k < |numbers| ensures numbers[k] == NumberAt(seqnum, k) {
      NumberNext(seqnum, k);
      assert k > 0 ==> numbers[k] == more[k - 1];
    }
  }

  lemma NumberNext(seqnum: nat, k: nat)
    requires seqnum < 0xFFFF
    ensures if k == 0 then NumberAt(seqnum, 0) == seqnum else NumberAt(seqnum, k) == NumberAt(NextSeqnum(seqnum), k - 1)
  {
    if k > 0 {
      WrapsOnce(seqnum, k - 1);
    }
  }

  /** The `k`-th number from `seqnum` on. */
  function NumberAt(seqnum: nat, k: nat): nat {
    (seqnum + k) % 0xFFFF
  }

  /** How often the number 0 comes after 65534 among `n` numbers from `seqnum` on. */
  function Wraps(seqnum: nat, n: nat): nat {
    if n == 0 then 0 else (seqnum + n - 1) / 0xFFFF
  }

  lemma WrapsMore(seqnum: nat, n: nat)
    requires seqnum < 0xFFFF
    ensures Wraps(NextSeqnum(seqnum), 0) == 0
    ensures Wraps(seqnum, n + 1) == Wraps(NextSeqnum(seqnum), n) + if n > 0 && NextSeqnum(seqnum) == 0 then 1 else 0
  {
  }

  lemma NothingMore(c: Config, r: State, seqnum: nat, input: seq<seq<byte>>)
    requires c.size > 0
    ensures Gained(r, Run(c, r, []), seqnum, [], Flatten(input[..0]))
  {
    FlattenNone();
    assert r.delivered + [] == r.delivered;
    assert Flatten(r.pushed) + [] == Flatten(r.pushed);
  }

  lemma NextFields(s: Settings, st: Sender)
    requires !Ended(s, st) && st.seqnum < 0xFFFF
    ensures var next := After(s, st);
      next.seqnum == NextSeqnum(st.seqnum) < 0xFFFF && next.input == st.input[PackCount(s, st.input)..]
    ensures First(s, st).Data? && First(s, st).payload == Flatten(st.input[..PackCount(s, st.input)])
  {
    hide PackCount, Flatten;
  }

  lemma GapExactly(c: Config, s: Stream, r: State, seqnum: nat)
    requires Expects(r, seqnum) && seqnum < 0xFFFF && Listening(c, s, r)
    ensures (if r.seqnum == 0 then 0 else (seqnum - r.seqnum - 1) % 0x10000)
      == if r.delivered != [] && seqnum == 0 then 1 else 0
  {
  }

  /** Conservation without the restriction on numbers: however often they wrap, without loss the decoder gets exactly the
      blocks that were sent, in order, once each; but since 65535 is passed over, each wrap counts one packet as missing. */
  lemma EndToEndWrapping(c: Config, s: Settings, st: Sender, orders: seq<Option<Command>>)
    requires s.stream.Valid(c) && st.seqnum < 0xFFFF
    ensures var end := Run(c, FRESH, Emitted(s, st, orders));
      && Flatten(end.pushed) == Flatten(st.input[..SentCount(s, st.input, |orders|)])
      && (forall k :: 0 <= k < |end.delivered| ==> end.delivered[k] == NumberAt(st.seqnum, k))
      && end.missing == if end.delivered == [] then 0 else (st.seqnum + |end.delivered| - 1) / 0xFFFF
  {
    hide Flatten, Emitted, Run;
    FreshListens(c, s.stream);
    var numbers := AllReceived(c, s, st, orders, FRESH);
    assert FRESH.delivered + numbers == numbers;
    NothingPushed(Flatten(st.input[..SentCount(s, st.input, |orders|)]));
  }

  // ----- numbers, marker and commands -----

  lemma {:induction false} InputStays(s: Settings, st: Sender, orders: seq<Option<Command>>)
    requires st.input == []
    ensures Later(s, st, orders).input == []
    decreases |orders|
  {
    if orders != [] {
      InputStays(s, After(s, Ordered(st, orders[0])), orders[1..]);
    }
  }

  /** As long as there is input, each call takes the next number, and 0 comes after 65534; the marker is set for the number 0
      alone, except that the first packet keeps its own. */
  lemma {:induction false} NumbersWrap(s: Settings, st: Sender, orders: seq<Option<Command>>)
    requires st.seqnum < 0xFFFF && Later(s, st, orders).input != []
    ensures var end := Later(s, st, orders);
      && end.seqnum == NumberAt(st.seqnum, |orders|)
      && (end.marker <==> if orders == [] then st.marker else end.seqnum == 0)
    decreases |orders|
  {
    hide PackCount, NumberAt, NextSeqnum;
    NumberNext(st.seqnum, |orders|);
    if orders != [] {
      var ready := Ordered(st, orders[0]);
      if st.input == [] {
        InputStays(s, st, orders);
      } else {
        WrapsOnce(st.seqnum, |orders| - 1);
        NumbersWrap(s, After(s, ready), orders[1..]);
        NumberNext(NextSeqnum(st.seqnum), 0);
      }
    }
  }

  lemma WrapsOnce(seqnum: nat, more: nat)
    requires seqnum < 0xFFFF
    ensures NextSeqnum(seqnum) < 0xFFFF && (NextSeqnum(seqnum) + more) % 0xFFFF == (seqnum + 1 + more) % 0xFFFF
    ensures (seqnum + 1) % 0x10000 == 0xFFFF <==> NextSeqnum(seqnum) == 0
  {
  }

  /** The commands that were ordered. */
  function Given(orders: seq<Option<Command>>): seq<Command>
    decreases orders
  {
    if orders == [] then []
    else (if orders[0].Some? then [orders[0].value] else []) + Given(orders[1..])
  }

  /** The pending command takes part as if it were ordered first, unless something is. */
  function WithPending(st: Sender, orders: seq<Option<Command>>): seq<Option<Command>>
    requires orders != []
  {
    if orders[0].Some? then orders else [st.control] + orders[1..]
  }

  /** As long as there is input, exactly the pending command and those ordered are sent, once each and in order. */
  lemma {:induction false} CommandsSent(s: Settings, st: Sender, orders: seq<Option<Command>>)
    requires orders != [] && Later(s, st, orders).input != []
    ensures Commands(Emitted(s, st, orders)) == Given(WithPending(st, orders)) && Later(s, st, orders).control == None
    decreases |orders|
  {
    hide PackCount, Emit, Commands;
    var ready, rest := Ordered(st, orders[0]), orders[1..];
    var next := After(s, ready);
    if Ended(s, ready) {
      InputStays(s, next, rest);
    } else {
      CommandsConcat(Emit(s, ready), Emitted(s, next, rest));
      CommandEmitted(s, ready);
      assert WithPending(st, orders)[0] == ready.control && WithPending(st, orders)[1..] == rest;
      if rest == [] {
        NoTurn(s, next);
        NoCommands();
      } else {
        CommandsSent(s, next, rest);
        SameGiven(next, rest);
      }
    }
  }

  lemma NoCommands()
    ensures Commands([]) == [] && Given([]) == []
  {
  }

  lemma SameGiven(st: Sender, orders: seq<Option<Command>>)
    requires orders != [] && st.control == None
    ensures Given(WithPending(st, orders)) == Given(orders)
  {
    if orders[0].None? {
      assert WithPending(st, orders)[1..] == orders[1..];
    }
  }

  /** The pending command goes out at the end of a call, with the number of the next data packet. */
  lemma CommandEmitted(s: Settings, st: Sender)
    requires !Ended(s, st)
    ensures Commands(Emit(s, st)) == if st.control.Some? then [st.control.value] else []
    ensures st.control.Some? ==>
      Emit(s, st)[|Emit(s, st)| - 1] == Control(s.stream.ssrc, After(s, st).seqnum, st.control.value)
  {
    hide PackCount, Flatten, Commands;
    var data := [First(s, st)] + (if s.double then [Copy(s, First(s, st))] else []);
    CommandsConcat(data, CommandOf(s, st));
    NoCommandInData(data);
    OneCommand(CommandOf(s, st));
  }

  lemma NoCommandInData(packets: seq<Packet>)
    requires |packets| <= 2 && forall i :: 0 <= i < |packets| ==> packets[i].Data?
    ensures Commands(packets) == []
  {
    if packets != [] {
      NoCommandInData(packets[1..]);
    }
  }

  lemma OneCommand(packets: seq<Packet>)
    requires |packets| <= 1 && forall i :: 0 <= i < |packets| ==> packets[i].Control?
    ensures Commands(packets) == if packets == [] then [] else [packets[0].command]
  {
  }

  /** So without loss the receiver is told exactly the volumes that were ordered, in order, modulo 100. */
  lemma VolumesEndToEnd(c: Config, s: Settings, st: Sender, orders: seq<Option<Command>>)
    requires Sendable(s, st, |orders|) && s.stream.Valid(c) && orders != [] && Later(s, st, orders).input != []
    ensures Run(c, FRESH, Emitted(s, st, orders)).volumes == Volumes(Given(WithPending(st, orders)))
  {
    hide Run, InOrder, Emitted, Later, Given, WithPending, Commands, Volumes;
    EmittedCarries(s, st, orders, 0);
    InOrderSooner(s.stream, Emitted(s, st, orders), 2 * st.seqnum - 1, -1);
    FreshFollows(c, s.stream);
    VolumesArrive(c, s.stream, FRESH, Emitted(s, st, orders), -1);
    CommandsSent(s, st, orders);
    var volumes := Volumes(Given(WithPending(st, orders)));
    assert FRESH.volumes + volumes == volumes;
  }

  /** Either copy of a packet carries the payload of the first one sent. */
  lemma {:induction false} CopiesCarry(s: Settings, st: Sender, orders: seq<Option<Command>>, cur: nat, q: Packet)
    requires Sendable(s, st, |orders|) && cur < st.seqnum && q in Emitted(s, st, orders) && q.Data?
    ensures CarriedBy(FirstCopies(Emitted(s, st, orders), cur), q)
    decreases |orders|
  {
    hide Flatten, PackCount, Emit, FirstCopies, InOrder, First, Copy;
    var ready, rest := Ordered(st, orders[0]), orders[1..];
    var next := After(s, ready);
    if Ended(s, ready) {
      StopsFor(s, ready, rest);
    } else {
      AfterSendable(s, ready);
      EmittedCarries(s, next, rest, st.seqnum);
      EmitOpens(s, ready, Emitted(s, next, rest), cur);
      var first, others := First(s, ready), FirstCopies(Emitted(s, next, rest), st.seqnum);
      if q in Emit(s, ready) {
        EmittedData(s, ready, q);
        assert ([first] + others)[0] == first;
      } else {
        CopiesCarry(s, next, rest, st.seqnum, q);
        var p :| p in others && SameLoad(p, q);
        assert p in [first] + others;
      }
    }
  }

  predicate SameLoad(p: Packet, q: Packet) {
    p.Data? && q.Data? && p.seqnum == q.seqnum && p.payload == q.payload && p.pt == q.pt && p.marker == q.marker
  }

  ghost predicate CarriedBy(originals: seq<Packet>, q: Packet) {
    exists p :: p in originals && SameLoad(p, q)
  }

  lemma EmittedData(s: Settings, st: Sender, q: Packet)
    requires q in Emit(s, st) && q.Data?
    ensures SameLoad(First(s, st), q)
  {
    hide PackCount, Flatten;
  }

  // ----- which blocks are sent -----

  /** The blocks that are packed when the encoder ends: those of the last packet. */
  function LastGroup(s: Settings, input: seq<seq<byte>>): (k: nat)
    requires s.HoldsAll(input)
    ensures k <= |input| && (input != [] ==> k > 0)
    decreases |input|
  {
    var first := PackCount(s, input);
    if first == |input| then |input|
    else
      assert s.Holds(input[0]);
      LastGroup(s, input[first..])
  }

  /** When every block fits into a packet of its own, exactly the last group is never sent. */
  lemma {:induction false} SentAllButLast(s: Settings, input: seq<seq<byte>>, n: nat)
    requires s.HoldsAll(input) && HEADER_SIZE < s.size && n >= |input|
    ensures SentCount(s, input, n) == |input| - LastGroup(s, input)
    ensures HEADER_SIZE + |Flatten(input[|input| - LastGroup(s, input)..])| < s.size
    decreases n
  {
    hide Flatten, Packed;
    var first := PackCount(s, input);
    PackedExact(input, HEADER_SIZE, s.size);
    if first == |input| {
      assert input[0..] == input[..first];
    } else {
      assert s.Holds(input[0]);
      SentAllButLast(s, input[first..], n - 1);
      assert input[first..][|input| - first - LastGroup(s, input)..] == input[|input| - LastGroup(s, input)..];
    }
  }

  /** A block that does not fit into a packet of its own goes nowhere, and an empty packet is sent for it. */
  lemma Stuck(s: Settings, st: Sender)
    requires st.input != [] && !s.Holds(st.input[0])
    ensures !Ended(s, st) && First(s, st) == Data(s.stream.ssrc, st.seqnum, s.stream.pt, st.marker, [])
    ensures After(s, st).input == st.input && PackCount(s, st.input) == 0
  {
    NothingPacked(st.input);
  }

  /** So exactly the blocks before the first of that kind are sent, however long the thread runs. */
  lemma {:induction false} SentUpTo(s: Settings, input: seq<seq<byte>>, j: nat, n: nat)
    requires j < |input| && s.HoldsAll(input[..j]) && !s.Holds(input[j])
    ensures SentCount(s, input, n) <= j && (n >= j ==> SentCount(s, input, n) == j)
    decreases n
  {
    hide Packed;
    var first := PackCount(s, input);
    PackedBefore(s, input, j);
    if n > 0 {
      SentUpTo(s, input[first..], j - first, n - 1);
    }
  }

  lemma PackedBefore(s: Settings, input: seq<seq<byte>>, j: nat)
    requires j < |input| && s.HoldsAll(input[..j]) && !s.Holds(input[j])
    ensures PackCount(s, input) <= j && (j > 0 ==> PackCount(s, input) > 0)
    ensures var rest := input[PackCount(s, input)..];
      s.HoldsAll(rest[..j - PackCount(s, input)]) && !s.Holds(rest[j - PackCount(s, input)])
  {
    PackedBelow(input, HEADER_SIZE, s.size, j);
    if j > 0 {
      assert input[..j][0] == input[0];
    }
    forall i | 0 <= i < j - PackCount(s, input) ensures s.Holds(input[PackCount(s, input)..][i]) {
      assert input[PackCount(s, input)..][i] == input[..j][PackCount(s, input) + i];
    }
  }

  lemma {:induction false} PackedBelow(input: seq<seq<byte>>, len: nat, size: nat, j: nat)
    requires j < |input| && HEADER_SIZE <= len && HEADER_SIZE + |input[j]| >= size
    ensures Packed(input, len, size) <= j
    decreases j
  {
    if j > 0 && len + |input[0]| < size {
      PackedBelow(input[1..], len + |input[0]|, size, j - 1);
    }
  }

  /** The sender gets through its input if and only if every block fits into a packet of its own, whatever is ordered. */
  lemma ThroughExactly(s: Settings, st: Sender)
    ensures s.HoldsAll(st.input) <==> exists orders :: Later(s, st, orders).input == []
    ensures s.HoldsAll(st.input) ==> forall orders :: |orders| >= |st.input| ==> Later(s, st, orders).input == []
  {
    if s.HoldsAll(st.input) {
      forall orders | |orders| >= |st.input| ensures Later(s, st, orders).input == [] {
        GetsThrough(s, st, orders);
      }
      var quiet := seq(|st.input|, _ => None);
      assert Later(s, st, quiet).input == [];
    } else {
      forall orders ensures Later(s, st, orders).input != [] {
        NeverThrough(s, st, orders);
      }
    }
  }

  lemma {:induction false} GetsThrough(s: Settings, st: Sender, orders: seq<Option<Command>>)
    requires s.HoldsAll(st.input) && |orders| >= |st.input|
    ensures Later(s, st, orders).input == []
    decreases |orders|
  {
    if orders != [] {
      if st.input != [] {
        assert s.Holds(st.input[0]);
      }
      GetsThrough(s, After(s, Ordered(st, orders[0])), orders[1..]);
    }
  }

  lemma {:induction false} NeverThrough(s: Settings, st: Sender, orders: seq<Option<Command>>)
    requires !s.HoldsAll(st.input)
    ensures Later(s, st, orders).input != []
    decreases |orders|
  {
    if orders != [] {
      var j :| 0 <= j < |st.input| && !s.Holds(st.input[j]);
      PackedBelow(st.input, HEADER_SIZE, s.size, j);
      assert st.input[PackCount(s, st.input)..][j - PackCount(s, st.input)] == st.input[j];
      NeverThrough(s, After(s, Ordered(st, orders[0])), orders[1..]);
    }
  }

  /** The encoder's jitter has blocks of the output size without the header. A full one is such a block: nothing but
      empty packets follows. */
  lemma FullBlockStuck(s: Settings, st: Sender, orders: seq<Option<Command>>)
    requires st.input != [] && HEADER_SIZE + |st.input[0]| == s.size
    ensures SentCount(s, st.input, |orders|) == 0 && Later(s, st, orders).input != []
    ensures First(s, st).Data? && First(s, st).payload == [] && After(s, st).input == st.input
  {
    SentUpTo(s, st.input, 0, |orders|);
    NeverThrough(s, st, orders);
    Stuck(s, st);
  }

  /** `arrived` is `sent` with some packets lost. */
  predicate Survives(arrived: seq<Packet>, sent: seq<Packet>)
    decreases sent
  {
    arrived == [] ||
    (sent != [] && ((arrived[0] == sent[0] && Survives(arrived[1..], sent[1..])) || Survives(arrived, sent[1..])))
  }

  lemma {:induction false} SurvivorsInOrder(s: Stream, arrived: seq<Packet>, sent: seq<Packet>, last: int)
    requires InOrder(s, sent, last) && Survives(arrived, sent)
    ensures InOrder(s, arrived, last)
    decreases sent
  {
    if arrived != [] {
      var next := KeyAfter(s, sent[0], last);
      if arrived[0] == sent[0] && Survives(arrived[1..], sent[1..]) {
        SurvivorsInOrder(s, arrived[1..], sent[1..], next);
      } else {
        SurvivorsInOrder(s, arrived, sent[1..], next);
        InOrderSooner(s, arrived, next, last);
      }
    }
  }

  lemma {:induction false} SurvivorSent(arrived: seq<Packet>, sent: seq<Packet>, q: Packet)
    requires Survives(arrived, sent) && q in arrived
    ensures q in sent
    decreases sent
  {
    assert arrived == [arrived[0]] + arrived[1..];
    if arrived[0] == sent[0] && Survives(arrived[1..], sent[1..]) {
      if q != arrived[0] {
        SurvivorSent(arrived[1..], sent[1..], q);
      }
    } else {
      SurvivorSent(arrived, sent[1..], q);
    }
  }

  /** Whatever the channel loses of what any number of calls sent: each sequence number of which one copy survives is
      delivered exactly once and in order, with the payload of the first packet sent with it, and the loss count is
      exact. */
  lemma LossyExactlyOnce(c: Config, s: Settings, st: Sender, orders: seq<Option<Command>>, arrived: seq<Packet>)
    requires Sendable(s, st, |orders|) && s.stream.Valid(c) && Survives(arrived, Emitted(s, st, orders))
    ensures var end := Run(c, FRESH, arrived);
      && (forall i, j :: 0 <= i < j < |end.delivered| ==> end.delivered[i] < end.delivered[j])
      && (forall q :: q in arrived && q.Data? ==> q.seqnum in end.delivered)
      && (forall k :: k in end.delivered ==> exists q :: q in arrived && q.Data? && q.seqnum == k)
      && |end.delivered| + end.missing == end.seqnum - end.seqorig && Spans(end)
      && Flatten(end.pushed) == Payloads(FirstCopies(arrived, 0))
    ensures forall q :: q in FirstCopies(arrived, 0) ==> CarriedBy(FirstCopies(Emitted(s, st, orders), 0), q)
  {
    hide Run, InOrder, Emitted, Survives, Flatten, Payloads, FirstCopies, CarriedBy;
    forall q | q in FirstCopies(arrived, 0) ensures CarriedBy(FirstCopies(Emitted(s, st, orders), 0), q) {
      FirstCopiesIncrease(arrived, 0);
      SurvivorSent(arrived, Emitted(s, st, orders), q);
      CopiesCarry(s, st, orders, 0, q);
    }
    EmittedCarries(s, st, orders, 0);
    SurvivorsInOrder(s.stream, arrived, Emitted(s, st, orders), 2 * st.seqnum - 1);
    InOrderSooner(s.stream, arrived, 2 * st.seqnum - 1, -1);
    ExactlyOnce(c, s.stream, arrived);
  }
}
