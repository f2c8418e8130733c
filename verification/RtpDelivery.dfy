/** What the receiver of src/demux_rtp.c makes of a stream in which every packet is sent twice, as
    (ssrc, ssrc + 1), and any packets are lost. */
module RtpDelivery {
  import opened Bytes
  import opened RtpDemux

  /** A stream: its even source id and its payload type. */
  datatype Stream = Stream(ssrc: nat, pt: nat) {
    ghost predicate Valid(c: Config) {
      && ssrc > 0 && ssrc % 2 == 0 && pt in c.known && c.attached && c.size > 0
    }
  }

  /** The place of a data packet in the order of sending: the copy with ssrc + 1 follows the original. */
  function Key(s: Stream, p: Packet): int
    requires p.Data?
  {
    2 * p.seqnum + if p.ssrc == s.ssrc then 0 else 1
  }

  /** `p` belongs to the stream and comes after the packet with key `last`. */
  predicate Follows(s: Stream, p: Packet, last: int) {
    match p
    case Control(ssrc, _, _) => ssrc == s.ssrc
    case Data(ssrc, seqnum, pt, _, _) =>
      (ssrc == s.ssrc || ssrc == s.ssrc + 1) && pt == s.pt && 1 <= seqnum <= 65534 && last < Key(s, p)
  }

  function KeyAfter(s: Stream, p: Packet, last: int): int {
    if p.Data? then Key(s, p) else last
  }

  /** Any part of what was sent, in the order of sending; control packets may lie in between. */
  predicate InOrder(s: Stream, packets: seq<Packet>, last: int)
    decreases packets
  {
    packets == [] || (Follows(s, packets[0], last) && InOrder(s, packets[1..], KeyAfter(s, packets[0], last)))
  }

  /** The sequence numbers of the packets that arrive first with them. */
  function FirstCopies(packets: seq<Packet>, cur: nat): seq<Packet>
    decreases packets
  {
    if packets == [] then []
    else if packets[0].Data? && packets[0].seqnum > cur then [packets[0]] + FirstCopies(packets[1..], packets[0].seqnum)
    else FirstCopies(packets[1..], cur)
  }

  function Payloads(packets: seq<Packet>): seq<byte>
    decreases packets
  {
    if packets == [] then []
    else (if packets[0].Data? then packets[0].payload else []) + Payloads(packets[1..])
  }

  /** The sequence numbers `numbers` are those of `packets`, one by one. */
  predicate Numbered(numbers: seq<nat>, packets: seq<Packet>) {
    && |numbers| == |packets|
    && forall i :: 0 <= i < |packets| ==> packets[i].Data? && packets[i].seqnum == numbers[i]
  }

  predicate Increasing(f: seq<Packet>, above: nat) {
    && (forall i :: 0 <= i < |f| ==> f[i].Data? && f[i].seqnum > above)
    && forall i, j :: 0 <= i < j < |f| ==> f[i].seqnum < f[j].seqnum
  }

  /** Only what arrived, above `cur` and in increasing order. */
  lemma {:induction false} FirstCopiesIncrease(packets: seq<Packet>, cur: nat)
    ensures Increasing(FirstCopies(packets, cur), cur)
    ensures forall p :: p in FirstCopies(packets, cur) ==> p in packets
    decreases packets
  {
    if packets != [] {
      var p, rest := packets[0], packets[1..];
      assert packets == [p] + rest;
      FirstCopiesIncrease(rest, if p.Data? && p.seqnum > cur then p.seqnum else cur);
    }
  }

  /** Every sequence number above `cur` that arrives at all is among them. */
  lemma {:induction false} FirstCopiesComplete(s: Stream, packets: seq<Packet>, last: int, cur: nat, q: Packet) returns (i: nat)
    requires InOrder(s, packets, last) && 2 * cur - 1 <= last <= 2 * cur + 1
    requires q in packets && q.Data? && q.seqnum > cur
    ensures i < |FirstCopies(packets, cur)| && FirstCopies(packets, cur)[i].Data?
    ensures FirstCopies(packets, cur)[i].seqnum == q.seqnum
    decreases packets
  {
    var p, rest := packets[0], packets[1..];
    assert packets == [p] + rest;
    if p.Control? {
      i := FirstCopiesComplete(s, rest, last, cur, q);
    } else if p.seqnum <= cur {
      i := FirstCopiesComplete(s, rest, Key(s, p), cur, q);
    } else if q.seqnum == p.seqnum {
      i := 0;
    } else {
      KeysAbove(s, rest, Key(s, p), q);
      i := FirstCopiesComplete(s, rest, Key(s, p), p.seqnum, q);
      i := i + 1;
    }
  }

  lemma {:induction false} KeysAbove(s: Stream, packets: seq<Packet>, last: int, q: Packet)
    requires InOrder(s, packets, last) && q in packets && q.Data?
    ensures Key(s, q) > last
    decreases packets
  {
    if packets[0] != q {
      KeysAbove(s, packets[1..], KeyAfter(s, packets[0], last), q);
    }
  }

  // ----- the receiver on such a stream -----

  /** The receiver before the first data packet, or following the stream up to the packet with key `last`. */
  predicate Following(c: Config, s: Stream, st: State, last: int) {
    if last < 0 then
      st.sessionid == 0 && st.sessionid2 == 0 && st.outs == [] && st.seqnum == 0 && st.seqorig == 0 && st.missing == 0
      && st.delivered == []
    else
      && (st.sessionid == 0 || st.sessionid == s.ssrc) && st.sessionid2 == s.ssrc + 1
      && |st.outs| > 0 && st.outs[0].pt == s.pt
      && st.delivered != [] && 1 <= st.seqnum <= 65534 && 0 <= st.seqorig < st.seqnum && st.seqnum == last / 2
      && |st.delivered| + st.missing == st.seqnum - st.seqorig && Spans(st)
  }

  /** The distance covered is from the first to the last delivered number. */
  predicate Spans(st: State) {
    if st.delivered == [] then st.seqnum == st.seqorig
    else st.delivered[0] == st.seqorig + 1 && st.delivered[|st.delivered| - 1] == st.seqnum
  }

  lemma {:induction false} ChunksWhole(payload: seq<byte>, size: nat)
    requires size > 0
    ensures Flatten(Chunks(payload, size)) == payload
    ensures forall i :: 0 <= i < |Chunks(payload, size)| ==> |Chunks(payload, size)[i]| <= size
    decreases |payload|
  {
    hide Flatten;
    if |payload| > size {
      assert payload[..size] + payload[size..] == payload;
      ChunksWhole(payload[size..], size);
      FlattenConcat([payload[..size]], Chunks(payload[size..], size));
      FlattenOne(payload[..size]);
    } else {
      FlattenOne(payload);
    }
  }

  /** The first packet of an unknown stream opens the session and its substream. */
  lemma GotOutFresh(c: Config, s: Stream, st: State, ssrc: nat)
    requires s.Valid(c) && Following(c, s, st, -1) && (ssrc == s.ssrc || ssrc == s.ssrc + 1)
    ensures var st' := GotOut(c, st, ssrc, s.pt);
      && st' == st.(sessionid := s.ssrc, sessionid2 := s.ssrc + 1, outs := st'.outs)
      && |st'.outs| > 0 && st'.outs[0].pt == s.pt && FindOut(st'.outs, ssrc, s.pt) == 0
  {
    hide Swap32;
  }

  lemma GotOutKnown(c: Config, s: Stream, st: State, ssrc: nat, last: nat)
    requires s.Valid(c) && Following(c, s, st, last)
    ensures GotOut(c, st, ssrc, s.pt) == st && FindOut(st.outs, ssrc, s.pt) == 0
  {
  }

  /** The accounting keeps delivered + missing equal to the distance covered. */
  lemma CountedStep(st: State, seqnum: nat)
    requires 1 <= seqnum <= 65534 && st.seqnum < seqnum
    requires st.seqnum == 0 ==> st.missing == 0 && st.delivered == []
    requires st.seqnum > 0 ==> st.seqorig < st.seqnum && |st.delivered| + st.missing == st.seqnum - st.seqorig
    ensures var st' := Counted(st, seqnum);
      && st' == st.(seqnum := seqnum, seqorig := st'.seqorig, missing := st'.missing)
      && st'.seqorig < seqnum && |st.delivered| + 1 + st'.missing == seqnum - st'.seqorig
      && st'.seqorig == if st.seqnum == 0 then seqnum - 1 else st.seqorig
  {
  }

  /** One packet: delivered exactly when its sequence number is new. */
  lemma ReceiveStep(c: Config, s: Stream, st: State, p: Packet, last: int)
    requires s.Valid(c) && Following(c, s, st, last) && Follows(s, p, last) && last >= -1
    ensures var st' := Receive(c, st, p);
      && Following(c, s, st', KeyAfter(s, p, last)) && KeyAfter(s, p, last) >= last
      && (if p.Data? && p.seqnum > st.seqnum then
            && st'.delivered == st.delivered + [p.seqnum] && st'.pushed == st.pushed + Chunks(p.payload, c.size)
            && st'.seqnum == p.seqnum
          else st'.delivered == st.delivered && st'.pushed == st.pushed && st'.seqnum == st.seqnum)
  {
    hide Chunks, GotOut, FindOut, Counted;
    if p.Data? {
      if last < 0 {
        GotOutFresh(c, s, st, p.ssrc);
      } else {
        GotOutKnown(c, s, st, p.ssrc, last);
      }
      if p.seqnum > st.seqnum {
        CountedStep(GotOut(c, st, p.ssrc, p.pt), p.seqnum);
      }
    }
  }

  /** A whole run: the decoder gets the payload of the first copies, whole and in order. */
  lemma {:induction false} RunDelivers(c: Config, s: Stream, st: State, packets: seq<Packet>, last: int)
    returns (numbers: seq<nat>, last': int)
    requires s.Valid(c) && Following(c, s, st, last) && InOrder(s, packets, last) && last >= -1
    ensures var st', f := Run(c, st, packets), FirstCopies(packets, st.seqnum);
      && Numbered(numbers, f)
      && st'.delivered == st.delivered + numbers
      && Flatten(st'.pushed) == Flatten(st.pushed) + Payloads(f)
    ensures last' >= last && Following(c, s, Run(c, st, packets), last')
    decreases packets
  {
    hide Following, Receive, Chunks, Follows, Flatten, FirstCopies, Payloads, Numbered, KeyAfter, Run, InOrder;
    if packets == [] {
      NothingArrived(c, st);
      return [], last;
    }
    var p, rest := packets[0], packets[1..];
    var next := Receive(c, st, p);
    RunOpened(c, s, st, packets, last);
    ReceiveStep(c, s, st, p, last);
    numbers, last' := RunDelivers(c, s, next, rest, KeyAfter(s, p, last));
    if p.Data? && p.seqnum > st.seqnum {
      PushedMore(st.pushed, p, c.size);
      FirstCopiesMore(packets, st.seqnum, numbers);
      numbers := [p.seqnum] + numbers;
    }
  }

  lemma NothingArrived(c: Config, st: State)
    requires c.size > 0
    ensures Run(c, st, []) == st && Numbered([], FirstCopies([], st.seqnum)) && Payloads(FirstCopies([], st.seqnum)) == []
  {
  }

  lemma RunOpened(c: Config, s: Stream, st: State, packets: seq<Packet>, last: int)
    requires c.size > 0 && packets != [] && InOrder(s, packets, last)
    ensures Run(c, st, packets) == Run(c, Receive(c, st, packets[0]), packets[1..])
    ensures Follows(s, packets[0], last) && InOrder(s, packets[1..], KeyAfter(s, packets[0], last))
    ensures !(packets[0].Data? && packets[0].seqnum > st.seqnum) ==>
      FirstCopies(packets, st.seqnum) == FirstCopies(packets[1..], st.seqnum)
  {
  }

  lemma PushedMore(pushed: seq<seq<byte>>, p: Packet, size: nat)
    requires p.Data? && size > 0
    ensures Flatten(pushed + Chunks(p.payload, size)) == Flatten(pushed) + p.payload
  {
    ChunksWhole(p.payload, size);
    FlattenConcat(pushed, Chunks(p.payload, size));
  }

  lemma FirstCopiesMore(packets: seq<Packet>, cur: nat, numbers: seq<nat>)
    requires packets != [] && packets[0].Data? && packets[0].seqnum > cur
    requires Numbered(numbers, FirstCopies(packets[1..], packets[0].seqnum))
    ensures Numbered([packets[0].seqnum] + numbers, FirstCopies(packets, cur))
    ensures Payloads(FirstCopies(packets, cur))
      == packets[0].payload + Payloads(FirstCopies(packets[1..], packets[0].seqnum))
  {
    var p, f := packets[0], FirstCopies(packets[1..], packets[0].seqnum);
    assert FirstCopies(packets, cur) == [p] + f && ([p] + f)[1..] == f;
  }

  /** The exactly-once theorem. On any part of the doubled stream that arrives in order: a sequence number is
      delivered if and only if one of its copies arrived, once and in increasing order; the decoder gets
      those payloads whole; and delivered and missing packets together are the distance from the first delivered
      number to the last, so that exactly the numbers left out between them are counted missing. */
  lemma ExactlyOnce(c: Config, s: Stream, packets: seq<Packet>)
    requires s.Valid(c) && InOrder(s, packets, -1)
    ensures var st := Run(c, FRESH, packets);
      && (forall i, j :: 0 <= i < j < |st.delivered| ==> st.delivered[i] < st.delivered[j])
      && (forall q :: q in packets && q.Data? ==> q.seqnum in st.delivered)
      && (forall n :: n in st.delivered ==> exists q :: q in packets && q.Data? && q.seqnum == n)
      && |st.delivered| + st.missing == st.seqnum - st.seqorig && Spans(st)
      && Flatten(st.pushed) == Payloads(FirstCopies(packets, 0))
  {
    hide Run, FirstCopies, InOrder, Payloads;
    var st, f := Run(c, FRESH, packets), FirstCopies(packets, 0);
    DeliveredFirst(c, s, packets);
    FirstCopiesIncrease(packets, 0);
    forall q | q in packets && q.Data? ensures q.seqnum in st.delivered {
      DataPositive(s, packets, -1, q);
      var i := FirstCopiesComplete(s, packets, -1, 0, q);
      assert st.delivered[i] == q.seqnum;
    }
    forall n | n in st.delivered ensures exists q :: q in packets && q.Data? && q.seqnum == n {
      var i :| 0 <= i < |st.delivered| && st.delivered[i] == n;
      assert f[i] in packets && f[i].seqnum == n;
    }
  }

  lemma DeliveredFirst(c: Config, s: Stream, packets: seq<Packet>)
    requires s.Valid(c) && InOrder(s, packets, -1)
    ensures var st, f := Run(c, FRESH, packets), FirstCopies(packets, 0);
      && Numbered(st.delivered, f)
      && Flatten(st.pushed) == Payloads(f)
      && |st.delivered| + st.missing == st.seqnum - st.seqorig && Spans(st)
  {
    hide Run, FirstCopies, InOrder, Payloads, Following, Numbered, Flatten, Spans;
    FreshFollows(c, s);
    var numbers, last := RunDelivers(c, s, FRESH, packets, -1);
    assert FRESH.delivered + numbers == numbers;
    FollowingCounts(c, s, Run(c, FRESH, packets), last);
    NothingPushed(Payloads(FirstCopies(packets, 0)));
  }

  lemma FreshFollows(c: Config, s: Stream)
    ensures Following(c, s, FRESH, -1)
  {
  }

  lemma FollowingCounts(c: Config, s: Stream, st: State, last: int)
    requires Following(c, s, st, last)
    ensures |st.delivered| + st.missing == st.seqnum - st.seqorig && Spans(st)
  {
  }

  lemma NothingPushed(payload: seq<byte>)
    ensures Flatten(FRESH.pushed) + payload == payload
  {
  }

  lemma {:induction false} DataPositive(s: Stream, packets: seq<Packet>, last: int, q: Packet)
    requires InOrder(s, packets, last) && q in packets && q.Data?
    ensures q.seqnum > 0
    decreases packets
  {
    if packets[0] != q {
      DataPositive(s, packets[1..], KeyAfter(s, packets[0], last), q);
    }
  }

  // ----- any order -----

  /** The stream's own packets, in any order. */
  predicate Belongs(s: Stream, p: Packet) {
    match p
    case Control(ssrc, _, _) => ssrc == s.ssrc
    case Data(ssrc, seqnum, pt, _, _) => (ssrc == s.ssrc || ssrc == s.ssrc + 1) && pt == s.pt && seqnum < 0x10000
  }

  /** Before the first data packet, or in the session. */
  predicate Listening(c: Config, s: Stream, st: State) {
    if st.delivered == [] then Following(c, s, st, -1)
    else
      && (st.sessionid == 0 || st.sessionid == s.ssrc) && st.sessionid2 == s.ssrc + 1
      && |st.outs| > 0 && st.outs[0].pt == s.pt && st.seqnum < 0x10000
      && st.delivered[|st.delivered| - 1] == st.seqnum
  }

  /** The last number delivered. */
  function Newest(st: State): int {
    if st.delivered == [] then -1 else st.seqnum
  }

  /** An original is delivered whatever its number, a second copy if its number is above the last one; the numbers passed
      over count as missing, modulo 2^16, except at the beginning and after the number 0. */
  lemma ReceivedAnyOrder(c: Config, s: Stream, st: State, p: Packet)
    requires s.Valid(c) && Listening(c, s, st) && Belongs(s, p)
    ensures var st' := Receive(c, st, p);
      && Listening(c, s, st')
      && if p.Control? || (p.ssrc == s.ssrc + 1 && p.seqnum <= Newest(st)) then
           st'.delivered == st.delivered && st'.pushed == st.pushed && st'.seqnum == st.seqnum && st'.missing == st.missing
         else
           && st'.delivered == st.delivered + [p.seqnum] && st'.pushed == st.pushed + Chunks(p.payload, c.size)
           && st'.seqnum == p.seqnum
           && st'.missing == st.missing + if st.seqnum == 0 then 0 else (p.seqnum - st.seqnum - 1) % 0x10000
  {
    hide Chunks, GotOut, FindOut, Counted;
    if p.Data? {
      if st.delivered == [] {
        GotOutFresh(c, s, st, p.ssrc);
      } else {
        GotOutListening(c, s, st, p.ssrc);
      }
      CountedAny(GotOut(c, st, p.ssrc, p.pt), p.seqnum);
    }
  }

  lemma GotOutListening(c: Config, s: Stream, st: State, ssrc: nat)
    requires |st.outs| > 0 && st.outs[0].pt == s.pt
    ensures GotOut(c, st, ssrc, s.pt) == st && FindOut(st.outs, ssrc, s.pt) == 0
  {
  }

  lemma CountedAny(st: State, seqnum: nat)
    requires seqnum < 0x10000 && st.seqnum < 0x10000
    ensures var st' := Counted(st, seqnum);
      && st' == st.(seqnum := seqnum, seqorig := st'.seqorig, missing := st'.missing)
      && st'.missing == st.missing + if st.seqnum == 0 then 0 else (seqnum - st.seqnum - 1) % 0x10000
  {
  }

  /** Every original is newer than all packets before it; `cur` is the newest so far. */
  predicate NotOvertaken(s: Stream, packets: seq<Packet>, cur: int)
    decreases packets
  {
    packets == []
    || (match packets[0]
        case Control(_, _, _) => NotOvertaken(s, packets[1..], cur)
        case Data(ssrc, seqnum, _, _, _) =>
          (ssrc == s.ssrc ==> seqnum > cur) && NotOvertaken(s, packets[1..], if seqnum > cur then seqnum else cur))
  }

  predicate Rising(numbers: seq<nat>) {
    forall i, j :: 0 <= i < j < |numbers| ==> numbers[i] < numbers[j]
  }

  lemma {:induction false} DeliveredGrows(c: Config, s: Stream, st: State, packets: seq<Packet>)
    requires s.Valid(c) && Listening(c, s, st) && forall p :: p in packets ==> Belongs(s, p)
    ensures st.delivered <= Run(c, st, packets).delivered
    decreases packets
  {
    hide Receive, Listening, Belongs;
    if packets != [] {
      ReceivedAnyOrder(c, s, st, packets[0]);
      DeliveredGrows(c, s, Receive(c, st, packets[0]), packets[1..]);
    }
  }

  /** In whatever order the stream's packets arrive, and whatever is lost: the numbers are delivered in increasing order, and
      so at most once each, if and only if no original is overtaken. */
  lemma {:induction false} RisingExactly(c: Config, s: Stream, st: State, packets: seq<Packet>)
    requires s.Valid(c) && Listening(c, s, st) && Rising(st.delivered) && forall p :: p in packets ==> Belongs(s, p)
    ensures Rising(Run(c, st, packets).delivered) <==> NotOvertaken(s, packets, Newest(st))
    decreases packets
  {
    hide Receive, Listening, Rising;
    if packets != [] {
      var p, rest := packets[0], packets[1..];
      var next := Receive(c, st, p);
      ReceivedAnyOrder(c, s, st, p);
      if p.Data? {
        RisingMore(c, s, st, p);
      }
      if Rising(next.delivered) {
        RisingExactly(c, s, next, rest);
      } else {
        DeliveredGrows(c, s, next, rest);
        if Rising(Run(c, next, rest).delivered) {
          RisingPrefix(next.delivered, Run(c, next, rest).delivered);
        }
      }
    }
  }

  lemma RisingMore(c: Config, s: Stream, st: State, p: Packet)
    requires s.Valid(c) && Listening(c, s, st) && Rising(st.delivered) && Belongs(s, p) && p.Data?
    ensures Rising(st.delivered + [p.seqnum]) <==> p.seqnum > Newest(st)
  {
    var numbers, k := st.delivered + [p.seqnum], |st.delivered|;
    assert numbers[k] == p.seqnum;
    if k > 0 {
      assert numbers[k - 1] == st.delivered[k - 1] == st.seqnum;
      assert forall i :: 0 <= i < k ==> numbers[i] == st.delivered[i] <= st.seqnum;
    }
  }

  lemma RisingPrefix(first: seq<nat>, numbers: seq<nat>)
    requires first <= numbers && Rising(numbers)
    ensures Rising(first)
  {
  }

  /** An overtaken original: it is delivered late, 65534 packets count as missing, and a copy of what was delivered comes
      through again. */
  lemma OvertakenTwice(c: Config, s: Stream, a: seq<byte>)
    requires s.Valid(c)
    ensures var st := Run(c, FRESH, [Data(s.ssrc, 1, s.pt, false, a), Data(s.ssrc, 3, s.pt, false, a),
                                     Data(s.ssrc, 2, s.pt, false, a), Data(s.ssrc + 1, 3, s.pt, false, a)]);
      st.delivered == [1, 3, 2, 3] && st.missing == 65535
  {
    hide Receive, Listening, Run;
    var p1, p3, p2, q3 := Data(s.ssrc, 1, s.pt, false, a), Data(s.ssrc, 3, s.pt, false, a), Data(s.ssrc, 2, s.pt, false, a),
      Data(s.ssrc + 1, 3, s.pt, false, a);
    FreshListens(c, s);
    var st1 := Receive(c, FRESH, p1);
    ReceivedAnyOrder(c, s, FRESH, p1);
    var st2 := Receive(c, st1, p3);
    ReceivedAnyOrder(c, s, st1, p3);
    var st3 := Receive(c, st2, p2);
    ReceivedAnyOrder(c, s, st2, p2);
    ReceivedAnyOrder(c, s, st3, q3);
    RunFour(c, FRESH, p1, p3, p2, q3);
    assert st1.delivered == [1] && st2.delivered == [1, 3] && st3.delivered == [1, 3, 2];
  }

  lemma RunFour(c: Config, st: State, p: Packet, q: Packet, r: Packet, t: Packet)
    requires c.size > 0
    ensures Run(c, st, [p, q, r, t]) == Receive(c, Receive(c, Receive(c, Receive(c, st, p), q), r), t)
  {
    hide Receive, Run;
    var st1, all := Receive(c, st, p), [p, q, r, t];
    var st2 := Receive(c, st1, q);
    var st3 := Receive(c, st2, r);
    assert all == [p] + [q, r, t];
    RunNext(c, st, p, [q, r, t]);
    assert [q, r, t] == [q] + [r, t];
    RunNext(c, st1, q, [r, t]);
    assert [r, t] == [r] + [t];
    RunNext(c, st2, r, [t]);
    assert [t] == [t] + [];
    RunNext(c, st3, t, []);
    assert Run(c, st3, [t]) == Receive(c, st3, t);
    assert Run(c, st2, [r, t]) == Run(c, st3, [t]);
    assert Run(c, st1, [q, r, t]) == Run(c, st2, [r, t]);
    assert Run(c, st, all) == Run(c, st1, [q, r, t]);
  }

  lemma {:induction false} RunConcat(c: Config, st: State, left: seq<Packet>, right: seq<Packet>)
    requires c.size > 0
    ensures Run(c, st, left + right) == Run(c, Run(c, st, left), right)
    decreases left
  {
    hide Receive;
    if left == [] {
      assert left + right == right;
    } else {
      assert (left + right)[1..] == left[1..] + right;
      RunConcat(c, Receive(c, st, left[0]), left[1..], right);
    }
  }

  lemma RunNext(c: Config, st: State, p: Packet, rest: seq<Packet>)
    requires c.size > 0
    ensures Run(c, st, [p] + rest) == Run(c, Receive(c, st, p), rest)
    ensures rest == [] ==> Run(c, Receive(c, st, p), rest) == Receive(c, st, p)
  {
    assert ([p] + rest)[1..] == rest;
  }

  lemma FreshListens(c: Config, s: Stream)
    ensures Listening(c, s, FRESH)
  {
  }

  // ----- the commands -----

  /** The commands of the control packets, in order. */
  function Commands(packets: seq<Packet>): seq<Command>
    decreases packets
  {
    if packets == [] then []
    else (if packets[0].Control? then [packets[0].command] else []) + Commands(packets[1..])
  }

  lemma {:induction false} CommandsConcat(left: seq<Packet>, right: seq<Packet>)
    ensures Commands(left + right) == Commands(left) + Commands(right)
    decreases left
  {
    hide Commands;
    CommandsOpened(left);
    if left == [] {
      assert left + right == right;
      assert [] + Commands(right) == Commands(right);
    } else {
      CommandsOpened(left + right);
      assert (left + right)[1..] == left[1..] + right;
      CommandsConcat(left[1..], right);
      Reassociate(if left[0].Control? then [left[0].command] else [], Commands(left[1..]), Commands(right));
    }
  }

  lemma CommandsOpened(packets: seq<Packet>)
    ensures Commands(packets) ==
      if packets == [] then []
      else (if packets[0].Control? then [packets[0].command] else []) + Commands(packets[1..])
  {
  }

  lemma Reassociate(a: seq<Command>, b: seq<Command>, c: seq<Command>)
    ensures (a + b) + c == a + (b + c)
  {
  }

  function Volumes(commands: seq<Command>): seq<nat>
    decreases commands
  {
    if commands == [] then []
    else (if commands[0].SetVolume? then [commands[0].volume % 100] else []) + Volumes(commands[1..])
  }

  /** Every volume arrives, in order, whether the session has opened yet or has ended. */
  lemma {:induction false} VolumesArrive(c: Config, s: Stream, st: State, packets: seq<Packet>, last: int)
    requires s.Valid(c) && Following(c, s, st, last) && InOrder(s, packets, last) && last >= -1
    ensures Run(c, st, packets).volumes == st.volumes + Volumes(Commands(packets))
    decreases packets
  {
    hide Following, Receive, Follows, KeyAfter, Run, InOrder, Volumes;
    if packets == [] {
      NothingArrived(c, st);
      NoVolume();
      assert st.volumes + [] == st.volumes;
    } else {
      var p, rest := packets[0], packets[1..];
      RunOpened(c, s, st, packets, last);
      ReceiveStep(c, s, st, p, last);
      VolumeStep(c, s, st, p, last);
      VolumesArrive(c, s, Receive(c, st, p), rest, KeyAfter(s, p, last));
      MoreVolumes(p, Commands(rest));
    }
  }

  lemma NoVolume()
    ensures Volumes([]) == []
  {
  }

  function VolumeOf(p: Packet): seq<nat> {
    if p.Control? && p.command.SetVolume? then [p.command.volume % 100] else []
  }

  lemma MoreVolumes(p: Packet, commands: seq<Command>)
    ensures Volumes((if p.Control? then [p.command] else []) + commands) == VolumeOf(p) + Volumes(commands)
  {
    if p.Control? {
      assert ([p.command] + commands)[1..] == commands;
    } else {
      assert [] + commands == commands;
    }
  }

  lemma VolumeStep(c: Config, s: Stream, st: State, p: Packet, last: int)
    requires s.Valid(c) && Following(c, s, st, last) && Follows(s, p, last)
    ensures Receive(c, st, p).volumes == st.volumes + VolumeOf(p)
  {
    hide FindOut, Chunks, Swap32, Counted;
    if p.Data? {
      CountedSession(GotOut(c, st, p.ssrc, p.pt), p.seqnum);
    }
  }

  // ----- packets of other sources -----

  predicate Own(s: Stream, p: Packet) {
    p.ssrc == s.ssrc || p.ssrc == s.ssrc + 1
  }

  /** While a session is open, a packet of any other source changes nothing, except that its source is known as refused;
      it may be known already. */
  lemma ForeignRefused(c: Config, st: State, p: Packet)
    requires c.size > 0 && st.sessionid != 0 && p.ssrc != st.sessionid && p.ssrc != st.sessionid2
    ensures var st' := Receive(c, st, p);
      && st' == st.(refused := st'.refused)
      && forall x :: x in st'.refused <==> x in st.refused || x == p.ssrc
  {
  }

  function OwnOf(s: Stream, packets: seq<Packet>): seq<Packet>
    decreases packets
  {
    if packets == [] then []
    else (if Own(s, packets[0]) then [packets[0]] else []) + OwnOf(s, packets[1..])
  }

  /** Before the first data packet of the stream, while its session is open, and after the command that ends it. */
  datatype Phase = Before | During | Past

  function NextPhase(s: Stream, p: Packet, phase: Phase): Phase {
    if !Own(s, p) then phase
    else
      match p
      case Data(_, _, _, _, _) => if phase == Before then During else phase
      case Control(_, _, command) => if phase == During && command == SetState(true) then Past else phase
  }

  /** The packets of other sources arrive while the session is open. */
  predicate ForeignDuring(s: Stream, packets: seq<Packet>, phase: Phase)
    decreases packets
  {
    packets == []
    || ((Own(s, packets[0]) || phase == During) && ForeignDuring(s, packets[1..], NextPhase(s, packets[0], phase)))
  }

  predicate InPhase(s: Stream, st: State, last: int, phase: Phase) {
    match phase
    case Before => last < 0
    case During => last >= 0 && st.sessionid == s.ssrc
    case Past => last >= 0 && st.sessionid == 0
  }

  /** A packet of the stream neither looks at the refused sources nor changes them. */
  lemma OwnReceived(c: Config, s: Stream, st: State, p: Packet, last: int, refused: seq<nat>)
    requires s.Valid(c) && Following(c, s, st, last) && Follows(s, p, last)
    ensures Receive(c, st.(refused := refused), p) == Receive(c, st, p).(refused := refused)
    ensures Receive(c, st, p).refused == st.refused
  {
    hide FindOut, Chunks, GotOut, Counted;
    GotOutIgnores(c, st, p.ssrc, if p.Data? then p.pt else 0, refused);
    if p.Data? {
      CountedIgnores(GotOut(c, st, p.ssrc, p.pt), p.seqnum, refused);
    }
  }

  lemma GotOutIgnores(c: Config, st: State, ssrc: nat, pt: nat, refused: seq<nat>)
    ensures GotOut(c, st.(refused := refused), ssrc, pt) == GotOut(c, st, ssrc, pt).(refused := refused)
    ensures GotOut(c, st, ssrc, pt).refused == st.refused
  {
    hide FindOut, Swap32;
  }

  lemma CountedIgnores(st: State, seqnum: nat, refused: seq<nat>)
    ensures Counted(st.(refused := refused), seqnum) == Counted(st, seqnum).(refused := refused)
    ensures Counted(st, seqnum).refused == st.refused
  {
  }

  /** The session opens with the first data packet of the stream, and closes with its command. */
  lemma PhaseStep(c: Config, s: Stream, st: State, p: Packet, last: int, phase: Phase)
    requires s.Valid(c) && Following(c, s, st, last) && Follows(s, p, last) && InPhase(s, st, last, phase) && last >= -1
    ensures InPhase(s, Receive(c, st, p), KeyAfter(s, p, last), NextPhase(s, p, phase))
  {
    hide FindOut, Chunks, GotOut, Counted;
    if p.Data? {
      if last < 0 {
        GotOutFresh(c, s, st, p.ssrc);
      } else {
        GotOutKnown(c, s, st, p.ssrc, last);
      }
      CountedSession(GotOut(c, st, p.ssrc, p.pt), p.seqnum);
    }
  }

  lemma CountedSession(st: State, seqnum: nat)
    ensures Counted(st, seqnum).sessionid == st.sessionid && Counted(st, seqnum).volumes == st.volumes
  {
  }

  lemma {:induction false} RunIgnoresRefused(c: Config, s: Stream, st: State, packets: seq<Packet>, last: int, refused: seq<nat>)
    requires s.Valid(c) && Following(c, s, st, last) && InOrder(s, packets, last) && last >= -1
    ensures Run(c, st.(refused := refused), packets) == Run(c, st, packets).(refused := refused)
    ensures Run(c, st, packets).refused == st.refused
    decreases packets
  {
    hide Following, Receive, Follows, KeyAfter, Run, InOrder;
    if packets == [] {
      NothingArrived(c, st);
      NothingArrived(c, st.(refused := refused));
    } else {
      RunOpened(c, s, st, packets, last);
      RunOpened(c, s, st.(refused := refused), packets, last);
      OwnReceived(c, s, st, packets[0], last, refused);
      ReceiveStep(c, s, st, packets[0], last);
      RunIgnoresRefused(c, s, Receive(c, st, packets[0]), packets[1..], KeyAfter(s, packets[0], last), refused);
    }
  }

  /** The sources that were refused. */
  ghost predicate Refused(s: Stream, before: seq<nat>, packets: seq<Packet>, after: seq<nat>) {
    forall x :: x in after <==> x in before || exists p :: p in packets && !Own(s, p) && p.ssrc == x
  }

  lemma {:induction false} MixedFrom(c: Config, s: Stream, st: State, packets: seq<Packet>, last: int, phase: Phase)
    requires s.Valid(c) && Following(c, s, st, last) && InOrder(s, OwnOf(s, packets), last) && last >= -1
    requires InPhase(s, st, last, phase) && ForeignDuring(s, packets, phase)
    ensures var st' := Run(c, st, packets);
      st' == Run(c, st, OwnOf(s, packets)).(refused := st'.refused) && Refused(s, st.refused, packets, st'.refused)
    decreases packets
  {
    hide Following, Receive, Follows, KeyAfter, Run, InOrder, InPhase, OwnOf, Own;
    MixedOpened(c, s, st, packets);
    if packets == [] {
      NothingArrived(c, st);
    } else {
      var p, rest := packets[0], packets[1..];
      var next := Receive(c, st, p);
      assert packets == [p] + rest;
      if Own(s, p) {
        var own := OwnOf(s, packets);
        assert own != [];
        RunOpened(c, s, st, own, last);
        ReceiveStep(c, s, st, p, last);
        PhaseStep(c, s, st, p, last, phase);
        OwnReceived(c, s, st, p, last, st.refused);
        MixedFrom(c, s, next, rest, KeyAfter(s, p, last), NextPhase(s, p, phase));
      } else {
        DuringForeign(c, s, st, p, last, phase);
        MixedFrom(c, s, next, rest, last, phase);
        RunIgnoresRefused(c, s, st, OwnOf(s, packets), last, next.refused);
      }
    }
  }

  lemma MixedOpened(c: Config, s: Stream, st: State, packets: seq<Packet>)
    requires c.size > 0
    ensures packets == [] ==> OwnOf(s, packets) == []
    ensures packets != [] ==>
      && Run(c, st, packets) == Run(c, Receive(c, st, packets[0]), packets[1..])
      && if Own(s, packets[0])
         then OwnOf(s, packets) != [] && OwnOf(s, packets)[0] == packets[0] && OwnOf(s, packets)[1..] == OwnOf(s, packets[1..])
         else OwnOf(s, packets) == OwnOf(s, packets[1..])
  {
    hide Receive, Own;
  }

  lemma DuringForeign(c: Config, s: Stream, st: State, p: Packet, last: int, phase: Phase)
    requires s.Valid(c) && Following(c, s, st, last) && InPhase(s, st, last, phase) && phase == During && !Own(s, p)
    ensures var st' := Receive(c, st, p);
      && st' == st.(refused := st'.refused) && Following(c, s, st', last) && InPhase(s, st', last, phase)
      && forall x :: x in st'.refused <==> x in st.refused || x == p.ssrc
  {
    ForeignRefused(c, st, p);
  }

  /** Whatever other sources send while the session of the stream is open, data or commands, the receiver ends as it
      would have without them, and so the exactly-once theorem holds of what the stream sent; only those sources are
      refused. */
  lemma ExactlyOnceAmong(c: Config, s: Stream, packets: seq<Packet>)
    requires s.Valid(c) && InOrder(s, OwnOf(s, packets), -1) && ForeignDuring(s, packets, Before)
    ensures var st, own := Run(c, FRESH, packets), OwnOf(s, packets);
      && st == Run(c, FRESH, own).(refused := st.refused) && Refused(s, [], packets, st.refused)
      && (forall i, j :: 0 <= i < j < |st.delivered| ==> st.delivered[i] < st.delivered[j])
      && (forall q :: q in own && q.Data? ==> q.seqnum in st.delivered)
      && (forall n :: n in st.delivered ==> exists q :: q in own && q.Data? && q.seqnum == n)
      && |st.delivered| + st.missing == st.seqnum - st.seqorig && Spans(st)
      && Flatten(st.pushed) == Payloads(FirstCopies(own, 0))
  {
    hide Run, FirstCopies, InOrder, Payloads, OwnOf, ForeignDuring, Following, Flatten;
    FreshFollows(c, s);
    MixedFrom(c, s, FRESH, packets, -1, Before);
    ExactlyOnce(c, s, OwnOf(s, packets));
  }

  /** Exactly the packets of its two ids are the stream's own, in the order in which they arrived. */
  lemma {:induction false} OwnExactly(s: Stream, packets: seq<Packet>)
    ensures forall p :: p in OwnOf(s, packets) <==> p in packets && Own(s, p)
    ensures (forall p :: p in packets ==> Own(s, p)) ==> OwnOf(s, packets) == packets
    decreases packets
  {
    hide Own;
    if packets != [] {
      assert packets == [packets[0]] + packets[1..];
      OwnExactly(s, packets[1..]);
    }
  }

  // ----- the other packets -----

  /** Bytes in the opposite order. */
  lemma SwapReverses(b0: byte, b1: byte, b2: byte, b3: byte)
    ensures Swap32(((b3 * 256 + b2) * 256 + b1) * 256 + b0) == ((b0 * 256 + b1) * 256 + b2) * 256 + b3
  {
    hide Swap32;
    var v1: int := (b3 * 256 + b2) * 256 + b1;
    LowByte(v1, b0);
    LowByte(b3 * 256 + b2, b1);
    LowByte(b3, b2);
    DivTwice(v1 * 256 + b0);
    SwapDigits(v1 * 256 + b0, b0, b1, b2, b3);
  }

  lemma SwapDigits(v: nat, b0: byte, b1: byte, b2: byte, b3: byte)
    requires v % 0x100 == b0 && (v / 0x100) % 0x100 == b1 && (v / 0x10000) % 0x100 == b2 && (v / 0x1000000) % 0x100 == b3
    ensures Swap32(v) == ((b0 * 256 + b1) * 256 + b2) * 256 + b3
  {
  }

  lemma LowByte(high: nat, low: byte)
    ensures (high * 256 + low) / 256 == high && (high * 256 + low) % 256 == low
  {
  }

  lemma DivTwice(v: nat)
    ensures v / 0x10000 == (v / 0x100) / 0x100 && v / 0x1000000 == (v / 0x10000) / 0x100
  {
  }

  /** A volume is passed on, modulo 100; a stop ends the session, and nothing else. */
  lemma CommandReceived(c: Config, st: State, p: Packet)
    requires c.size > 0 && p.Control? && (st.sessionid == 0 || p.ssrc == st.sessionid || p.ssrc == st.sessionid2)
    ensures Receive(c, st, p) == match p.command
      case SetVolume(volume) => st.(volumes := st.volumes + [volume % 100])
      case SetState(stop) => if stop then st.(sessionid := 0) else st
      case OtherCommand => st
  {
  }

  /** Without a decoder, or with an unknown payload type and no substream, a packet opens the session at most. */
  lemma NotTaken(c: Config, st: State, p: Packet)
    requires c.size > 0 && p.Data?
    requires !c.attached || (p.pt !in c.known && FindOut(st.outs, p.ssrc, p.pt) == |st.outs|)
    ensures var st' := Receive(c, st, p);
      && st'.pushed == st.pushed && st'.delivered == st.delivered && st'.missing == st.missing && st'.seqnum == st.seqnum
      && (st'.sessionid != st.sessionid ==> st'.sessionid2 == st'.sessionid + 1 && p.ssrc - st'.sessionid == p.ssrc % 2)
  {
    hide Swap32;
  }
}
