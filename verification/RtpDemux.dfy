/** The receiving end of the RTP leg, src/demux_rtp.c without reordering: which packets reach the decoder, and
    how losses are counted. For the roles of the header fields see section 5.1 of RFC 3550. */
module RtpDemux {
  import opened Bytes

  const HEADER_SIZE: nat := 16
  const PUTVCTRL_PT: nat := 0x76

  /** `ssrc` 32 bits, `seqnum` 16 bits. A control packet carries a command in its header extension. */
  datatype Packet =
    | Data(ssrc: nat, seqnum: nat, pt: nat, marker: bool, payload: seq<byte>)
    | Control(ssrc: nat, seqnum: nat, command: Command)

  datatype Command = SetState(stop: bool) | SetVolume(volume: nat) | OtherCommand

  /** A substream: the two source ids in network byte order, and its payload type. */
  datatype Substream = Substream(ssrc: nat, ssrc2: nat, pt: nat)

  function Swap32(v: nat): nat {
    v % 0x100 * 0x1000000 + (v / 0x100) % 0x100 * 0x10000 + (v / 0x10000) % 0x100 * 0x100 + (v / 0x1000000) % 0x100
  }

  // ----- the receiver as a value -----

  /** `delivered` lists the sequence numbers whose payload went to the decoder. */
  datatype State = State(
    sessionid: nat, sessionid2: nat,
    seqnum: nat, seqorig: nat, missing: nat,
    outs: seq<Substream>, refused: seq<nat>, volumes: seq<nat>,
    pushed: seq<seq<byte>>, delivered: seq<nat>
  )

  /** `known` are the payload types of the profiles; `attached` says whether a decoder takes the substream;
      `size` is the block size of its jitter. */
  datatype Config = Config(known: set<nat>, attached: bool, size: nat)

  const FRESH: State := State(0, 0, 0, 0, 0, [], [], [], [], [])

  predicate Serves(out: Substream, ssrc: nat, pt: nat) {
    out.ssrc == ssrc || out.ssrc2 == ssrc || out.pt == pt
  }

  function FindOut(outs: seq<Substream>, ssrc: nat, pt: nat): (i: nat)
    ensures i <= |outs| && (i < |outs| ==> Serves(outs[i], ssrc, pt))
    ensures forall k :: 0 <= k < i ==> !Serves(outs[k], ssrc, pt)
  {
    if outs == [] || Serves(outs[0], ssrc, pt) then 0 else 1 + FindOut(outs[1..], ssrc, pt)
  }

  lemma FoundFrom(outs: seq<Substream>, i: nat, ssrc: nat, pt: nat)
    requires i <= |outs|
    ensures outs[0..] == outs
    ensures FindOut(outs[i..], ssrc, pt) ==
      if i == |outs| || Serves(outs[i], ssrc, pt) then 0 else 1 + FindOut(outs[i + 1..], ssrc, pt)
  {
    if i < |outs| {
      assert outs[i..][1..] == outs[i + 1..];
    }
  }

  /** `_demux_getout`: an unknown source opens a session, and a substream if its payload type has a profile. */
  function GotOut(c: Config, st: State, ssrc: nat, pt: nat): State {
    if FindOut(st.outs, ssrc, pt) < |st.outs| then st
    else
      var first := if ssrc % 2 == 0 then ssrc else ssrc - 1;
      var st' := st.(sessionid := first, sessionid2 := first + 1);
      if pt !in c.known then st' else st'.(outs := [Substream(Swap32(first), Swap32(first + 1), pt)] + st.outs)
  }

  /** The new substream is found by its payload type. */
  lemma Opened(c: Config, st: State, ssrc: nat, pt: nat)
    ensures FindOut(st.outs, ssrc, pt) < |st.outs| ==> GotOut(c, st, ssrc, pt) == st
    ensures FindOut(st.outs, ssrc, pt) == |st.outs| ==>
      var first := ssrc - ssrc % 2;
      var outs := [Substream(Swap32(first), Swap32(first + 1), pt)] + st.outs;
      && FindOut(outs, ssrc, pt) == 0
      && GotOut(c, st, ssrc, pt)
         == st.(sessionid := first, sessionid2 := first + 1, outs := if pt in c.known then outs else st.outs)
  {
    hide Swap32;
  }

  /** The payload, cut to blocks of the decoder's jitter. */
  function Chunks(payload: seq<byte>, size: nat): (r: seq<seq<byte>>)
    requires size > 0
    decreases |payload|
  {
    if |payload| <= size then [payload] else [payload[..size]] + Chunks(payload[size..], size)
  }

  /** The loss accounting; `missing` is computed modulo 2^16. */
  function Counted(st: State, seqnum: nat): State {
    var before := (seqnum + 0xFFFF) % 0x10000;
    var started := if st.seqnum == 0 then st.(seqorig := before, seqnum := before) else st;
    var next := (started.seqnum + 1) % 0x10000;
    var lost := (seqnum - next) % 0x10000;
    if lost > 0 then started.(missing := started.missing + lost, seqnum := seqnum) else started.(seqnum := next)
  }

  /** `demux_parseheader` on one packet. */
  function Receive(c: Config, st: State, p: Packet): State
    requires c.size > 0
  {
    if st.sessionid != 0 && st.sessionid != p.ssrc && st.sessionid2 != p.ssrc then
      if p.ssrc in st.refused then st else st.(refused := [p.ssrc] + st.refused)
    else if p.Control? then
      match p.command
      case SetState(stop) => if stop then st.(sessionid := 0) else st
      case SetVolume(volume) => st.(volumes := st.volumes + [volume % 100])
      case OtherCommand => st
    else if st.sessionid2 == p.ssrc && st.seqnum >= p.seqnum then st
    else
      var st' := GotOut(c, st, p.ssrc, p.pt);
      if FindOut(st'.outs, p.ssrc, p.pt) == |st'.outs| || !c.attached then st'
      else Counted(st', p.seqnum).(pushed := st'.pushed + Chunks(p.payload, c.size), delivered := st'.delivered + [p.seqnum])
  }

  /** A run over packets as they arrive. */
  function Run(c: Config, st: State, packets: seq<Packet>): State
    requires c.size > 0
    decreases packets
  {
    if packets == [] then st else Run(c, Receive(c, st, packets[0]), packets[1..])
  }

  // ----- the receiver in place -----

  class Demux {
    const config: Config
    var sessionid: nat
    var sessionid2: nat
    var seqnum: nat
    var seqorig: nat
    var missing: nat
    var outs: seq<Substream>
    var refused: seq<nat>
    var volumes: seq<nat>
    var pushed: seq<seq<byte>>
    ghost var delivered: seq<nat>

    ghost function View(): State
      reads this
    {
      State(sessionid, sessionid2, seqnum, seqorig, missing, outs, refused, volumes, pushed, delivered)
    }

    constructor (config: Config)
      ensures this.config == config && View() == FRESH
    {
      this.config := config;
      sessionid, sessionid2, seqnum, seqorig, missing := 0, 0, 0, 0, 0;
      outs, refused, volumes, pushed, delivered := [], [], [], [], [];
    }

    /** The loop of `_demux_getout`. */
    method Search(ssrc: nat, pt: nat) returns (i: nat)
      ensures i == FindOut(outs, ssrc, pt)
    {
      hide FindOut, Serves;
      i := 0;
      FoundFrom(outs, 0, ssrc, pt);
      while i < |outs| && !Serves(outs[i], ssrc, pt)
        invariant i <= |outs| && FindOut(outs, ssrc, pt) == i + FindOut(outs[i..], ssrc, pt)
      {
        FoundFrom(outs, i, ssrc, pt);
        i := i + 1;
      }
      FoundFrom(outs, i, ssrc, pt);
    }

    method GetOut(ssrc: nat, pt: nat) returns (found: bool)
      modifies this`sessionid, this`sessionid2, this`outs
      ensures View() == GotOut(config, old(View()), ssrc, pt)
      ensures found <==> FindOut(outs, ssrc, pt) < |outs|
    {
      hide Swap32, FindOut, Serves, GotOut;
      Opened(config, View(), ssrc, pt);
      var i := Search(ssrc, pt);
      if i < |outs| {
        return true;
      }
      if ssrc % 2 == 0 {
        sessionid, sessionid2 := ssrc, ssrc + 1;
      } else {
        sessionid, sessionid2 := ssrc - 1, ssrc;
      }
      if pt !in config.known {
        return false;
      }
      outs := [Substream(Swap32(sessionid), Swap32(sessionid2), pt)] + outs;
      return true;
    }

    /** Copies the payload into the blocks of the decoder's jitter. */
    method Deliver(payload: seq<byte>)
      requires config.size > 0
      modifies this`pushed
      ensures pushed == old(pushed) + Chunks(payload, config.size)
    {
      var input := payload;
      while |input| > config.size
        invariant pushed + Chunks(input, config.size) == old(pushed) + Chunks(payload, config.size)
        decreases |input|
      {
        pushed := pushed + [input[..config.size]];
        input := input[config.size..];
      }
      pushed := pushed + [input];
    }

    method Count(seq': nat)
      modifies this`seqnum, this`seqorig, this`missing
      ensures View() == Counted(old(View()), seq')
    {
      if seqnum == 0 {
        seqnum := (seq' + 0xFFFF) % 0x10000;
        seqorig := seqnum;
      }
      seqnum := (seqnum + 1) % 0x10000;
      var lost := (seq' - seqnum) % 0x10000;
      if lost > 0 {
        missing := missing + lost;
        seqnum := seq';
      }
    }

    method ParseHeader(p: Packet)
      requires config.size > 0
      modifies this
      ensures View() == Receive(config, old(View()), p)
    {
      if sessionid != 0 && sessionid != p.ssrc && sessionid2 != p.ssrc {
        if p.ssrc !in refused {
          refused := [p.ssrc] + refused;
        }
        return;
      }
      if p.Control? {
        match p.command {
          case SetState(stop) =>
            if stop {
              sessionid := 0;
            }
          case SetVolume(volume) => volumes := volumes + [volume % 100];
          case OtherCommand =>
        }
        return;
      }
      if sessionid2 == p.ssrc && seqnum >= p.seqnum {
        return;
      }
      var found := GetOut(p.ssrc, p.pt);
      if !found || !config.attached {
        return;
      }
      Count(p.seqnum);
      Deliver(p.payload);
      delivered := delivered + [p.seqnum];
    }
  }
}
