/** Domain names in lib/tinysvcmdns/mdns.c: encoding with the compression of RFC 1035 section 4.1.4,
    and expanding them again.

    A name is kept as the code keeps it, as length-prefixed labels, but without the final NUL. */
module NameCodec {
  import opened Bytes
  import opened Options

  type Name = n: seq<byte> | IsName(n)

  predicate IsName(n: seq<byte>) {
    n == [] ||
    (1 <= n[0] <= 63 && n[0] < |n| && (forall k :: 1 <= k <= n[0] ==> n[k] != 0) && IsName(n[n[0] + 1..]))
  }

  /** The size of the first label with its length byte. */
  function FirstSize(n: Name): (size: nat)
    requires n != []
    ensures 2 <= size <= 64 && size <= |n|
  {
    n[0] + 1
  }

  function Rest(n: Name): (r: Name)
    requires n != []
    ensures |r| < |n| && n == n[..FirstSize(n)] + r
  {
    n[n[0] + 1..]
  }

  // ----- what a packet says -----

  /** The range does not touch the two bytes of a data length that is still to be filled in. */
  predicate Clear(hole: nat, i: nat, j: nat) {
    j <= hole || hole + 2 <= i
  }

  predicate IsPointer(b: byte) {
    b >= 0xC0
  }

  /** The offset that a compression pointer holds in its low 14 bits. */
  function Target(high: byte, low: byte): nat {
    (high % 64) * 256 + low
  }

  /** The first label of `name` stands at `off`. */
  predicate LabelAt(buf: seq<byte>, hole: nat, off: nat, name: Name) {
    && name != [] && off + FirstSize(name) <= |buf|
    && Clear(hole, off, off + FirstSize(name))
    && buf[off..off + FirstSize(name)] == name[..FirstSize(name)]
  }

  predicate PointerAt(buf: seq<byte>, hole: nat, off: nat) {
    off + 2 <= |buf| && Clear(hole, off, off + 2) && IsPointer(buf[off])
  }

  predicate EndAt(buf: seq<byte>, hole: nat, off: nat) {
    off < |buf| && Clear(hole, off, off + 1) && buf[off] == 0
  }

  function TargetAt(buf: seq<byte>, hole: nat, off: nat): nat
    requires PointerAt(buf, hole, off)
  {
    Target(buf[off], buf[off + 1])
  }

  /** The bytes at `off` expand to `name`: labels follow each other up to a zero byte; a pointer is
      replaced by the label it points to, and expansion goes on behind that label. */
  predicate Expands(buf: seq<byte>, hole: nat, off: nat, name: Name)
    decreases |name|
  {
    if name == [] then EndAt(buf, hole, off)
    else
      var start := if PointerAt(buf, hole, off) then TargetAt(buf, hole, off) else off;
      LabelAt(buf, hole, start, name) && Expands(buf, hole, start + FirstSize(name), Rest(name))
  }

  /** The number of bytes that the name at `off` occupies in place. */
  function Span(buf: seq<byte>, off: nat): nat
    decreases |buf| - off
  {
    if off >= |buf| then 0
    else if buf[off] == 0 then 1
    else if IsPointer(buf[off]) then 2
    else buf[off] + 1 + Span(buf, off + buf[off] + 1)
  }

  /** `after` keeps every written byte of `before`, except in the hole. */
  predicate Extends(before: seq<byte>, after: seq<byte>, hole: nat) {
    && |before| <= |after|
    && forall k :: 0 <= k < |before| && Clear(hole, k, k + 1) ==> after[k] == before[k]
  }

  lemma LabelStable(before: seq<byte>, after: seq<byte>, hole: nat, hole': nat, off: nat, name: Name)
    requires LabelAt(before, hole, off, name) && Extends(before, after, hole) && (hole' == hole || hole' >= |before|)
    ensures LabelAt(after, hole', off, name)
  {
    var size := FirstSize(name);
    assert forall k :: off <= k < off + size ==> after[k] == before[k];
    assert after[off..off + size] == before[off..off + size];
  }

  /** What a name expands to does not change as the packet grows and data lengths are filled in. */
  lemma {:induction false} ExpandsStable(before: seq<byte>, after: seq<byte>, hole: nat, hole': nat, off: nat, name: Name)
    requires Expands(before, hole, off, name) && Extends(before, after, hole) && (hole' == hole || hole' >= |before|)
    ensures Expands(after, hole', off, name)
    ensures Span(after, off) == Span(before, off)
    decreases |name|
  {
    hide LabelAt, PointerAt, EndAt, TargetAt, IsName, Span, Extends;
    HeadStable(before, after, hole, hole', off);
    if name != [] {
      var start := if PointerAt(before, hole, off) then TargetAt(before, hole, off) else off;
      LabelStable(before, after, hole, hole', start, name);
      LabelByte(before, hole, start, name);
      LabelByte(after, hole', start, name);
      ExpandsStable(before, after, hole, hole', start + FirstSize(name), Rest(name));
      if !PointerAt(before, hole, off) {
        SpanLabel(before, hole, off, name);
        SpanLabel(after, hole', off, name);
      }
    }
  }

  lemma HeadStable(before: seq<byte>, after: seq<byte>, hole: nat, hole': nat, off: nat)
    requires Extends(before, after, hole) && (hole' == hole || hole' >= |before|)
    ensures EndAt(before, hole, off) ==> EndAt(after, hole', off) && Span(after, off) == 1 == Span(before, off)
    ensures PointerAt(before, hole, off) ==> PointerAt(after, hole', off) && Span(after, off) == 2 == Span(before, off)
    ensures PointerAt(before, hole, off) ==> TargetAt(after, hole', off) == TargetAt(before, hole, off)
  {
  }

  lemma SpanLabel(buf: seq<byte>, hole: nat, off: nat, name: Name)
    requires LabelAt(buf, hole, off, name)
    ensures Span(buf, off) == FirstSize(name) + Span(buf, off + FirstSize(name))
  {
    LabelByte(buf, hole, off, name);
  }

  lemma LabelByte(buf: seq<byte>, hole: nat, off: nat, name: Name)
    requires LabelAt(buf, hole, off, name)
    ensures off < |buf| && buf[off] == name[0] == FirstSize(name) - 1 && buf[off] != 0 && !PointerAt(buf, hole, off)
  {
    assert buf[off..off + FirstSize(name)][0] == name[..FirstSize(name)][0];
  }

  // ----- the bytes on the wire -----

  /** A number of 16 bits, the high byte first. */
  function Big16(buf: seq<byte>, p: nat): int
    requires p + 2 <= |buf|
  {
    var high: int, low: int := buf[p], buf[p + 1];
    high * 256 + low
  }

  /** The first label of `name` in place: its length, and then its characters. */
  predicate WireLabel(buf: seq<byte>, off: nat, name: Name) {
    && name != [] && off + 1 + name[0] <= |buf|
    && buf[off] == name[0] && buf[off + 1..off + 1 + name[0]] == name[1..name[0] + 1]
  }

  /** The name from `off` to `end`, as section 4.1.4 of RFC 1035 has it: labels up to a zero byte, or up to the two
      bytes of a pointer, whose high two bits are set and whose others say where the rest of the name stands. */
  ghost predicate WireName(buf: seq<byte>, off: nat, end: nat, name: Name)
    decreases |name|, 0
  {
    if name == [] then end == off + 1 <= |buf| && buf[off] == 0
    else
      var rest: Name := name[name[0] + 1..];
      || (WireLabel(buf, off, name) && WireName(buf, off + 1 + name[0], end, rest))
      || (&& end == off + 2 <= |buf| && Big16(buf, off) >= 0xC000
          && var start := Big16(buf, off) - 0xC000;
             WireLabel(buf, start, name) && WireSomehow(buf, start + 1 + name[0], rest))
  }

  ghost predicate WireSomehow(buf: seq<byte>, off: nat, name: Name)
    decreases |name|, 1
  {
    exists end: nat :: WireName(buf, off, end, name)
  }

  lemma LabelOnWire(buf: seq<byte>, hole: nat, off: nat, name: Name)
    requires LabelAt(buf, hole, off, name)
    ensures WireLabel(buf, off, name)
  {
    var size := FirstSize(name);
    assert buf[off + 1..off + size] == buf[off..off + size][1..];
    assert name[1..size] == name[..size][1..];
    LabelByte(buf, hole, off, name);
  }

  /** What expands here is read so by the standard. */
  lemma {:induction false} NameOnWire(buf: seq<byte>, hole: nat, off: nat, name: Name)
    requires Expands(buf, hole, off, name)
    ensures WireName(buf, off, off + Span(buf, off), name)
    decreases |name|
  {
    hide LabelAt, PointerAt, EndAt, TargetAt, IsName, Span, WireLabel, WireName, Expands;
    ExpandsOpened(buf, hole, off, name);
    if name == [] {
      EndOnWire(buf, hole, off);
    } else if PointerAt(buf, hole, off) {
      var start := TargetAt(buf, hole, off);
      LabelOnWire(buf, hole, start, name);
      NameOnWire(buf, hole, start + FirstSize(name), Rest(name));
      PointerOnWire(buf, hole, off, start + FirstSize(name) + Span(buf, start + FirstSize(name)), name);
    } else {
      LabelOnWire(buf, hole, off, name);
      NameOnWire(buf, hole, off + FirstSize(name), Rest(name));
      SpanLabel(buf, hole, off, name);
      InlineOnWire(buf, off, off + Span(buf, off), name);
    }
  }

  lemma ExpandsOpened(buf: seq<byte>, hole: nat, off: nat, name: Name)
    requires Expands(buf, hole, off, name)
    ensures if name == [] then EndAt(buf, hole, off)
      else
        var start := if PointerAt(buf, hole, off) then TargetAt(buf, hole, off) else off;
        LabelAt(buf, hole, start, name) && Expands(buf, hole, start + FirstSize(name), Rest(name))
  {
  }

  lemma EndOnWire(buf: seq<byte>, hole: nat, off: nat)
    requires EndAt(buf, hole, off)
    ensures WireName(buf, off, off + Span(buf, off), [])
  {
  }

  lemma InlineOnWire(buf: seq<byte>, off: nat, end: nat, name: Name)
    requires WireLabel(buf, off, name) && WireName(buf, off + FirstSize(name), end, Rest(name))
    ensures WireName(buf, off, end, name)
  {
  }

  lemma PointerOnWire(buf: seq<byte>, hole: nat, off: nat, stop: nat, name: Name)
    requires PointerAt(buf, hole, off) && WireLabel(buf, TargetAt(buf, hole, off), name)
    requires WireName(buf, TargetAt(buf, hole, off) + FirstSize(name), stop, Rest(name))
    ensures WireName(buf, off, off + Span(buf, off), name)
  {
    hide IsName;
    assert Big16(buf, off) == 0xC000 + TargetAt(buf, hole, off);
    assert Span(buf, off) == 2;
  }

  // ----- names in the making -----

  /** The labels from `off` to `p` are those of `name` up to its suffix `suffix`. */
  predicate Chain(buf: seq<byte>, hole: nat, off: nat, name: Name, p: nat, suffix: Name)
    decreases |name|
  {
    || (off == p && name == suffix)
    || (LabelAt(buf, hole, off, name) && Chain(buf, hole, off + FirstSize(name), Rest(name), p, suffix))
  }

  lemma {:induction false} ChainStable(before: seq<byte>, after: seq<byte>, hole: nat, off: nat, name: Name, p: nat, suffix: Name)
    requires Chain(before, hole, off, name, p, suffix) && Extends(before, after, hole)
    ensures Chain(after, hole, off, name, p, suffix)
    decreases |name|
  {
    if !(off == p && name == suffix) {
      LabelStable(before, after, hole, hole, off, name);
      ChainStable(before, after, hole, off + FirstSize(name), Rest(name), p, suffix);
    }
  }

  lemma LabelNonempty(buf: seq<byte>, hole: nat, off: nat, name: Name)
    requires LabelAt(buf, hole, off, name)
    ensures name != []
  {
  }

  lemma {:induction false} ChainGrows(buf: seq<byte>, hole: nat, off: nat, name: Name, p: nat, suffix: Name)
    requires Chain(buf, hole, off, name, p, suffix) && suffix != [] && LabelAt(buf, hole, p, suffix)
    ensures Chain(buf, hole, off, name, p + FirstSize(suffix), Rest(suffix))
    decreases |name|
  {
    hide LabelAt, FirstSize, Rest, IsName;
    if !(off == p && name == suffix) {
      LabelNonempty(buf, hole, off, name);
      ChainGrows(buf, hole, off + FirstSize(name), Rest(name), p, suffix);
    } else {
      assert Chain(buf, hole, p + FirstSize(suffix), Rest(suffix), p + FirstSize(suffix), Rest(suffix));
    }
  }

  lemma {:induction false} ChainEnds(buf: seq<byte>, hole: nat, off: nat, name: Name, p: nat, suffix: Name)
    requires Chain(buf, hole, off, name, p, suffix) && Expands(buf, hole, p, suffix)
    ensures Expands(buf, hole, off, name)
    ensures off <= p && Span(buf, off) == p - off + Span(buf, p)
    decreases |name|
  {
    hide LabelAt, PointerAt, TargetAt, IsName, Span;
    if !(off == p && name == suffix) {
      ChainEnds(buf, hole, off + FirstSize(name), Rest(name), p, suffix);
      SpanLabel(buf, hole, off, name);
      LabelByte(buf, hole, off, name);
    }
  }

  lemma {:induction false} ChainShorter(buf: seq<byte>, hole: nat, off: nat, name: Name, p: nat, suffix: Name)
    requires Chain(buf, hole, off, name, p, suffix)
    ensures |suffix| <= |name| && off <= p
    ensures off < p ==> |suffix| < |name|
    decreases |name|
  {
    if !(off == p && name == suffix) {
      ChainShorter(buf, hole, off + FirstSize(name), Rest(name), p, suffix);
    }
  }

  // ----- the compression dictionary -----

  /** A name that the packet already spells out, and where. */
  datatype Entry = Entry(name: Name, pos: nat)

  predicate EntryOk(buf: seq<byte>, hole: nat, e: Entry) {
    e.name != [] ==>
      && e.pos < 0x4000
      && LabelAt(buf, hole, e.pos, e.name)
      && Expands(buf, hole, e.pos + FirstSize(e.name), Rest(e.name))
  }

  /** Every entry expands to its label; the first entry is the empty name, which matches nothing. */
  ghost predicate DictionaryOk(buf: seq<byte>, hole: nat, comp: seq<Entry>) {
    |comp| > 0 && comp[0] == Entry([], 0) && forall i :: 0 <= i < |comp| ==> EntryOk(buf, hole, comp[i])
  }

  lemma EntryStable(before: seq<byte>, after: seq<byte>, hole: nat, hole': nat, e: Entry)
    requires EntryOk(before, hole, e) && Extends(before, after, hole) && (hole' == hole || hole' >= |before|)
    ensures EntryOk(after, hole', e)
  {
    hide LabelAt, Expands, Extends, IsName;
    if e.name != [] {
      LabelStable(before, after, hole, hole', e.pos, e.name);
      ExpandsStable(before, after, hole, hole', e.pos + FirstSize(e.name), Rest(e.name));
    }
  }

  lemma DictionaryStable(before: seq<byte>, after: seq<byte>, hole: nat, hole': nat, comp: seq<Entry>)
    requires DictionaryOk(before, hole, comp) && Extends(before, after, hole) && (hole' == hole || hole' >= |before|)
    ensures DictionaryOk(after, hole', comp)
  {
    forall i | 0 <= i < |comp|
      ensures EntryOk(after, hole', comp[i])
    {
      EntryStable(before, after, hole, hole', comp[i]);
    }
  }

  /** An entry made while a name is being written: its labels lead to the rest still to come. */
  ghost predicate Pending(buf: seq<byte>, hole: nat, e: Entry, p: nat, suffix: Name) {
    && e.name != [] && e.pos < 0x4000
    && LabelAt(buf, hole, e.pos, e.name)
    && Chain(buf, hole, e.pos + FirstSize(e.name), Rest(e.name), p, suffix)
    && |suffix| < |e.name|
  }

  lemma PendingStable(before: seq<byte>, after: seq<byte>, hole: nat, e: Entry, p: nat, suffix: Name)
    requires Pending(before, hole, e, p, suffix) && Extends(before, after, hole)
    ensures Pending(after, hole, e, p, suffix)
  {
    hide LabelAt, Chain, IsName, Extends;
    LabelStable(before, after, hole, hole, e.pos, e.name);
    ChainStable(before, after, hole, e.pos + FirstSize(e.name), Rest(e.name), p, suffix);
  }

  lemma PendingGrows(buf: seq<byte>, hole: nat, e: Entry, p: nat, suffix: Name)
    requires Pending(buf, hole, e, p, suffix) && suffix != [] && LabelAt(buf, hole, p, suffix)
    ensures Pending(buf, hole, e, p + FirstSize(suffix), Rest(suffix))
  {
    hide Chain, LabelAt, IsName, FirstSize, Rest;
    ChainGrows(buf, hole, e.pos + FirstSize(e.name), Rest(e.name), p, suffix);
  }

  lemma PendingEnds(buf: seq<byte>, hole: nat, e: Entry, p: nat, suffix: Name)
    requires Pending(buf, hole, e, p, suffix) && Expands(buf, hole, p, suffix)
    ensures EntryOk(buf, hole, e)
  {
    hide LabelAt, Chain, IsName, Span;
    ChainEnds(buf, hole, e.pos + FirstSize(e.name), Rest(e.name), p, suffix);
  }

  // ----- the encoder -----

  /** The state of a name half written: the first `n` entries are complete, the others are its own suffixes. */
  ghost predicate Writing(buf: seq<byte>, hole: nat, comp: seq<Entry>, n: nat, off: nat, name: Name, p: nat, suffix: Name) {
    && 0 < n <= |comp| && DictionaryOk(buf, hole, comp[..n])
    && (forall i :: n <= i < |comp| ==> Pending(buf, hole, comp[i], p, suffix))
    && Chain(buf, hole, off, name, p, suffix)
  }

  /** Copying the next label keeps the half-written state, and enters the suffix into the dictionary. */
  lemma WriteLabel(before: seq<byte>, after: seq<byte>, hole: nat, comp: seq<Entry>, n: nat, off: nat, name: Name, suffix: Name)
    requires var p := |before|;
      && Writing(before, hole, comp, n, off, name, p, suffix) && suffix != [] && p < 0x4000
      && Extends(before, after, hole) && LabelAt(after, hole, p, suffix)
    ensures Writing(after, hole, comp + [Entry(suffix, |before|)], n, off, name, |before| + FirstSize(suffix), Rest(suffix))
  {
    hide LabelAt, Chain, Expands, IsName, Extends, Pending;
    var p := |before|;
    var comp' := comp + [Entry(suffix, p)];
    assert comp'[..n] == comp[..n];
    DictionaryStable(before, after, hole, hole, comp[..n]);
    ChainStable(before, after, hole, off, name, p, suffix);
    ChainGrows(after, hole, off, name, p, suffix);
    forall i | n <= i < |comp'|
      ensures Pending(after, hole, comp'[i], p + FirstSize(suffix), Rest(suffix))
    {
      if i < |comp| {
        PendingStable(before, after, hole, comp[i], p, suffix);
        PendingGrows(after, hole, comp[i], p, suffix);
      } else {
        PendingStarts(after, hole, p, suffix);
      }
    }
  }

  lemma PendingStarts(buf: seq<byte>, hole: nat, p: nat, suffix: Name)
    requires LabelAt(buf, hole, p, suffix) && p < 0x4000
    ensures Pending(buf, hole, Entry(suffix, p), p + FirstSize(suffix), Rest(suffix))
  {
  }

  /** Once the last suffix is written, the name and every entry made for it expand. */
  lemma FinishName(before: seq<byte>, after: seq<byte>, hole: nat, comp: seq<Entry>, n: nat, off: nat, name: Name, suffix: Name)
    requires Writing(before, hole, comp, n, off, name, |before|, suffix)
    requires Extends(before, after, hole) && Expands(after, hole, |before|, suffix)
    ensures DictionaryOk(after, hole, comp)
    ensures Expands(after, hole, off, name) && off <= |before| && Span(after, off) == |before| - off + Span(after, |before|)
  {
    hide LabelAt, Chain, Expands, IsName, Extends, Pending, EntryOk, Span;
    var p := |before|;
    DictionaryStable(before, after, hole, hole, comp[..n]);
    ChainStable(before, after, hole, off, name, p, suffix);
    ChainEnds(after, hole, off, name, p, suffix);
    forall i | 0 <= i < |comp|
      ensures EntryOk(after, hole, comp[i])
    {
      if i >= n {
        PendingStable(before, after, hole, comp[i], p, suffix);
        PendingEnds(after, hole, comp[i], p, suffix);
      } else {
        assert comp[i] == comp[..n][i];
      }
    }
    assert comp[0] == comp[..n][0];
  }

  /** A suffix never matches an entry of its own name, so what it matches is complete. */
  lemma MatchIsComplete(buf: seq<byte>, hole: nat, comp: seq<Entry>, n: nat, off: nat, name: Name, p: nat, suffix: Name, i: nat)
    requires Writing(buf, hole, comp, n, off, name, p, suffix) && suffix != []
    requires i < |comp| && comp[i].name == suffix
    ensures i < n && EntryOk(buf, hole, comp[i])
  {
    assert i < n;
    assert comp[i] == comp[..n][i];
  }

  // ----- the size of what is written -----

  /** The names that the dictionary spells. */
  ghost function Known(comp: seq<Entry>): set<Name> {
    set e | e in comp :: e.name
  }

  /** The bytes that a name takes: labels up to the first suffix that is known, and a pointer to that. */
  ghost function NameSize(known: set<Name>, name: Name): (n: nat)
    ensures 1 <= n <= |name| + 1
    decreases |name|
  {
    if name == [] then 1 else if name in known then 2 else FirstSize(name) + NameSize(known, Rest(name))
  }

  /** What is known afterwards: the suffixes written as labels, too. */
  ghost function Learned(known: set<Name>, name: Name): set<Name>
    decreases |name|
  {
    if name == [] || name in known then known else {name} + Learned(known, Rest(name))
  }

  lemma {:induction false} LearnedHolds(known: set<Name>, name: Name)
    ensures known <= Learned(known, name)
    decreases |name|
  {
    if name != [] && name !in known {
      LearnedHolds(known, Rest(name));
    }
  }

  predicate IsSuffix(s: Name, name: Name)
    decreases |name|
  {
    s == name || (name != [] && IsSuffix(s, Rest(name)))
  }

  lemma {:induction false} SuffixShorter(s: Name, name: Name)
    requires IsSuffix(s, name)
    ensures |s| <= |name| && (|s| == |name| ==> s == name)
    decreases |name|
  {
    hide IsName;
    if s != name {
      SuffixShorter(s, Rest(name));
    }
  }

  /** No suffix of `name` of at least this length is known. */
  ghost predicate NoneKnown(known: set<Name>, name: Name, length: nat) {
    forall t: Name :: IsSuffix(t, name) && |t| >= length ==> t !in known
  }

  lemma NoneKnownRest(known: set<Name>, name: Name, length: nat)
    requires name != []
    ensures NoneKnown(known, name, length) <==> (length <= |name| ==> name !in known) && NoneKnown(known, Rest(name), length)
  {
    hide IsName;
    if NoneKnown(known, name, length) {
      assert IsSuffix(name, name);
      forall t: Name | IsSuffix(t, Rest(name)) && |t| >= length ensures t !in known {
        assert IsSuffix(t, name);
      }
    } else if length > |name| {
      var t: Name :| IsSuffix(t, name) && |t| >= length && t in known;
      SuffixShorter(t, name);
    }
  }

  /** Without a known suffix a name takes its labels and a zero byte; a known suffix with no longer one known becomes two
      bytes. */
  lemma {:induction false} CompressedExactly(known: set<Name>, name: Name, s: Name)
    requires IsSuffix(s, name) && (s == [] || s in known) && NoneKnown(known, name, |s| + 1)
    ensures NameSize(known, name) == |name| - |s| + if s == [] then 1 else 2
    decreases |name|
  {
    hide IsName, NoneKnown;
    SuffixShorter(s, name);
    if s != name {
      NoneKnownRest(known, name, |s| + 1);
      SuffixShorter(s, Rest(name));
      CompressedExactly(known, Rest(name), s);
    }
  }

  /** And exactly those of its suffixes become known that are longer than any known one. */
  lemma {:induction false} LearnedExactly(known: set<Name>, name: Name, s: Name)
    ensures s in Learned(known, name) <==> s in known || (s != [] && IsSuffix(s, name) && NoneKnown(known, name, |s|))
    decreases |name|
  {
    hide IsName, NoneKnown;
    if name == [] {
      return;
    }
    if name in known {
      if IsSuffix(s, name) {
        KnownItself(known, name, s);
      }
    } else {
      LearnedExactly(known, Rest(name), s);
      NoneKnownRest(known, name, |s|);
      if s == name {
        NoLonger(known, Rest(name), |s|);
      }
    }
  }

  lemma KnownItself(known: set<Name>, name: Name, s: Name)
    requires name in known && IsSuffix(s, name)
    ensures !NoneKnown(known, name, |s|)
  {
    SuffixShorter(s, name);
    assert IsSuffix(name, name);
  }

  lemma NoLonger(known: set<Name>, name: Name, length: nat)
    requires |name| < length
    ensures NoneKnown(known, name, length)
  {
    hide IsName;
    if !NoneKnown(known, name, length) {
      var t: Name :| IsSuffix(t, name) && |t| >= length && t in known;
      SuffixShorter(t, name);
      assert false;
    }
  }

  lemma NameSizes(known: set<Name>, name: Name)
    ensures name == [] ==> NameSize(known, name) == 1 && Learned(known, name) == known
    ensures name != [] && name in known ==> NameSize(known, name) == 2 && Learned(known, name) == known
    ensures name != [] && name !in known ==>
      && NameSize(known, name) == FirstSize(name) + NameSize(known, Rest(name))
      && Learned(known, name) == {name} + Learned(known, Rest(name))
  {
  }

  lemma KnownMore(comp: seq<Entry>, e: Entry)
    ensures Known(comp + [e]) == Known(comp) + {e.name}
  {
  }

  lemma KnownAt(comp: seq<Entry>, n: nat, name: Name)
    requires n <= |comp|
    ensures Known(comp[..n]) <= Known(comp)
    ensures forall i :: 0 <= i < n && comp[i].name == name ==> name in Known(comp[..n])
    ensures (forall i :: 0 <= i < |comp| ==> comp[i].name != name) ==> name !in Known(comp)
  {
    forall i | 0 <= i < n && comp[i].name == name ensures name in Known(comp[..n]) {
      assert comp[..n][i] == comp[i];
    }
  }

  /** Copies bytes into the packet. */
  method Put(buf: array<byte>, p: nat, bytes: seq<byte>)
    requires p + |bytes| <= buf.Length
    modifies buf
    ensures buf[p..p + |bytes|] == bytes
    ensures forall k :: 0 <= k < buf.Length && !(p <= k < p + |bytes|) ==> buf[k] == old(buf[k])
  {
    for i := 0 to |bytes|
      invariant buf[p..p + i] == bytes[..i]
      invariant forall k :: 0 <= k < buf.Length && !(p <= k < p + |bytes|) ==> buf[k] == old(buf[k])
    {
      buf[p + i] := bytes[i];
    }
  }

  function U16(v: nat): (bytes: seq<byte>)
    requires v < 0x10000
    ensures |bytes| == 2
  {
    [v / 256, v % 256]
  }

  /** The list that grows while a packet is encoded. */
  class Compression {
    var entries: seq<Entry>

    constructor ()
      ensures entries == [Entry([], 0)]
    {
      entries := [Entry([], 0)];
    }

    /** The first entry that spells the name, if any. */
    method Find(name: Name) returns (i: nat)
      ensures i <= |entries|
      ensures i < |entries| ==> entries[i].name == name
      ensures forall k :: 0 <= k < i ==> entries[k].name != name
    {
      i := 0;
      while i < |entries| && entries[i].name != name
        invariant i <= |entries|
        invariant forall k :: 0 <= k < i ==> entries[k].name != name
      {
        i := i + 1;
      }
    }

    /** Writes a name at `off`: labels until a suffix is found in the dictionary, then a pointer to it. */
    method EncodeName(buf: array<byte>, off: nat, name: Name, ghost hole: nat) returns (len: nat)
      requires off + NameSize(Known(entries), name) <= buf.Length && off + NameSize(Known(entries), name) <= 0x4000
      requires Clear(hole, off, off + NameSize(Known(entries), name))
      requires DictionaryOk(buf[..off], hole, entries)
      modifies this, buf
      ensures len == NameSize(old(Known(entries)), name) && Known(entries) == Learned(old(Known(entries)), name)
      ensures forall k :: 0 <= k < buf.Length && !(off <= k < off + len) ==> buf[k] == old(buf[k])
      ensures DictionaryOk(buf[..off + len], hole, entries)
      ensures Expands(buf[..off + len], hole, off, name) && Span(buf[..off + len], off) == len
    {
      hide LabelAt, Chain, Expands, IsName, Extends, Pending, EntryOk, Span, DictionaryOk, Known, NameSize, Learned, Writing;
      ghost var n, known := |entries|, Known(entries);
      var p := off;
      var rest := name;
      assert entries[..n] == entries;
      WritingStarts(buf[..off], hole, entries, off, name);
      LearnedHolds(known, name);
      while rest != []
        invariant off <= p && p + NameSize(known, rest) == off + NameSize(known, name)
        invariant n <= |entries| && Known(entries[..n]) == known && known <= Known(entries)
        invariant Known(entries) + Learned(known, rest) == Learned(known, name)
        invariant Writing(buf[..p], hole, entries, n, off, name, p, rest)
        invariant forall k :: 0 <= k < buf.Length && !(off <= k < p) ==> buf[k] == old(buf[k])
        decreases |rest|
      {
        ghost var before := buf[..p];
        var i := Find(rest);
        KnownAt(entries, n, rest);
        NameSizes(known, rest);
        if i < |entries| {
          MatchIsComplete(before, hole, entries, n, off, name, p, rest, i);
          WritePointer(buf, p, entries[i], hole);
          FinishName(before, buf[..p + 2], hole, entries, n, off, name, rest);
          return p - off + 2;
        }
        var size := FirstSize(rest);
        WriteSegment(buf, p, rest, hole);
        WriteLabel(before, buf[..p + size], hole, entries, n, off, name, rest);
        KnownMore(entries, Entry(rest, p));
        assert (entries + [Entry(rest, p)])[..n] == entries[..n];
        assert Rest(rest) == rest[size..];
        entries := entries + [Entry(rest, p)];
        p := p + size;
        rest := rest[size..];
      }
      ghost var before := buf[..p];
      NameSizes(known, rest);
      WriteEnd(buf, p, hole);
      FinishName(before, buf[..p + 1], hole, entries, n, off, name, rest);
      return p - off + 1;
    }
  }

  method WritePointer(buf: array<byte>, p: nat, e: Entry, ghost hole: nat)
    requires p + 2 <= buf.Length && Clear(hole, p, p + 2) && EntryOk(buf[..p], hole, e) && e.name != []
    modifies buf
    ensures forall k :: 0 <= k < buf.Length && !(p <= k < p + 2) ==> buf[k] == old(buf[k])
    ensures Extends(old(buf[..p]), buf[..p + 2], hole)
    ensures Expands(buf[..p + 2], hole, p, e.name) && Span(buf[..p + 2], p) == 2
  {
    hide LabelAt, Expands, IsName, Extends, EntryOk, Span;
    ghost var before := buf[..p];
    EntryBounds(before, hole, e);
    var pointer := 0xC000 + e.pos % 0x4000;
    Put(buf, p, U16(pointer));
    PointerExpands(before, buf[..p + 2], hole, e);
  }

  method WriteSegment(buf: array<byte>, p: nat, rest: Name, ghost hole: nat)
    requires rest != [] && p + FirstSize(rest) <= buf.Length && Clear(hole, p, p + FirstSize(rest))
    modifies buf
    ensures forall k :: 0 <= k < buf.Length && !(p <= k < p + FirstSize(rest)) ==> buf[k] == old(buf[k])
    ensures Extends(old(buf[..p]), buf[..p + FirstSize(rest)], hole)
    ensures LabelAt(buf[..p + FirstSize(rest)], hole, p, rest)
  {
    hide LabelAt, IsName, Extends;
    ghost var before := buf[..p];
    Put(buf, p, rest[..FirstSize(rest)]);
    LabelWritten(before, buf[..p + FirstSize(rest)], hole, rest);
  }

  method WriteEnd(buf: array<byte>, p: nat, ghost hole: nat)
    requires p + 1 <= buf.Length && Clear(hole, p, p + 1)
    modifies buf
    ensures forall k :: 0 <= k < buf.Length && k != p ==> buf[k] == old(buf[k])
    ensures Extends(old(buf[..p]), buf[..p + 1], hole)
    ensures Expands(buf[..p + 1], hole, p, []) && Span(buf[..p + 1], p) == 1
  {
    hide Expands, Extends, Span;
    ghost var before := buf[..p];
    buf[p] := 0;
    EndExpands(before, buf[..p + 1], hole);
  }

  lemma WritingStarts(buf: seq<byte>, hole: nat, comp: seq<Entry>, off: nat, name: Name)
    requires DictionaryOk(buf, hole, comp) && off == |buf|
    ensures |comp| > 0 && Writing(buf, hole, comp, |comp|, off, name, off, name)
  {
    assert comp[..|comp|] == comp;
  }

  lemma PointerExpands(before: seq<byte>, after: seq<byte>, hole: nat, e: Entry)
    requires EntryOk(before, hole, e) && e.name != []
    requires |after| == |before| + 2 && before == after[..|before|] && Clear(hole, |before|, |before| + 2)
    requires after[|before|..] == U16(0xC000 + e.pos % 0x4000)
    ensures Extends(before, after, hole) && Expands(after, hole, |before|, e.name) && Span(after, |before|) == 2
  {
    hide LabelAt, Expands, IsName, Span, EntryOk, U16, Target;
    var p := |before|;
    assert Extends(before, after, hole);
    EntryStable(before, after, hole, hole, e);
    EntryBounds(before, hole, e);
    U16Pointer(e.pos);
    assert after[p] == after[p..][0] && after[p + 1] == after[p..][1];
    ExpandsByPointer(after, hole, p, e);
  }

  lemma EntryBounds(buf: seq<byte>, hole: nat, e: Entry)
    requires EntryOk(buf, hole, e) && e.name != []
    ensures e.pos < 0x4000
  {
  }

  lemma U16Pointer(pos: nat)
    requires pos < 0x4000
    ensures var bytes := U16(0xC000 + pos % 0x4000);
            IsPointer(bytes[0]) && Target(bytes[0], bytes[1]) == pos
  {
  }

  lemma ExpandsByPointer(buf: seq<byte>, hole: nat, p: nat, e: Entry)
    requires EntryOk(buf, hole, e) && e.name != []
    requires PointerAt(buf, hole, p) && TargetAt(buf, hole, p) == e.pos
    ensures Expands(buf, hole, p, e.name) && Span(buf, p) == 2
  {
    hide LabelAt, IsName, Target;
  }

  lemma LabelWritten(before: seq<byte>, after: seq<byte>, hole: nat, name: Name)
    requires name != [] && |after| == |before| + FirstSize(name) && before == after[..|before|]
    requires Clear(hole, |before|, |after|) && after[|before|..] == name[..FirstSize(name)]
    ensures Extends(before, after, hole) && LabelAt(after, hole, |before|, name)
  {
  }

  lemma EndExpands(before: seq<byte>, after: seq<byte>, hole: nat)
    requires |after| == |before| + 1 && before == after[..|before|] && after[|before|] == 0
    requires Clear(hole, |before|, |after|)
    ensures Extends(before, after, hole) && Expands(after, hole, |before|, []) && Span(after, |before|) == 1
  {
  }

  // ----- the decoder -----

  /** The size of the name field at `off`, without expanding it. */
  method LabelLen(buf: array<byte>, pktLen: nat, off: nat) returns (len: nat)
    requires pktLen <= buf.Length
    ensures len == Span(buf[..pktLen], off)
  {
    var p := off;
    len := 0;
    while p < pktLen
      invariant off <= p && len + Span(buf[..pktLen], p) == Span(buf[..pktLen], off)
    {
      assert buf[..pktLen][p] == buf[p];
      if buf[p] == 0 {
        return len + 1;
      } else if IsPointer(buf[p]) {
        return len + 2;
      }
      len := len + (buf[p] + 1);
      p := p + buf[p] + 1;
    }
  }

  /** Where the next label to copy starts: behind a pointer, or right here. */
  method Follow(buf: array<byte>, pktLen: nat, p: nat, ghost rest: Name, ghost hole: nat) returns (start: nat, size: nat)
    requires pktLen <= buf.Length
    requires Expands(buf[..pktLen], hole, p, rest) && rest != []
    ensures size == FirstSize(rest) && start + size <= pktLen
    ensures buf[start..start + size] == rest[..size]
    ensures Expands(buf[..pktLen], hole, start + size, Rest(rest))
  {
    hide Expands, LabelAt, PointerAt, Target, IsPointer, IsName;
    ghost var packet := buf[..pktLen];
    LabelAhead(packet, hole, p, rest);
    PacketByte(buf, pktLen, p);
    if IsPointer(buf[p]) {
      PacketByte(buf, pktLen, p + 1);
      start := Target(buf[p], buf[p + 1]);
    } else {
      start := p;
    }
    PacketByte(buf, pktLen, start);
    size := buf[start] + 1;
    PacketSlice(buf, pktLen, start, start + size);
  }

  lemma PacketByte(buf: array<byte>, pktLen: nat, p: nat)
    requires p < pktLen <= buf.Length
    ensures buf[..pktLen][p] == buf[p]
  {
  }

  lemma PacketSlice(buf: array<byte>, pktLen: nat, i: nat, j: nat)
    requires i <= j <= pktLen <= buf.Length
    ensures buf[..pktLen][i..j] == buf[i..j]
  {
  }

  /** Where the next label stands, what it says, and what follows it. */
  lemma LabelAhead(buf: seq<byte>, hole: nat, p: nat, rest: Name)
    requires Expands(buf, hole, p, rest) && rest != []
    ensures p < |buf| && (IsPointer(buf[p]) ==> p + 1 < |buf|)
    ensures var start := if IsPointer(buf[p]) then Target(buf[p], buf[p + 1]) else p;
      && start + FirstSize(rest) <= |buf| && buf[start] + 1 == FirstSize(rest)
      && buf[start..start + FirstSize(rest)] == rest[..FirstSize(rest)]
      && Expands(buf, hole, start + FirstSize(rest), Rest(rest))
  {
    hide IsName, Target;
    HeadOfName(buf, hole, p, rest);
    LabelByte(buf, hole, if IsPointer(buf[p]) then Target(buf[p], buf[p + 1]) else p, rest);
  }

  /** The byte that starts a non-empty name is a pointer byte exactly when the name goes on elsewhere. */
  lemma HeadOfName(buf: seq<byte>, hole: nat, p: nat, rest: Name)
    requires Expands(buf, hole, p, rest) && rest != []
    ensures p < |buf| && buf[p] != 0
    ensures IsPointer(buf[p]) <==> PointerAt(buf, hole, p)
  {
    if !PointerAt(buf, hole, p) {
      LabelByte(buf, hole, p, rest);
      assert buf[p] <= 63;
    }
  }

  lemma EndOfName(buf: seq<byte>, hole: nat, p: nat, rest: Name)
    requires Expands(buf, hole, p, rest)
    ensures p < |buf| && (buf[p] == 0 <==> rest == [])
  {
    if rest != [] {
      HeadOfName(buf, hole, p, rest);
    }
  }

  /** The first pass over a name: how long its expansion is. */
  method Measure(buf: array<byte>, pktLen: nat, off: nat, ghost name: Name, ghost hole: nat) returns (len: nat)
    requires pktLen <= buf.Length && Expands(buf[..pktLen], hole, off, name)
    ensures len == |name|
  {
    hide Expands, IsName, LabelAt;
    ghost var packet := buf[..pktLen];
    var p: nat := off;
    len := 0;
    ghost var rest := name;
    EndOfName(packet, hole, p, rest);
    while buf[p] != 0
      invariant p < pktLen && Expands(packet, hole, p, rest)
      invariant len + |rest| == |name|
      invariant buf[p] == 0 <==> rest == []
      decreases |rest|
    {
      var start, size := Follow(buf, pktLen, p, rest, hole);
      len := len + size;
      p := start + size;
      rest := Rest(rest);
      EndOfName(packet, hole, p, rest);
    }
  }

  /** Expands the name at `off` into a NUL-terminated string of its own. */
  method Uncompress(buf: array<byte>, pktLen: nat, off: nat, ghost name: Name, ghost hole: nat)
    returns (r: Option<array<byte>>)
    requires pktLen <= buf.Length
    requires off < pktLen ==> Expands(buf[..pktLen], hole, off, name)
    ensures off >= pktLen ==> r.None?
    ensures off < pktLen ==> r.Some? && fresh(r.value) && r.value[..] == name + [0]
  {
    hide Expands, IsName, LabelAt;
    if off >= pktLen {
      return None;
    }
    ghost var packet := buf[..pktLen];
    var len := Measure(buf, pktLen, off, name, hole);
    var str := new byte[len + 1];
    var p: nat, sp: nat := off, 0;
    ghost var rest := name;
    EndOfName(packet, hole, p, rest);
    while buf[p] != 0
      invariant p < pktLen && Expands(packet, hole, p, rest) && buf[..pktLen] == packet
      invariant sp <= len == |name| && rest == name[sp..] && str[..sp] == name[..sp]
      invariant buf[p] == 0 <==> rest == []
      decreases |rest|
    {
      var start, size := Follow(buf, pktLen, p, rest, hole);
      ghost var copied := str[..sp];
      Put(str, sp, buf[start..start + size]);
      PutMore(copied, str[..sp + size], name, sp, size);
      p := start + size;
      rest := Rest(rest);
      sp := sp + size;
      EndOfName(packet, hole, p, rest);
    }
    str[sp] := 0;
    assert str[..] == name + [0];
    return Some(str);
  }

  lemma PutMore(before: seq<byte>, after: seq<byte>, name: seq<byte>, sp: nat, size: nat)
    requires sp + size <= |name| && |before| == sp && |after| == sp + size
    requires before == name[..sp] && after[..sp] == before && after[sp..] == name[sp..][..size]
    ensures after == name[..sp + size] && name[sp..][size..] == name[sp + size..]
  {
    assert after == after[..sp] + after[sp..];
  }

  // ----- one packet, many names -----

  /** An offset that no data length ever occupies. */
  const NO_HOLE: nat := 0x10000

  /** What is known after all of the names. */
  ghost function LearnedAll(names: seq<Name>): set<Name> {
    if names == [] then Known([Entry([], 0)])
    else Learned(LearnedAll(names[..|names| - 1]), names[|names| - 1])
  }

  ghost function TotalSize(names: seq<Name>): nat {
    if names == [] then 0
    else
      var init := names[..|names| - 1];
      TotalSize(init) + NameSize(LearnedAll(init), names[|names| - 1])
  }

  /** Every name of a list, written one after the other with one dictionary, can be expanded from its offset; together they
      take exactly their compressed size. */
  method EncodeNames(buf: array<byte>, start: nat, names: seq<Name>) returns (offsets: seq<nat>, end: nat)
    requires start + TotalSize(names) <= buf.Length && start + TotalSize(names) <= 0x4000
    modifies buf
    ensures |offsets| == |names| && end == start + TotalSize(names)
    ensures AllExpand(buf[..end], offsets, names)
  {
    hide Expands, IsName, LabelAt, DictionaryOk, EntryOk, TotalSize, Clear, LearnedAll, Known;
    var comp := new Compression();
    offsets, end := [], start;
    StartsEmpty(buf[..start], NO_HOLE, comp.entries, names);
    for n := 0 to |names|
      invariant fresh(comp) && |offsets| == n && end == start + TotalSize(names[..n]) <= start + TotalSize(names)
      invariant Known(comp.entries) == LearnedAll(names[..n])
      invariant DictionaryOk(buf[..end], NO_HOLE, comp.entries)
      invariant AllExpand(buf[..end], offsets, names)
    {
      var len := EncodeNext(buf, start, end, names, n, offsets, comp);
      offsets := offsets + [end];
      end := end + len;
    }
    assert names[..|names|] == names;
  }

  method EncodeNext(buf: array<byte>, ghost start: nat, end: nat, names: seq<Name>, n: nat, ghost offsets: seq<nat>,
                    comp: Compression) returns (len: nat)
    requires start + TotalSize(names) <= buf.Length && start + TotalSize(names) <= 0x4000
    requires |offsets| == n < |names| && end == start + TotalSize(names[..n]) <= start + TotalSize(names)
    requires Known(comp.entries) == LearnedAll(names[..n])
    requires DictionaryOk(buf[..end], NO_HOLE, comp.entries) && AllExpand(buf[..end], offsets, names)
    modifies buf, comp
    ensures end + len == start + TotalSize(names[..n + 1]) <= start + TotalSize(names)
    ensures Known(comp.entries) == LearnedAll(names[..n + 1])
    ensures DictionaryOk(buf[..end + len], NO_HOLE, comp.entries)
    ensures AllExpand(buf[..end + len], offsets + [end], names)
  {
    hide Expands, IsName, LabelAt, DictionaryOk, EntryOk, TotalSize, LearnedAll, Known, NameSize, Learned;
    ghost var before := buf[..end];
    TotalGrows(names, n);
    len := comp.EncodeName(buf, end, names[n], NO_HOLE);
    AllStable(before, buf[..end + len], offsets, names);
  }

  ghost predicate AllExpand(buf: seq<byte>, offsets: seq<nat>, names: seq<Name>) {
    |offsets| <= |names| && forall i :: 0 <= i < |offsets| ==> Expands(buf, NO_HOLE, offsets[i], names[i])
  }

  lemma StartsEmpty(buf: seq<byte>, hole: nat, comp: seq<Entry>, names: seq<Name>)
    requires comp == [Entry([], 0)]
    ensures DictionaryOk(buf, hole, comp) && TotalSize(names[..0]) == 0 && Known(comp) == LearnedAll(names[..0])
  {
  }

  lemma AllStable(before: seq<byte>, after: seq<byte>, offsets: seq<nat>, names: seq<Name>)
    requires Extends(before, after, NO_HOLE) && AllExpand(before, offsets, names)
    ensures AllExpand(after, offsets, names)
  {
    forall i | 0 <= i < |offsets|
      ensures Expands(after, NO_HOLE, offsets[i], names[i])
    {
      ExpandsStable(before, after, NO_HOLE, NO_HOLE, offsets[i], names[i]);
    }
  }

  lemma {:induction false} TotalGrows(names: seq<Name>, n: nat)
    requires n < |names|
    ensures TotalSize(names[..n + 1]) == TotalSize(names[..n]) + NameSize(LearnedAll(names[..n]), names[n])
    ensures LearnedAll(names[..n + 1]) == Learned(LearnedAll(names[..n]), names[n])
    ensures TotalSize(names[..n + 1]) <= TotalSize(names)
    decreases |names| - n
  {
    hide NameSize, Learned, Known;
    assert names[..n + 1][..n] == names[..n];
    if n + 1 < |names| {
      TotalGrows(names, n + 1);
    } else {
      assert names[..n + 1] == names;
    }
  }
}
