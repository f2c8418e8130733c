/** Dotted host names and their label form, in lib/tinysvcmdns/mdns.c: `create_nlabel` and `nlabel_to_str`. */
module DottedName {
  import opened Bytes
  import NameCodec
  import opened Options

  const DOT: byte := 46

  /** One part of a dotted name. */
  predicate IsLabel(part: seq<byte>) {
    1 <= |part| <= 63 && forall i :: 0 <= i < |part| ==> part[i] != 0 && part[i] != DOT
  }

  predicate AreLabels(parts: seq<seq<byte>>) {
    forall i :: 0 <= i < |parts| ==> IsLabel(parts[i])
  }

  /** The parts with a dot behind each of them. */
  function Dots(parts: seq<seq<byte>>): seq<byte> {
    if parts == [] then [] else Dots(parts[..|parts| - 1]) + parts[|parts| - 1] + [DOT]
  }

  /** The dotted form: a dot between the parts. */
  function Dotted(parts: seq<seq<byte>>): seq<byte>
    requires parts != []
  {
    Dots(parts)[..|Dots(parts)| - 1]
  }

  /** The label form: every part behind its length. */
  function Wire(parts: seq<seq<byte>>): seq<byte>
    requires AreLabels(parts)
  {
    if parts == [] then [] else [|parts[0]|] + parts[0] + Wire(parts[1..])
  }

  lemma {:induction false} WireIsName(parts: seq<seq<byte>>)
    requires AreLabels(parts)
    ensures NameCodec.IsName(Wire(parts))
  {
    if parts != [] {
      var n := Wire(parts);
      WireIsName(parts[1..]);
      assert n[0] == |parts[0]| && n[1..n[0] + 1] == parts[0] && n[n[0] + 1..] == Wire(parts[1..]);
      forall k | 1 <= k <= n[0] ensures n[k] != 0 {
        assert n[k] == parts[0][k - 1];
      }
    }
  }

  /** The distance from one dot to the next one is one more than the length of the part between them. */
  lemma {:induction false} DotsLength(parts: seq<seq<byte>>, i: nat)
    requires i < |parts|
    ensures |Dots(parts[..i + 1])| == |Dots(parts[..i])| + |parts[i]| + 1 <= |Dots(parts)|
    ensures Dots(parts[..i + 1]) == Dots(parts[..i]) + parts[i] + [DOT]
    ensures Dots(parts[..i + 1]) <= Dots(parts)
    decreases |parts|
  {
    assert parts[..i + 1][..i] == parts[..i];
    if i + 1 < |parts| {
      var init := parts[..|parts| - 1];
      DotsLength(init, i);
      assert init[..i + 1] == parts[..i + 1] && init[..i] == parts[..i];
    } else {
      assert parts[..i + 1] == parts;
    }
  }

  // ----- from dotted to labels -----

  /** `memchr`: the first dot among `n` bytes from `from`, or nothing. */
  method FindDot(a: array<byte>, from: nat, n: nat) returns (r: Option<nat>)
    requires from + n <= a.Length
    ensures r.None? ==> forall k :: from <= k < from + n ==> a[k] != DOT
    ensures r.Some? ==> from <= r.value < from + n && a[r.value] == DOT && forall k :: from <= k < r.value ==> a[k] != DOT
  {
    var k := from;
    while k < from + n
      invariant from <= k <= from + n
      invariant forall j :: from <= j < k ==> a[j] != DOT
    {
      if a[k] == DOT {
        return Some(k);
      }
      k := k + 1;
    }
    return None;
  }

  lemma {:induction false} WireGrows(parts: seq<seq<byte>>, i: nat)
    requires AreLabels(parts) && i < |parts|
    ensures Wire(parts[..i + 1]) == Wire(parts[..i]) + ([|parts[i]|] + parts[i])
    decreases |parts|
  {
    if i > 0 {
      WireGrows(parts[1..], i - 1);
      assert parts[..i + 1][1..] == parts[1..][..i] && parts[..i][1..] == parts[1..][..i - 1];
    } else {
      assert parts[..1] == [parts[0]] && parts[..1][1..] == [] && parts[..0] == [];
    }
  }

  lemma {:induction false} WireLength(parts: seq<seq<byte>>, i: nat)
    requires AreLabels(parts) && i <= |parts|
    ensures |Wire(parts[..i])| == |Dots(parts[..i])|
    decreases i
  {
    if i > 0 {
      WireLength(parts, i - 1);
      WireGrows(parts, i - 1);
      DotsLength(parts, i - 1);
    }
  }

  /** Where the part lies in the text that was copied one byte up. */
  lemma PartAt(a: seq<byte>, parts: seq<seq<byte>>, i: nat)
    requires AreLabels(parts) && i < |parts| && |a| == |Dots(parts)| + 1
    requires var p := |Dots(parts[..i])|; forall k :: p < k < |a| - 1 ==> a[k] == Dots(parts)[k - 1]
    ensures var p, n := |Dots(parts[..i])|, |parts[i]|;
      && p + n + 1 < |a| && a[p + 1..p + 1 + n] == parts[i]
      && (i + 1 < |parts| ==> p + n + 2 < |a| - 1 && a[p + 1 + n] == DOT)
      && (i + 1 == |parts| ==> p + n + 2 == |a|)
  {
    hide Dots;
    var p, n := |Dots(parts[..i])|, |parts[i]|;
    DotsLength(parts, i);
    var d := Dots(parts);
    forall k | 0 <= k < n ensures a[p + 1 + k] == parts[i][k] {
      assert d[p + k] == Dots(parts[..i + 1])[p + k];
    }
    if i + 1 < |parts| {
      DotsLength(parts, i + 1);
      assert d[p + n] == Dots(parts[..i + 1])[p + n] == DOT;
    } else {
      assert parts[..i + 1] == parts;
    }
  }

  /** The first dot in the text behind `p`, or the end, is where the part ends. */
  lemma DotAfterPart(a: seq<byte>, p: nat, e: nat, parts: seq<seq<byte>>, i: nat, dot: nat)
    requires AreLabels(parts) && i < |parts| && p < e && |a| == e + 2 && p + 1 + |parts[i]| < |a|
    requires a[p + 1..p + 1 + |parts[i]|] == parts[i]
    requires if i + 1 < |parts| then p + 1 + |parts[i]| < e && a[p + 1 + |parts[i]|] == DOT else p + |parts[i]| == e
    requires (dot == e + 1 && forall k :: p + 1 <= k < e ==> a[k] != DOT)
          || (p + 1 <= dot < e && a[dot] == DOT && forall k :: p + 1 <= k < dot ==> a[k] != DOT)
    ensures dot == p + 1 + |parts[i]|
  {
    var n := |parts[i]|;
    assert IsLabel(parts[i]);
    forall k | p + 1 <= k < p + 1 + n ensures a[k] != DOT {
      assert a[k] == a[p + 1..p + 1 + n][k - p - 1];
    }
  }

  /** The text one byte up, with the first `i` lengths written over the dots (the first one in front). */
  ghost predicate Cut(a: seq<byte>, parts: seq<seq<byte>>, i: nat, p: nat)
    requires AreLabels(parts) && i <= |parts|
  {
    && p == |Dots(parts[..i])| < |a| == |Dots(parts)| + 1
    && a[..p] == Wire(parts[..i]) && a[|a| - 1] == 0
    && forall k :: p < k < |a| - 1 ==> a[k] == Dots(parts)[k - 1]
  }

  lemma CutNext(a: seq<byte>, parts: seq<seq<byte>>, i: nat, p: nat)
    requires AreLabels(parts) && i < |parts| && Cut(a, parts, i, p)
    ensures Cut(a[p := |parts[i]|], parts, i + 1, p + 1 + |parts[i]|)
  {
    hide Wire, Dots;
    PartAt(a, parts, i);
    WireGrows(parts, i);
    DotsLength(parts, i);
    var n, after := |parts[i]|, a[p := |parts[i]|];
    assert after[..p + 1 + n] == a[..p] + ([n] + parts[i]);
  }

  lemma CutEnd(a: seq<byte>, parts: seq<seq<byte>>, i: nat, p: nat)
    requires AreLabels(parts) && i <= |parts| && Cut(a, parts, i, p)
    ensures i == |parts| <==> p + 2 >= |a|
    ensures i == |parts| ==> p + 1 == |a| && a == Wire(parts) + [0]
  {
    hide Wire, Dots;
    if i < |parts| {
      DotsLength(parts, i);
      assert IsLabel(parts[i]);
    } else {
      assert parts[..i] == parts;
      assert a == a[..p] + [0];
    }
  }

  /** Turns a dotted name into its label form, in one pass over a copy of the text. */
  method CreateNlabel(name: seq<byte>, ghost parts: seq<seq<byte>>) returns (r: array<byte>)
    requires parts != [] && AreLabels(parts) && name == Dotted(parts)
    ensures fresh(r) && r[..] == Wire(parts) + [0]
  {
    hide Wire, Dots, Cut, Dotted, AreLabels;
    var len := |name|;
    r := new byte[len + 2];
    NameCodec.Put(r, 1, name);
    r[len + 1] := 0;
    NothingCut(r[..], parts);
    var p, e := 0, len;
    ghost var i := 0;
    CutEnd(r[..], parts, 0, 0);
    while p < e
      invariant 0 <= i <= |parts| && 0 <= p && Cut(r[..], parts, i, p)
      invariant i == |parts| <==> p >= e
      invariant i == |parts| ==> r[..] == Wire(parts) + [0]
      decreases |parts| - i
    {
      assert r[..][..] == r[..];
      CutPart(r[..], parts, i, p);
      CutNext(r[..], parts, i, p);
      ghost var before: seq<byte> := r[..];
      r[p] := 0;
      assert r[..][p + 1..p + 1 + |parts[i]|] == parts[i];
      var found := FindDot(r, p + 1, e - p - 1);
      var dot := if found.None? then e + 1 else found.value;
      DotAfterPart(r[..], p, e, parts, i, dot);
      r[p] := dot - p - 1;
      assert r[..] == before[p := |parts[i]|];
      p := dot;
      i := i + 1;
      CutEnd(r[..], parts, i, p);
    }
  }

  /** The part at `p`, and what ends it, whatever the byte at `p` is. */
  lemma CutPart(a: seq<byte>, parts: seq<seq<byte>>, i: nat, p: nat)
    requires AreLabels(parts) && i < |parts| && Cut(a, parts, i, p)
    ensures var n, e := |parts[i]|, |a| - 2;
      && 0 < n < 256 && p + n + 1 < |a| && a[p + 1..p + 1 + n] == parts[i]
      && if i + 1 < |parts| then p + 1 + n < e && a[p + 1 + n] == DOT else p + n == e
  {
    hide Wire, Dots;
    PartAt(a, parts, i);
    assert IsLabel(parts[i]);
  }

  lemma NothingCut(a: seq<byte>, parts: seq<seq<byte>>)
    requires parts != [] && AreLabels(parts) && |a| == |Dotted(parts)| + 2
    requires a[1..|a| - 1] == Dotted(parts) && a[|a| - 1] == 0
    ensures Cut(a, parts, 0, 0)
  {
    TextLength(parts);
    NothingYet(parts);
    forall k | 0 < k < |a| - 1 ensures a[k] == Dots(parts)[k - 1] {
      assert a[k] == a[1..|a| - 1][k - 1];
    }
  }

  lemma TextLength(parts: seq<seq<byte>>)
    requires parts != [] && AreLabels(parts)
    ensures |Dots(parts)| == |Dotted(parts)| + 1 >= 2
    ensures forall k :: 0 <= k < |Dotted(parts)| ==> Dotted(parts)[k] == Dots(parts)[k]
  {
    assert IsLabel(parts[|parts| - 1]);
  }

  lemma NothingYet(parts: seq<seq<byte>>)
    requires AreLabels(parts)
    ensures Dots(parts[..0]) == [] && Wire(parts[..0]) == []
  {
  }

  // ----- from labels to dotted -----

  const ROOM: nat := 256

  /** How many parts, each with a dot, fit into `room` bytes. */
  function Fitting(parts: seq<seq<byte>>, room: nat): (n: nat)
    ensures n <= |parts|
    decreases parts
  {
    if parts == [] || room <= |parts[0]| then 0 else 1 + Fitting(parts[1..], room - |parts[0]| - 1)
  }

  lemma {:induction false} FittingExact(parts: seq<seq<byte>>, room: nat, i: nat)
    requires i <= |parts| && |Dots(parts[..i])| <= room
    requires i < |parts| ==> room - |Dots(parts[..i])| <= |parts[i]|
    ensures Fitting(parts, room) == i
    decreases parts
  {
    hide Dots;
    if i > 0 {
      DotsOfTail(parts, i);
      FittingExact(parts[1..], room - |parts[0]| - 1, i - 1);
    } else {
      EmptyDots(parts);
    }
  }

  lemma EmptyDots(parts: seq<seq<byte>>)
    ensures Dots(parts[..0]) == []
  {
  }

  lemma {:induction false} DotsOfTail(parts: seq<seq<byte>>, i: nat)
    requires 0 < i <= |parts|
    ensures |Dots(parts[..i])| == |parts[0]| + 1 + |Dots(parts[1..][..i - 1])|
    decreases i
  {
    DotsLength(parts, i - 1);
    if i > 1 {
      DotsOfTail(parts, i - 1);
      DotsLength(parts[1..], i - 2);
    } else {
      EmptyDots(parts);
      EmptyDots(parts[1..]);
    }
  }

  /** A whole name fits exactly when its dotted form has at most 255 characters. */
  lemma {:induction false} FitsExactly(parts: seq<seq<byte>>)
    requires parts != [] && AreLabels(parts)
    ensures Fitting(parts, ROOM) == |parts| <==> |Dotted(parts)| <= 255
  {
    TextLength(parts);
    FittingBound(parts, ROOM);
    assert parts[..|parts|] == parts;
    if |Dots(parts)| <= ROOM { FittingExact(parts, ROOM, |parts|); }
  }

  lemma {:induction false} FittingBound(parts: seq<seq<byte>>, room: nat)
    ensures |Dots(parts[..Fitting(parts, room)])| <= room
    decreases parts
  {
    hide Dots;
    var n := Fitting(parts, room);
    if n > 0 {
      FittingBound(parts[1..], room - |parts[0]| - 1);
      DotsOfTail(parts, n);
    } else {
      EmptyDots(parts);
    }
  }

  /** The first length byte of what is left, and the part behind it. */
  lemma WireHead(name: seq<byte>, parts: seq<seq<byte>>, i: nat, p: nat)
    requires AreLabels(parts) && i <= |parts| && p <= |name| && name[p..] == Wire(parts[i..]) + [0]
    ensures p < |name| && (name[p] == 0 <==> i == |parts|)
    ensures i < |parts| ==>
      var n := |parts[i]|;
      1 <= n && name[p] == n && p + 1 + n < |name| && name[p + 1..p + 1 + n] == parts[i]
      && name[p + 1 + n..] == Wire(parts[i + 1..]) + [0]
  {
    if i < |parts| {
      var n, rest := |parts[i]|, Wire(parts[i + 1..]) + [0];
      assert IsLabel(parts[i]);
      assert parts[i..][1..] == parts[i + 1..];
      assert name[p..] == [n] + parts[i] + rest;
      assert name[p] == name[p..][0] && name[p + 1..p + 1 + n] == name[p..][1..1 + n];
      assert name[p + 1 + n..] == name[p..][1 + n..];
    } else {
      assert name[p] == name[p..][0];
    }
  }

  method AppendPart(r: array<byte>, labelp: nat, part: seq<byte>) returns (labelp': nat)
    requires labelp + |part| + 1 <= r.Length
    modifies r
    ensures labelp' == labelp + |part| + 1
    ensures r[..labelp'] == old(r[..labelp]) + part + [DOT]
  {
    ghost var before := r[..labelp];
    NameCodec.Put(r, labelp, part);
    labelp' := labelp + |part|;
    assert r[..labelp'] == before + part;
    r[labelp'] := DOT;
    labelp' := labelp' + 1;
  }

  /** The loop over the labels: copies whole parts, each with a dot, as long as they fit. */
  method CopyParts(name: array<byte>, r: array<byte>, ghost parts: seq<seq<byte>>) returns (labelp: nat, ghost i: nat)
    requires parts != [] && AreLabels(parts) && name[..] == Wire(parts) + [0] && r.Length == ROOM && r != name
    modifies r
    ensures 0 < i <= |parts| && labelp <= ROOM && r[..labelp] == Dots(parts[..i])
    ensures i < |parts| ==> ROOM - labelp <= |parts[i]|
  {
    hide Wire, Dots, Reading;
    var bufLen: nat, p: nat := ROOM, 0;
    ghost var wire := name[..];
    labelp, i := 0, 0;
    NothingYet(parts);
    ReadingStarts(wire, parts);
    while name[p] != 0
      invariant name[..] == wire && i <= |parts| && p < name.Length && Reading(wire, parts, i, p)
      invariant name[p] == 0 <==> i == |parts|
      invariant labelp + bufLen == ROOM && r[..labelp] == Dots(parts[..i]) && (i == 0 ==> labelp == 0)
      decreases |parts| - i
    {
      ReadingOn(wire, parts, i, p);
      var labelLen: nat := name[p];
      if bufLen <= labelLen {
        break;
      }
      DotsLength(parts, i);
      labelp := AppendPart(r, labelp, name[p + 1..p + 1 + labelLen]);
      bufLen := bufLen - (labelLen + 1);
      p := p + labelLen + 1;
      i := i + 1;
    }
  }

  /** From `p` on, the name has the parts from the `i`-th on, and its end. */
  ghost predicate Reading(wire: seq<byte>, parts: seq<seq<byte>>, i: nat, p: nat)
    requires AreLabels(parts) && i <= |parts| && p <= |wire|
  {
    wire[p..] == Wire(parts[i..]) + [0]
  }

  lemma ReadingStarts(wire: seq<byte>, parts: seq<seq<byte>>)
    requires AreLabels(parts) && wire == Wire(parts) + [0]
    ensures Reading(wire, parts, 0, 0) && |wire| > 0 && (wire[0] == 0 <==> parts == [])
  {
    hide Wire;
    assert parts[0..] == parts && wire[0..] == wire;
    WireHead(wire, parts, 0, 0);
  }

  lemma ReadingOn(wire: seq<byte>, parts: seq<seq<byte>>, i: nat, p: nat)
    requires AreLabels(parts) && i < |parts| && p < |wire| && Reading(wire, parts, i, p)
    ensures var n := |parts[i]|;
      && wire[p] == n && 1 <= n && p + 1 + n < |wire| && wire[p + 1..p + 1 + n] == parts[i]
      && Reading(wire, parts, i + 1, p + 1 + n) && (wire[p + 1 + n] == 0 <==> i + 1 == |parts|)
  {
    hide Wire;
    WireHead(wire, parts, i, p);
    WireHead(wire, parts, i + 1, p + 1 + |parts[i]|);
  }

  /** The human-readable form, cut at 256 bytes: as many whole parts as fit, without a dot at the end. */
  method NlabelToStr(name: array<byte>, ghost parts: seq<seq<byte>>) returns (r: array<byte>)
    requires parts != [] && AreLabels(parts) && name[..] == Wire(parts) + [0]
    ensures fresh(r) && r.Length == ROOM
    ensures 0 < Fitting(parts, ROOM)
    ensures var text := Dotted(parts[..Fitting(parts, ROOM)]); |text| < ROOM && r[..|text| + 1] == text + [0]
  {
    hide Wire, Dots, Fitting, IsLabel, Dotted;
    r := new byte[ROOM];
    var labelp, i := CopyParts(name, r, parts);
    FittingExact(parts, ROOM, i);
    LastDot(parts, i);
    Terminate(r, labelp);
    assert Dots(parts[..i])[..labelp - 1] == Dotted(parts[..i]);
  }

  /** Puts the end over the last dot, whether or not the buffer is full. */
  method Terminate(r: array<byte>, used: nat)
    requires 2 <= used <= r.Length && r[used - 1] == DOT && r[used - 2] != DOT
    modifies r
    ensures r[..used] == old(r[..used - 1]) + [0]
  {
    var labelp := if used == r.Length then used - 1 else used;
    if r[labelp - 1] == DOT {
      labelp := labelp - 1;
    }
    r[labelp] := 0;
  }

  /** The dots end with a dot, and there is none before it. */
  lemma LastDot(parts: seq<seq<byte>>, i: nat)
    requires AreLabels(parts) && 0 < i <= |parts|
    ensures var d := Dots(parts[..i]);
      |d| >= 2 && d[|d| - 1] == DOT && d[|d| - 2] != DOT && Dotted(parts[..i]) == d[..|d| - 1]
  {
    DotsLength(parts, i - 1);
    assert IsLabel(parts[i - 1]);
  }

  // ----- the round trip -----

  /** Both ways, every name of at most 255 characters comes back; a longer one comes back cut. */
  method RoundTrip(name: seq<byte>, ghost parts: seq<seq<byte>>) returns (r: array<byte>)
    requires parts != [] && AreLabels(parts) && name == Dotted(parts)
    ensures |name| <= 255 ==> r.Length == ROOM && r[..|name| + 1] == name + [0]
    ensures |name| > 255 ==> 0 < Fitting(parts, ROOM) < |parts|
    ensures 0 < Fitting(parts, ROOM)
    ensures var text := Dotted(parts[..Fitting(parts, ROOM)]); |text| < r.Length && r[..|text| + 1] == text + [0]
  {
    var wire := CreateNlabel(name, parts);
    r := NlabelToStr(wire, parts);
    FitsExactly(parts);
    assert parts[..|parts|] == parts;
  }
}
