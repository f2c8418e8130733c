/** Resource records and packets in lib/tinysvcmdns/mdns.c: encoding into one buffer, and parsing what was
    encoded (RFC 1035 section 4.1.3). Questions are not part of this model. */
module PacketCodec {
  import opened Bytes
  import opened NameCodec
  import opened Options

  type U16Value = v: nat | v < 0x10000
  type U32Value = v: nat | v < 0x1_0000_0000

  /** The payload of a record, by type. `Other` stands for any type the codec does not know. */
  datatype Data =
    | A(addr: U32Value)
    | Aaaa(addr6: seq<byte>)
    | Ptr(ptrName: Name)
    | Txt(strings: seq<seq<byte>>)
    | Srv(priority: U16Value, weight: U16Value, port: U16Value, target: Name)
    | Nsec(bitmap: seq<byte>)
    | Other(code: U16Value)

  datatype Record = Record(name: Name, ttl: U32Value, cacheFlush: bool, rrClass: U16Value, unicastQuery: bool, data: Data)

  function TypeOf(data: Data): U16Value {
    match data
    case A(_) => 0x01
    case Ptr(_) => 0x0C
    case Txt(_) => 0x10
    case Aaaa(_) => 0x1C
    case Srv(_, _, _, _) => 0x21
    case Nsec(_) => 0x2F
    case Other(code) => code
  }

  const KNOWN_TYPES: set<nat> := {0x01, 0x0C, 0x10, 0x1C, 0x21, 0x2F}

  /** What the structures of the code can hold. */
  predicate IsRecord(rr: Record) {
    match rr.data
    case Aaaa(addr6) => |addr6| == 16
    case Txt(strings) => strings != [] && forall i :: 0 <= i < |strings| ==> |strings[i]| <= 255
    case Nsec(bitmap) => |bitmap| == 5
    case Other(code) => code !in KNOWN_TYPES
    case _ => true
  }

  // ----- numbers -----

  function U32(v: U32Value): (bytes: seq<byte>)
    ensures |bytes| == 4
  {
    [v / 0x1000000, (v / 0x10000) % 256, (v / 0x100) % 256, v % 256]
  }

  function ReadU16(bytes: seq<byte>): U16Value
    requires |bytes| == 2
  {
    var high: int, low: int := bytes[0], bytes[1];
    high * 256 + low
  }

  function ReadU32(bytes: seq<byte>): U32Value
    requires |bytes| == 4
  {
    FromDigits(bytes[3], bytes[2], bytes[1], bytes[0])
  }

  function FromDigits(b0: byte, b1: byte, b2: byte, b3: byte): U32Value {
    var d0: int, d1: int, d2: int, d3: int := b0, b1, b2, b3;
    ((d3 * 256 + d2) * 256 + d1) * 256 + d0
  }

  lemma DigitsOf(b0: byte, b1: byte, b2: byte, b3: byte)
    ensures var v := FromDigits(b0, b1, b2, b3);
            v % 256 == b0 && (v / 0x100) % 256 == b1 && (v / 0x10000) % 256 == b2 && v / 0x1000000 == b3
  {
    var v := FromDigits(b0, b1, b2, b3);
    var d1: int, d2: int, d3: int := b1, b2, b3;
    assert v / 0x100 == (d3 * 256 + d2) * 256 + d1;
    assert v / 0x10000 == d3 * 256 + d2;
  }

  lemma DigitsMake(v: U32Value)
    ensures FromDigits(v % 256, (v / 0x100) % 256, (v / 0x10000) % 256, v / 0x1000000) == v
  {
    assert v / 0x10000 == (v / 0x100) / 256 && v / 0x1000000 == (v / 0x10000) / 256;
  }

  lemma ReadWritten(v: U16Value, w: U32Value)
    ensures ReadU16(U16(v)) == v && ReadU32(U32(w)) == w
  {
    DigitsMake(w);
  }

  /** `htonl` and `ntohl` on a little-endian machine. */
  function Swap(v: U32Value): U32Value {
    FromDigits(v / 0x1000000, (v / 0x10000) % 256, (v / 0x100) % 256, v % 256)
  }

  lemma SwapTwice(v: U32Value)
    ensures Swap(Swap(v)) == v
  {
    DigitsOf(v / 0x1000000, (v / 0x10000) % 256, (v / 0x100) % 256, v % 256);
    DigitsMake(v);
  }

  /** The class field: the cache-flush bit replaces the top bit of the class. */
  function ClassBits(rr: Record): U16Value {
    rr.rrClass % 0x8000 + if rr.cacheFlush then 0x8000 else 0
  }

  // ----- what a parsed record looks like -----

  /** The parser clears bit 7 of the class instead of bit 15, and takes the flush bit for the unicast bit too. */
  function ParsedClass(bits: U16Value): U16Value {
    if bits % 256 >= 128 then bits - 128 else bits
  }

  function ParsedData(data: Data): Data {
    if data.Nsec? then Nsec([0, 0, 0, 0, 0]) else data
  }

  /** What the parser makes of an encoded record. */
  function Parsed(rr: Record): Record {
    Record(rr.name, rr.ttl, rr.cacheFlush, ParsedClass(ClassBits(rr)), rr.cacheFlush, ParsedData(rr.data))
  }

  /** Strings of 63 bytes and more can be encoded, but the parser refuses them. */
  predicate Parsable(rr: Record) {
    rr.data.Txt? ==> forall i :: 0 <= i < |rr.data.strings| ==> |rr.data.strings[i]| <= 62
  }

  // ----- what a packet holds -----

  function TxtBytes(strings: seq<seq<byte>>): (bytes: seq<byte>)
    requires forall i :: 0 <= i < |strings| ==> |strings[i]| <= 255
  {
    if strings == [] then [] else [|strings[0]|] + strings[0] + TxtBytes(strings[1..])
  }

  predicate BytesAt(buf: seq<byte>, p: nat, bytes: seq<byte>) {
    p + |bytes| <= |buf| && buf[p..p + |bytes|] == bytes
  }

  /** The `n` bytes at `d` hold the data of `rr`. */
  ghost predicate DataAt(buf: seq<byte>, hole: nat, d: nat, n: nat, rr: Record)
    requires IsRecord(rr)
  {
    match rr.data
    case A(addr) => n == 4 && BytesAt(buf, d, U32(Swap(addr)))
    case Aaaa(addr6) => n == 16 && BytesAt(buf, d, addr6)
    case Ptr(name) => Expands(buf, hole, d, name) && n == Span(buf, d)
    case Txt(strings) => n == |TxtBytes(strings)| && BytesAt(buf, d, TxtBytes(strings))
    case Srv(priority, weight, port, target) =>
      && BytesAt(buf, d, U16(priority)) && BytesAt(buf, d + 2, U16(weight)) && BytesAt(buf, d + 4, U16(port))
      && Expands(buf, hole, d + 6, target) && n == 6 + Span(buf, d + 6)
    case Nsec(bitmap) =>
      Expands(buf, hole, d, rr.name) && n == Span(buf, d) + 7 && BytesAt(buf, d + Span(buf, d), [0, 5] + bitmap)
    case Other(_) => n == 0
  }

  /** The fixed fields between the name of `rr` and its data of `n` bytes. */
  predicate FieldsAt(buf: seq<byte>, h: nat, n: nat, rr: Record) {
    && n < 0x10000
    && BytesAt(buf, h, U16(TypeOf(rr.data))) && BytesAt(buf, h + 2, U16(ClassBits(rr)))
    && BytesAt(buf, h + 4, U32(rr.ttl)) && BytesAt(buf, h + 8, U16(n))
  }

  /** The `len` bytes at `off` are an encoding of `rr`. */
  ghost predicate Carries(buf: seq<byte>, off: nat, len: nat, rr: Record)
    requires IsRecord(rr)
  {
    var h := off + Span(buf, off);
    && Expands(buf, NO_HOLE, off, rr.name)
    && off + len <= |buf| <= NO_HOLE && h + 10 <= off + len
    && FieldsAt(buf, h, off + len - h - 10, rr)
    && DataAt(buf, NO_HOLE, h + 10, off + len - h - 10, rr)
  }

  lemma BytesStable(before: seq<byte>, after: seq<byte>, hole: nat, p: nat, bytes: seq<byte>)
    requires BytesAt(before, p, bytes) && Extends(before, after, hole)
    requires hole + 2 <= p || hole >= p + |bytes| || hole >= |before|
    ensures BytesAt(after, p, bytes)
  {
    assert forall k :: p <= k < p + |bytes| ==> after[k] == before[k];
    assert after[p..p + |bytes|] == before[p..p + |bytes|];
  }

  lemma DataStable(before: seq<byte>, after: seq<byte>, hole: nat, hole': nat, d: nat, n: nat, rr: Record)
    requires IsRecord(rr) && DataAt(before, hole, d, n, rr) && Extends(before, after, hole)
    requires (hole' == hole || hole' >= |before|) && (hole + 2 <= d || hole >= |before|)
    ensures DataAt(after, hole', d, n, rr)
  {
    hide Expands, Span, Extends, BytesAt, U16, U32, TxtBytes, Swap, IsName;
    match rr.data
    case A(addr) => BytesStable(before, after, hole, d, U32(Swap(addr)));
    case Aaaa(addr6) => BytesStable(before, after, hole, d, addr6);
    case Ptr(name) => ExpandsStable(before, after, hole, hole', d, name);
    case Txt(strings) => BytesStable(before, after, hole, d, TxtBytes(strings));
    case Srv(priority, weight, port, target) =>
      BytesStable(before, after, hole, d, U16(priority));
      BytesStable(before, after, hole, d + 2, U16(weight));
      BytesStable(before, after, hole, d + 4, U16(port));
      ExpandsStable(before, after, hole, hole', d + 6, target);
    case Nsec(bitmap) =>
      ExpandsStable(before, after, hole, hole', d, rr.name);
      BytesStable(before, after, hole, d + Span(before, d), [0, 5] + bitmap);
    case Other(_) =>
  }

  lemma FieldsStable(before: seq<byte>, after: seq<byte>, h: nat, n: nat, rr: Record)
    requires FieldsAt(before, h, n, rr) && Extends(before, after, NO_HOLE) && |before| <= NO_HOLE
    ensures FieldsAt(after, h, n, rr)
  {
    hide Extends, BytesAt, U16, U32;
    BytesStable(before, after, NO_HOLE, h, U16(TypeOf(rr.data)));
    BytesStable(before, after, NO_HOLE, h + 2, U16(ClassBits(rr)));
    BytesStable(before, after, NO_HOLE, h + 4, U32(rr.ttl));
    BytesStable(before, after, NO_HOLE, h + 8, U16(n));
  }

  /** A record stays what it is while the packet grows behind it. */
  lemma CarriesStable(before: seq<byte>, after: seq<byte>, off: nat, len: nat, rr: Record)
    requires IsRecord(rr) && Carries(before, off, len, rr)
    requires Extends(before, after, NO_HOLE) && |after| <= NO_HOLE
    ensures Carries(after, off, len, rr)
  {
    hide Expands, Span, BytesAt, FieldsAt, DataAt, IsRecord;
    var h := off + Span(before, off);
    ExpandsStable(before, after, NO_HOLE, NO_HOLE, off, rr.name);
    FieldsStable(before, after, h, off + len - h - 10, rr);
    DataStable(before, after, NO_HOLE, NO_HOLE, h + 10, off + len - h - 10, rr);
  }

  // ----- the encoder -----

  /** The encoded size of the data, given the names that the packet already spells. */
  ghost function DataSize(known: set<Name>, rr: Record): nat
    requires IsRecord(rr)
  {
    match rr.data
    case A(_) => 4
    case Aaaa(_) => 16
    case Ptr(name) => NameSize(known, name)
    case Txt(strings) => |TxtBytes(strings)|
    case Srv(_, _, _, target) => 6 + NameSize(known, target)
    case Nsec(_) => NameSize(known, rr.name) + 7
    case Other(_) => 0
  }

  ghost function LearnedData(known: set<Name>, rr: Record): set<Name> {
    match rr.data
    case Ptr(name) => Learned(known, name)
    case Srv(_, _, _, target) => Learned(known, target)
    case Nsec(_) => Learned(known, rr.name)
    case _ => known
  }

  ghost function RecordSize(known: set<Name>, rr: Record): nat
    requires IsRecord(rr)
  {
    NameSize(known, rr.name) + 10 + DataSize(Learned(known, rr.name), rr)
  }

  ghost function LearnedRecord(known: set<Name>, rr: Record): set<Name> {
    LearnedData(Learned(known, rr.name), rr)
  }

  /** Appends bytes to the written part of the packet; the dictionary keeps its meaning. */
  method Append(buf: array<byte>, p: nat, bytes: seq<byte>, ghost hole: nat, ghost comp: Compression)
    returns (p': nat)
    requires p + |bytes| <= buf.Length && DictionaryOk(buf[..p], hole, comp.entries)
    modifies buf
    ensures p' == p + |bytes| && BytesAt(buf[..p'], p, bytes) && Extends(old(buf[..p]), buf[..p'], hole)
    ensures DictionaryOk(buf[..p'], hole, comp.entries)
    ensures forall k :: 0 <= k < buf.Length && !(p <= k < p') ==> buf[k] == old(buf[k])
  {
    hide DictionaryOk;
    ghost var before := buf[..p];
    Put(buf, p, bytes);
    p' := p + |bytes|;
    DictionaryStable(before, buf[..p'], hole, hole, comp.entries);
  }

  /** The `for` loop over the strings of a TXT record. */
  method EncodeTxt(buf: array<byte>, d: nat, strings: seq<seq<byte>>, ghost hole: nat, ghost comp: Compression)
    returns (p: nat)
    requires forall i :: 0 <= i < |strings| ==> |strings[i]| <= 255
    requires d + |TxtBytes(strings)| <= buf.Length && DictionaryOk(buf[..d], hole, comp.entries)
    modifies buf
    ensures p == d + |TxtBytes(strings)| && BytesAt(buf[..p], d, TxtBytes(strings))
    ensures DictionaryOk(buf[..p], hole, comp.entries)
    ensures forall k :: 0 <= k < buf.Length && !(d <= k < p) ==> buf[k] == old(buf[k])
  {
    hide DictionaryOk, TxtBytes, Extends;
    p := d;
    var i := 0;
    assert strings[0..] == strings;
    while i < |strings|
      invariant i <= |strings| && d <= p && p + |TxtBytes(strings[i..])| == d + |TxtBytes(strings)|
      invariant buf[d..p] + TxtBytes(strings[i..]) == TxtBytes(strings)
      invariant DictionaryOk(buf[..p], hole, comp.entries)
      invariant forall k :: 0 <= k < buf.Length && !(d <= k < p) ==> buf[k] == old(buf[k])
    {
      ghost var written := buf[d..p];
      var text := [|strings[i]|] + strings[i];
      TxtUnfold(strings, i, written);
      var p' := Append(buf, p, text, hole, comp);
      assert buf[d..p'] == written + text;
      p := p';
      i := i + 1;
    }
    TxtOver(strings, i);
  }

  lemma TxtUnfold(strings: seq<seq<byte>>, i: nat, written: seq<byte>)
    requires i < |strings| && forall j :: 0 <= j < |strings| ==> |strings[j]| <= 255
    ensures var text := [|strings[i]|] + strings[i];
      && TxtBytes(strings[i..]) == text + TxtBytes(strings[i + 1..])
      && written + TxtBytes(strings[i..]) == (written + text) + TxtBytes(strings[i + 1..])
  {
    assert strings[i..][1..] == strings[i + 1..];
  }

  /** The data of a record, written behind the data length that is still to be filled in. */
  method EncodeData(buf: array<byte>, d: nat, rr: Record, ghost hole: nat, comp: Compression) returns (p: nat)
    requires IsRecord(rr) && hole + 2 == d
    requires d + DataSize(Known(comp.entries), rr) <= buf.Length && d + DataSize(Known(comp.entries), rr) <= 0x4000
    requires DictionaryOk(buf[..d], hole, comp.entries)
    modifies buf, comp
    ensures p == d + DataSize(old(Known(comp.entries)), rr)
    ensures Known(comp.entries) == LearnedData(old(Known(comp.entries)), rr)
    ensures DictionaryOk(buf[..p], hole, comp.entries) && DataAt(buf[..p], hole, d, p - d, rr)
    ensures forall k :: 0 <= k < buf.Length && !(d <= k < p) ==> buf[k] == old(buf[k])
  {
    hide DictionaryOk, Expands, Span, U16, U32, Swap, BytesAt, TxtBytes, NameSize, Learned, Known;
    p := d;
    match rr.data
    case A(addr) =>
      p := Append(buf, p, U32(Swap(addr)), hole, comp);
    case Aaaa(addr6) =>
      p := Append(buf, p, addr6, hole, comp);
    case Ptr(name) =>
      var len := comp.EncodeName(buf, p, name, hole);
      p := p + len;
    case Txt(strings) =>
      p := EncodeTxt(buf, p, strings, hole, comp);
    case Srv(_, _, _, _) =>
      p := EncodeSrv(buf, d, rr, hole, comp);
    case Nsec(bitmap) =>
      var len := comp.EncodeName(buf, p, rr.name, hole);
      ghost var named := buf[..p + len];
      p := Append(buf, p + len, [0, 5] + bitmap, hole, comp);
      ExpandsStable(named, buf[..p], hole, hole, d, rr.name);
    case Other(_) =>
  }

  method EncodeSrv(buf: array<byte>, d: nat, rr: Record, ghost hole: nat, comp: Compression) returns (p: nat)
    requires IsRecord(rr) && rr.data.Srv? && hole + 2 == d
    requires d + DataSize(Known(comp.entries), rr) <= buf.Length && d + DataSize(Known(comp.entries), rr) <= 0x4000
    requires DictionaryOk(buf[..d], hole, comp.entries)
    modifies buf, comp
    ensures p == d + DataSize(old(Known(comp.entries)), rr)
    ensures Known(comp.entries) == LearnedData(old(Known(comp.entries)), rr)
    ensures DictionaryOk(buf[..p], hole, comp.entries) && DataAt(buf[..p], hole, d, p - d, rr)
    ensures forall k :: 0 <= k < buf.Length && !(d <= k < p) ==> buf[k] == old(buf[k])
  {
    hide DictionaryOk, Expands, Span, U16, U32, BytesAt, Extends, NameSize, Learned, Known;
    var Srv(priority, weight, port, target) := rr.data;
    p := Append(buf, d, U16(priority), hole, comp);
    ghost var first := buf[..d + 2];
    p := Append(buf, p, U16(weight), hole, comp);
    ghost var second := buf[..d + 4];
    p := Append(buf, p, U16(port), hole, comp);
    ghost var third := buf[..d + 6];
    var len := comp.EncodeName(buf, p, target, hole);
    p := p + len;
    ghost var packet := buf[..p];
    assert Extends(third, packet, hole) by { Prefix(third, packet, hole); }
    BytesStable(first, second, hole, d, U16(priority));
    BytesStable(second, third, hole, d, U16(priority));
    BytesStable(second, third, hole, d + 2, U16(weight));
    BytesStable(third, packet, hole, d, U16(priority));
    BytesStable(third, packet, hole, d + 2, U16(weight));
    BytesStable(third, packet, hole, d + 4, U16(port));
  }

  lemma Prefix(before: seq<byte>, after: seq<byte>, hole: nat)
    requires before <= after
    ensures Extends(before, after, hole)
  {
  }

  /** The fixed fields up to the data length, which is left open. */
  method EncodeFields(buf: array<byte>, h: nat, rr: Record, ghost comp: Compression)
    requires h + 8 <= buf.Length && h + 8 <= 0x4000 && DictionaryOk(buf[..h], NO_HOLE, comp.entries)
    modifies buf
    ensures DictionaryOk(buf[..h + 8], NO_HOLE, comp.entries)
    ensures BytesAt(buf[..h + 8], h, U16(TypeOf(rr.data))) && BytesAt(buf[..h + 8], h + 2, U16(ClassBits(rr)))
    ensures BytesAt(buf[..h + 8], h + 4, U32(rr.ttl))
    ensures forall k :: 0 <= k < buf.Length && !(h <= k < h + 8) ==> buf[k] == old(buf[k])
  {
    hide DictionaryOk, U16, U32, BytesAt, Extends, ClassBits;
    var p := Append(buf, h, U16(TypeOf(rr.data)), NO_HOLE, comp);
    ghost var first := buf[..h + 2];
    p := Append(buf, p, U16(ClassBits(rr)), NO_HOLE, comp);
    ghost var second := buf[..h + 4];
    p := Append(buf, p, U32(rr.ttl), NO_HOLE, comp);
    ghost var third := buf[..h + 8];
    BytesStable(first, second, NO_HOLE, h, U16(TypeOf(rr.data)));
    BytesStable(second, third, NO_HOLE, h, U16(TypeOf(rr.data)));
    BytesStable(second, third, NO_HOLE, h + 2, U16(ClassBits(rr)));
  }

  /** Appends one record; the dictionary learns the names in it. */
  method EncodeRr(buf: array<byte>, off: nat, rr: Record, comp: Compression) returns (len: nat)
    requires IsRecord(rr)
    requires off + RecordSize(Known(comp.entries), rr) <= buf.Length && off + RecordSize(Known(comp.entries), rr) <= 0x4000
    requires DictionaryOk(buf[..off], NO_HOLE, comp.entries)
    modifies buf, comp
    ensures len == RecordSize(old(Known(comp.entries)), rr)
    ensures Known(comp.entries) == LearnedRecord(old(Known(comp.entries)), rr)
    ensures Carries(buf[..off + len], off, len, rr)
    ensures DictionaryOk(buf[..off + len], NO_HOLE, comp.entries)
    ensures forall k :: 0 <= k < buf.Length && !(off <= k < off + len) ==> buf[k] == old(buf[k])
  {
    hide DictionaryOk, Expands, Span, U16, U32, BytesAt, Extends, DataAt, ClassBits, IsRecord, DataSize, LearnedData,
      NameSize, Learned, Known;
    var l := comp.EncodeName(buf, off, rr.name, NO_HOLE);
    var h := off + l;
    ghost var named := buf[..h];
    EncodeFields(buf, h, rr, comp);
    ghost var fielded := buf[..h + 8];
    Prefix(fielded, buf[..h + 10], NO_HOLE);
    DictionaryStable(fielded, buf[..h + 10], NO_HOLE, h + 8, comp.entries);
    var p := EncodeData(buf, h + 10, rr, h + 8, comp);
    ghost var open := buf[..p];
    Put(buf, h + 8, U16(p - (h + 10)));
    len := p - off;
    PacketSlice(buf, p, h + 8, h + 10);
    RecordClosed(named, fielded, open, buf[..p], off, rr, comp.entries);
  }

  /** Filling in the data length completes the record, and changes nothing that was decodable before. */
  lemma RecordClosed(named: seq<byte>, fielded: seq<byte>, open: seq<byte>, packet: seq<byte>,
                     off: nat, rr: Record, comp: seq<Entry>)
    requires IsRecord(rr) && Expands(named, NO_HOLE, off, rr.name) && off + Span(named, off) == |named|
    requires var h, p := |named|, |packet|;
      && |fielded| == h + 8 && |open| == p && h + 10 <= p <= 0x4000
      && named <= fielded <= open && fielded <= packet
      && BytesAt(fielded, h, U16(TypeOf(rr.data))) && BytesAt(fielded, h + 2, U16(ClassBits(rr)))
      && BytesAt(fielded, h + 4, U32(rr.ttl))
      && DataAt(open, h + 8, h + 10, p - h - 10, rr) && DictionaryOk(open, h + 8, comp)
      && packet[h + 8..h + 10] == U16(p - h - 10)
      && forall k :: 0 <= k < p && !(h + 8 <= k < h + 10) ==> packet[k] == open[k]
    ensures Carries(packet, off, |packet| - off, rr) && DictionaryOk(packet, NO_HOLE, comp)
  {
    hide DictionaryOk, Expands, Span, U16, U32, DataAt, ClassBits, IsRecord;
    var h, p := |named|, |packet|;
    Prefix(named, packet, NO_HOLE);
    ExpandsStable(named, packet, NO_HOLE, NO_HOLE, off, rr.name);
    Prefix(fielded, packet, NO_HOLE);
    FieldsClosed(fielded, packet, h, rr);
    assert Extends(open, packet, h + 8);
    DataStable(open, packet, h + 8, NO_HOLE, h + 10, p - h - 10, rr);
    DictionaryStable(open, packet, h + 8, NO_HOLE, comp);
  }

  lemma FieldsClosed(fielded: seq<byte>, packet: seq<byte>, h: nat, rr: Record)
    requires |fielded| == h + 8 && h + 10 <= |packet| <= 0x4000 && Extends(fielded, packet, NO_HOLE)
    requires BytesAt(fielded, h, U16(TypeOf(rr.data))) && BytesAt(fielded, h + 2, U16(ClassBits(rr)))
    requires BytesAt(fielded, h + 4, U32(rr.ttl))
    requires packet[h + 8..h + 10] == U16(|packet| - h - 10)
    ensures FieldsAt(packet, h, |packet| - h - 10, rr)
  {
    hide U16, U32, ClassBits, Extends;
    BytesStable(fielded, packet, NO_HOLE, h, U16(TypeOf(rr.data)));
    BytesStable(fielded, packet, NO_HOLE, h + 2, U16(ClassBits(rr)));
    BytesStable(fielded, packet, NO_HOLE, h + 4, U32(rr.ttl));
  }

  // ----- the parser -----

  /** `copy_label` and `dup_label`: a text of the packet, unless it leaves the packet or is longer than 62 bytes. */
  method CopyLabel(buf: array<byte>, pktLen: nat, off: nat) returns (r: Option<seq<byte>>)
    requires pktLen <= buf.Length && (off <= pktLen ==> off < buf.Length)
    ensures r == if off >= pktLen || off + buf[off] + 1 > pktLen || buf[off] > 62 then None
                 else Some(buf[off + 1..off + 1 + buf[off]])
  {
    if off > pktLen {
      return None;
    }
    var size: nat := buf[off];
    var len := size + 1;
    if off + len > pktLen {
      return None;
    }
    if len > 63 {
      return None;
    }
    return Some(buf[off + 1..off + len]);
  }

  /** The loop over the strings of a TXT record: it stops at the first one that cannot be copied. */
  method ParseTxt(buf: array<byte>, pktLen: nat, d: nat, n: nat, ghost strings: seq<seq<byte>>)
    returns (r: Option<seq<seq<byte>>>)
    requires strings != [] && forall i :: 0 <= i < |strings| ==> |strings[i]| <= 255
    requires d + n <= pktLen <= buf.Length && n == |TxtBytes(strings)|
    requires BytesAt(buf[..pktLen], d, TxtBytes(strings))
    ensures (forall i :: 0 <= i < |strings| ==> |strings[i]| <= 62) ==> r == Some(strings)
    ensures r.Some? ==> forall i :: 0 <= i < |strings| ==> |strings[i]| <= 62
  {
    hide TxtBytes, BytesAt;
    var p: nat := d;
    var texts: seq<seq<byte>> := [];
    ghost var i := 0;
    assert strings[0..] == strings;
    while true
      invariant 0 <= i < |strings| && texts == strings[..i] && p + |TxtBytes(strings[i..])| == d + n
      invariant BytesAt(buf[..pktLen], p, TxtBytes(strings[i..]))
      invariant forall k :: 0 <= k < i ==> |strings[k]| <= 62
      decreases |strings| - i
    {
      TxtHead(buf[..pktLen], p, strings, i);
      PacketByte(buf, pktLen, p);
      PacketSlice(buf, pktLen, p + 1, p + 1 + |strings[i]|);
      var text := CopyLabel(buf, pktLen, p);
      if text.None? {
        assert |strings[i]| > 62;
        return None;
      }
      assert text.value == strings[i] && strings[..i + 1] == strings[..i] + [strings[i]];
      texts := texts + [text.value];
      p := p + |text.value| + 1;
      i := i + 1;
      if p >= d + n {
        assert |TxtBytes(strings[i..])| == 0;
        TxtOver(strings, i);
        assert strings[..i] == strings;
        return Some(texts);
      }
      TxtMore(strings, i);
    }
  }

  lemma TxtHead(buf: seq<byte>, p: nat, strings: seq<seq<byte>>, i: nat)
    requires i < |strings| && (forall j :: 0 <= j < |strings| ==> |strings[j]| <= 255)
    requires BytesAt(buf, p, TxtBytes(strings[i..]))
    ensures var size := |strings[i]|;
      && p + 1 + size <= |buf| && buf[p] == size && buf[p + 1..p + 1 + size] == strings[i]
      && BytesAt(buf, p + 1 + size, TxtBytes(strings[i + 1..]))
      && |TxtBytes(strings[i..])| == 1 + size + |TxtBytes(strings[i + 1..])|
  {
    hide TxtBytes;
    TxtUnfold(strings, i, []);
    ThreeParts(buf, p, |strings[i]|, strings[i], TxtBytes(strings[i + 1..]));
  }

  lemma ThreeParts(buf: seq<byte>, p: nat, first: byte, text: seq<byte>, rest: seq<byte>)
    requires p + 1 + |text| + |rest| <= |buf| && buf[p..p + 1 + |text| + |rest|] == [first] + text + rest
    ensures buf[p] == first && buf[p + 1..p + 1 + |text|] == text
    ensures buf[p + 1 + |text|..p + 1 + |text| + |rest|] == rest
  {
    var n, m := 1 + |text|, |rest|;
    var bytes := [first] + text + rest;
    assert bytes[0] == first && bytes[1..n] == text && bytes[n..n + m] == rest;
    SubSlice(buf, p, n + m, 1, n);
    SubSlice(buf, p, n + m, n, n + m);
  }

  lemma SubSlice(buf: seq<byte>, p: nat, n: nat, i: nat, j: nat)
    requires i <= j <= n && p + n <= |buf|
    ensures buf[p..p + n][i..j] == buf[p + i..p + j]
    ensures 0 < n ==> buf[p..p + n][0] == buf[p]
  {
    var outer := buf[p..p + n];
    forall k | 0 <= k < j - i ensures outer[i..j][k] == buf[p + i..p + j][k] {
      assert outer[i..j][k] == outer[i + k] == buf[p + (i + k)];
    }
  }

  lemma TxtOver(strings: seq<seq<byte>>, i: nat)
    requires i <= |strings| && (forall j :: 0 <= j < |strings| ==> |strings[j]| <= 255)
    ensures TxtBytes(strings[i..]) == [] <==> i == |strings|
    ensures i == |strings| ==> strings[..i] == strings
  {
  }

  lemma TxtMore(strings: seq<seq<byte>>, i: nat)
    requires i <= |strings| && (forall j :: 0 <= j < |strings| ==> |strings[j]| <= 255)
    ensures TxtBytes(strings[i..]) != [] ==> i < |strings|
  {
  }

  /** The `switch` over the record type. */
  method ParseData(buf: array<byte>, pktLen: nat, d: nat, n: nat, code: nat, ghost rr: Record) returns (r: Option<Data>, p: nat)
    requires IsRecord(rr) && code == TypeOf(rr.data) && d + n <= pktLen <= buf.Length && pktLen <= NO_HOLE
    requires DataAt(buf[..pktLen], NO_HOLE, d, n, rr)
    ensures Parsable(rr) ==> r == Some(ParsedData(rr.data)) && p == d + n
    ensures !Parsable(rr) ==> r.None?
  {
    hide Expands, Span, U16, U32, Swap, TxtBytes, ReadU16, ReadU32;
    ghost var packet := buf[..pktLen];
    p := d;
    r := None;
    if code == 0x01 {
      if n < 4 {
        return;
      }
      PacketSlice(buf, pktLen, d, d + 4);
      ReadWritten(0, Swap(rr.data.addr));
      SwapTwice(rr.data.addr);
      return Some(A(Swap(ReadU32(buf[d..d + 4])))), p + 4;
    } else if code == 0x1C {
      if n < 16 {
        return;
      }
      PacketSlice(buf, pktLen, d, d + 16);
      return Some(Aaaa(buf[d..d + 16])), p + 16;
    } else if code == 0x0C {
      ExpandsSomewhere(packet, d, rr.data.ptrName);
      var name := Uncompress(buf, pktLen, d, rr.data.ptrName, NO_HOLE);
      if name.None? {
        return;
      }
      return Some(Ptr(Text(name.value, rr.data.ptrName))), p + n;
    } else if code == 0x10 {
      TxtNonempty(rr.data.strings);
      if n == 0 {
        return Some(Txt([[]])), p;
      }
      var texts := ParseTxt(buf, pktLen, d, n, rr.data.strings);
      if texts.None? {
        return;
      }
      return Some(Txt(texts.value)), d + n;
    } else if code == 0x21 {
      r := ParseSrv(buf, pktLen, d, n, rr);
      return r, p + n;
    } else if code == 0x2F {
      return Some(Nsec([0, 0, 0, 0, 0])), p + n;
    }
    return Some(Other(code)), d + n;
  }

  /** The string behind a NUL-terminated array. */
  function Text(str: array<byte>, ghost name: Name): (r: Name)
    requires str[..] == name + [0]
    reads str
    ensures r == name
  {
    str[..str.Length - 1]
  }

  lemma ExpandsSomewhere(buf: seq<byte>, off: nat, name: Name)
    requires Expands(buf, NO_HOLE, off, name)
    ensures off < |buf|
  {
    EndOfName(buf, NO_HOLE, off, name);
  }

  lemma TxtNonempty(strings: seq<seq<byte>>)
    requires strings != [] && forall i :: 0 <= i < |strings| ==> |strings[i]| <= 255
    ensures |TxtBytes(strings)| > 0
  {
  }

  method ParseSrv(buf: array<byte>, pktLen: nat, d: nat, n: nat, ghost rr: Record) returns (r: Option<Data>)
    requires IsRecord(rr) && rr.data.Srv? && d + n <= pktLen <= buf.Length
    requires DataAt(buf[..pktLen], NO_HOLE, d, n, rr)
    ensures r == Some(rr.data)
  {
    hide Expands, Span, U16, U32, ReadU16;
    ghost var packet := buf[..pktLen];
    PacketSlice(buf, pktLen, d, d + 2);
    PacketSlice(buf, pktLen, d + 2, d + 4);
    PacketSlice(buf, pktLen, d + 4, d + 6);
    ReadWritten(rr.data.priority, 0);
    ReadWritten(rr.data.weight, 0);
    ReadWritten(rr.data.port, 0);
    ExpandsSomewhere(packet, d + 6, rr.data.target);
    var target := Uncompress(buf, pktLen, d + 6, rr.data.target, NO_HOLE);
    if target.None? {
      return None;
    }
    return Some(Srv(ReadU16(buf[d..d + 2]), ReadU16(buf[d + 2..d + 4]), ReadU16(buf[d + 4..d + 6]),
                    Text(target.value, rr.data.target)));
  }

  /** Parses one record; the number of bytes it took, or nothing and 0. */
  method ParseRr(buf: array<byte>, pktLen: nat, off: nat, ghost len: nat, ghost rr: Record)
    returns (r: Option<Record>, l: int)
    requires IsRecord(rr) && pktLen <= buf.Length && Carries(buf[..pktLen], off, len, rr)
    ensures Parsable(rr) ==> r == Some(Parsed(rr)) && l == len > 0
    ensures !Parsable(rr) ==> r.None? && l == 0
  {
    hide Expands, Span, U16, U32, DataAt, ReadU16, ReadU32, BytesAt, IsRecord, Parsable, ParsedData, ClassBits, ParsedClass;
    ghost var packet := buf[..pktLen];
    ExpandsSomewhere(packet, off, rr.name);
    var name := Uncompress(buf, pktLen, off, rr.name, NO_HOLE);
    if name.None? {
      return None, 0;
    }
    var span := LabelLen(buf, pktLen, off);
    var h := off + span;
    FieldsRead(packet, h, off + len - h - 10, rr);
    PacketSlice(buf, pktLen, h, h + 2);
    PacketSlice(buf, pktLen, h + 2, h + 4);
    PacketSlice(buf, pktLen, h + 4, h + 8);
    PacketSlice(buf, pktLen, h + 8, h + 10);
    var code := ReadU16(buf[h..h + 2]);
    var flush := buf[h + 2] >= 0x80;
    assert flush == rr.cacheFlush by { FlushBit(buf[h + 2..h + 4], rr); }
    var rrClass := ParsedClass(ReadU16(buf[h + 2..h + 4]));
    var ttl := ReadU32(buf[h + 4..h + 8]);
    var n := ReadU16(buf[h + 8..h + 10]);
    if h + 10 + n > pktLen {
      return None, 0;
    }
    var data, p := ParseData(buf, pktLen, h + 10, n, code, rr);
    if data.None? {
      return None, 0;
    }
    return Some(Record(Text(name.value, rr.name), ttl, flush, rrClass, flush, data.value)), p - off;
  }

  lemma FieldsRead(buf: seq<byte>, h: nat, n: nat, rr: Record)
    requires FieldsAt(buf, h, n, rr)
    ensures h + 10 <= |buf|
    ensures ReadU16(buf[h..h + 2]) == TypeOf(rr.data) && buf[h + 2..h + 4] == U16(ClassBits(rr))
    ensures ReadU16(buf[h + 2..h + 4]) == ClassBits(rr)
    ensures ReadU32(buf[h + 4..h + 8]) == rr.ttl && ReadU16(buf[h + 8..h + 10]) == n
  {
    hide U16, U32, ReadU16, ReadU32, ClassBits;
    ReadWritten(TypeOf(rr.data), rr.ttl);
    ReadWritten(ClassBits(rr), rr.ttl);
    ReadWritten(n, rr.ttl);
  }

  lemma FlushBit(field: seq<byte>, rr: Record)
    requires field == U16(ClassBits(rr))
    ensures field[0] >= 0x80 <==> rr.cacheFlush
  {
  }

  // ----- packets -----

  /** The sections of a packet; the record counts of the header are their lengths. */
  datatype Packet = Packet(
    id: U16Value, flags: U16Value,
    answers: seq<Record>, authorities: seq<Record>, additionals: seq<Record>
  )

  function Records(pkt: Packet): seq<Record> {
    pkt.answers + pkt.authorities + pkt.additionals
  }

  predicate AllRecords(rrs: seq<Record>) {
    forall i :: 0 <= i < |rrs| ==> IsRecord(rrs[i])
  }

  ghost function RecordsSize(known: set<Name>, rrs: seq<Record>): nat
    requires AllRecords(rrs)
    decreases rrs
  {
    if rrs == [] then 0
    else RecordSize(known, rrs[0]) + RecordsSize(LearnedRecord(known, rrs[0]), rrs[1..])
  }

  ghost function LearnedRecords(known: set<Name>, rrs: seq<Record>): set<Name>
    decreases rrs
  {
    if rrs == [] then known else LearnedRecords(LearnedRecord(known, rrs[0]), rrs[1..])
  }

  /** The records follow each other at the given offsets; the last offset is their end. */
  ghost predicate Laid(buf: seq<byte>, offsets: seq<nat>, rrs: seq<Record>)
    requires AllRecords(rrs)
  {
    && |offsets| == |rrs| + 1
    && (forall i :: 0 <= i < |rrs| ==> offsets[i] <= offsets[i + 1])
    && forall i :: 0 <= i < |rrs| ==> Carries(buf, offsets[i], offsets[i + 1] - offsets[i], rrs[i])
  }

  lemma LaidStable(before: seq<byte>, after: seq<byte>, offsets: seq<nat>, rrs: seq<Record>)
    requires AllRecords(rrs) && Laid(before, offsets, rrs) && Extends(before, after, NO_HOLE) && |after| <= NO_HOLE
    ensures Laid(after, offsets, rrs)
  {
    hide Carries, Extends, IsRecord;
    forall i | 0 <= i < |rrs|
      ensures Carries(after, offsets[i], offsets[i + 1] - offsets[i], rrs[i])
    {
      CarriesStable(before, after, offsets[i], offsets[i + 1] - offsets[i], rrs[i]);
    }
  }

  /** Appends the records of one section; stops with `ok` false once the packet is full. */
  method EncodeSection(buf: array<byte>, pktLen: nat, off: nat, rrs: seq<Record>, comp: Compression)
    returns (ok: bool, end: nat, ghost offsets: seq<nat>)
    requires AllRecords(rrs)
    requires off + RecordsSize(Known(comp.entries), rrs) <= buf.Length
    requires off + RecordsSize(Known(comp.entries), rrs) <= 0x4000
    requires DictionaryOk(buf[..off], NO_HOLE, comp.entries)
    modifies buf, comp
    ensures off <= end <= off + RecordsSize(old(Known(comp.entries)), rrs) && offsets != []
    ensures DictionaryOk(buf[..end], NO_HOLE, comp.entries)
    ensures ok ==> Laid(buf[..end], offsets, rrs) && offsets[0] == off && offsets[|rrs|] == end
    ensures ok ==> end == off + RecordsSize(old(Known(comp.entries)), rrs)
    ensures ok ==> Known(comp.entries) == LearnedRecords(old(Known(comp.entries)), rrs)
    ensures ok <==> rrs == [] || off + RecordsSize(old(Known(comp.entries)), rrs) < pktLen
    ensures forall k :: 0 <= k < buf.Length && !(off <= k < end) ==> buf[k] == old(buf[k])
  {
    hide DictionaryOk, Carries, RecordSize, RecordsSize, LearnedRecord, LearnedRecords, IsRecord, Known;
    ghost var known := Known(comp.entries);
    end := off;
    offsets := [off];
    assert rrs[0..] == rrs;
    for i := 0 to |rrs|
      invariant off <= end && end + RecordsSize(Known(comp.entries), rrs[i..]) == off + RecordsSize(known, rrs)
      invariant LearnedRecords(Known(comp.entries), rrs[i..]) == LearnedRecords(known, rrs)
      invariant DictionaryOk(buf[..end], NO_HOLE, comp.entries)
      invariant Laid(buf[..end], offsets, rrs[..i]) && offsets[0] == off && offsets[i] == end
      invariant i > 0 ==> end < pktLen
      invariant forall k :: 0 <= k < buf.Length && !(off <= k < end) ==> buf[k] == old(buf[k])
    {
      ghost var before := buf[..end];
      SizeUnfold(Known(comp.entries), rrs, i);
      var len := EncodeRr(buf, end, rrs[i], comp);
      LaidGrows(before, buf[..end + len], offsets, rrs, i);
      offsets := offsets + [end + len];
      end := end + len;
      if end >= pktLen {
        return false, end, offsets;
      }
    }
    NoRecords(Known(comp.entries), rrs);
    assert rrs[..|rrs|] == rrs;
    return true, end, offsets;
  }

  lemma SizeUnfold(known: set<Name>, rrs: seq<Record>, i: nat)
    requires AllRecords(rrs) && i < |rrs|
    ensures RecordsSize(known, rrs[i..])
      == RecordSize(known, rrs[i]) + RecordsSize(LearnedRecord(known, rrs[i]), rrs[i + 1..])
    ensures LearnedRecords(known, rrs[i..]) == LearnedRecords(LearnedRecord(known, rrs[i]), rrs[i + 1..])
    ensures RecordSize(known, rrs[i]) >= 11
  {
    assert rrs[i..][1..] == rrs[i + 1..];
  }

  lemma NoRecords(known: set<Name>, rrs: seq<Record>)
    ensures RecordsSize(known, rrs[|rrs|..]) == 0 && LearnedRecords(known, rrs[|rrs|..]) == known
  {
  }

  lemma LaidGrows(before: seq<byte>, after: seq<byte>, offsets: seq<nat>, rrs: seq<Record>, i: nat)
    requires AllRecords(rrs) && i < |rrs| && Laid(before, offsets, rrs[..i]) && offsets[i] == |before|
    requires before <= after && |after| <= NO_HOLE && Carries(after, |before|, |after| - |before|, rrs[i])
    ensures Laid(after, offsets + [|after|], rrs[..i + 1])
  {
    hide Carries, IsRecord;
    Prefix(before, after, NO_HOLE);
    LaidStable(before, after, offsets, rrs[..i]);
  }

  /** The end of the first list is the start of the second one. */
  function Joined(first: seq<nat>, second: seq<nat>): seq<nat>
    requires first != []
  {
    first[..|first| - 1] + second
  }

  lemma LaidConcat(buf: seq<byte>, first: seq<nat>, left: seq<Record>, second: seq<nat>, right: seq<Record>)
    requires AllRecords(left) && AllRecords(right)
    requires Laid(buf, first, left) && Laid(buf, second, right) && first[|left|] == second[0]
    ensures |first| == |left| + 1 && |second| == |right| + 1
    ensures var offsets := Joined(first, second);
      && Laid(buf, offsets, left + right) && |offsets| == |left + right| + 1
      && offsets[0] == first[0] && offsets[|left + right|] == second[|right|]
  {
    hide Carries, IsRecord;
    var offsets, rrs := Joined(first, second), left + right;
    forall i | 0 <= i < |rrs|
      ensures offsets[i] <= offsets[i + 1] && Carries(buf, offsets[i], offsets[i + 1] - offsets[i], rrs[i])
    {
      if i < |left| {
        assert offsets[i] == first[i] && offsets[i + 1] == first[i + 1];
      } else {
        assert offsets[i] == second[i - |left|] && offsets[i + 1] == second[i + 1 - |left|];
      }
    }
  }

  /** The twelve bytes of the header. */
  ghost predicate HeaderAt(buf: seq<byte>, pkt: Packet) {
    && |pkt.answers| < 0x10000 && |pkt.authorities| < 0x10000 && |pkt.additionals| < 0x10000
    && BytesAt(buf, 0, U16(pkt.id) + U16(pkt.flags) + U16(0) + U16(|pkt.answers|) + U16(|pkt.authorities|)
                       + U16(|pkt.additionals|))
  }

  lemma HeaderStable(before: seq<byte>, after: seq<byte>, pkt: Packet)
    requires HeaderAt(before, pkt) && before <= after
    ensures HeaderAt(after, pkt)
  {
  }

  /** The whole packet: the header, and the records of the three sections behind it. */
  ghost predicate PacketAt(buf: seq<byte>, pkt: Packet, offsets: seq<nat>)
    requires AllRecords(Records(pkt))
  {
    && HeaderAt(buf, pkt) && Laid(buf, offsets, Records(pkt))
    && offsets[0] == 12 && offsets[|offsets| - 1] == |buf| <= NO_HOLE
  }

  // ----- the bytes on the wire -----

  /** A number of 32 bits, the highest byte first. */
  function Big32(buf: seq<byte>, p: nat): int
    requires p + 4 <= |buf|
  {
    var b0: int, b1: int, b2: int, b3: int := buf[p], buf[p + 1], buf[p + 2], buf[p + 3];
    ((b0 * 256 + b1) * 256 + b2) * 256 + b3
  }

  /** Where the string `i` stands behind the first one. */
  function TxtOffset(strings: seq<seq<byte>>, i: nat): nat
    requires i <= |strings|
  {
    if i == 0 then 0 else TxtOffset(strings, i - 1) + 1 + |strings[i - 1]|
  }

  ghost predicate WireTxt(buf: seq<byte>, d: nat, end: nat, strings: seq<seq<byte>>) {
    && end == d + TxtOffset(strings, |strings|) <= |buf|
    && forall i :: 0 <= i < |strings| ==> WireString(buf, d + TxtOffset(strings, i), end, strings[i])
  }

  /** A text behind the byte that gives its length. */
  predicate WireString(buf: seq<byte>, o: nat, end: nat, text: seq<byte>) {
    o + 1 + |text| <= end <= |buf| && buf[o] == |text| && buf[o + 1..o + 1 + |text|] == text
  }

  /** The data from `d` to `end`, byte by byte. The address of an A record is kept with its first byte lowest. */
  ghost predicate WireData(buf: seq<byte>, d: nat, end: nat, rr: Record) {
    && d <= end <= |buf|
    && match rr.data
       case A(addr) => end == d + 4 && forall k :: 0 <= k < 4 ==> buf[d + k] == (addr / Pow2(8 * k)) % 256
       case Aaaa(addr6) => buf[d..end] == addr6
       case Ptr(name) => WireName(buf, d, end, name)
       case Txt(strings) => WireTxt(buf, d, end, strings)
       case Srv(priority, weight, port, target) =>
         && d + 6 <= end && Big16(buf, d) == priority && Big16(buf, d + 2) == weight && Big16(buf, d + 4) == port
         && WireName(buf, d + 6, end, target)
       case Nsec(bitmap) =>
         var b := end - 7;
         && d <= b && WireName(buf, d, b, rr.name)
         && buf[b] == 0 && buf[b + 1] == 5 && buf[b + 2..b + 7] == bitmap
       case Other(_) => end == d
  }

  /** The record from `off` to `end`: the name up to some `h`, and what follows it (RFC 1035 section 4.1.3). */
  ghost predicate WireRecord(buf: seq<byte>, off: nat, end: nat, rr: Record) {
    exists h: nat :: WireName(buf, off, h, rr.name) && WireFields(buf, h, end, rr)
  }

  /** Type, class with the flush bit on top (RFC 6762 section 10.2), TTL, data length, data. */
  ghost predicate WireFields(buf: seq<byte>, h: nat, end: nat, rr: Record) {
    && h + 10 <= end <= |buf|
    && Big16(buf, h) == (match rr.data
         case A(_) => 1
         case Aaaa(_) => 28
         case Ptr(_) => 12
         case Txt(_) => 16
         case Srv(_, _, _, _) => 33
         case Nsec(_) => 47
         case Other(code) => code)
    && Big16(buf, h + 2) == rr.rrClass % 0x8000 + (if rr.cacheFlush then 0x8000 else 0)
    && Big32(buf, h + 4) == rr.ttl && Big16(buf, h + 8) == end - h - 10
    && WireData(buf, h + 10, end, rr)
  }

  /** The packet: id, flags, no questions, the three counts, and the records one behind the other up to the end. */
  ghost predicate WirePacket(buf: seq<byte>, pkt: Packet, offsets: seq<nat>) {
    var rrs := Records(pkt);
    && 12 <= |buf| && Big16(buf, 0) == pkt.id && Big16(buf, 2) == pkt.flags && Big16(buf, 4) == 0
    && Big16(buf, 6) == |pkt.answers| && Big16(buf, 8) == |pkt.authorities| && Big16(buf, 10) == |pkt.additionals|
    && |offsets| == |rrs| + 1 && offsets[0] == 12 && offsets[|rrs|] == |buf|
    && forall i :: 0 <= i < |rrs| ==> WireRecord(buf, offsets[i], offsets[i + 1], rrs[i])
  }

  lemma Wire16(buf: seq<byte>, p: nat, v: U16Value)
    requires BytesAt(buf, p, U16(v))
    ensures p + 2 <= |buf| && Big16(buf, p) == v
  {
    assert buf[p..p + 2][0] == buf[p] && buf[p..p + 2][1] == buf[p + 1];
  }

  lemma Wire32(buf: seq<byte>, p: nat, v: U32Value)
    requires BytesAt(buf, p, U32(v))
    ensures p + 4 <= |buf| && Big32(buf, p) == v
  {
    var bytes := buf[p..p + 4];
    assert bytes[0] == buf[p] && bytes[1] == buf[p + 1] && bytes[2] == buf[p + 2] && bytes[3] == buf[p + 3];
    DigitsMake(v);
  }

  /** The byte swap before writing keeps the order in which the address lies in memory. */
  lemma WireAddress(buf: seq<byte>, d: nat, addr: U32Value)
    requires BytesAt(buf, d, U32(Swap(addr)))
    ensures d + 4 <= |buf| && forall k :: 0 <= k < 4 ==> buf[d + k] == (addr / Pow2(8 * k)) % 256
  {
    hide Pow2;
    var bytes := buf[d..d + 4];
    assert bytes[0] == buf[d] && bytes[1] == buf[d + 1] && bytes[2] == buf[d + 2] && bytes[3] == buf[d + 3];
    DigitsOf(addr / 0x1000000, (addr / 0x10000) % 256, (addr / 0x100) % 256, addr % 256);
    BytePowers();
    forall k | 0 <= k < 4 ensures buf[d + k] == (addr / Pow2(8 * k)) % 256 {
      if k == 0 {
        assert addr / 1 == addr;
      } else if k == 3 {
        assert addr / 0x1000000 < 256;
      }
    }
  }

  lemma BytePowers()
    ensures Pow2(8 * 0) == 1 && Pow2(8 * 1) == 0x100 && Pow2(8 * 2) == 0x10000 && Pow2(8 * 3) == 0x1000000
  {
    assert Pow2(8) == 0x100;
    assert Pow2(16) == 0x10000;
  }

  lemma {:induction false} TxtLaid(buf: seq<byte>, d: nat, strings: seq<seq<byte>>, i: nat)
    requires i <= |strings| && forall j :: 0 <= j < |strings| ==> |strings[j]| <= 255
    requires BytesAt(buf, d, TxtBytes(strings))
    ensures BytesAt(buf, d + TxtOffset(strings, i), TxtBytes(strings[i..]))
    ensures TxtOffset(strings, i) + |TxtBytes(strings[i..])| == |TxtBytes(strings)|
    decreases i
  {
    hide TxtBytes, BytesAt;
    if i > 0 {
      TxtLaid(buf, d, strings, i - 1);
      TxtHead(buf, d + TxtOffset(strings, i - 1), strings, i - 1);
    } else {
      assert strings[0..] == strings;
    }
  }

  lemma TxtOnWire(buf: seq<byte>, d: nat, strings: seq<seq<byte>>)
    requires forall j :: 0 <= j < |strings| ==> |strings[j]| <= 255
    requires BytesAt(buf, d, TxtBytes(strings))
    ensures WireTxt(buf, d, d + |TxtBytes(strings)|, strings)
  {
    hide TxtBytes, BytesAt, TxtOffset, WireString;
    TxtLaid(buf, d, strings, |strings|);
    TxtOver(strings, |strings|);
    InPacket(buf, d, TxtBytes(strings));
    forall i | 0 <= i < |strings|
      ensures WireString(buf, d + TxtOffset(strings, i), d + |TxtBytes(strings)|, strings[i])
    {
      StringOnWire(buf, d, strings, i);
    }
  }

  lemma StringOnWire(buf: seq<byte>, d: nat, strings: seq<seq<byte>>, i: nat)
    requires i < |strings| && forall j :: 0 <= j < |strings| ==> |strings[j]| <= 255
    requires BytesAt(buf, d, TxtBytes(strings))
    ensures WireString(buf, d + TxtOffset(strings, i), d + |TxtBytes(strings)|, strings[i])
  {
    hide TxtBytes, BytesAt, TxtOffset;
    InPacket(buf, d, TxtBytes(strings));
    TxtLaid(buf, d, strings, i);
    TxtHead(buf, d + TxtOffset(strings, i), strings, i);
  }

  lemma InPacket(buf: seq<byte>, p: nat, bytes: seq<byte>)
    requires BytesAt(buf, p, bytes)
    ensures p + |bytes| <= |buf| && buf[p..p + |bytes|] == bytes
  {
  }

  lemma NsecOnWire(buf: seq<byte>, b: nat, bitmap: seq<byte>)
    requires |bitmap| == 5 && BytesAt(buf, b, [0, 5] + bitmap)
    ensures b + 7 <= |buf| && buf[b] == 0 && buf[b + 1] == 5 && buf[b + 2..b + 7] == bitmap
  {
    var bytes := [0, 5] + bitmap;
    assert buf[b..b + 7] == bytes && bytes[0] == 0 && bytes[1] == 5 && bytes[2..7] == bitmap;
    SubSlice(buf, b, 7, 2, 7);
    assert buf[b..b + 7][1] == buf[b + 1];
  }

  lemma DataOnWire(buf: seq<byte>, d: nat, n: nat, rr: Record)
    requires IsRecord(rr) && d + n <= |buf| && DataAt(buf, NO_HOLE, d, n, rr)
    ensures WireData(buf, d, d + n, rr)
  {
    hide Expands, Span, U16, U32, Swap, BytesAt, TxtBytes, Big16, WireTxt, WireName, Pow2;
    match rr.data
    case A(addr) => WireAddress(buf, d, addr);
    case Aaaa(addr6) => InPacket(buf, d, addr6);
    case Ptr(name) => NameOnWire(buf, NO_HOLE, d, name);
    case Txt(strings) => TxtOnWire(buf, d, strings);
    case Srv(priority, weight, port, target) =>
      Wire16(buf, d, priority);
      Wire16(buf, d + 2, weight);
      Wire16(buf, d + 4, port);
      NameOnWire(buf, NO_HOLE, d + 6, target);
    case Nsec(bitmap) =>
      NsecOnWire(buf, d + Span(buf, d), bitmap);
      NameOnWire(buf, NO_HOLE, d, rr.name);
    case _ =>
  }

  lemma RecordOnWire(buf: seq<byte>, off: nat, len: nat, rr: Record)
    requires IsRecord(rr) && Carries(buf, off, len, rr)
    ensures WireRecord(buf, off, off + len, rr)
  {
    hide Expands, Span, U16, U32, BytesAt, DataAt, WireData, WireName, Big16, Big32;
    var h := off + Span(buf, off);
    NameOnWire(buf, NO_HOLE, off, rr.name);
    Wire16(buf, h, TypeOf(rr.data));
    Wire16(buf, h + 2, ClassBits(rr));
    Wire32(buf, h + 4, rr.ttl);
    Wire16(buf, h + 8, off + len - h - 10);
    DataOnWire(buf, h + 10, off + len - h - 10, rr);
    assert WireFields(buf, h, off + len, rr);
  }

  lemma HeaderOnWire(buf: seq<byte>, pkt: Packet)
    requires HeaderAt(buf, pkt)
    ensures 12 <= |buf| && Big16(buf, 0) == pkt.id && Big16(buf, 2) == pkt.flags && Big16(buf, 4) == 0
    ensures Big16(buf, 6) == |pkt.answers| && Big16(buf, 8) == |pkt.authorities| && Big16(buf, 10) == |pkt.additionals|
  {
    var bytes := U16(pkt.id) + U16(pkt.flags) + U16(0) + U16(|pkt.answers|) + U16(|pkt.authorities|)
                 + U16(|pkt.additionals|);
    assert buf[0..12] == bytes;
    forall k | 0 <= k < 12 ensures buf[k] == bytes[k] {
      assert buf[0..12][k] == buf[k];
    }
  }

  /** Whatever the encoder and the parser agree on, the packet has these bytes. */
  lemma PacketOnWire(buf: seq<byte>, pkt: Packet, offsets: seq<nat>)
    requires AllRecords(Records(pkt)) && PacketAt(buf, pkt, offsets)
    ensures WirePacket(buf, pkt, offsets)
  {
    hide Carries, WireRecord, HeaderAt, Big16;
    HeaderOnWire(buf, pkt);
    var rrs := Records(pkt);
    forall i | 0 <= i < |rrs| ensures WireRecord(buf, offsets[i], offsets[i + 1], rrs[i]) {
      RecordOnWire(buf, offsets[i], offsets[i + 1] - offsets[i], rrs[i]);
    }
  }

  method EncodeHeader(pkt: Packet, buf: array<byte>)
    requires 12 <= buf.Length
    requires |pkt.answers| < 0x10000 && |pkt.authorities| < 0x10000 && |pkt.additionals| < 0x10000
    modifies buf
    ensures HeaderAt(buf[..12], pkt)
  {
    hide U16;
    Put(buf, 0, U16(pkt.id) + U16(pkt.flags) + U16(0) + U16(|pkt.answers|) + U16(|pkt.authorities|) + U16(|pkt.additionals|));
    assert buf[..12] == buf[0..12];
  }

  /** The encoded size of a packet. */
  ghost function PacketSize(pkt: Packet): nat
    requires AllRecords(Records(pkt))
  {
    12 + RecordsSize(Known([Entry([], 0)]), Records(pkt))
  }

  /** Encodes a packet; nothing exactly if it has records and does not stay below `pktLen` bytes. */
  method EncodePkt(pkt: Packet, buf: array<byte>, pktLen: nat) returns (r: Option<nat>, ghost offsets: seq<nat>)
    requires AllRecords(Records(pkt)) && 12 <= pktLen
    requires PacketSize(pkt) <= buf.Length && PacketSize(pkt) <= 0x4000
    modifies buf
    ensures r.Some? <==> Records(pkt) == [] || PacketSize(pkt) < pktLen
    ensures r.Some? ==> r.value == PacketSize(pkt) && PacketAt(buf[..r.value], pkt, offsets)
    ensures r.Some? ==> WirePacket(buf[..r.value], pkt, offsets)
  {
    hide DictionaryOk, Laid, HeaderAt, IsRecord, RecordsSize, RecordSize, LearnedRecords, Joined, Known, WirePacket;
    SizeOfSections(pkt);
    SizeBoundsCount(Known([Entry([], 0)]), Records(pkt));
    EncodeHeader(pkt, buf);
    ghost var header := buf[..12];
    var comp := new Compression();
    EmptyDictionary(header, comp.entries);
    var ok, end, first := EncodeSection(buf, pktLen, 12, pkt.answers, comp);
    if !ok {
      return None, [];
    }
    ghost var answered := buf[..end];
    assert header <= answered;
    var off := end;
    ghost var second;
    ok, end, second := EncodeSection(buf, pktLen, off, pkt.authorities, comp);
    if !ok {
      return None, [];
    }
    ghost var authorized := buf[..end];
    Prefix(answered, authorized, NO_HOLE);
    LaidStable(answered, authorized, first, pkt.answers);
    LaidConcat(authorized, first, pkt.answers, second, pkt.authorities);
    offsets := Joined(first, second);
    off := end;
    ghost var third;
    ok, end, third := EncodeSection(buf, pktLen, off, pkt.additionals, comp);
    if !ok {
      return None, [];
    }
    Prefix(authorized, buf[..end], NO_HOLE);
    LaidStable(authorized, buf[..end], offsets, pkt.answers + pkt.authorities);
    LaidConcat(buf[..end], offsets, pkt.answers + pkt.authorities, third, pkt.additionals);
    offsets := Joined(offsets, third);
    HeaderStable(header, buf[..end], pkt);
    PacketOnWire(buf[..end], pkt, offsets);
    return Some(end), offsets;
  }

  lemma EmptyDictionary(buf: seq<byte>, comp: seq<Entry>)
    requires comp == [Entry([], 0)]
    ensures DictionaryOk(buf, NO_HOLE, comp)
  {
  }

  lemma {:induction false} SizeConcat(known: set<Name>, left: seq<Record>, right: seq<Record>)
    requires AllRecords(left) && AllRecords(right)
    ensures RecordsSize(known, left + right) == RecordsSize(known, left) + RecordsSize(LearnedRecords(known, left), right)
    ensures LearnedRecords(known, left + right) == LearnedRecords(LearnedRecords(known, left), right)
    decreases left
  {
    hide RecordSize, LearnedRecord, IsRecord;
    if left == [] {
      assert left + right == right;
    } else {
      assert (left + right)[1..] == left[1..] + right;
      SizeConcat(LearnedRecord(known, left[0]), left[1..], right);
    }
  }

  lemma SizeOfSections(pkt: Packet)
    requires AllRecords(Records(pkt))
    ensures AllRecords(pkt.answers) && AllRecords(pkt.authorities) && AllRecords(pkt.additionals)
    ensures var first := Known([Entry([], 0)]);
      var second := LearnedRecords(first, pkt.answers);
      PacketSize(pkt) == 12 + RecordsSize(first, pkt.answers) + RecordsSize(second, pkt.authorities)
                         + RecordsSize(LearnedRecords(second, pkt.authorities), pkt.additionals)
    ensures forall known :: RecordsSize(known, []) == 0
  {
    hide RecordsSize, LearnedRecords, IsRecord, Known;
    var rrs, first := Records(pkt), Known([Entry([], 0)]);
    forall i | 0 <= i < |pkt.answers| ensures IsRecord(pkt.answers[i]) { assert pkt.answers[i] == rrs[i]; }
    forall i | 0 <= i < |pkt.authorities| ensures IsRecord(pkt.authorities[i]) {
      assert pkt.authorities[i] == rrs[|pkt.answers| + i];
    }
    forall i | 0 <= i < |pkt.additionals| ensures IsRecord(pkt.additionals[i]) {
      assert pkt.additionals[i] == rrs[|pkt.answers| + |pkt.authorities| + i];
    }
    SizeConcat(first, pkt.answers + pkt.authorities, pkt.additionals);
    SizeConcat(first, pkt.answers, pkt.authorities);
    forall known ensures RecordsSize(known, []) == 0 {
      NoRecords(known, []);
    }
  }

  lemma {:induction false} SizeBoundsCount(known: set<Name>, rrs: seq<Record>)
    requires AllRecords(rrs)
    ensures 11 * |rrs| <= RecordsSize(known, rrs)
    decreases rrs
  {
    if rrs != [] {
      SizeBoundsCount(LearnedRecord(known, rrs[0]), rrs[1..]);
    }
  }

  /** How many records come before the first one that the parser refuses. */
  function Good(rrs: seq<Record>): (n: nat)
    ensures n <= |rrs|
  {
    if rrs == [] || !Parsable(rrs[0]) then 0 else 1 + Good(rrs[1..])
  }

  lemma {:induction false} GoodExact(rrs: seq<Record>, n: nat)
    requires n <= |rrs|
    ensures n == Good(rrs) <==> (forall i :: 0 <= i < n ==> Parsable(rrs[i])) && (n < |rrs| ==> !Parsable(rrs[n]))
  {
    hide Parsable;
    if rrs != [] && Parsable(rrs[0]) && n > 0 {
      GoodExact(rrs[1..], n - 1);
      assert forall i :: 0 <= i < n - 1 ==> rrs[1..][i] == rrs[i + 1];
      if forall i :: 0 <= i < n - 1 ==> Parsable(rrs[1..][i]) {
        assert forall i :: 0 < i < n ==> rrs[i] == rrs[1..][i - 1];
      }
    }
  }

  function ParsedAll(rrs: seq<Record>): (parsed: seq<Record>)
    ensures |parsed| == |rrs|
  {
    seq(|rrs|, i requires 0 <= i < |rrs| => Parsed(rrs[i]))
  }

  /** Parses up to `count` records; stops at the first one that cannot be parsed. */
  method ParseSection(buf: array<byte>, pktLen: nat, start: nat, count: nat, ghost offsets: seq<nat>, ghost rrs: seq<Record>)
    returns (list: seq<Record>, off: nat)
    requires AllRecords(rrs) && pktLen <= buf.Length && Laid(buf[..pktLen], offsets, rrs)
    requires offsets[0] == start && count <= |rrs|
    ensures list == ParsedAll(rrs[..Good(rrs[..count])]) && off == offsets[|list|]
  {
    hide Carries, IsRecord, Good, Parsable, Parsed;
    list, off := [], start;
    var i := 0;
    while i < count
      invariant i <= count && off == offsets[i] && list == ParsedAll(rrs[..i])
      invariant forall k :: 0 <= k < i ==> Parsable(rrs[k])
    {
      var rr, l := ParseRr(buf, pktLen, off, offsets[i + 1] - offsets[i], rrs[i]);
      if l == 0 {
        GoodExact(rrs[..count], i);
        assert rrs[..count][..i] == rrs[..i];
        return;
      }
      list := list + [rr.value];
      off := off + l;
      i := i + 1;
    }
    GoodExact(rrs[..count], count);
  }

  /** The records from the `m`-th on. */
  lemma LaidSuffix(buf: seq<byte>, offsets: seq<nat>, rrs: seq<Record>, m: nat)
    requires AllRecords(rrs) && m <= |rrs| && Laid(buf, offsets, rrs)
    ensures Laid(buf, offsets[m..], rrs[m..])
  {
    hide Carries, IsRecord;
  }

  /** Parses a packet that `EncodePkt` has written. A bad answer loses the whole packet; a bad authority record
      loses what follows it; a bad additional record loses the additional records from there on. */
  method ParsePkt(buf: array<byte>, pktLen: nat, ghost pkt: Packet, ghost offsets: seq<nat>) returns (r: Option<Packet>)
    requires AllRecords(Records(pkt)) && pktLen <= buf.Length && PacketAt(buf[..pktLen], pkt, offsets)
    ensures r.None? <==> Good(pkt.answers) < |pkt.answers|
    ensures r.Some? ==> r.value == Packet(pkt.id, pkt.flags, ParsedAll(pkt.answers),
      ParsedAll(pkt.authorities[..Good(pkt.authorities)]),
      if Good(pkt.authorities) < |pkt.authorities| then []
      else ParsedAll(pkt.additionals[..Good(pkt.additionals)]))
  {
    hide Laid, IsRecord, Good, ParsedAll, U16, ReadU16, Records;
    LaidLength(buf[..pktLen], offsets, Records(pkt));
    if pktLen < 12 {
      return None;
    }
    ghost var packet, all := buf[..pktLen], Records(pkt);
    HeaderRead(packet, pkt);
    var head := buf[..12];
    assert head == packet[..12];
    var id, flags := ReadU16(head[0..2]), ReadU16(head[2..4]);
    var numAnswers, numAuthorities, numAdditionals := ReadU16(head[6..8]), ReadU16(head[8..10]), ReadU16(head[10..12]);
    Sections(pkt);
    var answers, off := ParseSection(buf, pktLen, 12, numAnswers, offsets, all);
    if |answers| < numAnswers {
      return None;
    }
    ghost var n := |pkt.answers|;
    assert pkt.answers[..n] == pkt.answers;
    LaidSuffix(packet, offsets, all, n);
    var authorities;
    authorities, off := ParseSection(buf, pktLen, off, numAuthorities, offsets[n..], all[n..]);
    ghost var m := n + |authorities|;
    LaidSuffix(packet, offsets, all, m);
    AfterAuthorities(pkt);
    var additionals;
    additionals, off := ParseSection(buf, pktLen, off, numAdditionals, offsets[m..], all[m..]);
    NoneParsed(all[m..]);
    return Some(Packet(id, flags, answers, authorities, additionals));
  }

  lemma LaidLength(buf: seq<byte>, offsets: seq<nat>, rrs: seq<Record>)
    requires AllRecords(rrs) && Laid(buf, offsets, rrs)
    ensures |offsets| == |rrs| + 1
  {
  }

  lemma HeaderRead(buf: seq<byte>, pkt: Packet)
    requires HeaderAt(buf, pkt)
    ensures |buf| >= 12
    ensures var head := buf[..12];
      && ReadU16(head[0..2]) == pkt.id && ReadU16(head[2..4]) == pkt.flags
      && ReadU16(head[6..8]) == |pkt.answers| && ReadU16(head[8..10]) == |pkt.authorities|
      && ReadU16(head[10..12]) == |pkt.additionals|
  {
    hide U16, ReadU16;
    var a, b, c, d, e := U16(pkt.id), U16(pkt.flags), U16(|pkt.answers|), U16(|pkt.authorities|), U16(|pkt.additionals|);
    var head := buf[..12];
    assert head == a + b + U16(0) + c + d + e by { assert head == buf[0..0 + 12]; }
    assert head[0..2] == a && head[2..4] == b && head[6..8] == c && head[8..10] == d && head[10..12] == e;
    ReadWritten(pkt.id, 0);
    ReadWritten(pkt.flags, 0);
    ReadWritten(|pkt.answers|, 0);
    ReadWritten(|pkt.authorities|, 0);
    ReadWritten(|pkt.additionals|, 0);
  }

  /** The sections, as slices of the list of all records. */
  lemma Sections(pkt: Packet)
    ensures var all, n, k := Records(pkt), |pkt.answers|, |pkt.authorities|;
      && |all| == n + k + |pkt.additionals|
      && all[..n] == pkt.answers && all[n..][..k] == pkt.authorities && all[n + k..] == pkt.additionals
  {
  }

  /** Where the parser stands when it turns to the additional records: at them, or at a bad authority record. */
  lemma AfterAuthorities(pkt: Packet)
    ensures var all, m, k := Records(pkt), |pkt.answers| + Good(pkt.authorities), |pkt.additionals|;
      && m + k <= |all|
      && all[|pkt.answers|..][..Good(pkt.authorities)] == pkt.authorities[..Good(pkt.authorities)]
      && Good(all[m..][..k]) == (if Good(pkt.authorities) < |pkt.authorities| then 0 else Good(pkt.additionals))
      && (Good(pkt.authorities) == |pkt.authorities| ==> all[m..] == pkt.additionals)
  {
    hide Good, Parsable, Records;
    Sections(pkt);
    var all, n, g, k := Records(pkt), |pkt.answers|, Good(pkt.authorities), |pkt.additionals|;
    GoodExact(pkt.authorities, g);
    assert all[n..][..g] == all[n..][..|pkt.authorities|][..g];
    if g < |pkt.authorities| {
      assert all[n + g] == all[n..][..|pkt.authorities|][g];
      GoodExact(all[n + g..][..k], 0);
    } else {
      assert pkt.additionals[..k] == pkt.additionals;
    }
  }

  lemma NoneParsed(rrs: seq<Record>)
    ensures ParsedAll(rrs[..0]) == []
  {
  }

  // ----- the round trip -----

  /** Encoding into a buffer and parsing again: there is a packet exactly if it fits and no answer has a TXT string of more
      than 62 bytes; what comes back is what comes before such a record, and everything when there is none. */
  method RoundTrip(pkt: Packet, buf: array<byte>) returns (r: Option<Packet>)
    requires AllRecords(Records(pkt))
    requires PacketSize(pkt) <= buf.Length && PacketSize(pkt) <= 0x4000
    modifies buf
    ensures r.Some? <==>
      && (Records(pkt) == [] || PacketSize(pkt) < buf.Length)
      && forall i :: 0 <= i < |pkt.answers| ==> Parsable(pkt.answers[i])
    ensures r.Some? ==> r.value == Packet(pkt.id, pkt.flags, ParsedAll(pkt.answers),
      ParsedAll(pkt.authorities[..Good(pkt.authorities)]),
      if Good(pkt.authorities) < |pkt.authorities| then []
      else ParsedAll(pkt.additionals[..Good(pkt.additionals)]))
    ensures r.Some? && (forall i :: 0 <= i < |Records(pkt)| ==> Parsable(Records(pkt)[i])) ==>
      r.value == Packet(pkt.id, pkt.flags, ParsedAll(pkt.answers), ParsedAll(pkt.authorities), ParsedAll(pkt.additionals))
  {
    hide PacketAt, IsRecord, Parsable, Good, ParsedAll, RecordsSize, Records, PacketSize;
    HeaderFits(pkt);
    var size, offsets := EncodePkt(pkt, buf, buf.Length);
    if size.None? {
      return None;
    }
    AllGood(pkt);
    GoodExact(pkt.answers, |pkt.answers|);
    r := ParsePkt(buf, size.value, pkt, offsets);
    assert pkt.authorities[..|pkt.authorities|] == pkt.authorities;
    assert pkt.additionals[..|pkt.additionals|] == pkt.additionals;
  }

  lemma HeaderFits(pkt: Packet)
    requires AllRecords(Records(pkt))
    ensures PacketSize(pkt) >= 12
  {
  }

  lemma AllGood(pkt: Packet)
    ensures (forall i :: 0 <= i < |Records(pkt)| ==> Parsable(Records(pkt)[i]))
      ==> && Good(pkt.answers) == |pkt.answers| && Good(pkt.authorities) == |pkt.authorities|
          && Good(pkt.additionals) == |pkt.additionals|
  {
    hide Parsable, Good;
    var all, n, k := Records(pkt), |pkt.answers|, |pkt.authorities|;
    if forall i :: 0 <= i < |all| ==> Parsable(all[i]) {
      forall i | 0 <= i < n ensures Parsable(pkt.answers[i]) { assert pkt.answers[i] == all[i]; }
      forall i | 0 <= i < k ensures Parsable(pkt.authorities[i]) { assert pkt.authorities[i] == all[n + i]; }
      forall i | 0 <= i < |pkt.additionals| ensures Parsable(pkt.additionals[i]) {
        assert pkt.additionals[i] == all[n + k + i];
      }
      GoodExact(pkt.answers, n);
      GoodExact(pkt.authorities, k);
      GoodExact(pkt.additionals, |pkt.additionals|);
    }
  }

  /** What a record loses on the way, exactly: the bitmap of NSEC; the class, unless its bit 7 is clear and its top bit is
      that of the flush bit; and the unicast bit, which takes the flush bit's value. */
  lemma LostExactly(rr: Record)
    requires IsRecord(rr)
    ensures var r := Parsed(rr);
      && r.name == rr.name && r.ttl == rr.ttl && r.cacheFlush == rr.cacheFlush && TypeOf(r.data) == TypeOf(rr.data)
      && (r.data == rr.data <==> (rr.data.Nsec? ==> rr.data.bitmap == [0, 0, 0, 0, 0]))
      && (r.rrClass == rr.rrClass <==> rr.rrClass % 256 < 128 && (rr.rrClass >= 0x8000 <==> rr.cacheFlush))
      && (r.unicastQuery == rr.unicastQuery <==> (rr.unicastQuery <==> rr.cacheFlush))
      && (r == rr <==> r.data == rr.data && r.rrClass == rr.rrClass && r.unicastQuery == rr.unicastQuery)
  {
  }
}
