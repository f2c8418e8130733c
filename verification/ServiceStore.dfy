/** Registering and removing services in lib/tinysvcmdns/mdnsd.c. */
module ServiceStore {
  import opened Bytes
  import opened RecordStore
  import opened Options

  /** The well-known name under which every service type is listed (RFC 6763 section 9). */
  const SERVICES_DNS_SD: Name := [9, 95, 115, 101, 114, 118, 105, 99, 101, 115, 7, 95, 100, 110, 115, 45, 115, 100,
                                  4, 95, 117, 100, 112, 5, 108, 111, 99, 97, 108]

  const DEFAULT_TTL: nat := 4500
  const HOST_TTL: nat := 120

  function SetOf(list: seq<Entry>): set<Entry> {
    set e | e in list
  }

  /** The records that one registration makes: `txt` holds at most one. The caller keeps `entries`. */
  datatype Service = Service(txt: seq<Entry>, srv: Entry, ptr: Entry, bptr: Entry) {

    function Entries(): seq<Entry> {
      txt + [srv]
    }

    function All(): set<Entry> {
      SetOf(txt) + {srv, ptr, bptr}
    }

    predicate WellMade() {
      && |txt| <= 1 && (forall e :: e in txt ==> e.data.Txt? && e.name == srv.name)
      && srv.data.Srv? && ptr.data == PtrTo(srv) && bptr.data == PtrTo(ptr)
      && bptr.name == SERVICES_DNS_SD
    }
  }

  /** In seconds: records that depend on the host name live shorter (section 10 of RFC 6762). */
  predicate Lifetimes(s: Service) {
    s.srv.ttl == 120 && s.ptr.ttl == 120 && s.bptr.ttl == 120 && forall e :: e in s.txt ==> e.ttl == 4500
  }

  /** The records of the live services are in the database, and no two services share one. */
  ghost predicate LiveOk(db: set<Entry>, live: set<Service>) {
    && (forall s :: s in live ==> s.WellMade() && s.All() <= db)
    && (forall s, t :: s in live && t in live && s != t ==> s.All() !! t.All())
  }

  /** Every stored record that refers to another one belongs to a live service. */
  ghost predicate PointersOk(db: set<Entry>, live: set<Service>) {
    forall e :: e in db && e.data.PtrTo? ==> exists s :: s in live && (e == s.ptr || e == s.bptr)
  }

  /** The address and the NSEC record of the host are in the database, once it has a name. */
  ghost predicate HostOk(db: set<Entry>, hostname: Option<Name>) {
    hostname.Some? ==> exists id: nat, addr: seq<byte>, v6: bool :: HostRecords(id, hostname.value, addr, v6) <= db
  }

  lemma HostMember(db: set<Entry>, hostname: Option<Name>) returns (address: Entry, nsec: Entry)
    requires HostOk(db, hostname) && hostname.Some?
    ensures address in db && address.name == hostname.value && (address.data.A? || address.data.Aaaa?)
    ensures nsec in db && nsec.name == hostname.value && nsec.data == Nsec(TypeBitmap(address.data.Aaaa?))
  {
    var id: nat, addr: seq<byte>, v6: bool :| HostRecords(id, hostname.value, addr, v6) <= db;
    address := Entry(id, hostname.value, HOST_TTL, AddressOf(addr, v6));
    nsec := Entry(id + 1, hostname.value, HOST_TTL, Nsec(TypeBitmap(v6)));
    assert address in HostRecords(id, hostname.value, addr, v6) && nsec in HostRecords(id, hostname.value, addr, v6);
  }

  lemma HostGrows(db: set<Entry>, hostname: Option<Name>, more: set<Entry>)
    requires HostOk(db, hostname)
    ensures HostOk(db + more, hostname)
  {
    hide HostRecords;
  }

  /** The records of a service are none of the host's. */
  lemma HostStays(db: set<Entry>, hostname: Option<Name>, s: Service)
    requires HostOk(db, hostname) && s.WellMade()
    ensures HostOk(db - s.All(), hostname)
  {
    if hostname.Some? {
      var id: nat, addr: seq<byte>, v6: bool :| HostRecords(id, hostname.value, addr, v6) <= db;
      forall e | e in HostRecords(id, hostname.value, addr, v6)
        ensures e in db - s.All()
      {
        assert !e.data.Txt? && !e.data.Srv? && !e.data.PtrTo?;
      }
    }
  }

  /** What a reader of the database may rely on: the target of every PTR record is in it, too. */
  lemma TargetStored(db: set<Entry>, live: set<Service>, e: Entry)
    requires LiveOk(db, live) && PointersOk(db, live) && e in db && e.data.PtrTo?
    ensures e.data.entry in db
  {
    var s :| s in live && (e == s.ptr || e == s.bptr);
    assert s.srv in s.All() && s.ptr in s.All();
  }

  lemma RegisterKeeps(db: set<Entry>, live: set<Service>, s: Service)
    requires LiveOk(db, live) && PointersOk(db, live) && s.WellMade() && s.All() !! db
    ensures s !in live && LiveOk(db + s.All(), live + {s}) && PointersOk(db + s.All(), live + {s})
  {
    LiveGrows(db, live, s);
    PointersGrow(db, live, s);
  }

  lemma LiveGrows(db: set<Entry>, live: set<Service>, s: Service)
    requires LiveOk(db, live) && s.WellMade() && s.All() !! db
    ensures s !in live && LiveOk(db + s.All(), live + {s})
  {
    assert s.srv in s.All();
    hide Service.All, Service.WellMade;
  }

  lemma PointersGrow(db: set<Entry>, live: set<Service>, s: Service)
    requires PointersOk(db, live) && s.WellMade()
    ensures PointersOk(db + s.All(), live + {s})
  {
    forall e | e in db + s.All() && e.data.PtrTo?
      ensures exists t :: t in live + {s} && (e == t.ptr || e == t.bptr)
    {
      if e in db {
        var t :| t in live && (e == t.ptr || e == t.bptr);
        assert t in live + {s};
      } else {
        assert s in live + {s};
      }
    }
  }

  lemma RemoveKeeps(db: set<Entry>, live: set<Service>, s: Service)
    requires LiveOk(db, live) && PointersOk(db, live) && s in live
    ensures LiveOk(db - s.All(), live - {s}) && PointersOk(db - s.All(), live - {s})
  {
    LiveShrinks(db, live, s);
    PointersShrink(db, live, s);
  }

  lemma LiveShrinks(db: set<Entry>, live: set<Service>, s: Service)
    requires LiveOk(db, live) && s in live
    ensures LiveOk(db - s.All(), live - {s})
  {
    hide Service.All, Service.WellMade;
    forall t | t in live - {s} ensures t.WellMade() && t.All() <= db - s.All() {
      assert t.All() !! s.All();
    }
  }

  lemma PointersShrink(db: set<Entry>, live: set<Service>, s: Service)
    requires PointersOk(db, live)
    ensures PointersOk(db - s.All(), live - {s})
  {
    forall e | e in db - s.All() && e.data.PtrTo?
      ensures exists t :: t in live - {s} && (e == t.ptr || e == t.bptr)
    {
      var t :| t in live && (e == t.ptr || e == t.bptr);
      assert s.ptr in s.All() && s.bptr in s.All();
      assert t in live - {s};
    }
  }

  /** Only the service's own PTR records refer to its records. */
  lemma PointerOwner(db: set<Entry>, live: set<Service>, s: Service, e: Entry, target: Entry)
    requires LiveOk(db, live) && PointersOk(db, live) && s in live && e in db && PointsTo(e, target)
    ensures target == s.srv ==> e == s.ptr
    ensures target == s.ptr ==> e == s.bptr
    ensures target !in s.txt
  {
    var t :| t in live && (e == t.ptr || e == t.bptr);
    assert t.srv in t.All() && t.ptr in t.All() && s.srv in s.All() && s.ptr in s.All();
    assert t.WellMade() && s.WellMade();
  }

  /** The lists hold allocated records, once each; what waits to leave is no longer stored. */
  ghost predicate ListsOk(db: set<Entry>, leave: seq<Entry>, announce: seq<Entry>, services: seq<Entry>, nextId: nat) {
    && (forall e :: e in db ==> e.id < nextId)
    && (forall e :: e in leave ==> e.id < nextId && e !in db)
    && (forall e :: e in announce || e in services ==> e.id < nextId)
    && Distinct(leave) && Distinct(announce) && Distinct(services)
  }

  lemma ListsLess(db: set<Entry>, leave: seq<Entry>, announce: seq<Entry>, services: seq<Entry>, nextId: nat,
                  gone: set<Entry>, ptr: Entry)
    requires ListsOk(db, leave, announce, services, nextId) && ptr in gone && ptr in db
    ensures ListsOk(db - gone, leave + [ptr], Removed(announce, ptr), Removed(services, ptr), nextId)
  {
    RemovedContents(announce, ptr);
    RemovedContents(services, ptr);
  }

  lemma NotLeaving(db: set<Entry>, leave: seq<Entry>, announce: seq<Entry>, services: seq<Entry>, nextId: nat, e: Entry)
    requires ListsOk(db, leave, announce, services, nextId) && e in db
    ensures e !in leave
  {
  }

  class Server {
    var groups: seq<Group>
    var announce: seq<Entry>
    var services: seq<Entry>
    var leave: seq<Entry>
    var hostname: Option<Name>
    /** The address of the next record to be allocated. */
    var nextId: nat
    ghost var live: set<Service>

    ghost function Db(): set<Entry>
      reads this
    {
      Database(groups)
    }

    ghost predicate Valid()
      reads this
    {
      Filed(groups) && NoneEmpty(groups) && LiveOk(Db(), live) && PointersOk(Db(), live)
      && HostOk(Db(), hostname) && ListsOk(Db(), leave, announce, services, nextId)
    }

    constructor ()
      ensures Valid() && live == {} && groups == [] && leave == [] && hostname == None
    {
      groups, announce, services, leave := [], [], [], [];
      hostname, nextId, live := None, 0, {};
    }

    method Allocate(name: Name, ttl: nat, data: Data) returns (e: Entry)
      modifies this`nextId
      ensures e == Entry(old(nextId), name, ttl, data) && nextId == old(nextId) + 1
    {
      e := Entry(nextId, name, ttl, data);
      nextId := nextId + 1;
    }

    method AddRecord(e: Entry)
      requires Filed(groups) && NoneEmpty(groups)
      modifies this`groups
      ensures Filed(groups) && NoneEmpty(groups) && Db() == old(Db()) + {e}
    {
      AddedFiled(groups, e);
      groups := GroupAdd(groups, e);
    }

    /** `mdnsd_set_hostname` and its twin for IPv6: the address and the NSEC record of the host. They cannot be called
        twice. */
    method SetHostname(name: Name, addr: seq<byte>, v6: bool)
      requires Valid() && hostname.None?
      modifies this
      ensures Valid() && hostname == Some(name) && live == old(live)
      ensures announce == old(announce) && services == old(services) && leave == old(leave)
      ensures Db() == old(Db()) + HostRecords(old(nextId), name, addr, v6)
    {
      hide Filed, NoneEmpty, LiveOk, PointersOk, Database;
      ghost var db := Db();
      var address := Allocate(name, HOST_TTL, AddressOf(addr, v6));
      var nsec := Allocate(name, HOST_TTL, Nsec(TypeBitmap(v6)));
      hostname := Some(name);
      AddRecord(address);
      AddRecord(nsec);
      assert Db() == db + {address, nsec};
      NoPointers(db, live, {address, nsec});
      assert HostRecords(address.id, name, addr, v6) <= Db();
    }

    /** The records of a service; nothing is filed yet. There is a TXT record only if there are texts. */
    method MakeService(nlabel: Name, typeName: Name, port: nat, target: Name, texts: seq<seq<byte>>) returns (s: Service)
      modifies this`nextId
      ensures nextId == old(nextId) + if texts != [] then 4 else 3
      ensures s.WellMade() && (|s.txt| == 1 <==> texts != [])
      ensures forall e :: e in s.All() ==> old(nextId) <= e.id < nextId
      ensures s.srv.name == nlabel && s.ptr.name == typeName && s.srv.data == Srv(port, target)
      ensures forall e :: e in s.txt ==> e.name == nlabel && e.data == Txt(Kept(texts))
      ensures Lifetimes(s)
    {
      var txts: seq<Entry> := [];
      if texts != [] {
        var kept := AddTexts(texts);
        var txtE := Allocate(nlabel, DEFAULT_TTL, Txt(kept));
        txts := [txtE];
      }
      var srv := Allocate(nlabel, HOST_TTL, Srv(port, target));
      var ptr := Allocate(typeName, HOST_TTL, PtrTo(srv));
      var bptr := Allocate(SERVICES_DNS_SD, HOST_TTL, PtrTo(ptr));
      return Service(txts, srv, ptr, bptr);
    }

    method FileService(s: Service)
      requires Filed(groups) && NoneEmpty(groups) && s.WellMade()
      modifies this`groups
      ensures Filed(groups) && NoneEmpty(groups) && Db() == old(Db()) + s.All()
    {
      hide Filed, NoneEmpty, Database, SetOf;
      AllOf(s);
      if s.txt != [] {
        AddRecord(s.txt[0]);
      }
      AddRecord(s.srv);
      AddRecord(s.ptr);
      AddRecord(s.bptr);
    }

    /** `mdnsd_register_svc`, once the names are in label form. */
    method Register(inst: Name, typeName: Name, port: nat, host: Option<Name>, texts: seq<seq<byte>>)
      returns (entries: seq<Entry>, ghost s: Service)
      requires Valid() && (host.Some? || hostname.Some?)
      modifies this
      ensures Valid() && s !in old(live) && live == old(live) + {s} && entries == s.Entries()
      ensures Db() == old(Db()) + s.All() && s.All() !! old(Db())
      ensures s.WellMade() && (|s.txt| == 1 <==> texts != [])
      ensures forall e :: e in s.txt ==> e.name == inst + typeName && e.data == Txt(Kept(texts))
      ensures s.srv.name == inst + typeName && s.ptr.name == typeName
      ensures s.srv.data == Srv(port, if host.Some? then host.value else old(hostname).value) && Lifetimes(s)
      ensures announce == old(announce) + [s.ptr] && services == old(services) + [s.ptr] && leave == old(leave)
      ensures hostname == old(hostname)
    {
      hide Filed, NoneEmpty, LiveOk, PointersOk, Database, Service.WellMade, SetOf, HostOk, Lifetimes;
      var target := if host.Some? then host.value else hostname.value;
      var made := MakeService(inst + typeName, typeName, port, target, texts);
      s := made;
      entries := made.txt + [made.srv];
      ghost var db := Db();
      NewRecords(made, db);
      FileService(made);
      RegisterKeeps(db, live, made);
      HostGrows(db, hostname, made.All());
      Announce(made.ptr);
      live := live + {made};
    }

    /** The PTR record of a new service joins the lists of what is announced and served. */
    method Announce(ptr: Entry)
      requires ptr !in announce && ptr !in services && Distinct(announce) && Distinct(services)
      modifies this`announce, this`services
      ensures announce == old(announce) + [ptr] && services == old(services) + [ptr]
      ensures Distinct(announce) && Distinct(services)
    {
      var n;
      announce, n := ListAppend(announce, ptr);
      services, n := ListAppend(services, ptr);
    }

    lemma NewRecords(s: Service, db: set<Entry>)
      requires forall e :: e in s.All() ==> nextId > e.id
      ensures s.ptr in s.All()
    {
    }

    /** Takes the PTR record that refers to `target` out of the database; `db` is what was stored before. */
    method TakePointer(target: Entry, ghost s: Service, ghost db: set<Entry>) returns (e: Option<Entry>)
      requires Filed(groups) && s in live && (target == s.srv || target == s.ptr || target in s.txt)
      requires LiveOk(db, live) && PointersOk(db, live) && Db() <= db
      requires target == s.srv ==> s.ptr in Db()
      requires target == s.ptr ==> s.bptr in Db()
      modifies this`groups
      ensures Filed(groups)
      ensures target == s.srv ==> e == Some(s.ptr)
      ensures target == s.ptr ==> e == Some(s.bptr)
      ensures target in s.txt ==> e == None
      ensures Db() == if e.Some? then old(Db()) - {e.value} else old(Db())
    {
      hide Filed, LiveOk, PointersOk, Database;
      ghost var before := groups;
      LiveMember(db, live, s);
      groups, e := EntryRemove(groups, target);
      if e.Some? {
        DroppedFiled(before, e.value);
        PointerOwner(db, live, s, e.value, target);
      }
    }

    /** Takes one record of a service out of the group of its name. */
    method DropRecord(e: Entry)
      requires Filed(groups)
      modifies this`groups
      ensures Filed(groups) && Db() == old(Db()) - {e}
    {
      DroppedFiled(groups, e);
      var i := GroupFind(groups, e.name);
      if i < |groups| {
        var list := ListRemove(groups[i].rrs, e);
        groups := groups[i := groups[i].(rrs := list)];
      }
    }

    /** One turn of the loop over the records of a service that is being removed. */
    method RemoveEntry(e: Entry, ghost s: Service, ghost db: set<Entry>)
      requires Filed(groups) && s in live && (e == s.srv || e in s.txt)
      requires LiveOk(db, live) && PointersOk(db, live) && Db() <= db
      requires e == s.srv ==> s.ptr in Db() && s.bptr in Db() && s.ptr !in leave
      modifies this`groups, this`announce, this`services, this`leave
      ensures Filed(groups)
      ensures e in s.txt ==>
        && Db() == old(Db()) - {e}
        && announce == old(announce) && services == old(services) && leave == old(leave)
      ensures e == s.srv ==>
        && Db() == old(Db()) - {s.srv, s.ptr, s.bptr}
        && announce == Removed(old(announce), s.ptr) && services == Removed(old(services), s.ptr)
        && leave == old(leave) + [s.ptr]
    {
      hide Filed, LiveOk, PointersOk, Database, SetOf, Service.WellMade;
      LiveMember(db, live, s);
      KindsDiffer(s);
      DropRecord(e);
      var ptr := TakePointer(e, s, db);
      if ptr.Some? {
        announce := ListRemove(announce, ptr.value);
        services := ListRemove(services, ptr.value);
        var bptr := TakePointer(ptr.value, s, db);
        var n;
        leave, n := ListAppend(leave, ptr.value);
      }
    }

    /** `mdns_service_remove`: exactly the records of this service go, and its PTR record waits to be announced as gone. */
    method Remove(entries: seq<Entry>, ghost s: Service)
      requires Valid() && s in live && entries == s.Entries()
      modifies this
      ensures Valid() && live == old(live) - {s}
      ensures Db() == old(Db()) - s.All()
      ensures leave == old(leave) + [s.ptr]
      ensures announce == Removed(old(announce), s.ptr) && services == Removed(old(services), s.ptr)
      ensures hostname == old(hostname) && nextId == old(nextId)
    {
      hide Filed, NoneEmpty, LiveOk, PointersOk, Database, SetOf, ListsOk, HostOk;
      ghost var db := Db();
      LiveMember(db, live, s);
      assert s.ptr in s.All();
      NotLeaving(db, leave, announce, services, nextId, s.ptr);
      ListsLess(db, leave, announce, services, nextId, s.All(), s.ptr);
      RemoveEntries(entries, s);
      CleanedFiled(groups);
      groups := GroupClean(groups);
      RemoveKeeps(db, live, s);
      HostStays(db, hostname, s);
      live := live - {s};
    }

    /** The loop over the records of the service. */
    method RemoveEntries(entries: seq<Entry>, ghost s: Service)
      requires Filed(groups) && LiveOk(Db(), live) && PointersOk(Db(), live)
      requires s in live && entries == s.Entries() && s.ptr !in leave
      modifies this`groups, this`announce, this`services, this`leave
      ensures Filed(groups) && Db() == old(Db()) - s.All() && leave == old(leave) + [s.ptr]
      ensures announce == Removed(old(announce), s.ptr) && services == Removed(old(services), s.ptr)
    {
      hide Filed, NoneEmpty, LiveOk, PointersOk, Database, SetOf;
      ghost var db := Db();
      NothingYet(db);
      LiveMember(db, live, s);
      assert s.ptr in s.All() && s.bptr in s.All() && s.srv in s.All();
      for i := 0 to |entries|
        invariant Filed(groups)
        invariant i <= |s.txt| ==>
          && Db() == db - SetOf(s.txt[..i]) && announce == old(announce)
          && services == old(services) && leave == old(leave)
        invariant i == |entries| ==>
          && Db() == db - s.All() && announce == Removed(old(announce), s.ptr)
          && services == Removed(old(services), s.ptr) && leave == old(leave) + [s.ptr]
      {
        NotText(s, i);
        RemoveEntry(entries[i], s, db);
        Shrinks(s, i, db);
      }
    }
  }

  /** What the length byte of `create_txt_label` leaves of a text. */
  function Cut(text: seq<byte>): seq<byte> {
    text[..|text| % 256]
  }

  /** `rr_add_txt`: the first text goes through `create_label`, which refuses more than 63 bytes, so that the next one is
      the first again. The others keep what fits their length byte. */
  function TextAdded(list: seq<seq<byte>>, text: seq<byte>): seq<seq<byte>> {
    if list == [] then (if |text| > 63 then [] else [text]) else list + [Cut(text)]
  }

  function Kept(texts: seq<seq<byte>>): seq<seq<byte>> {
    if texts == [] then [] else TextAdded(Kept(texts[..|texts| - 1]), texts[|texts| - 1])
  }

  method AddTexts(texts: seq<seq<byte>>) returns (list: seq<seq<byte>>)
    ensures list == Kept(texts)
    ensures var k := FirstShort(texts);
      |list| == |texts| - k && forall i :: 0 <= i < |list| ==> list[i] == Cut(texts[k + i])
  {
    list := [];
    for i := 0 to |texts|
      invariant list == Kept(texts[..i])
    {
      assert texts[..i + 1][..i] == texts[..i];
      if list == [] {
        if |texts[i]| <= 63 {
          list := [texts[i]];
        }
      } else {
        list := list + [Cut(texts[i])];
      }
    }
    assert texts[..|texts|] == texts;
    KeptFrom(texts);
  }

  /** The index of the first text of at most 63 bytes, or their number. */
  function FirstShort(texts: seq<seq<byte>>): (k: nat)
    ensures k <= |texts| && (k < |texts| ==> |texts[k]| <= 63)
    ensures forall i :: 0 <= i < k ==> |texts[i]| > 63
  {
    if texts == [] then 0
    else
      var k := FirstShort(texts[..|texts| - 1]);
      if k < |texts| - 1 || |texts[k]| <= 63 then k else |texts|
  }

  /** The texts are kept from the first of at most 63 bytes on, each as far as its length byte goes. */
  lemma {:induction false} KeptFrom(texts: seq<seq<byte>>)
    ensures var k := FirstShort(texts);
      |Kept(texts)| == |texts| - k && forall i :: 0 <= i < |texts| - k ==> Kept(texts)[i] == Cut(texts[k + i])
    decreases |texts|
  {
    if texts != [] {
      hide Cut;
      var init, last := texts[..|texts| - 1], texts[|texts| - 1];
      KeptFrom(init);
      CutExactly(last);
      var k := FirstShort(init);
      if k < |init| {
        assert Kept(texts) == Kept(init) + [Cut(last)];
      } else if |last| <= 63 {
        assert Cut(last) == last && Kept(texts) == [last];
      }
    }
  }

  /** So all texts are kept whole exactly if the first has at most 63 bytes, and none more than 255. */
  lemma KeptExactly(texts: seq<seq<byte>>)
    ensures Kept(texts) == texts
      <==> (texts == [] || |texts[0]| <= 63) && forall i :: 0 <= i < |texts| ==> |texts[i]| <= 255
  {
    hide Kept, FirstShort, Cut;
    KeptFrom(texts);
    if (texts == [] || |texts[0]| <= 63) && forall i :: 0 <= i < |texts| ==> |texts[i]| <= 255 {
      forall i | 0 <= i < |texts| ensures Kept(texts)[i] == texts[i] {
        CutExactly(texts[i]);
      }
    } else if Kept(texts) == texts && texts != [] {
      forall i | 0 <= i < |texts| ensures |texts[i]| <= 255 {
        assert Kept(texts)[i] == texts[i];
        CutExactly(texts[i]);
      }
    }
  }

  lemma CutExactly(text: seq<byte>)
    ensures Cut(text) == text <==> |text| <= 255
  {
    assert |Cut(text)| <= 255;
  }

  function AddressOf(addr: seq<byte>, v6: bool): Data {
    if v6 then Aaaa(addr) else A(addr)
  }

  /** `rr_set_nsec`: one bit, at the number of the type (RFC 4034 section 4.1.2). */
  function TypeBitmap(v6: bool): seq<byte> {
    if v6 then [0, 0, 0, 0x08, 0] else [0x40, 0, 0, 0, 0]
  }

  function HostRecords(id: nat, name: Name, addr: seq<byte>, v6: bool): set<Entry> {
    {Entry(id, name, HOST_TTL, AddressOf(addr, v6)), Entry(id + 1, name, HOST_TTL, Nsec(TypeBitmap(v6)))}
  }

  /** Records that refer to none leave the services as they are. */
  lemma NoPointers(db: set<Entry>, live: set<Service>, more: set<Entry>)
    requires LiveOk(db, live) && PointersOk(db, live) && forall e :: e in more ==> !e.data.PtrTo?
    ensures LiveOk(db + more, live) && PointersOk(db + more, live)
  {
    hide Service.All, Service.WellMade;
  }

  lemma AllOf(s: Service)
    requires s.WellMade()
    ensures s.All() == (if s.txt != [] then {s.txt[0]} else {}) + {s.srv, s.ptr, s.bptr}
  {
  }

  lemma KindsDiffer(s: Service)
    requires s.WellMade()
    ensures s.srv !in s.txt && s.ptr !in s.txt && s.bptr !in s.txt
    ensures s.srv != s.ptr && s.ptr != s.bptr && s.srv != s.bptr
  {
    assert s.bptr.data.entry == s.ptr && s.ptr.data.entry == s.srv;
  }

  lemma NothingYet(db: set<Entry>)
    ensures db - SetOf([]) == db
  {
  }

  lemma NotText(s: Service, i: nat)
    requires s.WellMade() && i < |s.Entries()|
    ensures if i < |s.txt| then s.Entries()[i] == s.txt[i] && s.txt[i] in s.txt else s.Entries()[i] == s.srv && i == |s.txt|
    ensures i <= |s.txt| ==> s.ptr !in SetOf(s.txt[..i]) && s.bptr !in SetOf(s.txt[..i])
  {
  }

  lemma Shrinks(s: Service, i: nat, db: set<Entry>)
    requires s.WellMade() && i < |s.Entries()|
    ensures i < |s.txt| ==> db - SetOf(s.txt[..i]) - {s.txt[i]} == db - SetOf(s.txt[..i + 1])
    ensures i == |s.txt| ==> db - SetOf(s.txt[..i]) - {s.srv, s.ptr, s.bptr} == db - s.All()
  {
    assert s.txt[..|s.txt|] == s.txt;
  }

  lemma LiveMember(db: set<Entry>, live: set<Service>, s: Service)
    requires LiveOk(db, live) && s in live
    ensures s.WellMade() && s.All() <= db
  {
  }
}
