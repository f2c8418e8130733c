/** What the responder of lib/tinysvcmdns/mdnsd.c answers about the services of a server, in terms of what is stored. */
module Browsing {
  import opened Bytes
  import opened Options
  import opened RecordStore
  import opened ServiceStore
  import opened Responder

  // ----- asking -----

  lemma StoredUnder(groups: seq<Group>, e: Entry)
    requires Filed(groups)
    ensures e in Database(groups) <==> e in Under(groups, e.name)
  {
    hide IndexOf;
    if e in Database(groups) {
      var k := InGroup(groups, e);
      assert groups[k].name == e.name == groups[IndexOf(groups, e.name)].name;
    }
  }

  /** The type that a question asks for; a question for any type does not get NSEC records. */
  predicate OfKind(kind: Type, data: Data) {
    match kind
    case TypeA => data.A?
    case TypePtr => data.PtrTo? || data.PtrNamed?
    case TypeTxt => data.Txt?
    case TypeAaaa => data.Aaaa?
    case TypeSrv => data.Srv?
    case TypeNsec => data.Nsec?
    case Any => !data.Nsec?
  }

  /** Exactly the stored records of that name and type answer a question. */
  lemma AnswersExactly(groups: seq<Group>, name: Name, kind: Type, e: Entry)
    requires Filed(groups)
    ensures Answers(groups, name, kind, e) <==> e in Database(groups) && e.name == name && OfKind(kind, e.data)
  {
    hide Filed, Database, Under;
    StoredUnder(groups, e);
  }

  /** What the record `a` of the database brings into the additional records: a PTR record what is stored under the name it
      refers to, a SRV record what is stored under its target and the TXT record beside it, and an address the NSEC
      record beside it. */
  predicate BringsIn(db: set<Entry>, a: Entry, b: Entry) {
    && b in db
    && match a.data
       case PtrTo(entry) => b.name == entry.name && !b.data.Nsec?
       case PtrNamed(name) => b.name == name && !b.data.Nsec?
       case Srv(_, target) => (b.name == target && !b.data.Nsec?) || (b.name == a.name && b.data.Txt?)
       case A(_) => b.name == a.name && b.data.Nsec?
       case Aaaa(_) => b.name == a.name && b.data.Nsec?
       case _ => false
  }

  lemma RelatedExactly(groups: seq<Group>, a: Entry, b: Entry)
    requires Filed(groups)
    ensures Related(groups, a, b) <==> BringsIn(Database(groups), a, b)
  {
    hide Filed, Database, Answers;
    match a.data
    case PtrTo(entry) => AnswersExactly(groups, entry.name, Any, b);
    case PtrNamed(name) => AnswersExactly(groups, name, Any, b);
    case Srv(_, target) =>
      AnswersExactly(groups, target, Any, b);
      AnswersExactly(groups, a.name, TypeTxt, b);
    case A(_) => AnswersExactly(groups, a.name, TypeNsec, b);
    case Aaaa(_) => AnswersExactly(groups, a.name, TypeNsec, b);
    case _ =>
  }

  /** The additional records hold all that an answer or an additional record brings in, and nothing else. */
  ghost predicate Complete(db: set<Entry>, answers: seq<Entry>, additionals: seq<Entry>) {
    forall b :: b in additionals <==> exists a :: (a in answers || a in additionals) && BringsIn(db, a, b)
  }

  lemma ReachedComplete(groups: seq<Group>, answers: seq<Entry>, additionals: seq<Entry>)
    requires Filed(groups) && forall e :: e in additionals <==> Reachable(groups, answers, e)
    ensures Complete(Database(groups), answers, additionals)
  {
    hide Filed, Database, Related, BringsIn;
    forall b | b in additionals
      ensures exists a :: (a in answers || a in additionals) && BringsIn(Database(groups), a, b)
    {
      var path :| |path| >= 2 && path[0] in answers && path[|path| - 1] == b && IsPath(groups, path);
      var init, a := path[..|path| - 1], path[|path| - 2];
      RelatedExactly(groups, a, b);
      if |init| >= 2 {
        assert IsPath(groups, init) && init[|init| - 1] == a;
        assert Reachable(groups, answers, a);
      }
    }
    forall a, b | (a in answers || a in additionals) && BringsIn(Database(groups), a, b)
      ensures b in additionals
    {
      RelatedExactly(groups, a, b);
      if a in answers {
        ReachDirect(groups, answers, a, b);
      } else {
        ReachOnwards(groups, answers, a, b);
      }
    }
  }

  // ----- what the asker has -----

  /** The same name and type, and for a PTR record the same target: what the asker's record must be to count. */
  predicate SameRecord(a: Entry, b: Entry) {
    && a.name == b.name
    && match b.data
       case A(_) => a.data.A?
       case Aaaa(_) => a.data.Aaaa?
       case PtrTo(entry) => a.data == PtrNamed(entry.name) || (a.data.PtrTo? && a.data.entry.name == entry.name)
       case PtrNamed(name) => a.data == PtrNamed(name) || (a.data.PtrTo? && a.data.entry.name == name)
       case Txt(_) => a.data.Txt?
       case Srv(_, _) => a.data.Srv?
       case Nsec(_) => a.data.Nsec?
  }

  lemma SameExactly(a: Entry, b: Entry)
    ensures Same(a, b) <==> SameRecord(a, b)
  {
  }

  /** An answer is left out exactly if the first such record that the asker sent has half of the lifetime left, in whole
      seconds. */
  lemma KnownExactly(known: seq<Entry>, e: Entry)
    ensures IsKnown(known, e) <==>
      exists i :: 0 <= i < |known| && SameRecord(known[i], e) && 2 * known[i].ttl + 1 >= e.ttl
                  && forall k :: 0 <= k < i ==> !SameRecord(known[k], e)
  {
    hide Same, SameRecord;
    forall k | 0 <= k < |known| ensures Same(known[k], e) <==> SameRecord(known[k], e) {
      SameExactly(known[k], e);
    }
    var i := FirstSame(known, e);
    if i < |known| {
      assert SameRecord(known[i], e);
    }
  }

  // ----- the services of a server -----

  /** A reply tells all about a service: where it runs and its texts; and all that is stored about the target, with the
      NSEC record of each address. */
  ghost predicate TellsAll(db: set<Entry>, s: Service, additionals: seq<Entry>) {
    && s.srv in additionals && (forall e :: e in s.txt ==> e in additionals)
    && s.srv.data.Srv?
    && (forall e :: e in db && e.name == s.srv.data.target && !e.data.Nsec? ==> e in additionals)
    && (forall e, n :: AddressWith(db, s.srv.data.target, e, n) ==> n in additionals)
  }

  /** A stored address of the host, and an NSEC record of it. */
  predicate AddressWith(db: set<Entry>, target: Name, address: Entry, nsec: Entry) {
    && address in db && address.name == target && (address.data.A? || address.data.Aaaa?)
    && nsec in db && nsec.name == target && nsec.data.Nsec?
  }

  /** An address of the host, and an NSEC record with the bit of its type. */
  ghost predicate HostIn(additionals: seq<Entry>, target: Name) {
    exists address, nsec :: address in additionals && nsec in additionals && HostPair(address, nsec, target)
  }

  predicate HostPair(address: Entry, nsec: Entry, target: Name) {
    && address.name == target && nsec.name == target
    && match address.data
       case A(_) => nsec.data == Nsec([0x40, 0, 0, 0, 0])
       case Aaaa(_) => nsec.data == Nsec([0, 0, 0, 0x08, 0])
       case _ => false
  }

  /** Whoever gets the PTR record of a live service gets all about it; so does who gets the record that lists its type. */
  lemma PointerTellsAll(db: set<Entry>, live: set<Service>, s: Service, answers: seq<Entry>, additionals: seq<Entry>)
    requires LiveOk(db, live) && s in live && Complete(db, answers, additionals)
    requires s.ptr in answers || s.ptr in additionals || s.bptr in answers
    ensures TellsAll(db, s, additionals)
    ensures s.bptr in answers ==> s.ptr in additionals
  {
    hide SetOf;
    LiveMember(db, live, s);
    assert s.srv in s.All() && s.ptr in s.All();
    if s.bptr in answers {
      assert BringsIn(db, s.bptr, s.ptr);
    }
    assert BringsIn(db, s.ptr, s.srv);
    forall e | e in s.txt ensures e in additionals {
      TextIn(s, e);
      assert BringsIn(db, s.srv, e);
    }
    forall e | e in db && e.name == s.srv.data.target && !e.data.Nsec? ensures e in additionals {
      assert BringsIn(db, s.srv, e);
    }
    forall e, n | AddressWith(db, s.srv.data.target, e, n)
      ensures n in additionals
    {
      assert BringsIn(db, e, n);
    }
  }

  lemma TextIn(s: Service, e: Entry)
    requires e in s.txt
    ensures e in s.All()
  {
  }

  predicate RunsHere(hostname: Option<Name>, s: Service) {
    hostname.Some? && s.srv.data.Srv? && s.srv.data.target == hostname.value
  }

  /** The host's own address and its NSEC record, with the bit of that address, come with a service that runs there. */
  lemma HostTold(db: set<Entry>, hostname: Option<Name>, s: Service, additionals: seq<Entry>)
    requires HostOk(db, hostname) && RunsHere(hostname, s) && TellsAll(db, s, additionals)
    ensures HostIn(additionals, hostname.value)
  {
    var address, nsec := HostMember(db, hostname);
    assert AddressWith(db, hostname.value, address, nsec);
    assert HostPair(address, nsec, hostname.value) && address in additionals && nsec in additionals;
  }

  /** A query to a server, in terms of what is stored: the answers, what the asker has already, and what comes along. */
  method Browse(server: Server, reply: Reply, questions: seq<Question>, known: seq<Entry>) returns (count: nat)
    requires server.Valid()
    modifies reply
    ensures server.Valid() && Distinct(reply.answers) && Distinct(reply.additionals)
    ensures forall e :: e in reply.answers <==>
      e in server.Db() && !IsKnown(known, e) && exists q :: q in questions && e.name == q.name && OfKind(q.kind, e.data)
    ensures Complete(server.Db(), reply.answers, reply.additionals)
    ensures forall e :: e in reply.answers && e.data.PtrTo? ==> e.data.entry in reply.additionals
    ensures forall s :: s in server.live && (s.ptr in reply.answers || s.bptr in reply.answers) ==>
      TellsAll(server.Db(), s, reply.additionals)
    ensures forall s :: s in server.live && s.bptr in reply.answers ==> s.ptr in reply.additionals
    ensures count == |reply.answers| % 0x10000
  {
    hide Filed, Database, LiveOk, PointersOk, ListsOk, HostOk, Complete, TellsAll, IsKnown, Reachable, Asked, OfKind;
    count := reply.ProcessQuery(server.groups, questions, known);
    ghost var db := server.Db();
    AskedExactly(server.groups, questions);
    ReachedComplete(server.groups, reply.answers, reply.additionals);
    forall e | e in reply.answers && e.data.PtrTo? ensures e.data.entry in reply.additionals {
      PointerBrings(db, server.live, e, reply.answers, reply.additionals);
    }
    forall s | s in server.live && (s.ptr in reply.answers || s.bptr in reply.answers)
      ensures TellsAll(db, s, reply.additionals)
      ensures s.bptr in reply.answers ==> s.ptr in reply.additionals
    {
      PointerTellsAll(db, server.live, s, reply.answers, reply.additionals);
    }
  }

  lemma AskedExactly(groups: seq<Group>, questions: seq<Question>)
    requires Filed(groups)
    ensures forall e :: Asked(groups, questions, e) <==>
      e in Database(groups) && exists q :: q in questions && e.name == q.name && OfKind(q.kind, e.data)
  {
    hide Filed, Database, Answers, OfKind;
    forall e | Asked(groups, questions, e)
      ensures e in Database(groups) && exists q :: q in questions && e.name == q.name && OfKind(q.kind, e.data)
    {
      var i :| 0 <= i < |questions| && Answers(groups, questions[i].name, questions[i].kind, e);
      AnswersExactly(groups, questions[i].name, questions[i].kind, e);
    }
    forall e, q | e in Database(groups) && q in questions && e.name == q.name && OfKind(q.kind, e.data)
      ensures Asked(groups, questions, e)
    {
      AnswersExactly(groups, q.name, q.kind, e);
    }
  }

  /** A stored PTR record brings in the stored record that it refers to. */
  lemma PointerBrings(db: set<Entry>, live: set<Service>, e: Entry, answers: seq<Entry>, additionals: seq<Entry>)
    requires LiveOk(db, live) && PointersOk(db, live) && Complete(db, answers, additionals)
    requires e in db && e in answers && e.data.PtrTo?
    ensures e.data.entry in additionals
  {
    hide SetOf, LiveOk;
    TargetStored(db, live, e);
    var s :| s in live && (e == s.ptr || e == s.bptr);
    LiveMember(db, live, s);
    assert BringsIn(db, e, e.data.entry);
  }

  /** A service is found by browsing for its type: its PTR record is an answer unless the asker has it. */
  method BrowseType(server: Server, reply: Reply, typeName: Name, known: seq<Entry>) returns (count: nat)
    requires server.Valid()
    modifies reply
    ensures forall e :: e in reply.answers <==>
      e in server.Db() && e.name == typeName && (e.data.PtrTo? || e.data.PtrNamed?) && !IsKnown(known, e)
    ensures forall s :: s in server.live && s.ptr.name == typeName && !IsKnown(known, s.ptr) ==>
      s.ptr in reply.answers && TellsAll(server.Db(), s, reply.additionals)
    ensures forall s :: s in server.live && s.ptr in reply.answers && RunsHere(server.hostname, s) ==>
      HostIn(reply.additionals, server.hostname.value)
  {
    hide Filed, Database, LiveOk, PointersOk, ListsOk, HostOk, Complete, TellsAll, IsKnown;
    var q := Question(typeName, TypePtr, false);
    count := Browse(server, reply, [q], known);
    assert q in [q] && forall p :: p in [q] ==> p == q;
    forall s | s in server.live ensures s.ptr in server.Db() && s.ptr.data.PtrTo? {
      LiveMember(server.Db(), server.live, s);
      assert s.ptr in s.All();
    }
    forall s | s in server.live && s.ptr in reply.answers && RunsHere(server.hostname, s)
      ensures HostIn(reply.additionals, server.hostname.value)
    {
      HostTold(server.Db(), server.hostname, s, reply.additionals);
    }
  }

  // ----- the list of types -----

  function Label(text: string): seq<int> {
    [|text|] + seq(|text|, i requires 0 <= i < |text| => text[i] as int)
  }

  lemma WellKnownName()
    ensures SERVICES_DNS_SD == Label("_services") + Label("_dns-sd") + Label("_udp") + Label("local")
  {
  }
}
