/** The record lists and groups of lib/tinysvcmdns/mdns.c, as the responder of mdnsd.c uses them. */
module RecordStore {
  import opened Bytes
  import opened Options

  type Name = seq<byte>

  /** A record as an allocated object: `id` is its address, and lists compare records by it. */
  datatype Entry = Entry(id: nat, name: Name, ttl: nat, data: Data)

  datatype Data =
    | A(addr: seq<byte>)
    | Aaaa(addr6: seq<byte>)
    | PtrTo(entry: Entry)       // refers to another record
    | PtrNamed(ptrName: Name)   // carries the name itself
    | Txt(texts: seq<seq<byte>>)
    | Srv(port: nat, target: Name)
    | Nsec(bitmap: seq<byte>)

  datatype Type = TypeA | TypePtr | TypeTxt | TypeAaaa | TypeSrv | TypeNsec | Any

  function TypeOf(e: Entry): Type {
    match e.data
    case A(_) => TypeA
    case Aaaa(_) => TypeAaaa
    case PtrTo(_) => TypePtr
    case PtrNamed(_) => TypePtr
    case Txt(_) => TypeTxt
    case Srv(_, _) => TypeSrv
    case Nsec(_) => TypeNsec
  }

  /** `MDNS_RR_GET_PTR_NAME`. */
  function PtrName(e: Entry): Name
    requires TypeOf(e) == TypePtr
  {
    match e.data
    case PtrTo(entry) => entry.name
    case PtrNamed(name) => name
  }

  datatype Group = Group(name: Name, rrs: seq<Entry>)

  ghost predicate Distinct<T>(list: seq<T>) {
    forall i, j :: 0 <= i < j < |list| ==> list[i] != list[j]
  }

  // ----- lists -----

  /** `rr_list_append`: at the end, unless it is there already. */
  function Appended(list: seq<Entry>, e: Entry): (r: seq<Entry>)
    ensures Distinct(list) ==> Distinct(r)
    ensures forall x :: x in r <==> x in list || x == e
  {
    if e in list then list else list + [e]
  }

  method ListAppend(list: seq<Entry>, e: Entry) returns (r: seq<Entry>, added: nat)
    ensures r == Appended(list, e) && added == |r| - |list| <= 1
  {
    for i := 0 to |list|
      invariant e !in list[..i]
    {
      if list[i] == e {
        return list, 0;
      }
    }
    assert list[..|list|] == list;
    return list + [e], 1;
  }

  /** `rr_list_remove`: without the first occurrence. */
  function Removed(list: seq<Entry>, e: Entry): (r: seq<Entry>)
    ensures e !in list ==> r == list
  {
    if list == [] then []
    else if list[0] == e then list[1..]
    else [list[0]] + Removed(list[1..], e)
  }

  lemma {:induction false} RemovedContents(list: seq<Entry>, e: Entry)
    requires Distinct(list)
    ensures Distinct(Removed(list, e)) && forall x :: x in Removed(list, e) <==> x in list && x != e
  {
    if list != [] {
      RemovedContents(list[1..], e);
      if list[0] != e {
        DistinctCons(list[0], Removed(list[1..], e));
      }
    }
  }

  lemma DistinctCons(e: Entry, list: seq<Entry>)
    requires Distinct(list) && e !in list
    ensures Distinct([e] + list)
  {
  }

  lemma {:induction false} RemovedAt(list: seq<Entry>, k: nat)
    requires k < |list| && list[k] !in list[..k]
    ensures Removed(list, list[k]) == list[..k] + list[k + 1..]
  {
    if k > 0 {
      assert list[1..][..k - 1] == list[..k][1..];
      RemovedAt(list[1..], k - 1);
    }
  }

  method ListRemove(list: seq<Entry>, e: Entry) returns (r: seq<Entry>)
    ensures r == Removed(list, e)
  {
    for k := 0 to |list|
      invariant e !in list[..k]
    {
      if list[k] == e {
        RemovedAt(list, k);
        return list[..k] + list[k + 1..];
      }
    }
    assert list[..|list|] == list;
    return list;
  }

  // ----- groups -----

  /** The index of the first group of that name, or their number. */
  function IndexOf(groups: seq<Group>, name: Name): (i: nat)
    ensures i <= |groups| && (i < |groups| ==> groups[i].name == name)
    ensures forall k :: 0 <= k < i ==> groups[k].name != name
  {
    if groups == [] || groups[0].name == name then 0 else 1 + IndexOf(groups[1..], name)
  }

  method GroupFind(groups: seq<Group>, name: Name) returns (i: nat)
    ensures i == IndexOf(groups, name)
  {
    i := 0;
    while i < |groups| && groups[i].name != name
      invariant i <= |groups| && IndexOf(groups, name) == i + IndexOf(groups[i..], name)
    {
      i := i + 1;
    }
  }

  /** The records filed under a name. */
  function Under(groups: seq<Group>, name: Name): seq<Entry> {
    var i := IndexOf(groups, name);
    if i < |groups| then groups[i].rrs else []
  }

  /** All the records of the database. */
  ghost function Database(groups: seq<Group>): set<Entry> {
    set i, e | 0 <= i < |groups| && e in groups[i].rrs :: e
  }

  lemma InGroup(groups: seq<Group>, e: Entry) returns (i: nat)
    requires e in Database(groups)
    ensures i < |groups| && e in groups[i].rrs
  {
    i :| 0 <= i < |groups| && e in groups[i].rrs;
  }

  /** One group for a name, each record once and in the group of its name, no group without records. */
  ghost predicate Filed(groups: seq<Group>) {
    && (forall i, j :: 0 <= i < j < |groups| ==> groups[i].name != groups[j].name)
    && (forall i, e :: 0 <= i < |groups| && e in groups[i].rrs ==> e.name == groups[i].name)
    && (forall i :: 0 <= i < |groups| ==> Distinct(groups[i].rrs))
  }

  ghost predicate NoneEmpty(groups: seq<Group>) {
    forall i :: 0 <= i < |groups| ==> groups[i].rrs != []
  }

  /** `rr_group_add`: into the group of its name, or into a new group in front. */
  function Added(groups: seq<Group>, e: Entry): seq<Group> {
    var i := IndexOf(groups, e.name);
    if i < |groups| then groups[i := groups[i].(rrs := Appended(groups[i].rrs, e))]
    else [Group(e.name, [e])] + groups
  }

  lemma AddedFiled(groups: seq<Group>, e: Entry)
    requires Filed(groups)
    ensures Filed(Added(groups, e)) && (NoneEmpty(groups) ==> NoneEmpty(Added(groups, e)))
    ensures Database(Added(groups, e)) == Database(groups) + {e}
  {
    hide Database, Appended, IndexOf;
    AddedContents(groups, e);
    var i, r := IndexOf(groups, e.name), Added(groups, e);
    if i < |groups| {
      AddedInside(groups[i], e);
      assert |r| == |groups| && r[i].name == groups[i].name;
      assert forall k :: 0 <= k < |groups| && k != i ==> r[k] == groups[k];
    } else {
      assert r[0] == Group(e.name, [e]);
      assert forall k :: 1 <= k < |r| ==> r[k] == groups[k - 1];
    }
  }

  /** One group with the record in it. */
  lemma AddedInside(group: Group, e: Entry)
    requires Distinct(group.rrs) && e.name == group.name && forall x :: x in group.rrs ==> x.name == group.name
    ensures var list := Appended(group.rrs, e);
      Distinct(list) && list != [] && forall x :: x in list ==> x.name == group.name
  {
  }

  lemma AddedContents(groups: seq<Group>, e: Entry)
    ensures Database(Added(groups, e)) == Database(groups) + {e}
  {
    hide IndexOf, Appended;
    var i, r := IndexOf(groups, e.name), Added(groups, e);
    var shift := if i < |groups| then 0 else 1;
    assert e in r[if i < |groups| then i else 0].rrs;
    forall x | x in Database(groups) ensures x in Database(r) {
      var k := InGroup(groups, x);
      assert x in r[k + shift].rrs;
    }
    forall x | x in Database(r) && x != e ensures x in Database(groups) {
      var k := InGroup(r, x);
      assert k >= shift && x in groups[k - shift].rrs;
    }
  }

  method GroupAdd(groups: seq<Group>, e: Entry) returns (r: seq<Group>)
    ensures r == Added(groups, e)
  {
    if groups != [] {
      var i := GroupFind(groups, e.name);
      if i < |groups| {
        var list, n := ListAppend(groups[i].rrs, e);
        return groups[i := groups[i].(rrs := list)];
      }
    }
    var list, n := ListAppend([], e);
    assert list == [e];
    return [Group(e.name, list)] + groups;
  }

  /** `rr_list_remove` inside the group of the record's name. */
  function Dropped(groups: seq<Group>, e: Entry): seq<Group> {
    var i := IndexOf(groups, e.name);
    if i < |groups| then groups[i := groups[i].(rrs := Removed(groups[i].rrs, e))] else groups
  }

  lemma DroppedFiled(groups: seq<Group>, e: Entry)
    requires Filed(groups)
    ensures Filed(Dropped(groups, e))
    ensures Database(Dropped(groups, e)) == Database(groups) - {e}
  {
    var i, r := IndexOf(groups, e.name), Dropped(groups, e);
    if i < |groups| {
      RemovedContents(groups[i].rrs, e);
    }
    forall x | x in Database(groups) && x != e ensures x in Database(r) {
      var k := InGroup(groups, x);
      assert x in r[k].rrs;
    }
    forall x | x in Database(r) ensures x in Database(groups) && x != e {
      var k := InGroup(r, x);
      assert x in groups[k].rrs;
    }
  }

  /** A PTR record that refers to `target`. */
  predicate PointsTo(e: Entry, target: Entry) {
    e.data.PtrTo? && e.data.entry == target
  }

  /** `rr_entry_remove` for PTR records: takes out the first one that refers to `target`. */
  method EntryRemove(groups: seq<Group>, target: Entry) returns (r: seq<Group>, e: Option<Entry>)
    requires Filed(groups)
    ensures e.None? ==> r == groups && forall x :: x in Database(groups) ==> !PointsTo(x, target)
    ensures e.Some? ==> r == Dropped(groups, e.value) && e.value in Database(groups) && PointsTo(e.value, target)
  {
    for i := 0 to |groups|
      invariant forall k, x :: 0 <= k < i && x in groups[k].rrs ==> !PointsTo(x, target)
    {
      var list := groups[i].rrs;
      for k := 0 to |list|
        invariant forall x :: x in list[..k] ==> !PointsTo(x, target)
      {
        if PointsTo(list[k], target) {
          assert list[k] in groups[i].rrs;
          RemovedAt(list, k);
          OwnGroup(groups, i, list[k]);
          return groups[i := groups[i].(rrs := list[..k] + list[k + 1..])], Some(list[k]);
        }
      }
      assert list[..|list|] == list;
    }
    return groups, None;
  }

  lemma OwnGroup(groups: seq<Group>, i: nat, e: Entry)
    requires Filed(groups) && i < |groups| && e in groups[i].rrs
    ensures IndexOf(groups, e.name) == i
  {
    assert groups[i].name == e.name;
  }

  /** `rr_group_clean`: without the groups that hold nothing. */
  function Cleaned(groups: seq<Group>): (r: seq<Group>)
    ensures NoneEmpty(r)
  {
    if groups == [] then []
    else if groups[0].rrs == [] then Cleaned(groups[1..])
    else [groups[0]] + Cleaned(groups[1..])
  }

  lemma {:induction false} CleanedContents(groups: seq<Group>)
    ensures forall g :: g in Cleaned(groups) <==> g in groups && g.rrs != []
  {
    if groups != [] {
      CleanedContents(groups[1..]);
    }
  }

  lemma {:induction false} CleanedFiled(groups: seq<Group>)
    requires Filed(groups)
    ensures Filed(Cleaned(groups))
    ensures Database(Cleaned(groups)) == Database(groups)
    decreases groups
  {
    CleanedContents(groups);
    var r := Cleaned(groups);
    if groups != [] {
      assert Filed(groups[1..]) by {
        assert forall i :: 0 <= i < |groups| - 1 ==> groups[1..][i] == groups[i + 1];
      }
      CleanedFiled(groups[1..]);
      CleanedContents(groups[1..]);
    }
    forall x | x in Database(groups) ensures x in Database(r) {
      var k := InGroup(groups, x);
      assert groups[k] in r;
    }
    forall x | x in Database(r) ensures x in Database(groups) {
      var k := InGroup(r, x);
      assert r[k] in groups;
    }
  }

  method GroupClean(groups: seq<Group>) returns (r: seq<Group>)
    ensures r == Cleaned(groups)
  {
    hide Cleaned;
    r := groups;
    var i := 0;
    assert r[..0] + Cleaned(r[0..]) == Cleaned(groups) by { assert r[0..] == groups; }
    while i < |r|
      invariant i <= |r| && r[..i] + Cleaned(r[i..]) == Cleaned(groups)
      decreases |r| - i
    {
      CleanedNext(r, i);
      if r[i].rrs == [] {
        r := r[..i] + r[i + 1..];
      } else {
        i := i + 1;
      }
    }
    AllCleaned(r);
  }

  /** An empty group is taken out, another one stays in front of the rest. */
  lemma CleanedNext(r: seq<Group>, i: nat)
    requires i < |r|
    ensures var without := r[..i] + r[i + 1..];
      if r[i].rrs == [] then without[..i] + Cleaned(without[i..]) == r[..i] + Cleaned(r[i..])
      else r[..i + 1] + Cleaned(r[i + 1..]) == r[..i] + Cleaned(r[i..])
  {
    assert r[i..][1..] == r[i + 1..];
    if r[i].rrs == [] {
      var without := r[..i] + r[i + 1..];
      assert without[..i] == r[..i] && without[i..] == r[i + 1..];
    } else {
      assert r[..i + 1] == r[..i] + [r[i]];
    }
  }

  lemma AllCleaned(r: seq<Group>)
    ensures r[..|r|] + Cleaned(r[|r|..]) == r
  {
  }
}
