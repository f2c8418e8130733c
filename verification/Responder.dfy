/** Answering a query in lib/tinysvcmdns/mdnsd.c: the answers, and the additional records that go with them. */
module Responder {
  import opened RecordStore

  // ----- which records are asked for, and which are related -----

  /** Does the record answer a question for `name` and `kind`? `Any` stands for every type but NSEC. */
  predicate Answers(groups: seq<Group>, name: Name, kind: Type, e: Entry) {
    && e in Under(groups, name) && e.name == name
    && (kind == TypeOf(e) || (kind == Any && TypeOf(e) != TypeNsec))
  }

  /** `b` is looked up because of `a`. */
  predicate Related(groups: seq<Group>, a: Entry, b: Entry) {
    match TypeOf(a)
    case TypePtr => Answers(groups, PtrName(a), Any, b)
    case TypeSrv => Answers(groups, a.data.target, Any, b) || Answers(groups, a.name, TypeTxt, b)
    case TypeA => Answers(groups, a.name, TypeNsec, b)
    case TypeAaaa => Answers(groups, a.name, TypeNsec, b)
    case _ => false
  }

  /** Each record of the path is related to the one before it. */
  predicate IsPath(groups: seq<Group>, path: seq<Entry>) {
    forall k :: 0 < k < |path| ==> Related(groups, path[k - 1], path[k])
  }

  /** Reachable from one of the roots in one or more related steps. */
  ghost predicate Reachable(groups: seq<Group>, roots: seq<Entry>, e: Entry) {
    exists path :: |path| >= 2 && path[0] in roots && path[|path| - 1] == e && IsPath(groups, path)
  }

  lemma ReachDirect(groups: seq<Group>, roots: seq<Entry>, a: Entry, b: Entry)
    requires a in roots && Related(groups, a, b)
    ensures Reachable(groups, roots, b)
  {
    assert IsPath(groups, [a, b]);
  }

  lemma ReachOnwards(groups: seq<Group>, roots: seq<Entry>, a: Entry, b: Entry)
    requires Reachable(groups, roots, a) && Related(groups, a, b)
    ensures Reachable(groups, roots, b)
  {
    var path :| |path| >= 2 && path[0] in roots && path[|path| - 1] == a && IsPath(groups, path);
    assert IsPath(groups, path + [b]);
  }

  /** What is closed under being related, and holds what is related to the roots, holds all that is reachable. */
  lemma {:induction false} ClosedHoldsPath(groups: seq<Group>, roots: seq<Entry>, found: seq<Entry>, path: seq<Entry>)
    requires forall a, b :: a in roots && Related(groups, a, b) ==> b in found
    requires forall a, b :: a in found && Related(groups, a, b) ==> b in found
    requires |path| >= 2 && path[0] in roots && IsPath(groups, path)
    ensures path[|path| - 1] in found
    decreases |path|
  {
    var init := path[..|path| - 1];
    if |init| >= 2 {
      ClosedHoldsPath(groups, roots, found, init);
    }
    assert Related(groups, path[|path| - 2], path[|path| - 1]);
  }

  lemma ClosedHoldsReachable(groups: seq<Group>, roots: seq<Entry>, found: seq<Entry>)
    requires forall a, b :: a in roots && Related(groups, a, b) ==> b in found
    requires forall a, b :: a in found && Related(groups, a, b) ==> b in found
    ensures forall e :: Reachable(groups, roots, e) ==> e in found
  {
    forall e | Reachable(groups, roots, e)
      ensures e in found
    {
      var path :| |path| >= 2 && path[0] in roots && path[|path| - 1] == e && IsPath(groups, path);
      ClosedHoldsPath(groups, roots, found, path);
    }
  }

  lemma AnswersStored(groups: seq<Group>, name: Name, kind: Type, e: Entry)
    requires Answers(groups, name, kind, e)
    ensures e in Database(groups)
  {
    assert e in groups[IndexOf(groups, name)].rrs;
  }

  lemma RelatedStored(groups: seq<Group>, a: Entry, b: Entry)
    requires Related(groups, a, b)
    ensures b in Database(groups)
  {
    hide Answers, Database;
    if a.data.Srv? {
      if Answers(groups, a.name, TypeTxt, b) {
        AnswersStored(groups, a.name, TypeTxt, b);
      } else {
        AnswersStored(groups, a.data.target, Any, b);
      }
    } else if TypeOf(a) == TypePtr {
      AnswersStored(groups, PtrName(a), Any, b);
    } else {
      AnswersStored(groups, a.name, TypeNsec, b);
    }
  }

  // ----- questions and known answers -----

  datatype Question = Question(name: Name, kind: Type, unicast: bool)

  ghost predicate Asked(groups: seq<Group>, questions: seq<Question>, e: Entry) {
    exists i :: 0 <= i < |questions| && Answers(groups, questions[i].name, questions[i].kind, e)
  }

  lemma AskedMore(groups: seq<Group>, questions: seq<Question>, i: nat, before: seq<Entry>, after: seq<Entry>)
    requires i < |questions|
    requires forall e :: e in before <==> Asked(groups, questions[..i], e)
    requires forall e :: e in after <==> e in before || Answers(groups, questions[i].name, questions[i].kind, e)
    ensures forall e :: e in after <==> Asked(groups, questions[..i + 1], e)
  {
    hide Answers;
    forall e | e in after
      ensures Asked(groups, questions[..i + 1], e)
    {
      if e in before {
        var k :| 0 <= k < i && Answers(groups, questions[..i][k].name, questions[..i][k].kind, e);
        assert questions[..i + 1][k] == questions[..i][k];
      } else {
        assert questions[..i + 1][i] == questions[i];
      }
    }
    forall e | Asked(groups, questions[..i + 1], e)
      ensures e in after
    {
      var k :| 0 <= k < i + 1 && Answers(groups, questions[..i + 1][k].name, questions[..i + 1][k].kind, e);
      if k < i {
        assert questions[..i][k] == questions[..i + 1][k];
        assert Asked(groups, questions[..i], e);
      }
    }
  }

  /** `rr_entry_match`: same type and name, and for a PTR record the same target name. */
  predicate Same(a: Entry, b: Entry) {
    TypeOf(a) == TypeOf(b) && a.name == b.name && (TypeOf(b) == TypePtr ==> PtrName(b) == PtrName(a))
  }

  /** The index of the first record that is the same, or their number. */
  function FirstSame(list: seq<Entry>, e: Entry): (i: nat)
    ensures i <= |list| && (i < |list| ==> Same(list[i], e)) && forall k :: 0 <= k < i ==> !Same(list[k], e)
  {
    if list == [] || Same(list[0], e) then 0 else 1 + FirstSame(list[1..], e)
  }

  method Match(list: seq<Entry>, e: Entry) returns (i: nat)
    ensures i == FirstSame(list, e)
  {
    i := 0;
    while i < |list| && !Same(list[i], e)
      invariant i <= |list| && FirstSame(list, e) == i + FirstSame(list[i..], e)
    {
      i := i + 1;
    }
  }

  /** The asker has the record, with at least half of its lifetime left (RFC 6762 section 7.1). */
  predicate IsKnown(known: seq<Entry>, e: Entry) {
    var i := FirstSame(known, e);
    i < |known| && known[i].ttl >= e.ttl / 2
  }

  function Unknown(list: seq<Entry>, known: seq<Entry>): seq<Entry> {
    if list == [] then []
    else if IsKnown(known, list[0]) then Unknown(list[1..], known)
    else [list[0]] + Unknown(list[1..], known)
  }

  lemma {:induction false} UnknownContents(list: seq<Entry>, known: seq<Entry>)
    requires Distinct(list)
    ensures Distinct(Unknown(list, known))
    ensures forall e :: e in Unknown(list, known) <==> e in list && !IsKnown(known, e)
  {
    hide IsKnown;
    if list != [] {
      UnknownContents(list[1..], known);
      if !IsKnown(known, list[0]) {
        DistinctCons(list[0], Unknown(list[1..], known));
      }
    }
  }

  lemma UnknownStep(list: seq<Entry>, known: seq<Entry>, i: nat)
    requires i < |list|
    ensures var cut := list[..i] + list[i + 1..];
      IsKnown(known, list[i]) ==> cut[..i] + Unknown(cut[i..], known) == list[..i] + Unknown(list[i..], known)
    ensures !IsKnown(known, list[i]) ==>
      list[..i + 1] + Unknown(list[i + 1..], known) == list[..i] + Unknown(list[i..], known)
  {
    hide IsKnown;
    var cut := list[..i] + list[i + 1..];
    assert list[i..][1..] == list[i + 1..];
    assert cut[..i] == list[..i] && cut[i..] == list[i + 1..];
    assert list[..i + 1] == list[..i] + [list[i]];
  }

  lemma CountDown(n: nat)
    requires n > 0
    ensures (n % 0x10000 + 0xFFFF) % 0x10000 == (n - 1) % 0x10000
  {
  }

  lemma UnknownNone(list: seq<Entry>, known: seq<Entry>)
    ensures list[..|list|] + Unknown(list[|list|..], known) == list
  {
  }

  lemma UnknownAll(list: seq<Entry>, known: seq<Entry>)
    ensures list[..0] + Unknown(list[0..], known) == Unknown(list, known)
  {
    assert list[0..] == list;
  }

  // ----- looking up -----

  /** `populate_answers`: appends the records that answer, once each, and counts the ones that are new. */
  method Populate(groups: seq<Group>, list: seq<Entry>, name: Name, kind: Type) returns (r: seq<Entry>, count: nat)
    ensures list <= r && count == |r| - |list|
    ensures Distinct(list) ==> Distinct(r)
    ensures forall e :: e in r <==> e in list || Answers(groups, name, kind, e)
  {
    r, count := list, 0;
    var g := GroupFind(groups, name);
    if g == |groups| {
      return;
    }
    var rrs := groups[g].rrs;
    for n := 0 to |rrs|
      invariant list <= r && count == |r| - |list| && (Distinct(list) ==> Distinct(r))
      invariant forall e :: e in r <==> e in list || (e in rrs[..n] && Answers(groups, name, kind, e))
    {
      var e := rrs[n];
      assert e in rrs;
      if kind == Any && TypeOf(e) == TypeNsec {
        continue;
      }
      if (kind == TypeOf(e) || kind == Any) && e.name == name {
        var added;
        r, added := ListAppend(r, e);
        count := count + added;
      }
    }
    assert rrs[..|rrs|] == rrs;
  }

  /** A reply under construction; the counters are 16 bits wide. */
  class Reply {
    var answers: seq<Entry>
    var additionals: seq<Entry>
    var numAnswers: nat
    var numAdditionals: nat
    var unicast: bool

    constructor ()
      ensures answers == [] && additionals == [] && numAnswers == 0 && numAdditionals == 0 && !unicast
    {
      answers, additionals, numAnswers, numAdditionals, unicast := [], [], 0, 0, false;
    }

    predicate Counted()
      reads this
    {
      numAnswers == |answers| % 0x10000 && numAdditionals == |additionals| % 0x10000
    }

    /** One call of `populate_answers` on the additional records. */
    method AddAnswers(groups: seq<Group>, name: Name, kind: Type)
      requires Counted() && Distinct(additionals)
      modifies this`additionals, this`numAdditionals
      ensures Counted() && Distinct(additionals) && old(additionals) <= additionals
      ensures forall e :: e in additionals <==> e in old(additionals) || Answers(groups, name, kind, e)
    {
      var count;
      additionals, count := Populate(groups, additionals, name, kind);
      numAdditionals := (numAdditionals + count) % 0x10000;
    }

    /** The `switch` of `add_related_rr`: everything related to one record. */
    method AddRelatedTo(groups: seq<Group>, ans: Entry)
      requires Counted() && Distinct(additionals)
      modifies this`additionals, this`numAdditionals
      ensures Counted() && Distinct(additionals) && old(additionals) <= additionals
      ensures forall e :: e in additionals <==> e in old(additionals) || Related(groups, ans, e)
    {
      hide Answers;
      match TypeOf(ans)
      case TypePtr =>
        AddAnswers(groups, PtrName(ans), Any);
      case TypeSrv =>
        AddAnswers(groups, ans.data.target, Any);
        AddAnswers(groups, ans.name, TypeTxt);
      case TypeA =>
        AddAnswers(groups, ans.name, TypeNsec);
      case TypeAaaa =>
        AddAnswers(groups, ans.name, TypeNsec);
      case _ =>
    }

    /** The loop over the questions of a query, into an empty reply. */
    method AnswerQuestions(groups: seq<Group>, questions: seq<Question>)
      modifies this
      ensures Counted() && Distinct(answers) && additionals == []
      ensures forall e :: e in answers <==> Asked(groups, questions, e)
      ensures unicast <==> exists i :: 0 <= i < |questions| && questions[i].unicast
    {
      hide Answers;
      answers, additionals, numAnswers, numAdditionals, unicast := [], [], 0, 0, false;
      for i := 0 to |questions|
        invariant Counted() && Distinct(answers) && additionals == []
        invariant forall e :: e in answers <==> Asked(groups, questions[..i], e)
        invariant unicast <==> exists k :: 0 <= k < i && questions[k].unicast
      {
        var q := questions[i];
        unicast := unicast || q.unicast;
        var count;
        ghost var before := answers;
        answers, count := Populate(groups, answers, q.name, q.kind);
        AskedMore(groups, questions, i, before, answers);
        numAnswers := (numAnswers + count) % 0x10000;
      }
      assert questions[..|questions|] == questions;
    }

    /** Takes out the answers that the asker already has, and that it will keep for half of their lifetime at least. */
    method SuppressKnown(known: seq<Entry>)
      requires Counted()
      modifies this`answers, this`numAnswers
      ensures Counted() && answers == Unknown(old(answers), known)
    {
      hide Unknown, Same;
      ghost var all := answers;
      var i := 0;
      UnknownAll(answers, known);
      while i < |answers|
        invariant i <= |answers| && Counted()
        invariant answers[..i] + Unknown(answers[i..], known) == Unknown(all, known)
        decreases |answers| - i
      {
        UnknownStep(answers, known, i);
        CountDown(|answers|);
        var k := Match(known, answers[i]);
        if k < |known| && known[k].ttl >= answers[i].ttl / 2 {
          answers := answers[..i] + answers[i + 1..];
          numAnswers := (numAnswers + 0xFFFF) % 0x10000;
        } else {
          i := i + 1;
        }
      }
      UnknownNone(answers, known);
    }

    /** The query half of `process_mdns_pkt`. */
    method ProcessQuery(groups: seq<Group>, questions: seq<Question>, known: seq<Entry>) returns (count: nat)
      modifies this
      ensures Distinct(answers) && forall e :: e in answers <==> Asked(groups, questions, e) && !IsKnown(known, e)
      ensures Distinct(additionals) && forall e :: e in additionals <==> Reachable(groups, answers, e)
      ensures Counted() && count == numAnswers
    {
      hide Answers, Related, Reachable, Unknown;
      AnswerQuestions(groups, questions);
      UnknownContents(answers, known);
      SuppressKnown(known);
      AddRelatedToAnswers(groups);
      AddRelatedToAdditionals(groups, answers);
      return numAnswers;
    }

    /** `add_related_rr` on the answers. */
    method AddRelatedToAnswers(groups: seq<Group>)
      requires Counted() && additionals == []
      modifies this`additionals, this`numAdditionals
      ensures Counted() && Distinct(additionals)
      ensures forall e :: e in additionals <==> exists a :: a in answers && Related(groups, a, e)
    {
      hide Related;
      for i := 0 to |answers|
        invariant Counted() && Distinct(additionals)
        invariant forall e :: e in additionals <==> exists a :: a in answers[..i] && Related(groups, a, e)
      {
        ghost var before := additionals;
        AddRelatedTo(groups, answers[i]);
        MoreRoots(groups, answers, i, before, additionals);
      }
      assert answers[..|answers|] == answers;
    }

    /** `add_related_rr` on the additional records: the list it walks is the list it appends to. */
    method AddRelatedToAdditionals(groups: seq<Group>, ghost roots: seq<Entry>)
      requires Counted() && Distinct(additionals)
      requires forall e :: e in additionals <==> exists a :: a in roots && Related(groups, a, e)
      modifies this`additionals, this`numAdditionals
      ensures Counted() && Distinct(additionals)
      ensures forall e :: e in additionals <==> Reachable(groups, roots, e)
    {
      hide Related, Reachable, Database;
      FirstStep(groups, roots, additionals);
      var i := 0;
      while i < |additionals|
        invariant i <= |additionals| && Counted() && Distinct(additionals)
        invariant forall e :: e in additionals ==> Reachable(groups, roots, e) && e in Database(groups)
        invariant forall a, b :: a in roots && Related(groups, a, b) ==> b in additionals
        invariant forall a, b :: a in additionals[..i] && Related(groups, a, b) ==> b in additionals
        decreases Database(groups) - Set(additionals), |additionals| - i
      {
        ghost var before := additionals;
        var e := additionals[i];
        AddRelatedTo(groups, e);
        NextStep(groups, roots, before, additionals, i);
        i := i + 1;
      }
      assert additionals[..i] == additionals;
      ClosedHoldsReachable(groups, roots, additionals);
    }
  }

  ghost function Set(list: seq<Entry>): set<Entry> {
    set e | e in list
  }

  lemma MoreRoots(groups: seq<Group>, answers: seq<Entry>, i: nat, before: seq<Entry>, after: seq<Entry>)
    requires i < |answers|
    requires forall e :: e in before <==> exists a :: a in answers[..i] && Related(groups, a, e)
    requires forall e :: e in after <==> e in before || Related(groups, answers[i], e)
    ensures forall e :: e in after <==> exists a :: a in answers[..i + 1] && Related(groups, a, e)
  {
    hide Related;
    forall e | e in after
      ensures exists a :: a in answers[..i + 1] && Related(groups, a, e)
    {
      if e in before {
        var a :| a in answers[..i] && Related(groups, a, e);
        assert a in answers[..i + 1];
      } else {
        assert answers[..i + 1][i] in answers[..i + 1];
      }
    }
    forall e, a | a in answers[..i + 1] && Related(groups, a, e)
      ensures e in after
    {
      if a in answers[..i] {
        assert e in before;
      } else {
        assert a == answers[i];
      }
    }
  }

  lemma FirstStep(groups: seq<Group>, roots: seq<Entry>, additionals: seq<Entry>)
    requires forall e :: e in additionals <==> exists a :: a in roots && Related(groups, a, e)
    ensures forall e :: e in additionals ==> Reachable(groups, roots, e) && e in Database(groups)
    ensures forall a, b :: a in roots && Related(groups, a, b) ==> b in additionals
  {
    hide Related, Reachable, Database;
    forall e | e in additionals
      ensures Reachable(groups, roots, e) && e in Database(groups)
    {
      var a :| a in roots && Related(groups, a, e);
      ReachDirect(groups, roots, a, e);
      RelatedStored(groups, a, e);
    }
  }

  /** One turn of the worklist keeps its invariants, and makes progress in the database or in the list. */
  lemma NextStep(groups: seq<Group>, roots: seq<Entry>, before: seq<Entry>, after: seq<Entry>, i: nat)
    requires i < |before| && before <= after
    requires forall e :: e in before ==> Reachable(groups, roots, e) && e in Database(groups)
    requires forall a, b :: a in before[..i] && Related(groups, a, b) ==> b in before
    requires forall e :: e in after <==> e in before || Related(groups, before[i], e)
    requires Distinct(after)
    ensures forall e :: e in after ==> Reachable(groups, roots, e) && e in Database(groups)
    ensures forall a, b :: a in after[..i + 1] && Related(groups, a, b) ==> b in after
    ensures after == before || Database(groups) - Set(after) < Database(groups) - Set(before)
  {
    hide Related, Reachable, Database;
    forall e | e in after
      ensures Reachable(groups, roots, e) && e in Database(groups)
    {
      if e !in before {
        ReachOnwards(groups, roots, before[i], e);
        RelatedStored(groups, before[i], e);
      }
    }
    forall a, b | a in after[..i + 1] && Related(groups, a, b)
      ensures b in after
    {
      if a in before[..i] {
        assert b in before;
      } else {
        assert a == before[i];
      }
    }
    if |after| > |before| {
      var e := after[|before|];
      assert e !in before;
      assert e in Set(after) && e in Database(groups) - Set(before);
    }
  }
}
