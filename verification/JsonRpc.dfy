/** How the client of lib/jsonrpc/jsonrpc.c finds the callback for a response: the answer entries of the method table
    keep the ids of the requests that wait. See section 5 of the JSON-RPC 2.0 specification. */
module JsonRpc {
  import opened Options

  datatype Kind = Request | Notification | Answer
  datatype Entry = Entry(kind: Kind, name: string, pending: seq<nat>)

  datatype Id = Null | Number(number: nat) | Text(text: string)

  /** A message received: `error` says that it has an error member or breaks a rule; `suits` that its parameters meet
      the specification of the entry that gets it. */
  datatype Message = Message(name: Option<string>, id: Option<Id>, error: bool, suits: bool)

  datatype Outcome = Failed | NotFound | BadParams | Called(index: nat)

  /** The callback of the answer entry `name` was called for the response with this id. */
  datatype Reply = Reply(name: string, id: nat)

  /** `json_integer_value`: what is no number counts as 0. */
  function IdValue(id: Id): nat {
    if id.Number? then id.number else 0
  }

  function MessageKind(m: Message): Kind {
    if m.name.None? then Answer
    else if m.id.Some? && !m.id.value.Null? then Request
    else Notification
  }

  predicate Handles(e: Entry, m: Message) {
    m.name.Some? && e.name == m.name.value && e.kind == MessageKind(m)
  }

  predicate Waits(e: Entry, m: Message) {
    e.kind == Answer && m.id.Some? && IdValue(m.id.value) in e.pending
  }

  /** The first entry that handles the message or waits for its id. */
  function Found(entries: seq<Entry>, m: Message): (i: nat)
    ensures i <= |entries| && (i < |entries| ==> Handles(entries[i], m) || Waits(entries[i], m))
    ensures forall k :: 0 <= k < i ==> !Handles(entries[k], m) && !Waits(entries[k], m)
  {
    if entries == [] || Handles(entries[0], m) || Waits(entries[0], m) then 0 else 1 + Found(entries[1..], m)
  }

  function Without(pending: seq<nat>, id: nat): seq<nat> {
    if pending == [] then [] else if pending[0] == id then pending[1..] else [pending[0]] + Without(pending[1..], id)
  }

  function Unlinked(entries: seq<Entry>, m: Message): (r: seq<Entry>)
    ensures |r| == |entries|
  {
    var i := Found(entries, m);
    if i < |entries| && !Handles(entries[i], m) then
      entries[i := entries[i].(pending := Without(entries[i].pending, IdValue(m.id.value)))]
    else entries
  }

  function Result(entries: seq<Entry>, m: Message): Outcome {
    var i := Found(entries, m);
    if m.error then Failed else if i == |entries| then NotFound else if !m.suits then BadParams else Called(i)
  }

  /** The first request or notification with the name. */
  function Sender(entries: seq<Entry>, name: string): (i: nat)
    ensures i <= |entries| && (i < |entries| ==> entries[i].name == name && entries[i].kind != Answer)
    ensures forall k :: 0 <= k < i ==> entries[k].name != name || entries[k].kind == Answer
  {
    if entries == [] || (entries[0].name == name && entries[0].kind != Answer) then 0
    else 1 + Sender(entries[1..], name)
  }

  /** Every answer entry of the method waits for the id. */
  function Linked(entries: seq<Entry>, name: string, id: nat): (r: seq<Entry>)
    ensures |r| == |entries|
    ensures forall i :: 0 <= i < |r| ==>
      r[i] == if entries[i].name == name && entries[i].kind == Answer then
                entries[i].(pending := [id] + entries[i].pending)
              else entries[i]
  {
    if entries == [] then []
    else
      var e := entries[0];
      [if e.name == name && e.kind == Answer then e.(pending := [id] + e.pending) else e]
        + Linked(entries[1..], name, id)
  }

  function Requested(entries: seq<Entry>, name: string, id: nat): seq<Entry> {
    var i := Sender(entries, name);
    if i < |entries| && entries[i].kind == Request then Linked(entries, name, id) else entries
  }

  lemma {:induction false} WithoutAt(pending: seq<nat>, id: nat, k: nat)
    requires k <= |pending| && id !in pending[..k] && (k < |pending| ==> pending[k] == id)
    ensures Without(pending, id) == if k < |pending| then pending[..k] + pending[k + 1..] else pending
  {
    if k > 0 {
      var first, rest := pending[0], pending[1..];
      assert first == pending[..k][0] && rest[..k - 1] == pending[1..k];
      WithoutAt(rest, id, k - 1);
      KeptFirst(pending, k);
    }
  }

  lemma KeptFirst(s: seq<nat>, k: nat)
    requires 0 < k <= |s|
    ensures [s[0]] + s[1..] == s
    ensures k < |s| ==> [s[0]] + (s[1..][..k - 1] + s[1..][k..]) == s[..k] + s[k + 1..]
  {
  }

  // ----- the table in place -----

  class Table {
    var entries: seq<Entry>
    ghost var replies: seq<Reply>

    constructor (entries: seq<Entry>)
      ensures this.entries == entries && replies == []
    {
      this.entries, replies := entries, [];
    }

    /** Keeps the id in front of the pending ones of every answer entry with the name. */
    method Link(name: string, id: nat)
      modifies this`entries
      ensures entries == Linked(old(entries), name, id)
    {
      hide Linked;
      var k := 0;
      while k < |entries|
        invariant k <= |entries| == |old(entries)|
        invariant forall j :: 0 <= j < k ==> entries[j] == Linked(old(entries), name, id)[j]
        invariant forall j :: k <= j < |entries| ==> entries[j] == old(entries)[j]
      {
        if entries[k].name == name && entries[k].kind == Answer {
          entries := entries[k := entries[k].(pending := [id] + entries[k].pending)];
        }
        k := k + 1;
      }
    }

    /** `jsonrpc_jrequest`; `suits` says that the parameters it makes meet their specification. */
    method JRequest(name: string, id: nat, suits: bool) returns (sent: bool)
      modifies this`entries
      ensures sent == (Sender(old(entries), name) < |old(entries)| && suits)
      ensures entries == if suits then Requested(old(entries), name, id) else old(entries)
    {
      hide Linked;
      var i := 0;
      while i < |entries| && !(entries[i].name == name && entries[i].kind != Answer)
        invariant i <= |entries| && entries == old(entries)
        invariant Sender(entries, name) == i + Sender(entries[i..], name)
      {
        i := i + 1;
      }
      if i == |entries| || !suits {
        return false;
      }
      if entries[i].kind == Request {
        Link(name, id);
      }
      return true;
    }

    /** Unlinks the first pending entry with the id. */
    method Unlink(i: nat, id: nat) returns (unlinked: bool)
      requires i < |entries|
      modifies this`entries
      ensures unlinked == (id in old(entries)[i].pending) && (!unlinked ==> entries == old(entries))
      ensures entries == old(entries)[i := old(entries)[i].(pending := Without(old(entries)[i].pending, id))]
    {
      var pending := entries[i].pending;
      var k := 0;
      while k < |pending| && pending[k] != id
        invariant k <= |pending| && id !in pending[..k]
      {
        k := k + 1;
      }
      WithoutAt(pending, id, k);
      unlinked := k < |pending|;
      if unlinked {
        entries := entries[i := entries[i].(pending := pending[..k] + pending[k + 1..])];
      }
    }

    /** `jsonrpc_handle_request_single`, after the message was checked. */
    method HandleSingle(m: Message) returns (outcome: Outcome)
      modifies this
      ensures entries == Unlinked(old(entries), m) && outcome == Result(old(entries), m)
      ensures replies == old(replies) + Answered(old(entries), m)
    {
      var i := 0;
      while i < |entries|
        invariant i <= |entries| && entries == old(entries) && replies == old(replies)
        invariant Found(entries, m) == i + Found(entries[i..], m)
      {
        if Handles(entries[i], m) {
          break;
        } else if entries[i].kind == Answer && m.id.Some? {
          var unlinked := Unlink(i, IdValue(m.id.value));
          if unlinked {
            break;
          }
        }
        i := i + 1;
      }
      if m.error {
        return Failed;
      }
      if i == |entries| {
        return NotFound;
      }
      if !m.suits {
        return BadParams;
      }
      if entries[i].kind == Answer {
        replies := replies + [Reply(entries[i].name, IdValue(m.id.value))];
      }
      return Called(i);
    }
  }

  /** The reply that a message brings to an answer callback, if any. */
  function Answered(entries: seq<Entry>, m: Message): seq<Reply> {
    var outcome := Result(entries, m);
    if outcome.Called? && !Handles(entries[outcome.index], m) then
      [Reply(entries[outcome.index].name, IdValue(m.id.value))]
    else []
  }

  /** A request goes to a request entry of its name, a message without an id or with a null one to a notification entry of
      its name, and any message with an id to an answer entry that waits for it; what is no number is the id 0. */
  predicate Gets(e: Entry, m: Message) {
    match e.kind
    case Request => m.name == Some(e.name) && m.id.Some? && m.id.value != Null
    case Notification => m.name == Some(e.name) && (m.id.None? || m.id.value == Null)
    case Answer =>
      && m.id.Some?
      && match m.id.value
         case Number(number) => number in e.pending
         case Null => 0 in e.pending
         case Text(_) => 0 in e.pending
  }

  lemma FoundGets(entries: seq<Entry>, m: Message)
    ensures var i := Found(entries, m);
      (i < |entries| ==> Gets(entries[i], m)) && forall k :: 0 <= k < i ==> !Gets(entries[k], m)
  {
    hide Found;
    forall e: Entry ensures Gets(e, m) <==> Handles(e, m) || Waits(e, m) {
    }
  }

  /** What becomes of a message: the first entry that gets it is called, unless the message is an error, nobody gets it, or
      its parameters do not suit. */
  lemma OutcomeExactly(entries: seq<Entry>, m: Message)
    ensures Result(entries, m) == Failed <==> m.error
    ensures Result(entries, m) == NotFound <==> !m.error && forall k :: 0 <= k < |entries| ==> !Gets(entries[k], m)
    ensures forall i: nat :: Result(entries, m) == Called(i) <==>
      && !m.error && m.suits
      && i < |entries| && Gets(entries[i], m) && forall k :: 0 <= k < i ==> !Gets(entries[k], m)
    ensures m.id.None? ==> Unlinked(entries, m) == entries && Answered(entries, m) == []
  {
    hide Found, Gets;
    FoundGets(entries, m);
  }

  // ----- runs of a client -----

  /** `answers` is the method whose request the other side answers; the message does not carry it. */
  datatype Event = Sent(name: string, id: nat, suits: bool) | Received(m: Message, answers: Option<string>)

  datatype State = State(entries: seq<Entry>, replies: seq<Reply>)

  function Step(st: State, e: Event): State {
    match e
    case Sent(name, id, suits) => if suits then st.(entries := Requested(st.entries, name, id)) else st
    case Received(m, _) => State(Unlinked(st.entries, m), st.replies + Answered(st.entries, m))
  }

  function Run(table: seq<Entry>, events: seq<Event>): State {
    if events == [] then State(table, [])
    else Step(Run(table, events[..|events| - 1]), events[|events| - 1])
  }

  function AnswerAt(table: seq<Entry>, name: string): (i: nat)
    ensures i <= |table| && (i < |table| ==> table[i].kind == Answer && table[i].name == name)
    ensures forall k :: 0 <= k < i ==> !(table[k].kind == Answer && table[k].name == name)
  {
    if table == [] || (table[0].kind == Answer && table[0].name == name) then 0 else 1 + AnswerAt(table[1..], name)
  }

  /** A request with this name goes out, and there is a callback for its answer. */
  predicate CanAsk(table: seq<Entry>, name: string) {
    var i := Sender(table, name);
    i < |table| && table[i].kind == Request && AnswerAt(table, name) < |table|
  }

  /** A request that waits for its response. */
  datatype Asked = Asked(name: string, id: nat)

  /** The requests that wait; several may have the same id. */
  function Open(table: seq<Entry>, events: seq<Event>): multiset<Asked> {
    if events == [] then multiset{}
    else OpenAfter(table, Open(table, events[..|events| - 1]), events[|events| - 1])
  }

  /** The response to a request that waits; not a repeated one. */
  predicate Due(open: multiset<Asked>, m: Message, answers: Option<string>) {
    m.name.None? && m.id.Some? && answers.Some? && Asked(answers.value, IdValue(m.id.value)) in open
  }

  function OpenAfter(table: seq<Entry>, open: multiset<Asked>, e: Event): multiset<Asked> {
    match e
    case Sent(name, id, suits) => if suits && CanAsk(table, name) then open + multiset{Asked(name, id)} else open
    case Received(m, answers) =>
      if Due(open, m, answers) then open - multiset{Asked(answers.value, IdValue(m.id.value))} else open
  }

  /** What the responses should bring: each, if it is no error, to the method that it answers. */
  function Replies(table: seq<Entry>, events: seq<Event>): seq<Reply> {
    if events == [] then []
    else
      var init := events[..|events| - 1];
      Replies(table, init) + ReplyTo(Open(table, init), events[|events| - 1])
  }

  function ReplyTo(open: multiset<Asked>, e: Event): seq<Reply> {
    if e.Received? && Due(open, e.m, e.answers) && !e.m.error && e.m.suits then
      [Reply(e.answers.value, IdValue(e.m.id.value))]
    else []
  }

  /** A client receives responses, and notifications without an id. */
  predicate Client(events: seq<Event>) {
    forall i :: 0 <= i < |events| && events[i].Received? && events[i].m.name.Some? ==> events[i].m.id.None?
  }

  /** A table before any request, with at most one answer entry for a method. */
  predicate Idle(table: seq<Entry>) {
    && OneAnswer(table)
    && forall i :: 0 <= i < |table| ==> table[i].pending == []
  }

  predicate OneAnswer(table: seq<Entry>) {
    forall i, j :: 0 <= i < j < |table| && table[i].kind == Answer && table[j].kind == Answer ==> table[i].name != table[j].name
  }

  // ----- who gets a response -----

  /** The code gives a response to the answer entry of its own method, and a repeated one to none. */
  predicate Routed(table: seq<Entry>, entries: seq<Entry>, open: multiset<Asked>, e: Event) {
    e.Received? && e.m.name.None? ==>
      Found(entries, e.m) == if Due(open, e.m, e.answers) then AnswerAt(table, e.answers.value) else |entries|
  }

  predicate AllRouted(table: seq<Entry>, events: seq<Event>) {
    events == [] ||
    var init := events[..|events| - 1];
    AllRouted(table, init) && Routed(table, Run(table, init).entries, Open(table, init), events[|events| - 1])
  }

  /** Another request waits for the id of this response, and its answer entry comes first in the table; for a repeated
      response, any request that waits for that id. */
  ghost predicate Shadowed(table: seq<Entry>, open: multiset<Asked>, e: Event) {
    && e.Received? && e.m.name.None? && e.m.id.Some?
    && exists a :: a in open && a.id == IdValue(e.m.id.value)
         && (Due(open, e.m, e.answers) ==> AnswerAt(table, a.name) < AnswerAt(table, e.answers.value))
  }

  ghost predicate NoneShadowed(table: seq<Entry>, events: seq<Event>) {
    events == [] ||
    var init := events[..|events| - 1];
    NoneShadowed(table, init) && !Shadowed(table, Open(table, init), events[|events| - 1])
  }

  // ----- the pending lists are the open requests -----

  ghost predicate Keeps(e: Entry, open: multiset<Asked>) {
    if e.kind == Answer then forall id: nat :: multiset(e.pending)[id] == open[Asked(e.name, id)]
    else e.pending == []
  }

  ghost predicate Tracks(table: seq<Entry>, entries: seq<Entry>, open: multiset<Asked>) {
    && |entries| == |table| && OneAnswer(table)
    && (forall i :: 0 <= i < |table| ==> entries[i].name == table[i].name && entries[i].kind == table[i].kind)
    && (forall i :: 0 <= i < |table| ==> Keeps(entries[i], open))
    && forall a :: a in open ==> AnswerAt(table, a.name) < |table|
  }

  lemma FirstOf(pending: seq<nat>)
    requires pending != []
    ensures multiset(pending) == multiset{pending[0]} + multiset(pending[1..])
  {
    assert pending == [pending[0]] + pending[1..];
  }

  lemma OtherLess(m: multiset<nat>, other: nat, id: nat)
    requires other != id
    ensures multiset{other} + m - multiset{id} == multiset{other} + (m - multiset{id})
  {
  }

  lemma {:induction false} WithoutExact(pending: seq<nat>, id: nat)
    ensures multiset(Without(pending, id)) == multiset(pending) - multiset{id}
  {
    if pending != [] {
      WithoutExact(pending[1..], id);
      FirstOf(pending);
      if pending[0] != id {
        FirstOf([pending[0]] + Without(pending[1..], id));
        OtherLess(multiset(pending[1..]), pending[0], id);
      }
    }
  }

  lemma SenderSame(table: seq<Entry>, entries: seq<Entry>, open: multiset<Asked>, name: string)
    requires Tracks(table, entries, open)
    ensures Sender(entries, name) == Sender(table, name)
  {
  }

  lemma KeepsMore(e: Entry, open: multiset<Asked>, name: string, id: nat)
    requires Keeps(e, open)
    ensures Keeps(if e.name == name && e.kind == Answer then e.(pending := [id] + e.pending) else e,
      open + multiset{Asked(name, id)})
  {
  }

  lemma KeepsLess(e: Entry, open: multiset<Asked>, name: string, id: nat)
    requires Keeps(e, open)
    ensures Keeps(if e.name == name && e.kind == Answer then e.(pending := Without(e.pending, id)) else e,
      open - multiset{Asked(name, id)})
  {
    WithoutExact(e.pending, id);
  }

  lemma SentStep(table: seq<Entry>, entries: seq<Entry>, open: multiset<Asked>, name: string, id: nat)
    requires Tracks(table, entries, open)
    ensures Tracks(table, Requested(entries, name, id), OpenAfter(table, open, Sent(name, id, true)))
  {
    hide Linked, Sender, AnswerAt, Keeps, OneAnswer;
    SenderSame(table, entries, open, name);
    forall i | 0 <= i < |table| ensures Keeps(Linked(entries, name, id)[i], open + multiset{Asked(name, id)}) {
      KeepsMore(entries[i], open, name, id);
    }
    if AnswerAt(table, name) == |table| {
      assert Linked(entries, name, id) == entries;
    }
  }

  /** Exactly the answer entries of the methods that asked with an id wait for it. */
  lemma WaitsExact(table: seq<Entry>, entries: seq<Entry>, open: multiset<Asked>, m: Message, i: nat)
    requires Tracks(table, entries, open) && m.name.None? && i < |table|
    ensures Waits(entries[i], m) <==>
      table[i].kind == Answer && m.id.Some? && Asked(table[i].name, IdValue(m.id.value)) in open
  {
    assert Keeps(entries[i], open);
  }

  /** While the pending lists are the open requests, a response is routed right exactly when it is not shadowed;
      otherwise an entry of another method takes it. */
  lemma RoutedStep(table: seq<Entry>, entries: seq<Entry>, open: multiset<Asked>, m: Message, answers: Option<string>)
    requires Tracks(table, entries, open) && m.name.None?
    ensures Routed(table, entries, open, Received(m, answers)) <==> !Shadowed(table, open, Received(m, answers))
    ensures Shadowed(table, open, Received(m, answers)) ==>
      Found(entries, m) < |entries| && (Due(open, m, answers) ==> entries[Found(entries, m)].name != answers.value)
  {
    hide Found, AnswerAt, Keeps;
    forall i | 0 <= i < |table|
      ensures Waits(entries[i], m) <==>
        table[i].kind == Answer && m.id.Some? && Asked(table[i].name, IdValue(m.id.value)) in open
    {
      WaitsExact(table, entries, open, m, i);
    }
  }

  lemma ReceivedStep(table: seq<Entry>, entries: seq<Entry>, open: multiset<Asked>, m: Message, answers: Option<string>)
    requires Tracks(table, entries, open) && (m.name.Some? ==> m.id.None?)
    requires Routed(table, entries, open, Received(m, answers))
    ensures Tracks(table, Unlinked(entries, m), OpenAfter(table, open, Received(m, answers)))
    ensures Answered(entries, m) == ReplyTo(open, Received(m, answers))
  {
    hide Found, AnswerAt, Keeps, Without, OneAnswer;
    if Due(open, m, answers) {
      TakenFrom(table, entries, open, answers.value, IdValue(m.id.value));
    }
  }

  /** Taking the id from the entry of its method ends just that wait. */
  lemma TakenFrom(table: seq<Entry>, entries: seq<Entry>, open: multiset<Asked>, name: string, id: nat)
    requires Tracks(table, entries, open) && AnswerAt(table, name) < |table|
    ensures var i := AnswerAt(table, name);
      Tracks(table, entries[i := entries[i].(pending := Without(entries[i].pending, id))], open - multiset{Asked(name, id)})
  {
    hide AnswerAt, Keeps, Without, OneAnswer;
    var at := AnswerAt(table, name);
    var after := entries[at := entries[at].(pending := Without(entries[at].pending, id))];
    forall i | 0 <= i < |table| ensures Keeps(after[i], open - multiset{Asked(name, id)}) {
      KeepsLess(entries[i], open, name, id);
      OnlyAnswer(table, name, i);
    }
  }

  lemma OnlyAnswer(table: seq<Entry>, name: string, i: nat)
    requires OneAnswer(table) && i < |table| && AnswerAt(table, name) < |table|
    ensures table[i].kind == Answer && table[i].name == name <==> i == AnswerAt(table, name)
  {
    hide AnswerAt;
  }

  /** Correlation, for every table and every run of a client: all responses reach their own methods, and repeated ones
      none, if and only if no response was shadowed when it came. Then every reply goes where it should, and the pending
      lists are the open requests. */
  lemma {:induction false} RoutedExactly(table: seq<Entry>, events: seq<Event>)
    requires Idle(table) && Client(events)
    ensures AllRouted(table, events) <==> NoneShadowed(table, events)
    ensures AllRouted(table, events) ==> Run(table, events).replies == Replies(table, events)
    ensures AllRouted(table, events) ==> Tracks(table, Run(table, events).entries, Open(table, events))
    decreases |events|
  {
    hide Keeps, Unlinked, Requested, AnswerAt, Answered, OneAnswer, Tracks, Shadowed, Routed, ReplyTo, OpenAfter;
    if events == [] {
      IdleTracks(table);
    } else {
      var init, e := events[..|events| - 1], events[|events| - 1];
      RoutedExactly(table, init);
      if AllRouted(table, init) {
        EventStep(table, Run(table, init), Open(table, init), e);
      }
    }
  }

  lemma EventStep(table: seq<Entry>, st: State, open: multiset<Asked>, e: Event)
    requires Tracks(table, st.entries, open) && (e.Received? && e.m.name.Some? ==> e.m.id.None?)
    ensures Routed(table, st.entries, open, e) <==> !Shadowed(table, open, e)
    ensures Routed(table, st.entries, open, e) ==>
      Tracks(table, Step(st, e).entries, OpenAfter(table, open, e)) && Step(st, e).replies == st.replies + ReplyTo(open, e)
  {
    hide Unlinked, Requested, AnswerAt, Answered, Tracks, Found;
    match e
    case Sent(name, id, suits) =>
      if suits {
        SentStep(table, st.entries, open, name, id);
      }
    case Received(m, answers) =>
      if m.name.None? {
        RoutedStep(table, st.entries, open, m, answers);
      }
      if Routed(table, st.entries, open, e) {
        ReceivedStep(table, st.entries, open, m, answers);
      }
  }

  lemma IdleTracks(table: seq<Entry>)
    requires Idle(table)
    ensures Tracks(table, table, multiset{})
  {
  }

  // ----- distinct ids, and equal ones -----

  /** An id that goes out is not that of a waiting request of another method, and what comes answers a waiting request
      or has an id that none waits for. */
  ghost predicate Distinct(table: seq<Entry>, events: seq<Event>) {
    events == [] ||
    var init, e := events[..|events| - 1], events[|events| - 1];
    && Distinct(table, init)
    && match e
       case Sent(name, id, _) => forall a :: a in Open(table, init) && a.id == id ==> a.name == name
       case Received(m, answers) => m.name.None? && m.id.Some? ==>
         Due(Open(table, init), m, answers) || forall a :: a in Open(table, init) ==> a.id != IdValue(m.id.value)
  }

  lemma {:induction false} DistinctUnshadowed(table: seq<Entry>, events: seq<Event>)
    requires Distinct(table, events)
    ensures NoneShadowed(table, events)
    ensures forall a, b :: a in Open(table, events) && b in Open(table, events) && a.id == b.id ==> a == b
    decreases |events|
  {
    hide AnswerAt, CanAsk;
    if events != [] {
      DistinctUnshadowed(table, events[..|events| - 1]);
    }
  }

  /** Hence with ids that are distinct between methods, each response goes to the method whose request had its id. */
  lemma Correlated(table: seq<Entry>, events: seq<Event>)
    requires Idle(table) && Client(events) && Distinct(table, events)
    ensures AllRouted(table, events) && Run(table, events).replies == Replies(table, events)
  {
    DistinctUnshadowed(table, events);
    RoutedExactly(table, events);
  }

  /** The ids are random numbers seeded with the time in seconds, so two requests within a second carry the same id.
      In whichever order two methods ask, the first response that comes is routed right exactly if it answers the
      method that is first in the table. */
  lemma SameSecondConfused(table: seq<Entry>, a: string, b: string, id: nat, m: Message, swapped: bool, second: bool)
    requires Idle(table) && CanAsk(table, a) && CanAsk(table, b) && AnswerAt(table, a) < AnswerAt(table, b)
    requires m.name.None? && m.id == Some(Number(id))
    ensures var sends := if swapped then [Sent(b, id, true), Sent(a, id, true)] else [Sent(a, id, true), Sent(b, id, true)];
      AllRouted(table, sends + [Received(m, Some(if second then b else a))]) <==> !second
  {
    hide AnswerAt, CanAsk, Shadowed, AllRouted, NoneShadowed, Open, OpenAfter, Run, Replies, Tracks, Idle;
    var sends := if swapped then [Sent(b, id, true), Sent(a, id, true)] else [Sent(a, id, true), Sent(b, id, true)];
    var e := Received(m, Some(if second then b else a));
    TwoSent(table, sends);
    NoneMore(table, sends, e);
    assert Open(table, sends) == multiset{Asked(a, id), Asked(b, id)};
    SharedId(table, a, b, id, m, second);
    RoutedExactly(table, sends + [e]);
  }

  lemma SharedId(table: seq<Entry>, a: string, b: string, id: nat, m: Message, second: bool)
    requires AnswerAt(table, a) < AnswerAt(table, b) && m.name.None? && m.id == Some(Number(id))
    ensures Shadowed(table, multiset{Asked(a, id), Asked(b, id)}, Received(m, Some(if second then b else a))) <==> second
  {
    hide AnswerAt;
    assert Asked(a, id) in multiset{Asked(a, id), Asked(b, id)};
  }

  lemma TwoSent(table: seq<Entry>, sends: seq<Event>)
    requires |sends| == 2 && forall i :: 0 <= i < 2 ==> sends[i].Sent? && sends[i].suits && CanAsk(table, sends[i].name)
    ensures NoneShadowed(table, sends)
    ensures Open(table, sends) == multiset{Asked(sends[0].name, sends[0].id), Asked(sends[1].name, sends[1].id)}
  {
    hide CanAsk, AnswerAt;
    NoneMore(table, [], sends[0]);
    assert sends[..1] == [] + [sends[0]] && sends == sends[..1] + [sends[1]];
    NoneMore(table, sends[..1], sends[1]);
  }

  lemma NoneMore(table: seq<Entry>, events: seq<Event>, e: Event)
    ensures NoneShadowed(table, []) && Open(table, []) == multiset{}
    ensures NoneShadowed(table, events + [e]) <==> NoneShadowed(table, events) && !Shadowed(table, Open(table, events), e)
    ensures Open(table, events + [e]) == OpenAfter(table, Open(table, events), e)
  {
    hide Shadowed, OpenAfter;
    assert (events + [e])[..|events|] == events;
  }
}
