/**
 The messages of the chat protocol: what src/net/protocol/Message.cpp builds and what the
 handlers on both sides read out of the JSON bodies.  Timestamps are dropped.
 */
module ChatMessages {
  /** A JSON member as json::value(key, default) sees it: a value of the wrong type throws. */
  datatype Field<T> = Absent | Given(value: T) | Mistyped {
    function Or(otherwise: T): T
      requires !Mistyped?
    {
      if Given? then value else otherwise
    }
  }

  /** The members of "params" that the routes read. */
  datatype Params = Params(name: Field<string>, text: Field<string>, toUid: Field<nat>)

  /** What the application passes for "no parameters": a JSON null, of which no member can be read. */
  const NULL_PARAMS := Params(Mistyped, Mistyped, Mistyped)

  datatype Entry = Entry(uid: nat, name: string)

  /** The "result" of a response, or its "error". */
  datatype Reply =
    | LoggedIn(uid: nat, name: string)
    | Clients(entries: seq<Entry>)
    | Delivered
    | Pong
    | Error(code: int, message: string)

  datatype Event =
    | UserJoined(uid: nat, name: string)
    | UserLeft(uid: nat)
    | PublicMessage(fromUid: nat, fromName: string, text: string)
    | PrivateMessage(fromUid: nat, fromName: string, text: string)

  /** Pushes carry the id 0, which no client request ever has. */
  datatype Message =
    | Request(id: Field<nat>, methodName: Field<string>, params: Params)
    | Response(answered: nat, body: Reply)
    | Push(event: Event)
  {
    /** request.j.value("id", 0) */
    function RequestId(): Field<nat> {
      match this
      case Request(id, _, _) => id
      case Response(id, _) => Given(id)
      case Push(_) => Given(0)
    }
  }

  // ---------------------------------------------------------------- the traffic to one client

  /** The responses in a stream of messages, in order. */
  function Responses(stream: seq<Message>): seq<Message> {
    if stream == [] then []
    else
      var last := stream[|stream| - 1];
      Responses(stream[..|stream| - 1]) + if last.Response? then [last] else []
  }

  lemma ResponsesAppend(stream: seq<Message>, m: Message)
    ensures Responses(stream + [m]) == Responses(stream) + if m.Response? then [m] else []
  {
    assert (stream + [m])[..|stream|] == stream;
  }

  lemma {:induction false} ResponsesPrefix(stream: seq<Message>, n: nat)
    requires n <= |stream|
    ensures Responses(stream[..n]) <= Responses(stream)
  {
    if n < |stream| {
      ResponsesPrefix(stream[..|stream| - 1], n);
      assert stream[..|stream| - 1][..n] == stream[..n];
    } else {
      assert stream[..n] == stream;
    }
  }

  /** Taking one more message of the stream takes its response, if it is one, off the list of responses to come. */
  lemma NextResponse(stream: seq<Message>, n: nat)
    requires n < |stream|
    ensures Responses(stream[..n + 1]) == Responses(stream[..n]) + if stream[n].Response? then [stream[n]] else []
    ensures Responses(stream[..n + 1]) <= Responses(stream)
  {
    var taken := stream[..n + 1];
    assert taken[..n] == stream[..n] && taken[n] == stream[n];
    ResponsesPrefix(stream, n + 1);
  }

  /** A roster: who is online, by uid. */
  type Names = map<nat, string>

  /** Entering a list of clients into a roster, first to last. */
  function MergeNames(names: Names, entries: seq<Entry>): Names
    decreases |entries|
  {
    if entries == [] then names
    else MergeNames(names[entries[0].uid := entries[0].name], entries[1..])
  }

  /** What one message from the server does to a roster. */
  function RosterAfter(names: Names, m: Message): Names {
    match m
    case Push(UserJoined(uid, name)) => names[uid := name]
    case Push(UserLeft(uid)) => names - {uid}
    case Response(_, Clients(entries)) => MergeNames(names, entries)
    case _ => names
  }

  /** The roster that a stream of messages leads to, starting from nobody. */
  function Roster(stream: seq<Message>): Names {
    if stream == [] then map[] else RosterAfter(Roster(stream[..|stream| - 1]), stream[|stream| - 1])
  }

  lemma RosterAppend(stream: seq<Message>, m: Message)
    ensures Roster(stream + [m]) == RosterAfter(Roster(stream), m)
  {
    assert (stream + [m])[..|stream|] == stream;
  }

  /** Merging a list keeps every name that is not on it and sets every one that is. */
  lemma {:induction false} MergeNamesMeaning(names: Names, entries: seq<Entry>, table: Names)
    requires forall i :: 0 <= i < |entries| ==> entries[i].uid in table && table[entries[i].uid] == entries[i].name
    ensures forall i :: 0 <= i < |entries| ==> entries[i].uid in MergeNames(names, entries)
    ensures names.Keys <= MergeNames(names, entries).Keys
    ensures forall u :: u in MergeNames(names, entries) ==>
              (u in table && MergeNames(names, entries)[u] == table[u]) || (u in names && MergeNames(names, entries)[u] == names[u])
    decreases |entries|
  {
    if entries != [] {
      MergeNamesMeaning(names[entries[0].uid := entries[0].name], entries[1..], table);
      forall i | 0 <= i < |entries| ensures entries[i].uid in MergeNames(names, entries) {
        if i > 0 { assert entries[i] == entries[1..][i - 1]; }
      }
    }
  }

  /** How often the departure of a user is announced in a stream. */
  function Farewells(stream: seq<Message>, uid: nat): nat {
    if stream == [] then 0
    else Farewells(stream[..|stream| - 1], uid) + if stream[|stream| - 1] == Push(UserLeft(uid)) then 1 else 0
  }

  lemma FarewellsAppend(stream: seq<Message>, m: Message, uid: nat)
    ensures Farewells(stream + [m], uid) == Farewells(stream, uid) + if m == Push(UserLeft(uid)) then 1 else 0
  {
    assert (stream + [m])[..|stream|] == stream;
  }
}
