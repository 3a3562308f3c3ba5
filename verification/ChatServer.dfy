/**
 The server side of the chat: the session table of src/net/server/SessionManager.cpp, the
 routes of app/net/server/common/ServerAppContext.cpp and the wiring of a connection in
 src/net/server/ServerController.cpp.
 */
module ChatServer {
  import opened ChatMessages
  import opened ChatRouter
  import opened Results

  /** The session table as a value: the next uid and the user name of every live session. */
  datatype Table = Table(nextUid: nat, names: Names) {
    function Name(uid: nat): string {
      if uid in names then names[uid] else "Unknown"
    }

    function Renamed(uid: nat, name: string): Table {
      if uid in names then this.(names := names[uid := name]) else this
    }

    /** A new session gets the next uid. */
    function Entered(): Table {
      Table(nextUid + 1, names[nextUid := "guest"])
    }

    function Left(uid: nat): Table {
      this.(names := names - {uid})
    }

    /** What the session u is told when the session uid leaves. */
    function FarewellTo(u: nat, uid: nat): seq<Message> {
      if u in Left(uid).names then [Push(UserLeft(uid))] else []
    }
  }

  datatype Route = Login | ClientList | SendPublic | SendPrivate | Ping

  const ROUTES: map<string, Route> := map[
    "login" := Login,
    "client_list" := ClientList,
    "send_public" := SendPublic,
    "send_private" := SendPrivate,
    "ping" := Ping
  ]

  /** What a route does: the table after it, a push and the sessions it goes to, and how it ends. */
  datatype Outcome = Outcome(table: Table, audience: set<nat>, push: Option<Event>, attempt: Attempt)

  /** The ids of the live sessions, each once, in the order the hash table happens to give. */
  ghost predicate IsListing(ids: seq<nat>, names: Names) {
    (forall u :: u in ids <==> u in names) && forall i, j :: 0 <= i < j < |ids| ==> ids[i] != ids[j]
  }

  function Entries(table: Table, ids: seq<nat>): seq<Entry> {
    seq(|ids|, i requires 0 <= i < |ids| => Entry(ids[i], table.Name(ids[i])))
  }

  /** A route, run for the session uid; ids is the order in which client_list meets the sessions. */
  function Routed(table: Table, route: Route, params: Params, uid: nat, ids: seq<nat>): Outcome {
    match route
    case Login =>
      if params.name.Mistyped? then Outcome(table, {}, None, JsonFailure) else
      var name := params.name.Or("guest");
      var renamed := table.Renamed(uid, name);
      Outcome(renamed, renamed.names.Keys, Some(UserJoined(uid, name)), Done(LoggedIn(uid, name)))
    case ClientList =>
      Outcome(table, {}, None, Done(Clients(Entries(table, ids))))
    case SendPublic =>
      if params.text.Mistyped? then Outcome(table, {}, None, JsonFailure) else
      Outcome(table, table.names.Keys, Some(PublicMessage(uid, table.Name(uid), params.text.Or(""))), Done(Delivered))
    case SendPrivate =>
      if params.toUid.Mistyped? || params.text.Mistyped? then Outcome(table, {}, None, JsonFailure) else
      Outcome(table, {params.toUid.Or(0)} * table.names.Keys,
              Some(PrivateMessage(uid, table.Name(uid), params.text.Or(""))), Done(Delivered))
    case Ping =>
      Outcome(table, {}, None, Done(Pong))
  }

  function Pushed(o: Outcome, u: nat): seq<Message> {
    if o.push.Some? && u in o.audience then [Push(o.push.value)] else []
  }

  /** What the arrival of a message from the session uid leads to; no response means that the router threw. */
  datatype Effect = Effect(outcome: Outcome, response: seq<Message>) {
    /** The messages that the session u is sent, in order: a push always precedes the response. */
    function SentTo(u: nat, uid: nat): seq<Message> {
      Pushed(outcome, u) + if u == uid then response else []
    }
  }

  function Served(table: Table, uid: nat, message: Message, ids: seq<nat>): Effect {
    var silent := Outcome(table, {}, None, OtherFailure);
    match Decide(ROUTES, message)
    case Throw => Effect(silent, [])
    case Refuse(response) => Effect(silent, [response])
    case Run(id, route, params) =>
      var o := Routed(table, route, params, uid, ids);
      Effect(o, [Answer(id, o.attempt)])
  }

  /** Nothing changes, nobody is told, and the request is answered with this reply. */
  predicate OnlyAnswers(e: Effect, table: Table, id: nat, reply: Reply) {
    e.outcome.table == table && e.outcome.audience == {} && e.response == [Response(id, reply)]
  }

  /** A request with a parameter of the wrong type is answered with an error and has no other effect; a ping is answered
   with a pong; and a login without a name makes its session a guest. */
  lemma OddRequests(table: Table, uid: nat, id: nat, params: Params, ids: seq<nat>)
    requires uid in table.names
    ensures params.name.Mistyped? ==>
              OnlyAnswers(Served(table, uid, Request(Given(id), Given("login"), params), ids), table, id, Error(-32001, "Handler JSON error: "))
    ensures params.text.Mistyped? ==>
              OnlyAnswers(Served(table, uid, Request(Given(id), Given("send_public"), params), ids), table, id, Error(-32001, "Handler JSON error: "))
    ensures params.text.Mistyped? || params.toUid.Mistyped? ==>
              OnlyAnswers(Served(table, uid, Request(Given(id), Given("send_private"), params), ids), table, id, Error(-32001, "Handler JSON error: "))
    ensures OnlyAnswers(Served(table, uid, Request(Given(id), Given("ping"), params), ids), table, id, Pong)
    ensures params.name == Absent ==>
              var e := Served(table, uid, Request(Given(id), Given("login"), params), ids);
              && e.outcome.table.names[uid] == "guest" && e.response == [Response(id, LoggedIn(uid, "guest"))]
              && forall u :: u in table.names ==> Pushed(e.outcome, u) == [Push(UserJoined(uid, "guest"))]
  {
  }

  // ---------------------------------------------------------------- sessions

  /** One connection as the server sees it; sent is everything written to it, in order. */
  class PlainSession {
    var uid: nat
    var isClosed: bool
    var sent: seq<Message>

    constructor ()
      ensures uid == 0 && !isClosed && sent == []
    {
      uid, isClosed, sent := 0, false, [];
    }

    method SetUid(u: nat)
      modifies this
      ensures uid == u && unchanged(this`isClosed, this`sent)
    {
      uid := u;
    }

    method Send(m: Message)
      modifies this`sent
      ensures sent == old(sent) + [m]
    {
      sent := sent + [m];
    }

    /** Marks the session closed; the close callback is due only the first time. */
    method Close() returns (runCallback: bool)
      modifies this`isClosed
      ensures isClosed && runCallback == !old(isClosed)
    {
      if isClosed { return false; }
      isClosed := true;
      return true;
    }
  }

  datatype SessionInfo = SessionInfo(session: PlainSession, username: string)

  /** One copy of a message for each time that u is listed. */
  function Copies(ids: seq<nat>, u: nat, message: Message): seq<Message> {
    if ids == [] then []
    else Copies(ids[..|ids| - 1], u, message) + if ids[|ids| - 1] == u then [message] else []
  }

  lemma {:induction false} OneCopy(ids: seq<nat>, u: nat, message: Message)
    requires forall i, j :: 0 <= i < j < |ids| ==> ids[i] != ids[j]
    ensures Copies(ids, u, message) == if u in ids then [message] else []
  {
    if ids != [] {
      OneCopy(ids[..|ids| - 1], u, message);
      assert ids == ids[..|ids| - 1] + [ids[|ids| - 1]];
    }
  }

  lemma SameObjects(before: map<nat, SessionInfo>, after: map<nat, SessionInfo>)
    requires before.Keys == after.Keys && forall u :: u in after ==> after[u].session == before[u].session
    ensures (set u | u in before :: before[u].session) == (set u | u in after :: after[u].session)
  {
  }

  class SessionManager {
    var nextUid: nat
    var sessions: map<nat, SessionInfo>

    /** Uids are handed out upwards from 1, and no session is entered twice. */
    ghost predicate Valid()
      reads this
    {
      && 0 < nextUid && (forall u :: u in sessions ==> 0 < u < nextUid)
      && (forall u, v :: u in sessions && v in sessions && sessions[u].session == sessions[v].session ==> u == v)
    }

    ghost function Objects(): set<PlainSession>
      reads this
    {
      set u | u in sessions :: sessions[u].session
    }

    ghost function View(): Table
      reads this
    {
      Table(nextUid, map u | u in sessions :: sessions[u].username)
    }

    constructor ()
      ensures Valid() && View() == Table(1, map[])
    {
      nextUid, sessions := 1, map[];
    }

    method Add(session: PlainSession) returns (uid: nat)
      requires Valid() && session !in Objects()
      modifies this
      ensures Valid()
      ensures uid == old(nextUid) && uid !in old(sessions)
      ensures sessions == old(sessions)[uid := SessionInfo(session, "guest")]
      ensures View() == old(View()).Entered()
    {
      uid := nextUid;
      assert forall u :: u in sessions ==> sessions[u].session in Objects();
      nextUid := nextUid + 1;
      sessions := sessions[uid := SessionInfo(session, "guest")];
    }

    method Remove(uid: nat)
      requires Valid()
      modifies this`sessions
      ensures Valid()
      ensures sessions == old(sessions) - {uid}
      ensures View() == old(View()).Left(uid)
    {
      if uid !in sessions {
        assert sessions - {uid} == sessions;
        assert View().names - {uid} == View().names;
        return;
      }
      sessions := sessions - {uid};
    }

    /** Sends a message once to every live session and to no other. */
    method Broadcast(message: Message)
      requires Valid()
      modifies set u | u in sessions :: sessions[u].session`sent
      ensures forall u :: u in sessions ==> sessions[u].session.sent == old(sessions[u].session.sent) + [message]
    {
      var ids := ListIds();
      assert View().names.Keys == sessions.Keys;
      forall i | 0 <= i < |ids| ensures ids[i] in sessions {
        assert ids[i] in ids;
      }
      forall u | u in sessions ensures Copies(ids, u, message) == [message] {
        OneCopy(ids, u, message);
      }
      SendEach(ids, message);
    }

    method SendEach(ids: seq<nat>, message: Message)
      requires Valid() && forall i :: 0 <= i < |ids| ==> ids[i] in sessions
      modifies set u | u in sessions :: sessions[u].session`sent
      ensures forall u :: u in sessions ==>
                sessions[u].session.sent == old(sessions[u].session.sent) + Copies(ids, u, message)
    {
      for k := 0 to |ids|
        invariant forall u :: u in sessions ==>
                    sessions[u].session.sent == old(sessions[u].session.sent) + Copies(ids[..k], u, message)
      {
        assert ids[..k + 1][..k] == ids[..k];
        sessions[ids[k]].session.Send(message);
      }
      assert ids[..|ids|] == ids;
    }

    /** Sends a message to the listed sessions that are live, once for each time they are listed. */
    method SendTo(uids: seq<nat>, message: Message)
      requires Valid()
      modifies set u | u in sessions :: sessions[u].session`sent
      ensures forall u :: u in sessions ==>
                sessions[u].session.sent == old(sessions[u].session.sent) + Copies(uids, u, message)
    {
      var targets := [];
      for k := 0 to |uids|
        invariant forall i :: 0 <= i < |targets| ==> targets[i] in sessions
        invariant forall u :: u in sessions ==> Copies(targets, u, message) == Copies(uids[..k], u, message)
      {
        assert uids[..k + 1][..k] == uids[..k];
        if uids[k] in sessions {
          assert (targets + [uids[k]])[..|targets|] == targets;
          targets := targets + [uids[k]];
        }
      }
      assert uids[..|uids|] == uids;
      SendEach(targets, message);
    }

    method SetName(uid: nat, name: string)
      requires Valid()
      modifies this`sessions
      ensures Valid() && Objects() == old(Objects())
      ensures sessions.Keys == old(sessions.Keys)
      ensures forall u :: u in sessions ==> sessions[u].session == old(sessions)[u].session
      ensures View() == old(View()).Renamed(uid, name)
    {
      if uid in sessions {
        sessions := sessions[uid := sessions[uid].(username := name)];
      }
      SameObjects(old(sessions), sessions);
    }

    method GetName(uid: nat) returns (name: string)
      ensures name == View().Name(uid)
    {
      name := if uid in sessions then sessions[uid].username else "Unknown";
    }

    method GetCount() returns (count: nat)
      ensures count == |View().names|
    {
      count := |sessions|;
      assert View().names.Keys == sessions.Keys;
      assert |View().names| == |View().names.Keys| && |sessions| == |sessions.Keys|;
    }

    method ListIds() returns (ids: seq<nat>)
      ensures IsListing(ids, View().names)
    {
      ids := [];
      var rest := sessions.Keys;
      while rest != {}
        invariant rest <= sessions.Keys
        invariant forall u :: u in ids <==> u in sessions && u !in rest
        invariant forall i, j :: 0 <= i < j < |ids| ==> ids[i] != ids[j]
        decreases rest
      {
        var u :| u in rest;
        ids := ids + [u];
        rest := rest - {u};
      }
    }
  }
}
