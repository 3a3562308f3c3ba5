/**
 The chat as a transition system: one server, any number of connections, each with a
 first-in-first-out channel in both directions, and every interleaving of their steps.

 A connection keeps its whole history.  What is still on its way to the server is
 requests[served..], and what is still on its way to the client is sent[delivered..].
 */
module ChatSystem {
  import opened ChatMessages
  import opened ChatServer
  import opened ChatClient
  import opened Results

  /** Who is at the other end: the chat application, or any other program. */
  datatype Peer = Member(app: App) | Stranger

  /** A callback that has run, for the request with this id, on this reply. */
  datatype Ran = Ran(id: nat, callback: Callback, reply: Reply)

  datatype Connection = Connection(
    peer: Peer,
    closed: bool,
    requests: seq<Message>,  // everything the peer has sent
    served: nat,             // how many of these the server has handled
    replies: seq<Reply>,     // what the router built for each of those
    sent: seq<Message>,      // everything the server has sent
    delivered: nat,          // how many of these the peer has handled
    ran: seq<Ran>,
    seen: map<nat, nat>)     // how many requests of each earlier session were handled before this one joined

  /** A session that closed, and the sessions that were live just after. */
  datatype Departure = Departure(uid: nat, audience: set<nat>)

  datatype System = System(
    table: Table,
    connections: map<nat, Connection>,
    loggedIn: set<nat>,  // every uid whose login has been announced
    departures: seq<Departure>)

  const START := System(Table(1, map[]), map[], {}, [])

  datatype Step =
    | Connect(loginName: string)
    | ConnectStranger
    | SayPublic(uid: nat, text: string)
    | SayPrivate(uid: nat, toUid: nat, text: string)
    | Inject(uid: nat, message: Message)  // a stranger sends whatever it likes
    | Serve(uid: nat, ids: seq<nat>)
    | Deliver(uid: nat)
    | Close(uid: nat)                     // the server closes the session, again or for the first time
    | Lose(uid: nat)                      // the client meets an input/output error
    | Quit(uid: nat)                      // the user disconnects

  // ---------------------------------------------------------------- steps of one connection

  function Opened(peer: Peer, requests: seq<Message>): Connection {
    Connection(peer, false, requests, 0, [], [], 0, [], map[])
  }

  function WithMoved(c: Connection, moved: Moved): Connection {
    c.(peer := Member(moved.app), requests := c.requests + moved.sent)
  }

  ghost predicate Listening(c: Connection) {
    c.delivered < |c.sent| && (c.peer.Member? ==> c.peer.app.client.Some? && c.peer.app.client.value.running)
  }

  /** The next message on its way to the client arrives. */
  function DeliverNext(c: Connection): Connection
    requires c.delivered < |c.sent| && (c.peer.Member? ==> c.peer.app.client.Some?)
  {
    var m := c.sent[c.delivered];
    var d := c.(delivered := c.delivered + 1);
    if c.peer.Stranger? then d else
    var due := Dispatched(c.peer.app.client.value.pending, m);
    WithMoved(d.(ran := c.ran + if due.RunCallback? then [Ran(m.answered, due.callback, due.reply)] else []),
              Heard(c.peer.app, m))
  }

  // ---------------------------------------------------------------- steps of the system

  /** The sessions in the audience are sent an event. */
  function Told(connections: map<nat, Connection>, audience: set<nat>, event: Event): map<nat, Connection> {
    map u | u in connections ::
      if u in audience then connections[u].(sent := connections[u].sent + [Push(event)]) else connections[u]
  }

  function Announced(s: System, o: Outcome): System {
    if o.push.None? then s.(table := o.table) else
    s.(table := o.table,
       connections := Told(s.connections, o.audience, o.push.value),
       loggedIn := if o.push.value.UserJoined? then s.loggedIn + {o.push.value.uid} else s.loggedIn)
  }

  function Answered(s: System, uid: nat, response: Message): System
    requires uid in s.connections && response.Response?
  {
    var c := s.connections[uid];
    s.(connections := s.connections[uid := c.(served := c.served + 1, replies := c.replies + [response.body], sent := c.sent + [response])])
  }

  function Closed(s: System, uid: nat): System
    requires uid in s.connections
  {
    var c := s.connections[uid];
    if c.closed then s else
    var table := s.table.Left(uid);
    System(table,
           Told(s.connections[uid := c.(closed := true)], table.names.Keys, UserLeft(uid)),
           s.loggedIn,
           s.departures + [Departure(uid, table.names.Keys)])
  }

  lemma AlwaysAResponse(table: Table, uid: nat, message: Message, ids: seq<nat>)
    ensures var e := Served(table, uid, message, ids); e.response != [] ==> e.response[0].Response?
  {
  }

  /** The server handles the next message of a connection; if the router throws, the session is closed. */
  function ServeNext(s: System, uid: nat, ids: seq<nat>): System
    requires uid in s.connections && s.connections[uid].served < |s.connections[uid].requests|
  {
    var c := s.connections[uid];
    var e := Served(s.table, uid, c.requests[c.served], ids);
    AlwaysAResponse(s.table, uid, c.requests[c.served], ids);
    if e.response == [] then Closed(s.(connections := s.connections[uid := c.(served := c.served + 1)]), uid)
    else Answered(Announced(s, e.outcome), uid, e.response[0])
  }

  predicate IsMember(s: System, uid: nat) {
    uid in s.connections && s.connections[uid].peer.Member?
  }

  ghost predicate Enabled(s: System, step: Step) {
    match step
    case Connect(_) => true
    case ConnectStranger => true
    case SayPublic(uid, _) => IsMember(s, uid)
    case SayPrivate(uid, _, _) => IsMember(s, uid)
    case Inject(uid, _) => uid in s.connections && s.connections[uid].peer.Stranger?
    case Serve(uid, ids) =>
      uid in s.connections && !s.connections[uid].closed && s.connections[uid].served < |s.connections[uid].requests|
      && IsListing(ids, s.table.names)
    case Deliver(uid) => uid in s.connections && Listening(s.connections[uid])
    case Close(uid) => uid in s.connections
    case Lose(uid) => IsMember(s, uid) && s.connections[uid].peer.app.client.Some?
    case Quit(uid) => IsMember(s, uid)
  }

  function Entered(s: System, c: Connection): System {
    s.(table := s.table.Entered(), connections := s.connections[s.table.nextUid := c.(seen := ServedSoFar(s))])
  }

  function ServedSoFar(s: System): map<nat, nat> {
    map v | v in s.connections :: s.connections[v].served
  }

  function Replaced(s: System, uid: nat, c: Connection): System {
    s.(connections := s.connections[uid := c])
  }

  ghost function Next(s: System, step: Step): System
    requires Enabled(s, step)
  {
    match step
    case Connect(name) => Entered(s, Opened(Member(Joined(name).app), Joined(name).sent))
    case ConnectStranger => Entered(s, Opened(Stranger, []))
    case SayPublic(uid, text) =>
      Replaced(s, uid, WithMoved(s.connections[uid], SaidPublic(s.connections[uid].peer.app, text)))
    case SayPrivate(uid, to, text) =>
      Replaced(s, uid, WithMoved(s.connections[uid], SaidPrivate(s.connections[uid].peer.app, to, text)))
    case Inject(uid, m) =>
      Replaced(s, uid, s.connections[uid].(requests := s.connections[uid].requests + [m]))
    case Serve(uid, ids) => ServeNext(s, uid, ids)
    case Deliver(uid) => Replaced(s, uid, DeliverNext(s.connections[uid]))
    case Close(uid) => Closed(s, uid)
    case Lose(uid) => Replaced(s, uid, Lost(s.connections[uid]))
    case Quit(uid) => Replaced(s, uid, s.connections[uid].(peer := Member(OFFLINE)))
  }

  function Lost(c: Connection): Connection
    requires c.peer.Member? && c.peer.app.client.Some?
  {
    c.(peer := Member(c.peer.app.(client := Some(c.peer.app.client.value.(running := false)))))
  }

  /** A run: every step is enabled where it is taken. */
  ghost predicate Legal(s: System, steps: seq<Step>)
    decreases |steps|
  {
    steps == [] || (Enabled(s, steps[0]) && Legal(Next(s, steps[0]), steps[1..]))
  }

  ghost function After(s: System, steps: seq<Step>): System
    requires Legal(s, steps)
    decreases |steps|
  {
    if steps == [] then s else After(Next(s, steps[0]), steps[1..])
  }

  /** A server step as the model of the server has it: each session is sent exactly what Served says. */
  lemma ServeSends(s: System, uid: nat, ids: seq<nat>, u: nat)
    requires uid in s.connections && s.connections[uid].served < |s.connections[uid].requests|
    requires u in s.connections
    ensures var c := s.connections[uid];
            var e := Served(s.table, uid, c.requests[c.served], ids);
            e.response != [] ==>
              ServeNext(s, uid, ids).table == e.outcome.table
              && ServeNext(s, uid, ids).connections.Keys == s.connections.Keys
              && ServeNext(s, uid, ids).connections[u].sent == s.connections[u].sent + e.SentTo(u, uid)
  {
    var c := s.connections[uid];
    var e := Served(s.table, uid, c.requests[c.served], ids);
    AlwaysAResponse(s.table, uid, c.requests[c.served], ids);
    if e.response != [] {
      assert |e.response| == 1;
    }
  }

  /** Likewise when a session closes: the first time it leaves the table and each session is told what the model
   of the server says; later nothing happens. */
  lemma CloseSends(s: System, uid: nat, u: nat)
    requires uid in s.connections && u in s.connections
    ensures u in Closed(s, uid).connections
    ensures s.connections[uid].closed ==> Closed(s, uid) == s
    ensures !s.connections[uid].closed ==>
              Closed(s, uid).table == s.table.Left(uid)
              && Closed(s, uid).connections[u].sent == s.connections[u].sent + s.table.FarewellTo(u, uid)
  {
  }

  /** And when one is entered: it gets the next uid of the table, and nobody is told. */
  lemma EnterSends(s: System, c: Connection, u: nat)
    requires u in s.connections && s.table.nextUid !in s.connections
    ensures Entered(s, c).table == s.table.Entered() && s.table.nextUid in Entered(s, c).connections
    ensures u in Entered(s, c).connections && Entered(s, c).connections[u] == s.connections[u]
  {
  }
}
