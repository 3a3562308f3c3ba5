/**
 The client side of the chat: request ids and callbacks of src/net/client/Client.cpp, and the
 application state of app/net/client/common/ClientAppContext.cpp.
 */
module ChatClient {
  import opened ChatMessages
  import opened Results

  /** The three callbacks that the application passes to requestAsync. */
  datatype Callback = AfterLogin | AfterList | Ignore

  /** A Client as a value. */
  datatype ClientState = ClientState(running: bool, nextId: nat, pending: map<nat, Callback>)

  datatype User = User(uid: nat, name: string, unread: nat)

  datatype ChatMessage = ChatMessage(uid: nat, fromName: string, text: string, isPrivate: bool)

  /** A ClientAppContext as a value. */
  datatype App = App(
    client: Option<ClientState>,
    myUid: nat,
    myName: string,
    users: map<nat, User>,
    messages: seq<ChatMessage>)

  const OFFLINE := App(None, 0, "", map[], [])

  /** A state together with the requests sent on the way there. */
  datatype Moved = Moved(app: App, sent: seq<Message>)

  /** requestAsync: nothing unless running; otherwise the next id, its callback, and a request. */
  function Asked(app: App, methodName: string, params: Params, callback: Callback): Moved {
    match app.client
    case Some(ClientState(true, id, pending)) =>
      Moved(app.(client := Some(ClientState(true, id + 1, pending[id := callback]))),
            [Request(Given(id), Given(methodName), params)])
    case _ => Moved(app, [])
  }

  /** A fresh client on its way to the server. */
  const CONNECTING := OFFLINE.(client := Some(ClientState(true, 1, map[])))

  /** handleConnectResult: a client that is connected asks to log in, and one that is not stops. */
  function Connected(app: App, loginName: string, ok: bool): Moved
    requires app.client.Some?
  {
    if ok then Asked(app, "login", Params(Given(loginName), Absent, Absent), AfterLogin)
    else Moved(app.(client := Some(app.client.value.(running := false))), [])
  }

  /** A fresh client that has just been connected and has asked to log in. */
  function Joined(loginName: string): Moved {
    Connected(CONNECTING, loginName, true)
  }

  function MergeUsers(users: map<nat, User>, entries: seq<Entry>): map<nat, User>
    decreases |entries|
  {
    if entries == [] then users
    else MergeUsers(users[entries[0].uid := User(entries[0].uid, entries[0].name, 0)], entries[1..])
  }

  /** A callback run on the "result" or the "error" of a response. */
  function AfterReply(app: App, callback: Callback, reply: Reply): Moved {
    match (callback, reply)
    case (AfterLogin, Error(_, _)) => Moved(OFFLINE, [])
    case (AfterLogin, LoggedIn(uid, name)) =>
      Asked(app.(myUid := uid, myName := name), "client_list", NULL_PARAMS, AfterList)
    case (AfterList, Clients(entries)) => Moved(app.(users := MergeUsers(app.users, entries)), [])
    case _ => Moved(app, [])
  }

  function AfterPush(app: App, event: Event): App {
    match event
    case UserJoined(uid, name) => app.(users := app.users[uid := User(uid, name, 0)])
    case UserLeft(uid) => app.(users := app.users - {uid})
    case PublicMessage(from, name, text) =>
      if from == app.myUid then app
      else app.(messages := app.messages + [ChatMessage(from, name, text, false)])
    case PrivateMessage(from, name, text) =>
      if from == app.myUid then app
      else
        var heard := app.(messages := app.messages + [ChatMessage(from, name, text, true)]);
        if from in app.users
        then heard.(users := app.users[from := app.users[from].(unread := app.users[from].unread + 1)])
        else heard
  }

  /** The callback that a message will run, and what it is given. */
  datatype Dispatch = RunCallback(callback: Callback, reply: Reply) | RunPush(event: Event) | Nothing

  function Dispatched(pending: map<nat, Callback>, m: Message): Dispatch {
    match m
    case Response(id, reply) => if id in pending then RunCallback(pending[id], reply) else Nothing
    case Push(event) => RunPush(event)
    case Request(_, _, _) => Nothing
  }

  /** handleMessage: the callback of a response is found, erased, and then run. */
  function Heard(app: App, m: Message): Moved
    requires app.client.Some?
  {
    var c := app.client.value;
    match Dispatched(c.pending, m)
    case RunCallback(callback, reply) =>
      AfterReply(app.(client := Some(c.(pending := c.pending - {m.answered}))), callback, reply)
    case RunPush(event) => Moved(AfterPush(app, event), [])
    case Nothing => Moved(app, [])
  }

  /** sendPublic and sendPrivate: the sender sees its own text at once. */
  function SaidPublic(app: App, text: string): Moved {
    if app.client.None? || text == "" then Moved(app, []) else
    Asked(app.(messages := app.messages + [ChatMessage(app.myUid, app.myName, text, false)]),
          "send_public", Params(Absent, Given(text), Absent), Ignore)
  }

  function SaidPrivate(app: App, toUid: nat, text: string): Moved {
    if app.client.None? || text == "" then Moved(app, []) else
    Asked(app.(messages := app.messages + [ChatMessage(app.myUid, app.myName, text, true)]),
          "send_private", Params(Absent, Given(text), Given(toUid)), Ignore)
  }

  // ---------------------------------------------------------------- rosters

  function NamesOf(users: map<nat, User>): Names {
    map u | u in users :: users[u].name
  }

  lemma {:induction false} NamesOfMerge(users: map<nat, User>, entries: seq<Entry>)
    ensures NamesOf(MergeUsers(users, entries)) == MergeNames(NamesOf(users), entries)
    decreases |entries|
  {
    if entries != [] {
      var e := entries[0];
      NamesOfMerge(users[e.uid := User(e.uid, e.name, 0)], entries[1..]);
      assert NamesOf(users[e.uid := User(e.uid, e.name, 0)]) == NamesOf(users)[e.uid := e.name];
    }
  }

  // ---------------------------------------------------------------- the objects

  class Client {
    var isRunning: bool
    var nextRequestId: nat
    var callbacks: map<nat, Callback>
    var sent: seq<Message>

    function View(): ClientState
      reads this
    {
      ClientState(isRunning, nextRequestId, callbacks)
    }

    constructor ()
      ensures View() == ClientState(false, 1, map[]) && sent == []
    {
      isRunning, nextRequestId, callbacks, sent := false, 1, map[], [];
    }

    method Connect() returns (started: bool)
      modifies this`isRunning
      ensures started == !old(isRunning) && isRunning
    {
      started := !isRunning;
      isRunning := true;
    }

    method RequestAsync(methodName: string, params: Params, callback: Callback)
      modifies this`nextRequestId, this`callbacks, this`sent
      ensures !old(isRunning) ==> View() == old(View()) && sent == old(sent)
      ensures old(isRunning) ==>
                View() == ClientState(true, old(nextRequestId) + 1, old(callbacks)[old(nextRequestId) := callback])
                && sent == old(sent) + [Request(Given(old(nextRequestId)), Given(methodName), params)]
    {
      if !isRunning { return; }
      var id := nextRequestId;
      nextRequestId := nextRequestId + 1;
      callbacks := callbacks[id := callback];
      sent := sent + [Request(Given(id), Given(methodName), params)];
    }

    /** Finds what a message calls for; a callback found is erased before it runs. */
    method HandleMessage(m: Message) returns (due: Dispatch)
      modifies this`callbacks
      ensures due == Dispatched(old(callbacks), m)
      ensures callbacks == if due.RunCallback? then old(callbacks) - {m.answered} else old(callbacks)
    {
      due := Nothing;
      match m
      case Response(id, reply) =>
        if id in callbacks {
          due := RunCallback(callbacks[id], reply);
          callbacks := callbacks - {id};
        }
      case Push(event) =>
        due := RunPush(event);
      case Request(_, _, _) =>
    }

    /** Stops the client; true only for the call that did. */
    method Close() returns (stopped: bool)
      modifies this`isRunning
      ensures !isRunning && stopped == old(isRunning)
    {
      if !isRunning { return false; }
      isRunning := false;
      return true;
    }
  }

  class ClientAppContext {
    var client: Client?
    var loginName: string
    var myUid: nat
    var myName: string
    var users: map<nat, User>
    var messages: seq<ChatMessage>

    function View(): App
      reads this, client
    {
      App(if client == null then None else Some(client.View()), myUid, myName, users, messages)
    }

    constructor ()
      ensures View() == OFFLINE
    {
      client, loginName, myUid, myName, users, messages := null, "", 0, "", map[], [];
    }

    /** Drops the old connection and starts a new one, to log in under a name. */
    method Connect(name: string)
      modifies this, client
      ensures client != null && fresh(client)
      ensures View() == CONNECTING && client.sent == [] && loginName == name
    {
      Disconnect();
      loginName := name;
      client := new Client();
      var started := client.Connect();
    }

    method HandleConnectResult(ok: bool)
      requires client != null
      modifies client
      ensures View() == Connected(old(View()), loginName, ok).app
      ensures client.sent == old(client.sent) + Connected(old(View()), loginName, ok).sent
    {
      if ok {
        client.RequestAsync("login", Params(Given(loginName), Absent, Absent), AfterLogin);
      } else {
        client.isRunning := false;
      }
    }

    method Disconnect()
      modifies this, client
      ensures View() == OFFLINE
      ensures old(client) != null ==> !old(client).isRunning && old(client).sent == old(client.sent)
    {
      if client != null {
        var stopped := client.Close();
        client := null;
      }
      users, messages, myUid, myName := map[], [], 0, "";
    }

    method SendPublic(text: string)
      modifies this`messages, client
      ensures View() == SaidPublic(old(View()), text).app
      ensures client != null ==> client.sent == old(client.sent) + SaidPublic(old(View()), text).sent
    {
      if client == null || text == "" { return; }
      messages := messages + [ChatMessage(myUid, myName, text, false)];
      client.RequestAsync("send_public", Params(Absent, Given(text), Absent), Ignore);
    }

    method SendPrivate(toUid: nat, text: string)
      modifies this`messages, client
      ensures View() == SaidPrivate(old(View()), toUid, text).app
      ensures client != null ==> client.sent == old(client.sent) + SaidPrivate(old(View()), toUid, text).sent
    {
      if client == null || text == "" { return; }
      messages := messages + [ChatMessage(myUid, myName, text, true)];
      client.RequestAsync("send_private", Params(Absent, Given(text), Given(toUid)), Ignore);
    }

    method HandleLoginResponse(reply: Reply)
      requires client != null
      modifies this, client
      ensures View() == AfterReply(old(View()), AfterLogin, reply).app
      ensures old(client).sent == old(client.sent) + AfterReply(old(View()), AfterLogin, reply).sent
      ensures client == old(client) || client == null
    {
      match reply
      case Error(_, _) =>
        Disconnect();
      case LoggedIn(uid, name) =>
        myUid, myName := uid, name;
        client.RequestAsync("client_list", NULL_PARAMS, AfterList);
      case _ =>
    }

    method HandleClientList(reply: Reply)
      modifies this`users
      ensures View() == AfterReply(old(View()), AfterList, reply).app
    {
      match reply
      case Clients(entries) =>
        for k := 0 to |entries|
          invariant MergeUsers(users, entries[k..]) == MergeUsers(old(users), entries)
        {
          users := users[entries[k].uid := User(entries[k].uid, entries[k].name, 0)];
          assert entries[k..][1..] == entries[k + 1..];
        }
      case _ =>
    }

    method HandlePush(event: Event)
      modifies this`users, this`messages
      ensures View() == AfterPush(old(View()), event)
    {
      match event
      case UserJoined(uid, name) =>
        users := users[uid := User(uid, name, 0)];
      case UserLeft(uid) =>
        users := users - {uid};
      case PublicMessage(from, name, text) =>
        if from != myUid {
          messages := messages + [ChatMessage(from, name, text, false)];
        }
      case PrivateMessage(from, name, text) =>
        if from != myUid {
          messages := messages + [ChatMessage(from, name, text, true)];
          if from in users {
            users := users[from := users[from].(unread := users[from].unread + 1)];
          }
        }
    }

    /** One message read from the server. */
    method OnMessage(m: Message)
      requires client != null
      modifies this, client
      ensures View() == Heard(old(View()), m).app
      ensures old(client).sent == old(client.sent) + Heard(old(View()), m).sent
      ensures client == old(client) || client == null
    {
      var due := client.HandleMessage(m);
      match due
      case RunCallback(AfterLogin, reply) => HandleLoginResponse(reply);
      case RunCallback(AfterList, reply) => HandleClientList(reply);
      case RunCallback(Ignore, _) =>
      case RunPush(event) => HandlePush(event);
      case Nothing =>
    }
  }
}
