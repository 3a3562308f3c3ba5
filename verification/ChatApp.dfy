/**
 The server application: app/net/server/common/ServerAppContext.cpp registers the routes, and
 src/net/server/ServerController.cpp wires each accepted connection to the session table and
 the router.
 */
module ChatApp {
  import opened ChatMessages
  import opened ChatRouter
  import opened ChatServer
  import opened Results

  class ServerAppContext {
    const router: Router<Route>
    const sessions: SessionManager

    ghost predicate Valid()
      reads this, router, sessions, sessions.Objects()
    {
      && sessions.Valid()
      && router.handlers == ROUTES
      && forall u :: u in sessions.sessions ==>
           sessions.sessions[u].session.uid == u && !sessions.sessions[u].session.isClosed
    }

    constructor ()
      ensures Valid() && fresh(router) && fresh(sessions)
      ensures sessions.View() == Table(1, map[])
    {
      var routes := new Router<Route>();
      routes.Add("login", Login);
      routes.Add("client_list", ClientList);
      routes.Add("send_public", SendPublic);
      routes.Add("send_private", SendPrivate);
      routes.Add("ping", Ping);
      router := routes;
      sessions := new SessionManager();
    }

    /** A new connection: enter it into the table and give it its uid. */
    method Accept(session: PlainSession) returns (uid: nat)
      requires Valid() && session !in sessions.Objects() && !session.isClosed
      modifies sessions, session
      ensures Valid() && session.sent == old(session.sent)
      ensures uid == old(sessions.nextUid) && uid !in old(sessions.sessions)
      ensures sessions.sessions == old(sessions.sessions)[uid := SessionInfo(session, "guest")]
      ensures sessions.View() == old(sessions.View()).Entered()
    {
      uid := sessions.Add(session);
      assert forall u :: u in old(sessions.sessions) ==> old(sessions.sessions)[u].session in old(sessions.Objects());
      session.SetUid(uid);
    }

    /** Closing a session, by whichever side and however often: the first time it leaves the table,
     and then the sessions that remain are told. */
    method Close(session: PlainSession)
      requires Valid()
      requires !session.isClosed ==> session in sessions.Objects()
      modifies session`isClosed, sessions`sessions, (set s | s in sessions.Objects())`sent
      ensures Valid() && session.isClosed
      ensures old(session.isClosed) ==>
                sessions.sessions == old(sessions.sessions)
                && forall u :: u in sessions.sessions ==> sessions.sessions[u].session.sent == old(sessions.sessions[u].session.sent)
      ensures !old(session.isClosed) ==>
                sessions.sessions == old(sessions.sessions) - {session.uid}
                && sessions.View() == old(sessions.View()).Left(session.uid)
                && forall u :: u in sessions.sessions ==>
                     sessions.sessions[u].session.sent
                     == old(sessions.sessions[u].session.sent) + old(sessions.View()).FarewellTo(u, session.uid)
      ensures session.sent == old(session.sent)
    {
      var due := session.Close();
      if due {
        sessions.Remove(session.uid);
        hide Copies;
        Announce(UserLeft(session.uid));
      }
    }

    method Announce(event: Event)
      requires Valid()
      modifies sessions.Objects()`sent
      ensures Valid()
      ensures forall u :: u in sessions.sessions ==>
                sessions.sessions[u].session.sent == old(sessions.sessions[u].session.sent) + [Push(event)]
    {
      sessions.Broadcast(Push(event));
    }

    method Whisper(to: nat, event: Event)
      requires Valid()
      modifies sessions.Objects()`sent
      ensures Valid()
      ensures forall u :: u in sessions.sessions ==>
                sessions.sessions[u].session.sent
                == old(sessions.sessions[u].session.sent) + if u == to then [Push(event)] else []
    {
      hide Copies;
      forall u | u in sessions.sessions ensures Copies([to], u, Push(event)) == if u == to then [Push(event)] else [] {
        OneCopy([to], u, Push(event));
      }
      sessions.SendTo([to], Push(event));
    }

    method Rename(uid: nat, name: string)
      requires Valid()
      modifies sessions`sessions
      ensures Valid() && SameSessions(old(sessions.sessions), sessions.sessions)
      ensures sessions.Objects() == old(sessions.Objects())
      ensures sessions.View() == old(sessions.View()).Renamed(uid, name)
    {
      sessions.SetName(uid, name);
    }

    method RunLogin(params: Params, uid: nat) returns (attempt: Attempt)
      requires Valid()
      modifies sessions`sessions, sessions.Objects()`sent
      ensures Valid() && SameSessions(old(sessions.sessions), sessions.sessions)
      ensures var o := Routed(old(sessions.View()), Login, params, uid, []);
              && attempt == o.attempt && sessions.View() == o.table
              && forall u :: u in sessions.sessions ==>
                   sessions.sessions[u].session.sent == old(sessions.sessions[u].session.sent) + Pushed(o, u)
    {
      if params.name.Mistyped? { return JsonFailure; }
      var name := params.name.Or("guest");
      Rename(uid, name);
      Announce(UserJoined(uid, name));
      attempt := Done(LoggedIn(uid, name));
    }

    method RunClientList() returns (attempt: Attempt, ghost ids: seq<nat>)
      ensures IsListing(ids, sessions.View().names)
      ensures attempt == Done(Clients(Entries(sessions.View(), ids)))
    {
      var listing := sessions.ListIds();
      ids := listing;
      var entries := [];
      for k := 0 to |listing|
        invariant entries == Entries(sessions.View(), listing)[..k]
      {
        var name := sessions.GetName(listing[k]);
        entries := entries + [Entry(listing[k], name)];
      }
      assert Entries(sessions.View(), listing)[..|listing|] == Entries(sessions.View(), listing);
      attempt := Done(Clients(entries));
    }

    method RunSendPublic(params: Params, uid: nat) returns (attempt: Attempt)
      requires Valid()
      modifies sessions`sessions, sessions.Objects()`sent
      ensures Valid() && SameSessions(old(sessions.sessions), sessions.sessions)
      ensures var o := Routed(old(sessions.View()), SendPublic, params, uid, []);
              && attempt == o.attempt && sessions.View() == o.table
              && forall u :: u in sessions.sessions ==>
                   sessions.sessions[u].session.sent == old(sessions.sessions[u].session.sent) + Pushed(o, u)
    {
      if params.text.Mistyped? { return JsonFailure; }
      var from := sessions.GetName(uid);
      Announce(PublicMessage(uid, from, params.text.Or("")));
      attempt := Done(Delivered);
    }

    method RunSendPrivate(params: Params, uid: nat) returns (attempt: Attempt)
      requires Valid()
      modifies sessions`sessions, sessions.Objects()`sent
      ensures Valid() && SameSessions(old(sessions.sessions), sessions.sessions)
      ensures var o := Routed(old(sessions.View()), SendPrivate, params, uid, []);
              && attempt == o.attempt && sessions.View() == o.table
              && forall u :: u in sessions.sessions ==>
                   sessions.sessions[u].session.sent == old(sessions.sessions[u].session.sent) + Pushed(o, u)
    {
      if params.toUid.Mistyped? || params.text.Mistyped? { return JsonFailure; }
      var to := params.toUid.Or(0);
      var from := sessions.GetName(uid);
      Whisper(to, PrivateMessage(uid, from, params.text.Or("")));
      attempt := Done(Delivered);
    }

    /** The handler of a route; ids is the order in which client_list met the sessions. */
    method RunRoute(route: Route, params: Params, uid: nat) returns (attempt: Attempt, ghost ids: seq<nat>)
      requires Valid()
      modifies sessions`sessions, sessions.Objects()`sent
      ensures IsListing(ids, old(sessions.View()).names)
      ensures Valid() && SameSessions(old(sessions.sessions), sessions.sessions)
      ensures var o := Routed(old(sessions.View()), route, params, uid, ids);
              && attempt == o.attempt && sessions.View() == o.table
              && forall u :: u in sessions.sessions ==>
                   sessions.sessions[u].session.sent == old(sessions.sessions[u].session.sent) + Pushed(o, u)
    {
      attempt, ids := RunClientList();
      match route
      case Login => attempt := RunLogin(params, uid);
      case ClientList =>
      case SendPublic => attempt := RunSendPublic(params, uid);
      case SendPrivate => attempt := RunSendPrivate(params, uid);
      case Ping => attempt := Done(Pong);
    }

    /** A handler runs, and its result or its failure goes back to the session that asked. */
    method RunAndAnswer(session: PlainSession, id: nat, route: Route, params: Params) returns (ghost ids: seq<nat>)
      requires Valid() && session in sessions.Objects()
      modifies sessions`sessions, (set s | s in sessions.Objects())`sent
      ensures Valid() && SameSessions(old(sessions.sessions), sessions.sessions)
      ensures IsListing(ids, old(sessions.View()).names)
      ensures var o := Routed(old(sessions.View()), route, params, session.uid, ids);
              && sessions.View() == o.table
              && forall u :: u in sessions.sessions ==>
                   sessions.sessions[u].session.sent
                   == old(sessions.sessions[u].session.sent) + Effect(o, [Answer(id, o.attempt)]).SentTo(u, session.uid)
    {
      hide Routed, Answer, Pushed;
      var attempt;
      attempt, ids := RunRoute(route, params, session.uid);
      session.Send(Answer(id, attempt));
    }

    /** A message from a session: the router answers it and the answer goes to that session.
     When the router throws, the reader closes the session. */
    method OnMessage(session: PlainSession, message: Message) returns (ok: bool, ghost ids: seq<nat>)
      requires Valid() && session in sessions.Objects()
      modifies session`isClosed, sessions`sessions, (set s | s in sessions.Objects())`sent
      ensures Valid()
      ensures IsListing(ids, old(sessions.View()).names)
      ensures var e := Served(old(sessions.View()), session.uid, message, ids);
              ok == (e.response != []) &&
              (ok ==> sessions.View() == e.outcome.table && SameSessions(old(sessions.sessions), sessions.sessions)
                      && forall u :: u in sessions.sessions ==>
                           sessions.sessions[u].session.sent == old(sessions.sessions[u].session.sent) + e.SentTo(u, session.uid))
      ensures !ok ==> session.isClosed && sessions.sessions == old(sessions.sessions) - {session.uid}
                      && sessions.View() == old(sessions.View()).Left(session.uid)
                      && forall u :: u in sessions.sessions ==>
                           sessions.sessions[u].session.sent
                           == old(sessions.sessions[u].session.sent) + old(sessions.View()).FarewellTo(u, session.uid)
    {
      var listing := sessions.ListIds();
      ids := listing;
      hide Routed, Answer, Decide, Pushed;
      var decision := router.Dispatch(message);
      match decision
      case Throw =>
        Close(session);
        ok := false;
      case Refuse(response) =>
        assert forall u: nat :: Pushed(Outcome(sessions.View(), {}, None, OtherFailure), u) == [] by { NothingPushed(sessions.View()); }
        session.Send(response);
        ok := true;
      case Run(id, route, params) =>
        ids := RunAndAnswer(session, id, route, params);
        ok := true;
    }
  }

  lemma NothingPushed(table: Table)
    ensures forall u: nat :: Pushed(Outcome(table, {}, None, OtherFailure), u) == []
  {
  }

  /** The same sessions under the same uids, whatever their user names. */
  ghost predicate SameSessions(before: map<nat, SessionInfo>, after: map<nat, SessionInfo>) {
    after.Keys == before.Keys && forall u :: u in after ==> after[u].session == before[u].session
  }
}
