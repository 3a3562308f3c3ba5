/**
 Rosters, uids and departures: what every step of the whole system keeps, and what therefore
 holds after every run.
 */
module ChatRoster {
  import opened ChatMessages
  import opened ChatRouter
  import opened ChatServer
  import opened ChatClient
  import opened ChatSystem
  import opened ChatMatching

  // ---------------------------------------------------------------- rosters

  /** A client list has been sent in this stream. */
  predicate Listed(stream: seq<Message>) {
    stream != [] && (IsList(stream[|stream| - 1]) || Listed(stream[..|stream| - 1]))
  }

  predicate IsList(m: Message) {
    m.Response? && m.body.Clients?
  }

  predicate Agrees(roster: Names, names: Names) {
    forall v :: v in roster ==> v in names && roster[v] == names[v]
  }

  /** A stream leads to a roster of live users under their names; with a list in it, to all that are logged in. */
  predicate Current(names: Names, loggedIn: set<nat>, stream: seq<Message>) {
    && Agrees(Roster(stream), names)
    && (Listed(stream) ==> loggedIn * names.Keys <= Roster(stream).Keys)
  }

  lemma GrowStream(stream: seq<Message>, m: Message)
    ensures Roster(stream + [m]) == RosterAfter(Roster(stream), m)
    ensures Listed(stream + [m]) <==> IsList(m) || Listed(stream)
  {
    RosterAppend(stream, m);
    assert (stream + [m])[..|stream|] == stream;
  }

  lemma JoinKeepsCurrent(names: Names, loggedIn: set<nat>, stream: seq<Message>, uid: nat, name: string)
    requires Current(names, loggedIn, stream)
    ensures Current(names[uid := name], loggedIn + {uid}, stream + [Push(UserJoined(uid, name))])
  {
    GrowStream(stream, Push(UserJoined(uid, name)));
  }

  lemma LeaveKeepsCurrent(names: Names, loggedIn: set<nat>, stream: seq<Message>, uid: nat)
    requires Current(names, loggedIn, stream)
    ensures Current(names - {uid}, loggedIn, stream + [Push(UserLeft(uid))])
  {
    GrowStream(stream, Push(UserLeft(uid)));
  }

  lemma OthersKeepCurrent(names: Names, loggedIn: set<nat>, stream: seq<Message>, m: Message)
    requires Current(names, loggedIn, stream)
    requires match m
             case Push(UserJoined(_, _)) => false
             case Push(UserLeft(_)) => false
             case _ => !IsList(m)
    ensures Current(names, loggedIn, stream + [m])
  {
    GrowStream(stream, m);
  }

  lemma ListMakesCurrent(table: Table, ids: seq<nat>, loggedIn: set<nat>, stream: seq<Message>, id: nat)
    requires Current(table.names, loggedIn, stream) && IsListing(ids, table.names)
    ensures Current(table.names, loggedIn, stream + [Response(id, Clients(Entries(table, ids)))])
  {
    var entries := Entries(table, ids);
    GrowStream(stream, Response(id, Clients(entries)));
    forall i | 0 <= i < |entries| ensures entries[i].uid in table.names && table.names[entries[i].uid] == entries[i].name {
      assert ids[i] in ids;
    }
    MergeNamesMeaning(Roster(stream), entries, table.names);
    forall v | v in table.names ensures v in MergeNames(Roster(stream), entries) {
      var i :| 0 <= i < |ids| && ids[i] == v;
      assert entries[i].uid == v;
    }
  }

  // ---------------------------------------------------------------- departures

  /** How often a session has closed. */
  function Departed(departures: seq<Departure>, v: nat): nat {
    if departures == [] then 0
    else Departed(departures[..|departures| - 1], v) + if departures[|departures| - 1].uid == v then 1 else 0
  }

  /** How often the departure of v was to be announced to u. */
  function FarewellsDue(departures: seq<Departure>, u: nat, v: nat): nat {
    if departures == [] then 0
    else
      var d := departures[|departures| - 1];
      FarewellsDue(departures[..|departures| - 1], u, v) + if d.uid == v && u in d.audience then 1 else 0
  }

  lemma GrowDepartures(departures: seq<Departure>, d: Departure, u: nat, v: nat)
    ensures Departed(departures + [d], v) == Departed(departures, v) + if d.uid == v then 1 else 0
    ensures FarewellsDue(departures + [d], u, v) == FarewellsDue(departures, u, v) + if d.uid == v && u in d.audience then 1 else 0
  {
    assert (departures + [d])[..|departures|] == departures;
  }

  lemma {:induction false} NotDepartedNotDue(departures: seq<Departure>, u: nat, v: nat)
    requires Departed(departures, v) == 0 || forall i :: 0 <= i < |departures| ==> u !in departures[i].audience
    ensures FarewellsDue(departures, u, v) == 0
  {
    if departures != [] { NotDepartedNotDue(departures[..|departures| - 1], u, v); }
  }

  /** A session that closed once is announced to its audience and to nobody else. */
  lemma {:induction false} OneDepartureOneAudience(departures: seq<Departure>, i: nat, u: nat)
    requires i < |departures| && Departed(departures, departures[i].uid) <= 1
    ensures Departed(departures, departures[i].uid) == 1
    ensures FarewellsDue(departures, u, departures[i].uid) == if u in departures[i].audience then 1 else 0
  {
    var before := departures[..|departures| - 1];
    if i < |before| {
      OneDepartureOneAudience(before, i, u);
    } else {
      NotDepartedNotDue(before, u, departures[i].uid);
    }
  }

  // ---------------------------------------------------------------- the invariant

  /** Uids are those handed out; the table holds exactly the sessions that are not closed. */
  ghost predicate TableKept(s: System) {
    && 0 < s.table.nextUid
    && (forall u :: u in s.connections <==> 0 < u < s.table.nextUid)
    && (forall u :: u in s.table.names <==> u in s.connections && !s.connections[u].closed)
    && s.loggedIn <= s.connections.Keys
  }

  ghost predicate RostersKept(s: System)
    requires TableKept(s)
  {
    forall u :: u in s.table.names ==> Current(s.table.names, s.loggedIn, s.connections[u].sent)
  }

  ghost predicate MatchedAll(s: System) {
    forall u :: u in s.connections ==> Matched(u, s.connections[u])
  }

  ghost predicate FarewellsKept(s: System) {
    && (forall v: nat :: Departed(s.departures, v) == if v in s.connections && s.connections[v].closed then 1 else 0)
    && (forall u, v: nat :: u in s.connections ==> Farewells(s.connections[u].sent, v) == FarewellsDue(s.departures, u, v))
    && (forall i :: 0 <= i < |s.departures| ==> s.departures[i].audience <= s.connections.Keys)
  }

  ghost predicate Kept(s: System) {
    TableKept(s) && RostersKept(s) && MatchedAll(s) && FarewellsKept(s)
  }

  // ---------------------------------------------------------------- the steps

  lemma EnterKeeps(s: System, c: Connection)
    requires Kept(s) && c.sent == [] && !c.closed && Matched(s.table.nextUid, c)
    ensures Kept(Entered(s, c))
  {
    EnterKeepsMatched(s, c);
    EnterKeepsFarewells(s, c);
    EnterKeepsTable(s, c);
    hide MatchedAll, FarewellsKept, TableKept, RostersKept;
  }

  lemma EnterKeepsMatched(s: System, c: Connection)
    requires MatchedAll(s) && Matched(s.table.nextUid, c)
    ensures MatchedAll(Entered(s, c))
  {
    SeenIsIrrelevant(s.table.nextUid, c, ServedSoFar(s));
    hide Matched, ServedSoFar;
  }

  lemma EnterKeepsTable(s: System, c: Connection)
    requires TableKept(s) && RostersKept(s) && c.sent == [] && !c.closed
    ensures TableKept(Entered(s, c)) && RostersKept(Entered(s, c))
  {
    hide Current, ServedSoFar;
    var t := Entered(s, c);
    forall u | u in t.table.names ensures Current(t.table.names, t.loggedIn, t.connections[u].sent) {
      NewcomerKeepsCurrent(s.table.names, s.loggedIn, t.connections[u].sent, s.table.nextUid);
    }
  }

  lemma EnterKeepsFarewells(s: System, c: Connection)
    requires TableKept(s) && FarewellsKept(s) && c.sent == [] && !c.closed
    ensures FarewellsKept(Entered(s, c))
  {
    hide Farewells, FarewellsDue, Departed, ServedSoFar;
    var t := Entered(s, c);
    var uid := s.table.nextUid;
    forall v: nat ensures Farewells([], v) == FarewellsDue(s.departures, uid, v) {
      NotDepartedNotDue(s.departures, uid, v);
      NoFarewellYet(v);
    }
  }

  lemma SeenIsIrrelevant(uid: nat, c: Connection, seen: map<nat, nat>)
    requires Matched(uid, c)
    ensures Matched(uid, c.(seen := seen))
  {
    hide Fits, CallbackOf, AppRequest;
  }

  lemma NewcomerKeepsCurrent(names: Names, loggedIn: set<nat>, stream: seq<Message>, uid: nat)
    requires uid !in names && uid !in loggedIn && (stream == [] || Current(names, loggedIn, stream))
    ensures Current(names[uid := "guest"], loggedIn, stream)
  {
  }

  lemma NoFarewellYet(v: nat)
    ensures Farewells([], v) == 0
  {
  }

  /** A connection changes, but neither what it was sent nor whether it is closed. */
  lemma ReplaceKeeps(s: System, uid: nat, c: Connection)
    requires Kept(s) && uid in s.connections && Matched(uid, c)
    requires c.sent == s.connections[uid].sent && c.closed == s.connections[uid].closed
    ensures Kept(Replaced(s, uid, c))
  {
    hide Matched, Current;
  }

  /** Every route leaves the table and the rosters in step, whoever it announces what to. */
  lemma AnnounceKeeps(s: System, route: Route, params: Params, uid: nat, ids: seq<nat>)
    requires Kept(s) && uid in s.table.names
    requires s.connections[uid].peer.Member? && s.connections[uid].served == 0 ==> route == Login
    ensures Kept(Announced(s, Routed(s.table, route, params, uid, ids)))
  {
    var o := Routed(s.table, route, params, uid, ids);
    AnnounceKeepsRosters(s, route, params, uid, ids);
    AnnounceKeepsMatched(s, o, uid, route);
    AnnounceKeepsFarewells(s, o);
  }

  lemma AnnounceKeepsRosters(s: System, route: Route, params: Params, uid: nat, ids: seq<nat>)
    requires Kept(s) && uid in s.table.names
    ensures var t := Announced(s, Routed(s.table, route, params, uid, ids)); TableKept(t) && RostersKept(t)
  {
    hide Matched, Current, FarewellsKept;
    var o := Routed(s.table, route, params, uid, ids);
    var t := Announced(s, o);
    forall u | u in t.table.names ensures Current(t.table.names, t.loggedIn, t.connections[u].sent) {
      var stream := s.connections[u].sent;
      assert Current(s.table.names, s.loggedIn, stream);
      if o.push.Some? && u in o.audience {
        var event := o.push.value;
        if event.UserJoined? {
          JoinKeepsCurrent(s.table.names, s.loggedIn, stream, event.uid, event.name);
        } else {
          OthersKeepCurrent(s.table.names, s.loggedIn, stream, Push(event));
        }
      }
    }
  }

  lemma AnnounceKeepsMatched(s: System, o: Outcome, uid: nat, route: Route)
    requires MatchedAll(s)
    requires exists table, params, ids :: o == Routed(table, route, params, uid, ids)
    requires uid > 0 && uid in s.connections
    requires s.connections[uid].peer.Member? && s.connections[uid].served == 0 ==> route == Login
    ensures MatchedAll(Announced(s, o))
  {
    hide Matched;
    forall u | u in s.connections && o.push.Some? && u in o.audience
      ensures Matched(u, s.connections[u].(sent := s.connections[u].sent + [Push(o.push.value)]))
    {
      PushKeepsMatched(u, s.connections[u], o.push.value);
    }
  }

  lemma AnnounceKeepsFarewells(s: System, o: Outcome)
    requires FarewellsKept(s) && (o.push.Some? ==> !o.push.value.UserLeft?)
    ensures FarewellsKept(Announced(s, o))
  {
    if o.push.Some? {
      forall u, v: nat | u in s.connections
        ensures Farewells(s.connections[u].sent + [Push(o.push.value)], v) == Farewells(s.connections[u].sent, v)
      {
        FarewellsAppend(s.connections[u].sent, Push(o.push.value), v);
      }
    }
  }

  lemma AnswerKeeps(s: System, uid: nat, response: Message, ids: seq<nat>)
    requires Kept(s) && uid in s.table.names && response.Response? && s.connections[uid].served < |s.connections[uid].requests|
    requires IsList(response) ==> response.body == Clients(Entries(s.table, ids)) && IsListing(ids, s.table.names)
    requires var c := s.connections[uid];
             c.peer.Member? ==> AppRequest(c.requests[c.served])
                                && response.answered == c.requests[c.served].id.value && Fits(uid, c.requests[c.served], response.body)
    ensures Kept(Answered(s, uid, response))
  {
    hide Matched, MatchedAll, RostersKept, FarewellsKept, Fits, AppRequest, Entries, IsListing, Answered;
    AnswerKeepsMatchedAll(s, uid, response);
    AnswerKeepsRosters(s, uid, response, ids);
    AnswerKeepsFarewells(s, uid, response);
  }

  lemma AnswerKeepsMatchedAll(s: System, uid: nat, response: Message)
    requires MatchedAll(s) && uid in s.connections && response.Response?
    requires s.connections[uid].served < |s.connections[uid].requests|
    requires var c := s.connections[uid];
             c.peer.Member? ==> AppRequest(c.requests[c.served])
                                && response.answered == c.requests[c.served].id.value && Fits(uid, c.requests[c.served], response.body)
    ensures MatchedAll(Answered(s, uid, response))
  {
    hide Matched, Fits, AppRequest;
    assert Matched(uid, s.connections[uid]);
    AnswerKeepsMatched(uid, s.connections[uid], response);
  }

  lemma AnswerKeepsRosters(s: System, uid: nat, response: Message, ids: seq<nat>)
    requires TableKept(s) && RostersKept(s) && uid in s.table.names && response.Response?
    requires IsList(response) ==> response.body == Clients(Entries(s.table, ids)) && IsListing(ids, s.table.names)
    ensures TableKept(Answered(s, uid, response)) && RostersKept(Answered(s, uid, response))
  {
    var t := Answered(s, uid, response);
    AnswerKeepsCurrent(s.table, s.loggedIn, s.connections[uid].sent, response, ids);
    hide Current, IsList, Entries, IsListing;
    forall u | u in t.table.names ensures Current(t.table.names, t.loggedIn, t.connections[u].sent) {
      if u != uid { assert t.connections[u] == s.connections[u]; }
    }
  }

  lemma AnswerKeepsCurrent(table: Table, loggedIn: set<nat>, stream: seq<Message>, response: Message, ids: seq<nat>)
    requires Current(table.names, loggedIn, stream) && response.Response?
    requires IsList(response) ==> response.body == Clients(Entries(table, ids)) && IsListing(ids, table.names)
    ensures Current(table.names, loggedIn, stream + [response])
  {
    if IsList(response) {
      ListMakesCurrent(table, ids, loggedIn, stream, response.answered);
    } else {
      OthersKeepCurrent(table.names, loggedIn, stream, response);
    }
  }

  lemma AnswerKeepsFarewells(s: System, uid: nat, response: Message)
    requires FarewellsKept(s) && uid in s.connections && response.Response?
    ensures FarewellsKept(Answered(s, uid, response))
  {
    forall v: nat ensures Farewells(s.connections[uid].sent + [response], v) == Farewells(s.connections[uid].sent, v) {
      FarewellsAppend(s.connections[uid].sent, response, v);
    }
    hide Farewells, FarewellsDue, Departed;
  }

  lemma CloseKeeps(s: System, uid: nat)
    requires Kept(s) && uid in s.connections
    ensures Kept(Closed(s, uid))
  {
    hide Current, Matched, Farewells, Departed, FarewellsDue;
    if !s.connections[uid].closed {
      var t := Closed(s, uid);
      var names := s.table.names - {uid};
      assert TableKept(t);
      forall u | u in names ensures Current(names, s.loggedIn, t.connections[u].sent) {
        LeaveKeepsCurrent(s.table.names, s.loggedIn, s.connections[u].sent, uid);
      }
      CloseKeepsMatched(s, uid);
      CloseKeepsFarewells(s, uid);
    }
  }

  lemma CloseKeepsMatched(s: System, uid: nat)
    requires MatchedAll(s) && uid in s.connections
    ensures MatchedAll(Closed(s, uid))
  {
    if !s.connections[uid].closed {
      var t := Closed(s, uid);
      forall u | u in t.connections ensures Matched(u, t.connections[u]) {
        var c := if u == uid then s.connections[u].(closed := true) else s.connections[u];
        assert Matched(u, c);
        hide Matched;
        PushKeepsMatched(u, c, UserLeft(uid));
      }
    }
  }

  lemma CloseKeepsFarewells(s: System, uid: nat)
    requires FarewellsKept(s) && TableKept(s) && uid in s.connections
    ensures FarewellsKept(Closed(s, uid))
  {
    hide Farewells, Departed, FarewellsDue;
    if !s.connections[uid].closed {
      var t := Closed(s, uid);
      var d := Departure(uid, s.table.names.Keys - {uid});
      assert (s.table.names - {uid}).Keys == d.audience;
      forall u, v: nat | u in t.connections
        ensures Departed(t.departures, v) == if v in t.connections && t.connections[v].closed then 1 else 0
        ensures Farewells(t.connections[u].sent, v) == FarewellsDue(t.departures, u, v)
      {
        GrowDepartures(s.departures, d, u, v);
        FarewellsAppend(s.connections[u].sent, Push(UserLeft(uid)), v);
      }
      forall v: nat ensures Departed(t.departures, v) == if v in t.connections && t.connections[v].closed then 1 else 0 {
        GrowDepartures(s.departures, d, uid, v);
      }
    }
  }

  lemma ServeKeeps(s: System, uid: nat, ids: seq<nat>)
    requires Kept(s) && Enabled(s, Serve(uid, ids))
    ensures Kept(ServeNext(s, uid, ids))
  {
    var c := s.connections[uid];
    var m := c.requests[c.served];
    var e := Served(s.table, uid, m, ids);
    AlwaysAResponse(s.table, uid, m, ids);
    if c.peer.Member? {
      assert Matched(uid, c);
      ServingFits(s.table, uid, m, ids);
    }
    hide Matched, Fits, AppRequest, Current;
    if e.response == [] {
      assert Matched(uid, c.(served := c.served + 1)) by { StrangersMatch(uid, c); }
      var skipped := Replaced(s, uid, c.(served := c.served + 1));
      ReplaceKeeps(s, uid, c.(served := c.served + 1));
      CloseKeeps(skipped, uid);
    } else {
      ServeAnswers(s, uid, ids);
    }
  }

  lemma StrangersMatch(uid: nat, c: Connection)
    requires Matched(uid, c) && c.peer.Stranger? && c.served < |c.requests|
    ensures Matched(uid, c.(served := c.served + 1))
  {
  }

  /** A client list is only ever made from the table as the response leaves it. */
  lemma ServedList(table: Table, uid: nat, m: Message, ids: seq<nat>)
    ensures var e := Served(table, uid, m, ids);
            forall r :: r in e.response && IsList(r) ==> r.body == Clients(Entries(e.outcome.table, ids)) && e.outcome.table == table
  {
  }

  /** The first thing that an application is served is its login. */
  lemma LoginFirst(uid: nat, c: Connection)
    requires Matched(uid, c) && c.peer.Member? && c.served < |c.requests|
    ensures c.served == 0 ==> Decide(ROUTES, c.requests[0]) == Run(1, Login, c.requests[0].params)
  {
  }

  lemma ServeAnnounces(s: System, uid: nat, ids: seq<nat>)
    requires Kept(s) && Enabled(s, Serve(uid, ids))
    ensures var c := s.connections[uid]; Kept(Announced(s, Served(s.table, uid, c.requests[c.served], ids).outcome))
  {
    var c := s.connections[uid];
    assert Matched(uid, c);
    if c.peer.Member? { LoginFirst(uid, c); }
    hide Kept, Decide, Routed;
    match Decide(ROUTES, c.requests[c.served])
    case Throw => assert Announced(s, Served(s.table, uid, c.requests[c.served], ids).outcome) == s;
    case Refuse(_) => assert Announced(s, Served(s.table, uid, c.requests[c.served], ids).outcome) == s;
    case Run(id, route, params) => AnnounceKeeps(s, route, params, uid, ids);
  }

  lemma ServeAnswers(s: System, uid: nat, ids: seq<nat>)
    requires Kept(s) && Enabled(s, Serve(uid, ids))
    requires var c := s.connections[uid]; Served(s.table, uid, c.requests[c.served], ids).response != []
    ensures Kept(ServeNext(s, uid, ids))
  {
    var c := s.connections[uid];
    var m := c.requests[c.served];
    var e := Served(s.table, uid, m, ids);
    AlwaysAResponse(s.table, uid, m, ids);
    if c.peer.Member? {
      assert Matched(uid, c);
      ServingFits(s.table, uid, m, ids);
    }
    ServeAnnounces(s, uid, ids);
    ServedList(s.table, uid, m, ids);
    RoutesKeepSessions(s.table, uid, m, ids);
    AnnounceFrame(s, e.outcome, uid);
    assert uid in s.table.names;
    hide Served, Kept, Announced, Answered, Fits, AppRequest, Entries;
    AnswerKeeps(Announced(s, e.outcome), uid, e.response[0], ids);
  }

  lemma AnnounceFrame(s: System, o: Outcome, uid: nat)
    requires uid in s.connections
    ensures var t := Announced(s, o);
            && t.table == o.table && uid in t.connections
            && t.connections[uid].peer == s.connections[uid].peer
            && t.connections[uid].requests == s.connections[uid].requests
            && t.connections[uid].served == s.connections[uid].served
  {
  }

  /** No request adds or removes a session. */
  lemma RoutesKeepSessions(table: Table, uid: nat, m: Message, ids: seq<nat>)
    ensures Served(table, uid, m, ids).outcome.table.names.Keys == table.names.Keys
    ensures Served(table, uid, m, ids).outcome.table.nextUid == table.nextUid
  {
  }

  lemma StepKeeps(s: System, step: Step)
    requires Kept(s) && Enabled(s, step)
    ensures Kept(Next(s, step))
  {
    StepKeepsMatched(s, step);
    hide Matched, RostersKept, FarewellsKept, TableKept, Legal;
    match step
    case Connect(name) => EnterKeeps(s, Opened(Member(Joined(name).app), Joined(name).sent));
    case ConnectStranger => EnterKeeps(s, Opened(Stranger, []));
    case SayPublic(uid, text) =>
      ReplaceKeeps(s, uid, WithMoved(s.connections[uid], SaidPublic(s.connections[uid].peer.app, text)));
    case SayPrivate(uid, to, text) =>
      ReplaceKeeps(s, uid, WithMoved(s.connections[uid], SaidPrivate(s.connections[uid].peer.app, to, text)));
    case Inject(uid, m) => ReplaceKeeps(s, uid, s.connections[uid].(requests := s.connections[uid].requests + [m]));
    case Serve(uid, ids) => ServeKeeps(s, uid, ids);
    case Deliver(uid) => ReplaceKeeps(s, uid, DeliverNext(s.connections[uid]));
    case Close(uid) => CloseKeeps(s, uid);
    case Lose(uid) => ReplaceKeeps(s, uid, Lost(s.connections[uid]));
    case Quit(uid) => ReplaceKeeps(s, uid, s.connections[uid].(peer := Member(OFFLINE)));
  }

  /** The steps that concern one connection alone. */
  lemma StepKeepsMatched(s: System, step: Step)
    requires Kept(s) && Enabled(s, step)
    ensures match step
            case Connect(name) => Matched(s.table.nextUid, Opened(Member(Joined(name).app), Joined(name).sent))
            case ConnectStranger => Matched(s.table.nextUid, Opened(Stranger, []))
            case SayPublic(uid, text) =>
              Matched(uid, WithMoved(s.connections[uid], SaidPublic(s.connections[uid].peer.app, text)))
            case SayPrivate(uid, to, text) =>
              Matched(uid, WithMoved(s.connections[uid], SaidPrivate(s.connections[uid].peer.app, to, text)))
            case Inject(uid, m) => Matched(uid, s.connections[uid].(requests := s.connections[uid].requests + [m]))
            case Deliver(uid) => Matched(uid, DeliverNext(s.connections[uid]))
            case Lose(uid) => Matched(uid, Lost(s.connections[uid]))
            case Quit(uid) => Matched(uid, s.connections[uid].(peer := Member(OFFLINE)))
            case _ => true
  {
    match step
    case Connect(name) => MatchedAtConnect(s.table.nextUid, name);
    case ConnectStranger => MatchedAtConnect(s.table.nextUid, "");
    case SayPublic(uid, text) => SayingKeepsMatched(uid, s.connections[uid], 0, text);
    case SayPrivate(uid, to, text) => SayingKeepsMatched(uid, s.connections[uid], to, text);
    case Inject(uid, m) => InjectKeepsMatched(uid, s.connections[uid], m);
    case Deliver(uid) => DeliverKeepsMatched(uid, s.connections[uid]);
    case Lose(uid) => LeavingKeepsMatched(uid, s.connections[uid]);
    case Quit(uid) => LeavingKeepsMatched(uid, s.connections[uid]);
    case _ =>
  }

  /** The invariant holds after every run. */
  lemma {:induction false} RunKeeps(s: System, steps: seq<Step>)
    requires Kept(s) && Legal(s, steps)
    ensures Kept(After(s, steps))
    decreases |steps|
  {
    hide Kept;
    if steps != [] {
      StepKeeps(s, steps[0]);
      RunKeeps(Next(s, steps[0]), steps[1..]);
    }
  }

  lemma StartKept()
    ensures Kept(START)
  {
  }
}
