/**
 What holds of the chat after every run, over every interleaving of its steps.
 */
module ChatTheorems {
  import opened ChatMessages
  import opened ChatServer
  import opened ChatClient
  import opened ChatSystem
  import opened ChatMatching
  import opened ChatRoster

  lemma ReachableIsKept(steps: seq<Step>)
    requires Legal(START, steps)
    ensures Kept(After(START, steps))
  {
    StartKept();
    RunKeeps(START, steps);
  }

  // ---------------------------------------------------------------- rosters

  /** The client's state once the messages still on their way to it have been handled. */
  function Drained(app: App, queue: seq<Message>): App
    decreases |queue|
  {
    if queue == [] || app.client.None? then app else Drained(Heard(app, queue[0]).app, queue[1..])
  }

  lemma {:induction false} DrainLeadsToRoster(uid: nat, c: Connection)
    requires Matched(uid, c) && c.peer.Member? && c.peer.app.client.Some?
    ensures var app := Drained(c.peer.app, c.sent[c.delivered..]);
            app.client.Some? && NamesOf(app.users) == Roster(c.sent)
    decreases |c.sent| - c.delivered
  {
    if c.delivered < |c.sent| {
      if c.sent[c.delivered].Response? { DeliverResponse(uid, c); } else { DeliverOther(uid, c); }
      hide Matched;
      DrainLeadsToRoster(uid, DeliverNext(c));
      assert c.sent[c.delivered..][1..] == c.sent[c.delivered + 1..];
    } else {
      assert c.sent[..c.delivered] == c.sent;
    }
  }

  /** Roster convergence.  For every live session of the application in every reachable state:
   once its client has handled what is still on its way, its user list holds only live users,
   each under the name that the server holds; and if a client list is among what the server has
   sent it, then every live user that has logged in is on it. */
  lemma RosterConverges(steps: seq<Step>, uid: nat)
    requires Legal(START, steps)
    requires var s := After(START, steps);
             uid in s.table.names && IsMember(s, uid) && s.connections[uid].peer.app.client.Some?
    ensures After(START, steps).connections[uid].delivered <= |After(START, steps).connections[uid].sent|
    ensures var s := After(START, steps);
            var c := s.connections[uid];
            var roster := NamesOf(Drained(c.peer.app, c.sent[c.delivered..]).users);
            && (forall v :: v in roster ==> v in s.table.names && roster[v] == s.table.names[v])
            && (Listed(c.sent) ==> forall v :: v in s.loggedIn && v in s.table.names ==> v in roster)
  {
    ReachableIsKept(steps);
    var s := After(START, steps);
    DrainLeadsToRoster(uid, s.connections[uid]);
    assert Current(s.table.names, s.loggedIn, s.connections[uid].sent);
    hide Matched, Roster, Drained;
  }

  // ---------------------------------------------------------------- requests and callbacks

  /** Over every run: the callbacks of a client have run in the order of their requests, each at most
   once, each on the reply that the router built for the request with its id; and the callbacks
   that are pending are those of the requests issued and not yet answered. */
  lemma CallbacksAnswerRequests(steps: seq<Step>, uid: nat)
    requires Legal(START, steps) && IsMember(After(START, steps), uid)
    ensures var c := After(START, steps).connections[uid];
            && |c.ran| <= |c.replies| == c.served <= |c.requests|
            && (forall k :: 0 <= k < |c.requests| ==> AppRequest(c.requests[k]) && c.requests[k].id == Given(k + 1))
            && (forall k :: 0 <= k < |c.ran| ==> c.ran[k] == Ran(k + 1, CallbackOf(c.requests[k]), c.replies[k]))
            && (forall k :: 0 <= k < |c.replies| ==> Fits(uid, c.requests[k], c.replies[k]))
            && Responses(c.sent) == seq(c.served, k requires 0 <= k < c.served => Response(k + 1, c.replies[k]))
    ensures var c := After(START, steps).connections[uid];
            c.peer.app.client.Some? ==>
              var pending := c.peer.app.client.value.pending;
              (forall i :: i in pending <==> |c.ran| < i <= |c.requests|)
              && forall i :: i in pending ==> pending[i] == CallbackOf(c.requests[i - 1])
  {
    ReachableIsKept(steps);
    var c := After(START, steps).connections[uid];
    assert Matched(uid, c);
    hide Fits, CallbackOf, AppRequest, Roster, NamesOf, Kept, After, Legal;
  }

  /** The login of the application never fails, so no reply ever disconnects it. */
  lemma LoginNeverFails(steps: seq<Step>, uid: nat)
    requires Legal(START, steps) && Enabled(After(START, steps), Deliver(uid)) && IsMember(After(START, steps), uid)
    ensures DeliverNext(After(START, steps).connections[uid]).peer.app.client.Some?
    ensures DeliverNext(After(START, steps).connections[uid]).peer.app.client.value.running
  {
    ReachableIsKept(steps);
    var c := After(START, steps).connections[uid];
    assert Matched(uid, c);
    if c.sent[c.delivered].Response? { DeliverResponse(uid, c); } else { DeliverOther(uid, c); }
  }

  // ---------------------------------------------------------------- conversation

  /** The line that a message adds to the conversation of a user who did not say it. */
  function Line(m: Message): seq<ChatMessage> {
    match m
    case Push(PublicMessage(from, name, text)) => [ChatMessage(from, name, text, false)]
    case Push(PrivateMessage(from, name, text)) => [ChatMessage(from, name, text, true)]
    case _ => []
  }

  /** A client shows what others say and never the echo of what it said itself, even if it spoke
   before it knew its own uid. */
  lemma OthersAreShownAndNoEcho(steps: seq<Step>, uid: nat)
    requires Legal(START, steps) && Enabled(After(START, steps), Deliver(uid)) && IsMember(After(START, steps), uid)
    ensures var c := After(START, steps).connections[uid];
            var m := c.sent[c.delivered];
            DeliverNext(c).peer.app.messages == c.peer.app.messages + if SpokenBy(m, uid) then [] else Line(m)
  {
    ReachableIsKept(steps);
    var c := After(START, steps).connections[uid];
    assert Matched(uid, c);
    hide Kept, After, Legal, Roster;
    ShownOrEcho(uid, c);
  }

  lemma ShownOrEcho(uid: nat, c: Connection)
    requires Matched(uid, c) && c.peer.Member? && c.peer.app.client.Some? && c.delivered < |c.sent|
    ensures var m := c.sent[c.delivered];
            DeliverNext(c).peer.app.messages == c.peer.app.messages + if SpokenBy(m, uid) then [] else Line(m)
  {
    var m := c.sent[c.delivered];
    if m.Response? {
      ReplyKeepsMessages(uid, c);
    } else {
      assert SpokenBy(m, uid) ==> c.peer.app.myUid == uid;
      assert !SpokenBy(m, uid) ==> !SpokenBy(m, c.peer.app.myUid);
    }
  }

  lemma ReplyKeepsMessages(uid: nat, c: Connection)
    requires Matched(uid, c) && c.peer.Member? && c.peer.app.client.Some? && c.delivered < |c.sent| && c.sent[c.delivered].Response?
    ensures DeliverNext(c).peer.app.messages == c.peer.app.messages
  {
    NextResponseIsPending(uid, c);
    hide Matched;
  }

  // ---------------------------------------------------------------- sessions

  /** The uid that the next connection will get has never been used. */
  lemma UidsAreNeverReused(steps: seq<Step>)
    requires Legal(START, steps)
    ensures var s := After(START, steps);
            && s.table.nextUid !in s.connections && s.table.nextUid !in s.table.names
            && forall i :: 0 <= i < |s.departures| ==> s.departures[i].uid < s.table.nextUid
  {
    ReachableIsKept(steps);
    var s := After(START, steps);
    forall i | 0 <= i < |s.departures| ensures s.departures[i].uid in s.connections {
      DepartedIsPositive(s.departures, i);
    }
  }

  lemma {:induction false} DepartedIsPositive(departures: seq<Departure>, i: nat)
    requires i < |departures|
    ensures Departed(departures, departures[i].uid) > 0
  {
    if i < |departures| - 1 { DepartedIsPositive(departures[..|departures| - 1], i); }
  }

  lemma {:induction false} DepartedTwice(departures: seq<Departure>, i: nat, j: nat)
    requires i < j < |departures| && departures[i].uid == departures[j].uid
    ensures Departed(departures, departures[i].uid) >= 2
  {
    var before := departures[..|departures| - 1];
    if j < |before| { DepartedTwice(before, i, j); } else { DepartedIsPositive(before, i); }
  }

  /** The close callback of a session runs at most once, and each user who has left has been
   announced exactly once to each session that was then live, and to no other; nobody else has been announced. */
  lemma OneFarewellEach(steps: seq<Step>)
    requires Legal(START, steps)
    ensures var s := After(START, steps);
            && (forall i, j :: 0 <= i < j < |s.departures| ==> s.departures[i].uid != s.departures[j].uid)
            && (forall i, u :: 0 <= i < |s.departures| && u in s.connections ==>
                  Farewells(s.connections[u].sent, s.departures[i].uid) == if u in s.departures[i].audience then 1 else 0)
            && (forall u, v: nat :: u in s.connections && !(v in s.connections && s.connections[v].closed) ==>
                  Farewells(s.connections[u].sent, v) == 0)
  {
    ReachableIsKept(steps);
    var s := After(START, steps);
    assert FarewellsKept(s);
    hide Farewells, FarewellsDue, Departed, Kept, After, Legal;
    forall i, j | 0 <= i < j < |s.departures| ensures s.departures[i].uid != s.departures[j].uid {
      if s.departures[i].uid == s.departures[j].uid { DepartedTwice(s.departures, i, j); }
    }
    forall i, u | 0 <= i < |s.departures| && u in s.connections
      ensures Farewells(s.connections[u].sent, s.departures[i].uid) == if u in s.departures[i].audience then 1 else 0
    {
      OneDepartureOneAudience(s.departures, i, u);
    }
    forall u, v: nat | u in s.connections && !(v in s.connections && s.connections[v].closed)
      ensures Farewells(s.connections[u].sent, v) == 0
    {
      NotDepartedNotDue(s.departures, u, v);
    }
  }

  /** Nobody leaves between two states. */
  ghost predicate NobodyLeaves(s: System, t: System) {
    t.departures == s.departures && s.table.names.Keys <= t.table.names.Keys
  }

  /** The session d.uid leaves between two states: it is out of the table when its departure goes out, to
   exactly the sessions in the table. */
  ghost predicate Leaves(d: Departure, s: System, t: System) {
    && t.departures == s.departures + [d]
    && d.uid in s.table.names && t.table.names.Keys == s.table.names.Keys - {d.uid} == d.audience
    && forall u :: u in t.table.names ==>
         u in s.connections && u in t.connections
         && t.connections[u].sent == s.connections[u].sent + [Push(UserLeft(d.uid))]
  }

  /** At every step either nobody leaves, or one session leaves the table and exactly those that stay are told. */
  lemma LeavesBeforeFarewell(s: System, step: Step)
    requires Kept(s) && Enabled(s, step)
    ensures NobodyLeaves(s, Next(s, step)) || exists d :: Leaves(d, s, Next(s, step))
  {
    hide RostersKept, MatchedAll, FarewellsKept, NobodyLeaves, Leaves;
    match step
    case Serve(uid, ids) => ServeLeaves(s, uid, ids);
    case Close(uid) => CloseLeaves(s, s, uid);
    case _ => SameDepartures(s, Next(s, step));
  }

  lemma ServeLeaves(s: System, uid: nat, ids: seq<nat>)
    requires TableKept(s) && Enabled(s, Serve(uid, ids))
    ensures NobodyLeaves(s, ServeNext(s, uid, ids)) || exists d :: Leaves(d, s, ServeNext(s, uid, ids))
  {
    hide NobodyLeaves, Leaves;
    var c := s.connections[uid];
    var m := c.requests[c.served];
    AlwaysAResponse(s.table, uid, m, ids);
    RoutesKeepSessions(s.table, uid, m, ids);
    hide Served;
    if Served(s.table, uid, m, ids).response == [] {
      var skipped := s.(connections := s.connections[uid := c.(served := c.served + 1)]);
      assert TableKept(skipped);
      hide TableKept, Closed, IsListing;
      CloseLeaves(skipped, s, uid);
    } else {
      assert ServeNext(s, uid, ids).departures == s.departures;
      hide TableKept, ServeNext, IsListing;
      SameDepartures(s, ServeNext(s, uid, ids));
    }
  }

  lemma SameDepartures(s: System, t: System)
    requires t.departures == s.departures && s.table.names.Keys <= t.table.names.Keys
    ensures NobodyLeaves(s, t)
  {
  }

  lemma CloseLeaves(s: System, before: System, uid: nat)
    requires TableKept(s) && uid in s.connections
    requires before.table == s.table && before.departures == s.departures && before.connections.Keys == s.connections.Keys
    requires forall u :: u in s.connections ==> s.connections[u].sent == before.connections[u].sent
    ensures NobodyLeaves(before, Closed(s, uid)) || exists d :: Leaves(d, before, Closed(s, uid))
  {
    if !s.connections[uid].closed {
      var d := Departure(uid, (s.table.names - {uid}).Keys);
      assert (s.table.names - {uid}).Keys == s.table.names.Keys - {uid};
      assert Leaves(d, before, Closed(s, uid));
    }
  }

  lemma ClosedStaysClosed(s: System, step: Step, uid: nat)
    requires Kept(s) && Enabled(s, step) && uid in s.connections && s.connections[uid].closed
    ensures uid in Next(s, step).connections && Next(s, step).connections[uid].closed
  {
    hide RostersKept, MatchedAll, FarewellsKept;
    match step
    case Serve(v, ids) =>
      AlwaysAResponse(s.table, v, s.connections[v].requests[s.connections[v].served], ids);
      hide Served;
    case _ =>
  }

  /** A session that has closed never returns to the table. */
  lemma {:induction false} ClosedForGood(s: System, steps: seq<Step>, uid: nat)
    requires Kept(s) && Legal(s, steps) && uid in s.connections && s.connections[uid].closed
    ensures uid !in After(s, steps).table.names
    decreases |steps|
  {
    if steps != [] {
      ClosedStaysClosed(s, steps[0], uid);
      StepKeeps(s, steps[0]);
      hide Kept;
      ClosedForGood(Next(s, steps[0]), steps[1..], uid);
    }
  }
}
