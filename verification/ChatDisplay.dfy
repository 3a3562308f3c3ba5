/**
 From one end to the other: what a user says, and what the clients of the others show.
 */
module ChatDisplay {
  import opened ChatMessages
  import opened ChatServer
  import opened ChatClient
  import opened ChatSystem
  import opened ChatMatching
  import opened ChatRoster
  import opened ChatTheorems
  import opened ChatDelivery

  /** What the lines of a conversation show of what a user said. */
  function ShownFrom(messages: seq<ChatMessage>, from: nat): seq<Saying> {
    if messages == [] then []
    else
      var last := messages[|messages| - 1];
      ShownFrom(messages[..|messages| - 1], from) + if last.uid == from then [Saying(last.isPrivate, last.text)] else []
  }

  lemma ShownAppend(messages: seq<ChatMessage>, last: ChatMessage, from: nat)
    ensures ShownFrom(messages + [last], from)
         == ShownFrom(messages, from) + if last.uid == from then [Saying(last.isPrivate, last.text)] else []
  {
    assert (messages + [last])[..|messages|] == messages;
  }

  /** The client of the session u shows of v exactly what the messages it has handled convey. */
  predicate ShowsOk(c: Connection, v: nat) {
    && c.delivered <= |c.sent|
    && (c.peer.Member? && c.peer.app.client.Some? ==>
          ShownFrom(c.peer.app.messages, v) == AllConveyed(c.sent[..c.delivered], v))
  }

  // ---------------------------------------------------------------- changes of one connection

  lemma OpenedShows(loginName: string, v: nat)
    ensures ShowsOk(Opened(Member(Joined(loginName).app), Joined(loginName).sent), v)
    ensures ShowsOk(Opened(Stranger, []), v)
  {
  }

  /** The client's side is left alone; more may have been sent to it. */
  predicate Quiet(b: Connection, c: Connection) {
    c.peer == b.peer && c.delivered == b.delivered && b.sent <= c.sent && c.requests == b.requests && c.ran == b.ran
  }

  lemma QuietShows(b: Connection, c: Connection, v: nat)
    requires ShowsOk(b, v) && Quiet(b, c)
    ensures ShowsOk(c, v)
  {
    assert c.sent[..c.delivered] == b.sent[..b.delivered];
  }

  lemma StrangerShows(b: Connection, c: Connection, v: nat)
    requires ShowsOk(b, v) && c.peer.Stranger? && c.delivered == b.delivered && c.sent == b.sent
    ensures ShowsOk(c, v)
  {
  }

  /** A user's own lines carry its uid, or 0 before it knows it. */
  lemma SayingShows(u: nat, c: Connection, toUid: nat, text: string, v: nat)
    requires Matched(u, c) && c.peer.Member? && ShowsOk(c, v) && v != 0 && v != u
    ensures ShowsOk(WithMoved(c, SaidPublic(c.peer.app, text)), v)
    ensures ShowsOk(WithMoved(c, SaidPrivate(c.peer.app, toUid, text)), v)
  {
    var app := c.peer.app;
    if app.client.Some? && text != "" {
      assert app.myUid == 0 || app.myUid == u;
      hide Matched;
      ShownAppend(app.messages, ChatMessage(app.myUid, app.myName, text, false), v);
      ShownAppend(app.messages, ChatMessage(app.myUid, app.myName, text, true), v);
    }
  }

  lemma DeliverShows(u: nat, c: Connection, v: nat)
    requires Matched(u, c) && c.peer.Member? && c.peer.app.client.Some? && c.delivered < |c.sent|
    requires ShowsOk(c, v) && v != u
    ensures ShowsOk(DeliverNext(c), v)
  {
    ShownOrEcho(u, c);
    DeliveredOne(c);
    var m, messages := c.sent[c.delivered], c.peer.app.messages;
    ConveyedNext(c.sent, c.delivered, v);
    LineShows(messages, m, u, v);
    hide Matched, DeliverNext, Heard, Line, Conveyed, SpokenBy, ShownFrom, AllConveyed;
  }

  lemma ConveyedNext(stream: seq<Message>, n: nat, v: nat)
    requires n < |stream|
    ensures AllConveyed(stream[..n + 1], v) == AllConveyed(stream[..n], v) + Conveyed(stream[n], v)
  {
    var taken := stream[..n + 1];
    assert taken[..n] == stream[..n] && taken[n] == stream[n];
  }

  /** A message adds to what is shown of v what it conveys of v. */
  lemma LineShows(messages: seq<ChatMessage>, m: Message, u: nat, v: nat)
    requires v != u
    ensures ShownFrom(messages + if SpokenBy(m, u) then [] else Line(m), v) == ShownFrom(messages, v) + Conveyed(m, v)
  {
    if Line(m) != [] { ShownAppend(messages, Line(m)[0], v); }
    assert messages + [] == messages;
  }

  lemma DeliveredOne(c: Connection)
    requires c.delivered < |c.sent| && c.peer.Member? && c.peer.app.client.Some?
    ensures DeliverNext(c).delivered == c.delivered + 1 && DeliverNext(c).sent == c.sent
    ensures DeliverNext(c).peer == Member(Heard(c.peer.app, c.sent[c.delivered]).app)
  {
  }

  // ---------------------------------------------------------------- steps of the system

  lemma CloseIsQuiet(s: System, uid: nat, u: nat)
    requires uid in s.connections && u in s.connections
    ensures u in Closed(s, uid).connections && Quiet(s.connections[u], Closed(s, uid).connections[u])
  {
  }

  lemma ServeIsQuiet(s: System, uid: nat, ids: seq<nat>, u: nat)
    requires uid in s.connections && s.connections[uid].served < |s.connections[uid].requests| && u in s.connections
    ensures u in ServeNext(s, uid, ids).connections && Quiet(s.connections[u], ServeNext(s, uid, ids).connections[u])
  {
    var c := s.connections[uid];
    var e := Served(s.table, uid, c.requests[c.served], ids);
    AlwaysAResponse(s.table, uid, c.requests[c.served], ids);
    hide Served;
    if e.response == [] { CloseIsQuiet(Skipped(s, uid), uid, u); }
  }

  lemma StepShows(s: System, step: Step, u: nat, v: nat)
    requires Kept(s) && Enabled(s, step) && v != 0 && v != u
    requires u in s.connections ==> ShowsOk(s.connections[u], v)
    ensures u in Next(s, step).connections ==> ShowsOk(Next(s, step).connections[u], v)
  {
    assert u in s.connections ==> Matched(u, s.connections[u]);
    assert TableKept(s);
    hide ShowsOk, Matched, Kept, Closed, ServeNext, IsListing;
    match step
    case Connect(name) => EnterShows(s, Opened(Member(Joined(name).app), Joined(name).sent), name, u, v);
    case ConnectStranger => EnterShows(s, Opened(Stranger, []), "", u, v);
    case Serve(uid, ids) => ServeShows(s, uid, ids, u, v);
    case Close(uid) => CloseShows(s, uid, u, v);
    case _ => if step.uid == u { OwnStepShows(s, step, v); }
  }

  /** The steps in which only the connection itself changes. */
  lemma OwnStepShows(s: System, step: Step, v: nat)
    requires !step.Connect? && !step.ConnectStranger? && !step.Serve? && !step.Close?
    requires Enabled(s, step) && Matched(step.uid, s.connections[step.uid]) && ShowsOk(s.connections[step.uid], v)
    requires v != 0 && v != step.uid
    ensures ShowsOk(Next(s, step).connections[step.uid], v)
  {
    hide ShowsOk, Matched;
    var u := step.uid;
    var c := s.connections[u];
    match step
    case SayPublic(_, text) => SayingShows(u, c, 0, text, v);
    case SayPrivate(_, to, text) => SayingShows(u, c, to, text, v);
    case Inject(_, m) => StrangerShows(c, c.(requests := c.requests + [m]), v);
    case Deliver(_) => DeliverKeepsShows(u, c, v);
    case Lose(_) => LeavingShows(c, v);
    case Quit(_) => LeavingShows(c, v);
  }

  lemma EnterShows(s: System, c: Connection, name: string, u: nat, v: nat)
    requires c == Opened(Member(Joined(name).app), Joined(name).sent) || c == Opened(Stranger, [])
    requires u in s.connections ==> ShowsOk(s.connections[u], v)
    ensures u in Entered(s, c).connections ==> ShowsOk(Entered(s, c).connections[u], v)
  {
    OpenedShows(name, v);
    QuietShows(c, c.(seen := ServedSoFar(s)), v);
    hide ShowsOk;
  }

  lemma CloseShows(s: System, uid: nat, u: nat, v: nat)
    requires uid in s.connections && (u in s.connections ==> ShowsOk(s.connections[u], v))
    ensures u in Closed(s, uid).connections ==> ShowsOk(Closed(s, uid).connections[u], v)
  {
    hide ShowsOk, Quiet;
    if u in s.connections {
      CloseIsQuiet(s, uid, u);
      QuietShows(s.connections[u], Closed(s, uid).connections[u], v);
    }
  }

  lemma ServeShows(s: System, uid: nat, ids: seq<nat>, u: nat, v: nat)
    requires uid in s.connections && s.connections[uid].served < |s.connections[uid].requests|
    requires u in s.connections ==> ShowsOk(s.connections[u], v)
    ensures u in ServeNext(s, uid, ids).connections ==> ShowsOk(ServeNext(s, uid, ids).connections[u], v)
  {
    hide ShowsOk, Quiet, ServeNext, Served;
    if u in s.connections {
      ServeIsQuiet(s, uid, ids, u);
      QuietShows(s.connections[u], ServeNext(s, uid, ids).connections[u], v);
    } else {
      ServeAddsNobody(s, uid, ids, u);
    }
  }

  lemma ServeAddsNobody(s: System, uid: nat, ids: seq<nat>, u: nat)
    requires uid in s.connections && s.connections[uid].served < |s.connections[uid].requests| && u !in s.connections
    ensures u !in ServeNext(s, uid, ids).connections
  {
    hide Served;
  }

  lemma DeliverKeepsShows(u: nat, c: Connection, v: nat)
    requires Matched(u, c) && Listening(c) && ShowsOk(c, v) && v != u
    ensures ShowsOk(DeliverNext(c), v)
  {
    if c.peer.Member? { DeliverShows(u, c, v); }
  }

  lemma LeavingShows(c: Connection, v: nat)
    requires c.peer.Member? && ShowsOk(c, v)
    ensures c.peer.app.client.Some? ==> ShowsOk(Lost(c), v)
    ensures ShowsOk(c.(peer := Member(OFFLINE)), v)
  {
  }

  lemma {:induction false} RunShows(s: System, steps: seq<Step>, u: nat, v: nat)
    requires Kept(s) && Legal(s, steps) && v != 0 && v != u
    requires u in s.connections ==> ShowsOk(s.connections[u], v)
    ensures u in After(s, steps).connections ==> ShowsOk(After(s, steps).connections[u], v)
    decreases |steps|
  {
    hide Kept, ShowsOk, Next, Enabled;
    if steps != [] {
      StepShows(s, steps[0], u, v);
      StepKeeps(s, steps[0]);
      RunShows(Next(s, steps[0]), steps[1..], u, v);
    }
  }

  // ---------------------------------------------------------------- the result

  lemma {:induction false} DrainShows(u: nat, c: Connection, v: nat)
    requires Matched(u, c) && c.peer.Member? && c.peer.app.client.Some? && ShowsOk(c, v) && v != u
    ensures ShownFrom(Drained(c.peer.app, c.sent[c.delivered..]).messages, v) == AllConveyed(c.sent, v)
    decreases |c.sent| - c.delivered
  {
    if c.delivered < |c.sent| {
      DrainStep(u, c, v);
      DeliveredOne(c);
      hide Matched, ShowsOk, DeliverNext, Heard, AllConveyed, ShownFrom;
      DrainShows(u, DeliverNext(c), v);
      assert c.sent[c.delivered..][1..] == c.sent[c.delivered + 1..];
    } else {
      assert c.sent[..c.delivered] == c.sent;
    }
  }

  lemma DrainStep(u: nat, c: Connection, v: nat)
    requires Matched(u, c) && c.peer.Member? && c.peer.app.client.Some? && c.delivered < |c.sent|
    requires ShowsOk(c, v) && v != u
    ensures Matched(u, DeliverNext(c)) && ShowsOk(DeliverNext(c), v)
    ensures DeliverNext(c).peer.Member? && DeliverNext(c).peer.app.client.Some?
  {
    DeliverShows(u, c, v);
    DeliverKeepsRunning(u, c);
    hide ShowsOk;
    if c.sent[c.delivered].Response? { DeliverResponse(u, c); } else { DeliverOther(u, c); }
    hide Matched;
  }

  /** In every reachable state, once the client of a live session u has handled what is still on its way, its
   conversation shows of every other session v exactly what v has said to u since u joined: to everyone or to u
   alone, in order, each once. */
  lemma ShownOnceInOrder(steps: seq<Step>, u: nat, v: nat)
    requires Legal(START, steps) && v != u
    requires var s := After(START, steps);
             u in s.table.names && IsMember(s, u) && s.connections[u].peer.app.client.Some? && v in s.connections
    ensures After(START, steps).connections[u].delivered <= |After(START, steps).connections[u].sent|
    ensures After(START, steps).connections[v].served <= |After(START, steps).connections[v].requests|
    ensures var c, d := After(START, steps).connections[u], After(START, steps).connections[v];
            ShownFrom(Drained(c.peer.app, c.sent[c.delivered..]).messages, v)
            == AllSaid(d.requests, JoinedAt(c, v), d.served, u)
  {
    StartKept();
    RunKeeps(START, steps);
    var s := After(START, steps);
    assert v != 0 by { assert TableKept(s); }
    assert Matched(u, s.connections[u]);
    hide Kept, Matched, ShowsOk, After, Legal;
    RunShows(START, steps, u, v);
    DeliveredOnceInOrder(steps, u, v);
    DrainShows(u, s.connections[u], v);
    assert s.connections[u].delivered <= |s.connections[u].sent| by { DeliveredInRange(s.connections[u], v); }
  }

  lemma DeliveredInRange(c: Connection, v: nat)
    requires ShowsOk(c, v)
    ensures c.delivered <= |c.sent|
  {
  }

  // ---------------------------------------------------------------- what a user says itself

  /** What the lines of a conversation show of its own user: they carry its uid, or 0 before it knows it. */
  function OwnLines(messages: seq<ChatMessage>, u: nat): seq<Saying> {
    if messages == [] then []
    else
      var last := messages[|messages| - 1];
      OwnLines(messages[..|messages| - 1], u)
      + if last.uid == u || last.uid == 0 then [Saying(last.isPrivate, last.text)] else []
  }

  lemma OwnAppend(messages: seq<ChatMessage>, last: ChatMessage, u: nat)
    ensures OwnLines(messages + [last], u)
         == OwnLines(messages, u) + if last.uid == u || last.uid == 0 then [Saying(last.isPrivate, last.text)] else []
  {
    assert (messages + [last])[..|messages|] == messages;
  }

  /** What a request of the application says, to whomever. */
  function Uttered(m: Message): seq<Saying> {
    if !m.Request? || !m.params.text.Given? then []
    else if m.methodName == Given("send_public") then [Saying(false, m.params.text.value)]
    else if m.methodName == Given("send_private") then [Saying(true, m.params.text.value)]
    else []
  }

  function AllUttered(requests: seq<Message>): seq<Saying> {
    if requests == [] then [] else AllUttered(requests[..|requests| - 1]) + Uttered(requests[|requests| - 1])
  }

  lemma UtteredAppend(requests: seq<Message>, m: Message)
    ensures AllUttered(requests + [m]) == AllUttered(requests) + Uttered(m)
  {
    assert (requests + [m])[..|requests|] == requests;
  }

  /** The requests of a client say what its own first lines say, and all that they say while it is running. */
  predicate OwnOk(u: nat, c: Connection) {
    c.peer.Member? && c.peer.app.client.Some? ==>
      var own, said := OwnLines(c.peer.app.messages, u), AllUttered(c.requests);
      said <= own && (c.peer.app.client.value.running ==> said == own)
  }

  ghost predicate ListAsked(requests: seq<Message>) {
    exists k :: 0 <= k < |requests| && requests[k].Request? && requests[k].methodName == Given("client_list")
  }

  /** A running client whose login has been answered has asked for the client list. */
  ghost predicate ListOk(c: Connection) {
    c.peer.Member? && c.peer.app.client.Some? && c.peer.app.client.value.running && c.ran != [] ==> ListAsked(c.requests)
  }

  ghost predicate ClientOk(u: nat, c: Connection) {
    OwnOk(u, c) && ListOk(c)
  }

  lemma OpenedOwn(u: nat, loginName: string)
    ensures ClientOk(u, Opened(Member(Joined(loginName).app), Joined(loginName).sent))
    ensures ClientOk(u, Opened(Stranger, []))
  {
  }

  /** A line is requested if and only if the client is running. */
  lemma LineIsRequestedIff(app: App, toUid: nat, text: string)
    requires app.client.Some? && text != ""
    ensures SaidPublic(app, text).app.messages == app.messages + [ChatMessage(app.myUid, app.myName, text, false)]
    ensures SaidPrivate(app, toUid, text).app.messages == app.messages + [ChatMessage(app.myUid, app.myName, text, true)]
    ensures SaidPublic(app, text).sent != [] <==> app.client.value.running
    ensures SaidPrivate(app, toUid, text).sent != [] <==> app.client.value.running
    ensures forall m :: m in SaidPublic(app, text).sent ==> Uttered(m) == [Saying(false, text)]
    ensures forall m :: m in SaidPrivate(app, toUid, text).sent ==> Uttered(m) == [Saying(true, text)]
  {
  }

  lemma MoreAsked(requests: seq<Message>, more: seq<Message>)
    ensures ListAsked(requests) ==> ListAsked(requests + more)
  {
    if ListAsked(requests) {
      var k :| 0 <= k < |requests| && requests[k].Request? && requests[k].methodName == Given("client_list");
      assert (requests + more)[k] == requests[k];
    }
  }

  /** A moved client with one more line of its own, requested if it is running. */
  lemma SpokenKeepsOwn(u: nat, c: Connection, moved: Moved, line: ChatMessage)
    requires ClientOk(u, c) && c.peer.Member? && c.peer.app.client.Some? && moved.app.client.Some?
    requires line.uid == u || line.uid == 0
    requires moved.app.messages == c.peer.app.messages + [line]
    requires moved.app.client.value.running == c.peer.app.client.value.running
    requires |moved.sent| == if c.peer.app.client.value.running then 1 else 0
    requires forall m :: m in moved.sent ==> Uttered(m) == [Saying(line.isPrivate, line.text)]
    ensures ClientOk(u, WithMoved(c, moved))
  {
    var x, running := Saying(line.isPrivate, line.text), c.peer.app.client.value.running;
    MoreAsked(c.requests, moved.sent);
    OwnAppend(c.peer.app.messages, line, u);
    UtteredByOne(c.requests, moved.sent, x);
    assert OwnOk(u, WithMoved(c, moved)) by {
      hide Uttered, AllUttered, OwnLines, ListAsked;
      LinesGrow(AllUttered(c.requests), OwnLines(c.peer.app.messages, u), x, running);
    }
    hide OwnOk, Uttered, ListAsked;
  }

  lemma LinesGrow(said: seq<Saying>, own: seq<Saying>, x: Saying, running: bool)
    requires said <= own && (running ==> said == own)
    ensures var more := said + if running then [x] else [];
            more <= own + [x] && (running ==> more == own + [x])
  {
  }

  lemma UtteredByOne(requests: seq<Message>, more: seq<Message>, saying: Saying)
    requires |more| <= 1 && forall m :: m in more ==> Uttered(m) == [saying]
    ensures AllUttered(requests + more) == AllUttered(requests) + if more == [] then [] else [saying]
  {
    hide Uttered;
    if more == [] {
      assert requests + more == requests;
    } else {
      UtteredAppend(requests, more[0]);
      assert more == [more[0]];
    }
  }

  lemma SayingOwn(u: nat, c: Connection, toUid: nat, text: string)
    requires Matched(u, c) && c.peer.Member? && ClientOk(u, c)
    ensures ClientOk(u, WithMoved(c, SaidPublic(c.peer.app, text)))
    ensures ClientOk(u, WithMoved(c, SaidPrivate(c.peer.app, toUid, text)))
  {
    var app := c.peer.app;
    if app.client.Some? && text != "" {
      assert app.myUid == 0 || app.myUid == u;
      hide Matched, ClientOk, Uttered;
      LineIsRequestedIff(app, toUid, text);
      SpokenKeepsOwn(u, c, SaidPublic(app, text), ChatMessage(app.myUid, app.myName, text, false));
      SpokenKeepsOwn(u, c, SaidPrivate(app, toUid, text), ChatMessage(app.myUid, app.myName, text, true));
    } else {
      assert c.requests + [] == c.requests;
    }
  }

  /** What arrives adds no line of the user's own, and no request that says anything. */
  lemma DeliverOwn(u: nat, c: Connection)
    requires Matched(u, c) && Listening(c) && ClientOk(u, c)
    ensures ClientOk(u, DeliverNext(c))
  {
    if c.peer.Member? {
      ShownOrEcho(u, c);
      DeliverKeepsRunning(u, c);
      NobodyIsZero(u, c);
      DeliverSaysNothing(u, c);
      OthersLineIsNotOwn(c.peer.app.messages, c.sent[c.delivered], u);
      DeliverList(u, c);
      hide Matched, DeliverNext, SpokenBy, Line, OwnLines, AllUttered, ListOk;
    }
  }

  /** The first response answers the login, and then the client list is asked for. */
  lemma DeliverList(u: nat, c: Connection)
    requires Matched(u, c) && c.peer.Member? && Listening(c) && ListOk(c)
    ensures ListOk(DeliverNext(c))
  {
    DeliverRequests(u, c);
    DeliverKeepsRunning(u, c);
    var asked := DeliverNext(c).requests;
    if c.sent[c.delivered].Response? {
      assert c.ran == [] ==> CallbackOf(c.requests[0]) == AfterLogin;
    } else {
      DeliverOther(u, c);
    }
    hide Matched, DeliverNext, CallbackOf;
    if asked != c.requests {
      assert asked == c.requests + [asked[|c.requests|]];
      MoreAsked(c.requests, [asked[|c.requests|]]);
    }
  }

  lemma DeliverSaysNothing(u: nat, c: Connection)
    requires Matched(u, c) && c.peer.Member? && c.peer.app.client.Some? && c.delivered < |c.sent|
    ensures AllUttered(DeliverNext(c).requests) == AllUttered(c.requests)
  {
    DeliverRequests(u, c);
    hide Matched, DeliverNext, CallbackOf;
    var asked := DeliverNext(c).requests;
    if asked != c.requests {
      UtteredAppend(c.requests, asked[|c.requests|]);
      assert asked == c.requests + [asked[|c.requests|]];
      hide AllUttered;
    }
  }

  lemma DeliverKeepsRunning(u: nat, c: Connection)
    requires Matched(u, c) && c.peer.Member? && c.peer.app.client.Some? && c.delivered < |c.sent|
    ensures DeliverNext(c).peer.Member? && DeliverNext(c).peer.app.client.Some?
    ensures DeliverNext(c).peer.app.client.value.running == c.peer.app.client.value.running
  {
    DeliveredOne(c);
    if c.sent[c.delivered].Response? { DeliverResponse(u, c); } else { DeliverOther(u, c); }
  }

  lemma NobodyIsZero(u: nat, c: Connection)
    requires Matched(u, c) && c.peer.Member? && c.delivered < |c.sent|
    ensures !SpokenBy(c.sent[c.delivered], 0)
  {
  }

  lemma OthersLineIsNotOwn(messages: seq<ChatMessage>, m: Message, u: nat)
    requires !SpokenBy(m, 0)
    ensures OwnLines(messages + if SpokenBy(m, u) then [] else Line(m), u) == OwnLines(messages, u)
  {
    if Line(m) != [] { OwnAppend(messages, Line(m)[0], u); }
    assert messages + [] == messages;
  }

  lemma LeavingOwn(u: nat, c: Connection)
    requires c.peer.Member? && ClientOk(u, c)
    ensures c.peer.app.client.Some? ==> ClientOk(u, Lost(c))
    ensures ClientOk(u, c.(peer := Member(OFFLINE)))
  {
  }

  lemma QuietOwn(u: nat, b: Connection, c: Connection)
    requires ClientOk(u, b) && Quiet(b, c)
    ensures ClientOk(u, c)
  {
  }

  lemma StepOwn(s: System, step: Step, u: nat)
    requires Kept(s) && Enabled(s, step)
    requires u in s.connections ==> ClientOk(u, s.connections[u])
    ensures u in Next(s, step).connections ==> ClientOk(u, Next(s, step).connections[u])
  {
    assert u in s.connections ==> Matched(u, s.connections[u]);
    hide ClientOk, Matched, Kept, Closed, ServeNext, IsListing;
    match step
    case Connect(name) => EnterOwn(s, Opened(Member(Joined(name).app), Joined(name).sent), name, u);
    case ConnectStranger => EnterOwn(s, Opened(Stranger, []), "", u);
    case Serve(uid, ids) => ServeOwn(s, uid, ids, u);
    case Close(uid) => CloseOwn(s, uid, u);
    case _ => if step.uid == u { MyStepOwn(s, step); }
  }

  lemma MyStepOwn(s: System, step: Step)
    requires !step.Connect? && !step.ConnectStranger? && !step.Serve? && !step.Close?
    requires Enabled(s, step) && Matched(step.uid, s.connections[step.uid]) && ClientOk(step.uid, s.connections[step.uid])
    ensures ClientOk(step.uid, Next(s, step).connections[step.uid])
  {
    hide ClientOk, Matched;
    var u := step.uid;
    var c := s.connections[u];
    match step
    case SayPublic(_, text) => SayingOwn(u, c, 0, text);
    case SayPrivate(_, to, text) => SayingOwn(u, c, to, text);
    case Inject(_, m) => StrangerOwn(u, c.(requests := c.requests + [m]));
    case Deliver(_) => DeliverOwn(u, c);
    case Lose(_) => LeavingOwn(u, c);
    case Quit(_) => LeavingOwn(u, c);
  }

  lemma StrangerOwn(u: nat, c: Connection)
    requires c.peer.Stranger?
    ensures ClientOk(u, c)
  {
  }

  lemma EnterOwn(s: System, c: Connection, name: string, u: nat)
    requires c == Opened(Member(Joined(name).app), Joined(name).sent) || c == Opened(Stranger, [])
    requires u in s.connections ==> ClientOk(u, s.connections[u])
    ensures u in Entered(s, c).connections ==> ClientOk(u, Entered(s, c).connections[u])
  {
    OpenedOwn(u, name);
    QuietOwn(u, c, c.(seen := ServedSoFar(s)));
    hide ClientOk;
  }

  lemma ServeOwn(s: System, uid: nat, ids: seq<nat>, u: nat)
    requires uid in s.connections && s.connections[uid].served < |s.connections[uid].requests|
    requires u in s.connections ==> ClientOk(u, s.connections[u])
    ensures u in ServeNext(s, uid, ids).connections ==> ClientOk(u, ServeNext(s, uid, ids).connections[u])
  {
    hide ClientOk, Quiet, ServeNext, Served;
    if u in s.connections {
      ServeIsQuiet(s, uid, ids, u);
      QuietOwn(u, s.connections[u], ServeNext(s, uid, ids).connections[u]);
    } else {
      ServeAddsNobody(s, uid, ids, u);
    }
  }

  lemma CloseOwn(s: System, uid: nat, u: nat)
    requires uid in s.connections && (u in s.connections ==> ClientOk(u, s.connections[u]))
    ensures u in Closed(s, uid).connections ==> ClientOk(u, Closed(s, uid).connections[u])
  {
    hide ClientOk, Quiet;
    if u in s.connections {
      CloseIsQuiet(s, uid, u);
      QuietOwn(u, s.connections[u], Closed(s, uid).connections[u]);
    }
  }

  lemma {:induction false} RunOwn(s: System, steps: seq<Step>, u: nat)
    requires Kept(s) && Legal(s, steps)
    requires u in s.connections ==> ClientOk(u, s.connections[u])
    ensures u in After(s, steps).connections ==> ClientOk(u, After(s, steps).connections[u])
    decreases |steps|
  {
    hide Kept, ClientOk, Next, Enabled;
    if steps != [] {
      StepOwn(s, steps[0], u);
      StepKeeps(s, steps[0]);
      RunOwn(Next(s, steps[0]), steps[1..], u);
    }
  }

  /** In every reachable state, what the requests of a client have said is what its own lines show, in order, as long
   as it is running; of a client that has lost its connection the later lines were never requested. */
  lemma OwnLinesAreRequested(steps: seq<Step>, u: nat)
    requires Legal(START, steps)
    requires var s := After(START, steps); IsMember(s, u) && s.connections[u].peer.app.client.Some?
    ensures var c := After(START, steps).connections[u];
            && AllUttered(c.requests) <= OwnLines(c.peer.app.messages, u)
            && (c.peer.app.client.value.running ==> AllUttered(c.requests) == OwnLines(c.peer.app.messages, u))
  {
    StartKept();
    RunOwn(START, steps, u);
    hide Kept, Legal, After, AllUttered, OwnLines;
  }
}
