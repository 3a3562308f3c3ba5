/**
 Chat messages over whole runs: what each session is sent of what each other session says.
 */
module ChatDelivery {
  import opened ChatMessages
  import opened ChatRouter
  import opened ChatServer
  import opened ChatClient
  import opened ChatSystem
  import opened ChatRoster

  /** Something said, to everyone or to one user. */
  datatype Saying = Saying(isPrivate: bool, text: string)

  /** What a message to a client conveys of what a user said. */
  function Conveyed(m: Message, from: nat): seq<Saying> {
    match m
    case Push(PublicMessage(v, _, text)) => if v == from then [Saying(false, text)] else []
    case Push(PrivateMessage(v, _, text)) => if v == from then [Saying(true, text)] else []
    case _ => []
  }

  function AllConveyed(stream: seq<Message>, from: nat): seq<Saying> {
    if stream == [] then [] else AllConveyed(stream[..|stream| - 1], from) + Conveyed(stream[|stream| - 1], from)
  }

  /** What a request says to the user u; mistyped requests say nothing. */
  function Said(request: Message, u: nat): seq<Saying> {
    var decision := Decide(ROUTES, request);
    if !decision.Run? || decision.params.text.Mistyped? then []
    else if decision.handler == SendPublic then [Saying(false, decision.params.text.Or(""))]
    else if decision.handler == SendPrivate && !decision.params.toUid.Mistyped? && decision.params.toUid.Or(0) == u
    then [Saying(true, decision.params.text.Or(""))]
    else []
  }

  /** What the requests from number a to number b say to the user u. */
  function AllSaid(requests: seq<Message>, a: nat, b: nat, u: nat): seq<Saying>
    requires b <= |requests|
  {
    if b <= a then [] else AllSaid(requests, a, b - 1, u) + Said(requests[b - 1], u)
  }

  lemma {:induction false} SaidOfPrefix(requests: seq<Message>, longer: seq<Message>, a: nat, b: nat, u: nat)
    requires b <= |requests| && requests <= longer
    ensures AllSaid(requests, a, b, u) == AllSaid(longer, a, b, u)
  {
    if b > a { SaidOfPrefix(requests, longer, a, b - 1, u); }
  }

  /** The number of requests of the session v that had been handled when this connection joined. */
  function JoinedAt(c: Connection, v: nat): nat {
    if v in c.seen then c.seen[v] else 0
  }

  /** The session u has been sent what the session v said to it since u joined: all of it, in order, each once. */
  predicate Faithful(u: nat, c: Connection, v: nat, d: Connection)
    requires d.served <= |d.requests|
  {
    AllConveyed(c.sent, v) == AllSaid(d.requests, JoinedAt(c, v), d.served, u)
  }

  /** For two uids: what the one has been sent of the other is right while it is live, and nobody has spoken
   before being connected. */
  predicate PairOk(s: System, u: nat, v: nat) {
    u in s.connections ==>
      var c := s.connections[u];
      if v in s.connections then
        var d := s.connections[v];
        && JoinedAt(c, v) <= d.served <= |d.requests|
        && (!c.closed ==> Faithful(u, c, v, d))
      else v !in c.seen && AllConveyed(c.sent, v) == []
  }

  ghost predicate DeliveryKept(s: System) {
    forall u: nat, v: nat :: PairOk(s, u, v)
  }

  // ---------------------------------------------------------------- the steps

  lemma {:induction false} ConveyedConcat(a: seq<Message>, b: seq<Message>, v: nat)
    ensures AllConveyed(a + b, v) == AllConveyed(a, v) + AllConveyed(b, v)
    decreases |b|
  {
    hide Conveyed;
    if b == [] {
      assert a + b == a;
    } else {
      var init, ab := b[..|b| - 1], a + b;
      ConveyedConcat(a, init, v);
      assert ab[..|ab| - 1] == a + init && ab[|ab| - 1] == b[|b| - 1];
      Associative(AllConveyed(a, v), AllConveyed(init, v), Conveyed(b[|b| - 1], v));
    }
  }

  lemma Associative(x: seq<Saying>, y: seq<Saying>, z: seq<Saying>)
    ensures x + y + z == x + (y + z)
  {
  }

  lemma NothingConveyed(v: nat)
    ensures AllConveyed([], v) == []
  {
  }

  /** A stream and the count of handled requests grow in step, or neither grows. */
  lemma FaithfulGrows(u: nat, c: Connection, news: seq<Message>, v: nat, d: Connection, more: nat)
    requires d.served + more <= |d.requests| && more <= 1 && JoinedAt(c, v) <= d.served
    requires Faithful(u, c, v, d)
    requires AllConveyed(news, v) == if more == 1 then Said(d.requests[d.served], u) else []
    ensures AllConveyed(c.sent + news, v) == AllSaid(d.requests, JoinedAt(c, v), d.served + more, u)
  {
    hide Said, Conveyed;
    ConveyedConcat(c.sent, news, v);
  }

  // ---------------------------------------------------------------- pairs of sessions, step by step

  lemma EnterKeepsPair(s: System, c: Connection, u: nat, v: nat)
    requires TableKept(s) && c.sent == [] && c.served == 0
    requires PairOk(s, u, v) && PairOk(s, v, v)
    ensures PairOk(Entered(s, c), u, v)
  {
    NothingConveyed(v);
    hide AllConveyed;
  }

  /** The client's side may have sent more; nothing else that matters here has changed. */
  predicate Extends(b: Connection, c: Connection) {
    b.requests <= c.requests && c.sent == b.sent && c.served == b.served && c.seen == b.seen && c.closed == b.closed
  }

  lemma ReplaceKeepsPair(s: System, uid: nat, c: Connection, u: nat, v: nat)
    requires uid in s.connections && Extends(s.connections[uid], c) && PairOk(s, u, v)
    ensures PairOk(Replaced(s, uid, c), u, v)
  {
    hide AllConveyed, AllSaid;
    if u in s.connections && v == uid {
      var b := s.connections[uid];
      SaidOfPrefix(b.requests, c.requests, JoinedAt(s.connections[u], v), b.served, u);
    }
  }

  /** The same sessions; one is sent news and the other may have one more request handled. */
  lemma GrowthKeepsPair(s: System, t: System, u: nat, v: nat, news: seq<Message>, more: nat)
    requires PairOk(s, u, v) && u in s.connections
    requires t.connections.Keys == s.connections.Keys
    requires var b, c := s.connections[u], t.connections[u];
             c.sent == b.sent + news && c.seen == b.seen && (b.closed ==> c.closed)
    requires v in s.connections ==>
               var d, e := s.connections[v], t.connections[v];
               more <= 1 && d.served + more <= |d.requests| && e.requests == d.requests && e.served == d.served + more
    requires !s.connections[u].closed || v !in s.connections ==>
               AllConveyed(news, v) == if v in s.connections && more == 1 then Said(s.connections[v].requests[s.connections[v].served], u) else []
    ensures PairOk(t, u, v)
  {
    hide AllConveyed, AllSaid, Said;
    ConveyedConcat(s.connections[u].sent, news, v);
    if v in s.connections && !s.connections[u].closed {
      FaithfulGrows(u, s.connections[u], news, v, s.connections[v], more);
    }
  }

  lemma CloseKeepsPair(s: System, uid: nat, u: nat, v: nat)
    requires uid in s.connections && PairOk(s, u, v)
    ensures PairOk(Closed(s, uid), u, v)
  {
    hide AllConveyed, AllSaid;
    if u in s.connections && !s.connections[uid].closed {
      var news := if u in s.table.names && u != uid then [Push(UserLeft(uid))] else [];
      FarewellConveysNothing(uid, v);
      if v in s.connections { InRangeOf(s, u, v); }
      hide PairOk;
      GrowthKeepsPair(s, Closed(s, uid), u, v, news, 0);
    }
  }

  lemma InRangeOf(s: System, u: nat, v: nat)
    requires PairOk(s, u, v) && u in s.connections && v in s.connections
    ensures s.connections[v].served <= |s.connections[v].requests|
  {
  }

  lemma FarewellConveysNothing(uid: nat, v: nat)
    ensures AllConveyed([Push(UserLeft(uid))], v) == [] == AllConveyed([], v)
  {
    ConveyedOfAtMostOne([Push(UserLeft(uid))], v);
  }

  /** What a route pushes to u conveys what its request says to u, if u is live, and nothing of anyone else. */
  lemma PushConveys(table: Table, uid: nat, m: Message, ids: seq<nat>, u: nat, v: nat)
    requires u in table.names || v != uid
    ensures var pushed := Pushed(Served(table, uid, m, ids).outcome, u);
            && |pushed| <= 1
            && (if pushed == [] then [] else Conveyed(pushed[0], v)) == if v == uid then Said(m, u) else []
  {
  }

  lemma ServedConveys(table: Table, uid: nat, m: Message, ids: seq<nat>, u: nat, v: nat)
    requires u in table.names || v != uid
    requires Served(table, uid, m, ids).response != []
    ensures AllConveyed(Served(table, uid, m, ids).SentTo(u, uid), v) == if v == uid then Said(m, u) else []
  {
    var e := Served(table, uid, m, ids);
    AlwaysAResponse(table, uid, m, ids);
    PushConveys(table, uid, m, ids, u, v);
    OneResponse(table, uid, m, ids);
    hide Served, Said;
    var pushed := Pushed(e.outcome, u);
    var responses := if u == uid then e.response else [];
    ConveyedConcat(pushed, responses, v);
    ConveyedOfAtMostOne(pushed, v);
    ConveyedOfAtMostOne(responses, v);
  }

  lemma OneResponse(table: Table, uid: nat, m: Message, ids: seq<nat>)
    ensures |Served(table, uid, m, ids).response| <= 1
  {
  }

  lemma ConveyedOfAtMostOne(stream: seq<Message>, v: nat)
    requires |stream| <= 1
    ensures AllConveyed(stream, v) == if stream == [] then [] else Conveyed(stream[0], v)
  {
    if stream != [] {
      assert stream[..0] == [];
    }
  }

  /** A message on which the router throws says nothing. */
  lemma ThrowSaysNothing(table: Table, uid: nat, m: Message, ids: seq<nat>, u: nat)
    requires Served(table, uid, m, ids).response == []
    ensures Said(m, u) == []
  {
  }

  function Skipped(s: System, uid: nat): System
    requires uid in s.connections
  {
    s.(connections := s.connections[uid := s.connections[uid].(served := s.connections[uid].served + 1)])
  }

  lemma SkipKeepsPair(s: System, uid: nat, ids: seq<nat>, u: nat, v: nat)
    requires uid in s.connections && s.connections[uid].served < |s.connections[uid].requests| && PairOk(s, u, v)
    requires Served(s.table, uid, s.connections[uid].requests[s.connections[uid].served], ids).response == []
    ensures PairOk(Skipped(s, uid), u, v)
  {
    if u in s.connections {
      ThrowSaysNothing(s.table, uid, s.connections[uid].requests[s.connections[uid].served], ids, u);
      NothingConveyed(v);
      if v in s.connections { InRangeOf(s, u, v); }
      hide PairOk, Served, Said, AllConveyed;
      GrowthKeepsPair(s, Skipped(s, uid), u, v, [], if v == uid then 1 else 0);
    }
  }

  lemma AnswerKeepsPair(s: System, uid: nat, ids: seq<nat>, u: nat, v: nat)
    requires uid in s.connections && s.connections[uid].served < |s.connections[uid].requests|
    requires PairOk(s, u, v) && (u in s.connections && !s.connections[u].closed ==> u in s.table.names)
    requires Served(s.table, uid, s.connections[uid].requests[s.connections[uid].served], ids).response != []
    ensures PairOk(ServeNext(s, uid, ids), u, v)
  {
    var m := s.connections[uid].requests[s.connections[uid].served];
    var e := Served(s.table, uid, m, ids);
    if u in s.connections {
      ServeFrame(s, uid, ids, u);
      if v in s.connections { ServeFrame(s, uid, ids, v); InRangeOf(s, u, v); }
      if u in s.table.names || v != uid { ServedConveys(s.table, uid, m, ids, u, v); }
      hide PairOk, Served, ServeNext, Said, AllConveyed;
      GrowthKeepsPair(s, ServeNext(s, uid, ids), u, v, e.SentTo(u, uid), if v == uid then 1 else 0);
    } else {
      ServeSends(s, uid, ids, uid);
    }
  }

  lemma ServeFrame(s: System, uid: nat, ids: seq<nat>, u: nat)
    requires uid in s.connections && s.connections[uid].served < |s.connections[uid].requests| && u in s.connections
    requires Served(s.table, uid, s.connections[uid].requests[s.connections[uid].served], ids).response != []
    ensures var e := Served(s.table, uid, s.connections[uid].requests[s.connections[uid].served], ids);
            var t := ServeNext(s, uid, ids);
            && t.connections.Keys == s.connections.Keys
            && t.connections[u].sent == s.connections[u].sent + e.SentTo(u, uid)
            && t.connections[u].requests == s.connections[u].requests && t.connections[u].seen == s.connections[u].seen
            && t.connections[u].closed == s.connections[u].closed
            && t.connections[u].served == s.connections[u].served + if u == uid then 1 else 0
  {
    ServeSends(s, uid, ids, u);
    AlwaysAResponse(s.table, uid, s.connections[uid].requests[s.connections[uid].served], ids);
  }

  lemma ServeKeepsPair(s: System, uid: nat, ids: seq<nat>, u: nat, v: nat)
    requires TableKept(s) && PairOk(s, u, v) && Enabled(s, Serve(uid, ids))
    ensures PairOk(ServeNext(s, uid, ids), u, v)
  {
    var c := s.connections[uid];
    var e := Served(s.table, uid, c.requests[c.served], ids);
    if e.response == [] {
      SkipKeepsPair(s, uid, ids, u, v);
      hide PairOk, Served;
      CloseKeepsPair(Skipped(s, uid), uid, u, v);
    } else {
      hide PairOk, Served, ServeNext, IsListing;
      AnswerKeepsPair(s, uid, ids, u, v);
    }
  }

  lemma DeliverGrowsRequests(c: Connection)
    requires c.delivered < |c.sent| && (c.peer.Member? ==> c.peer.app.client.Some?)
    ensures Extends(c, DeliverNext(c))
  {
  }

  lemma StepKeepsPair(s: System, step: Step, u: nat, v: nat)
    requires TableKept(s) && PairOk(s, u, v) && PairOk(s, v, v) && Enabled(s, step)
    ensures PairOk(Next(s, step), u, v)
  {
    hide PairOk, TableKept;
    match step
    case Connect(name) => EnterKeepsPair(s, Opened(Member(Joined(name).app), Joined(name).sent), u, v);
    case ConnectStranger => EnterKeepsPair(s, Opened(Stranger, []), u, v);
    case SayPublic(uid, text) =>
      ReplaceKeepsPair(s, uid, WithMoved(s.connections[uid], SaidPublic(s.connections[uid].peer.app, text)), u, v);
    case SayPrivate(uid, to, text) =>
      ReplaceKeepsPair(s, uid, WithMoved(s.connections[uid], SaidPrivate(s.connections[uid].peer.app, to, text)), u, v);
    case Inject(uid, m) => ReplaceKeepsPair(s, uid, s.connections[uid].(requests := s.connections[uid].requests + [m]), u, v);
    case Serve(uid, ids) => ServeKeepsPair(s, uid, ids, u, v);
    case Deliver(uid) =>
      DeliverGrowsRequests(s.connections[uid]);
      ReplaceKeepsPair(s, uid, DeliverNext(s.connections[uid]), u, v);
    case Close(uid) => CloseKeepsPair(s, uid, u, v);
    case Lose(uid) => ReplaceKeepsPair(s, uid, Lost(s.connections[uid]), u, v);
    case Quit(uid) => ReplaceKeepsPair(s, uid, s.connections[uid].(peer := Member(OFFLINE)), u, v);
  }

  lemma {:induction false} RunKeepsDelivery(s: System, steps: seq<Step>)
    requires Kept(s) && DeliveryKept(s) && Legal(s, steps)
    ensures DeliveryKept(After(s, steps))
    decreases |steps|
  {
    if steps != [] {
      assert TableKept(s);
      hide PairOk, TableKept, RostersKept, MatchedAll, FarewellsKept, Next, Enabled;
      forall u: nat, v: nat ensures PairOk(Next(s, steps[0]), u, v) {
        StepKeepsPair(s, steps[0], u, v);
      }
      StepKeeps(s, steps[0]);
      RunKeepsDelivery(Next(s, steps[0]), steps[1..]);
    }
  }

  /** In every reachable state, what a live session u has been sent of what a session v says, to everyone or
   to u alone, is exactly what v's requests have said to u since u joined: in order, none lost, none twice,
   none made up, and none that was meant for someone else. */
  lemma DeliveredOnceInOrder(steps: seq<Step>, u: nat, v: nat)
    requires Legal(START, steps) && u in After(START, steps).table.names && v in After(START, steps).connections
    ensures u in After(START, steps).connections
    ensures var c, d := After(START, steps).connections[u], After(START, steps).connections[v];
            d.served <= |d.requests|
            && AllConveyed(c.sent, v) == AllSaid(d.requests, JoinedAt(c, v), d.served, u)
  {
    StartKept();
    assert forall u: nat, v: nat :: PairOk(START, u, v);
    RunKeeps(START, steps);
    RunKeepsDelivery(START, steps);
    assert TableKept(After(START, steps));
    assert PairOk(After(START, steps), u, v);
  }
}
