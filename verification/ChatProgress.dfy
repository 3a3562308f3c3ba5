/**
 Progress: from every reachable state the server and a client that listens can finish what is pending between
 them, and then the client's user list is complete.
 */
module ChatProgress {
  import opened ChatMessages
  import opened ChatServer
  import opened ChatClient
  import opened ChatSystem
  import opened ChatMatching
  import opened ChatRoster
  import opened ChatTheorems
  import opened ChatDisplay

  /** A live session of the application whose client is running. */
  predicate Attending(c: Connection) {
    !c.closed && c.peer.Member? && c.peer.app.client.Some? && c.peer.app.client.value.running
  }

  predicate AttendingIn(s: System, u: nat) {
    u in s.connections && Attending(s.connections[u])
  }

  /** Nothing is on its way in either direction, and no callback is waiting. */
  predicate Settled(c: Connection) {
    c.served == |c.requests| && c.delivered == |c.sent|
    && c.peer.Member? && c.peer.app.client.Some? && c.peer.app.client.value.pending == map[]
  }

  /** Steps in which the server handles a request of u or the client of u a message. */
  predicate Between(steps: seq<Step>, u: nat) {
    forall i :: 0 <= i < |steps| ==> (steps[i].Serve? || steps[i].Deliver?) && steps[i].uid == u
  }

  // ---------------------------------------------------------------- runs put together

  lemma {:induction false} RunsCompose(s: System, a: seq<Step>, b: seq<Step>)
    requires Legal(s, a) && Legal(After(s, a), b)
    ensures Legal(s, a + b) && After(s, a + b) == After(After(s, a), b)
    decreases |a|
  {
    hide Next, Enabled;
    if a == [] {
      assert a + b == b;
    } else {
      RunsCompose(Next(s, a[0]), a[1..], b);
      assert (a + b)[1..] == a[1..] + b;
    }
  }

  lemma {:induction false} SomeListing(names: Names) returns (ids: seq<nat>)
    ensures IsListing(ids, names)
    decreases |names|
  {
    if names == map[] {
      ids := [];
    } else {
      var u :| u in names;
      var rest := names - {u};
      assert rest.Keys == names.Keys - {u};
      assert |rest.Keys| == |rest| && |names.Keys| == |names|;
      var others := SomeListing(rest);
      ids := others + [u];
    }
  }

  lemma RunOfNone(s: System, u: nat)
    ensures Legal(s, []) && After(s, []) == s && Between([], u)
  {
  }

  lemma RunOfOneMore(s: System, step: Step, rest: seq<Step>, u: nat)
    requires Enabled(s, step) && Legal(Next(s, step), rest) && Between(rest, u)
    requires (step.Serve? || step.Deliver?) && step.uid == u
    ensures Legal(s, [step] + rest) && After(s, [step] + rest) == After(Next(s, step), rest) && Between([step] + rest, u)
  {
    hide Next, Enabled;
    assert ([step] + rest)[1..] == rest;
  }

  /** A state that a run may leave and come back to: the invariant holds and u attends. */
  ghost predicate Ready(s: System, u: nat) {
    Kept(s) && AttendingIn(s, u)
  }

  // ---------------------------------------------------------------- serving

  /** The client has not moved; the server has handled n more of its requests. */
  predicate ServedMore(b: Connection, c: Connection, n: nat) {
    c.requests == b.requests && c.served == b.served + n && c.delivered == b.delivered && c.ran == b.ran
  }

  /** The answered connection, after what is pushed to it. */
  lemma ServeEffect(s: System, u: nat, ids: seq<nat>)
    requires u in s.connections && s.connections[u].served < |s.connections[u].requests|
    requires Served(s.table, u, s.connections[u].requests[s.connections[u].served], ids).response != []
    ensures u in ServeNext(s, u, ids).connections
    ensures ServedMore(s.connections[u], ServeNext(s, u, ids).connections[u], 1)
    ensures ServeNext(s, u, ids).connections[u].peer == s.connections[u].peer
    ensures ServeNext(s, u, ids).connections[u].closed == s.connections[u].closed
  {
    AlwaysAResponse(s.table, u, s.connections[u].requests[s.connections[u].served], ids);
    hide Served;
  }

  lemma ServeOne(s: System, u: nat, ids: seq<nat>)
    requires Ready(s, u) && Enabled(s, Serve(u, ids))
    ensures Ready(Next(s, Serve(u, ids)), u)
    ensures ServedMore(s.connections[u], Next(s, Serve(u, ids)).connections[u], 1)
  {
    StepKeeps(s, Serve(u, ids));
    var b := s.connections[u];
    assert Matched(u, b);
    hide Kept;
    ServingFits(s.table, u, b.requests[b.served], ids);
    hide Matched, Served, IsListing, Fits, AppRequest;
    ServeEffect(s, u, ids);
    hide ServeNext;
  }

  lemma MoreToServe(s: System, u: nat)
    requires Ready(s, u)
    ensures s.connections[u].served <= |s.connections[u].requests| && s.connections[u].delivered <= |s.connections[u].sent|
    ensures !s.connections[u].closed
  {
    assert Matched(u, s.connections[u]);
  }

  /** All requests are served. */
  lemma {:induction false} ServeAll(s: System, u: nat) returns (steps: seq<Step>)
    requires Ready(s, u)
    ensures Legal(s, steps) && Between(steps, u) && Ready(After(s, steps), u)
    ensures s.connections[u].served <= |s.connections[u].requests|
    ensures ServedMore(s.connections[u], After(s, steps).connections[u], |s.connections[u].requests| - s.connections[u].served)
    decreases |s.connections[u].requests| - s.connections[u].served
  {
    MoreToServe(s, u);
    hide Kept, Attending, Next, Legal, After, Between, IsListing;
    if s.connections[u].served == |s.connections[u].requests| {
      steps := [];
      RunOfNone(s, u);
    } else {
      var ids := SomeListing(s.table.names);
      ServeOne(s, u, ids);
      var rest := ServeAll(Next(s, Serve(u, ids)), u);
      steps := [Serve(u, ids)] + rest;
      RunOfOneMore(s, Serve(u, ids), rest, u);
    }
  }

  // ---------------------------------------------------------------- delivering

  /** From request number j on the client has asked for nothing but the client list. */
  predicate OnlyLists(requests: seq<Message>, j: nat) {
    forall k :: j <= k < |requests| ==> requests[k].Request? && requests[k].methodName == Given("client_list")
  }

  /** The server has not moved; the client has handled n more messages.  At most they made it ask for the list, and
   not even that if all that was pending was lists. */
  predicate DeliveredMore(b: Connection, c: Connection, n: nat) {
    && c.sent == b.sent && c.served == b.served && c.delivered == b.delivered + n
    && b.requests <= c.requests && OnlyLists(c.requests, |b.requests|)
    && (OnlyLists(b.requests, |b.ran|) ==> c.requests == b.requests && OnlyLists(c.requests, |c.ran|))
  }

  lemma DeliverEffect(u: nat, b: Connection)
    requires Matched(u, b) && Attending(b) && b.delivered < |b.sent|
    ensures DeliveredMore(b, DeliverNext(b), 1) && Attending(DeliverNext(b))
  {
    DeliverRequests(u, b);
    DeliverKeepsRunning(u, b);
    DeliverRan(u, b);
    DeliverServerSide(b);
    var asked := DeliverNext(b).requests;
    if OnlyLists(b.requests, |b.ran|) && |b.ran| < |b.requests| {
      assert b.requests[|b.ran|].methodName == Given("client_list");
      ListIsNotLogin(b.requests[|b.ran|]);
    }
    hide Matched, DeliverNext, CallbackOf;
  }

  lemma ListIsNotLogin(m: Message)
    requires AppRequest(m) && m.methodName == Given("client_list")
    ensures CallbackOf(m) == AfterList
  {
  }

  lemma DeliverRan(u: nat, b: Connection)
    requires Matched(u, b) && b.peer.Member? && b.peer.app.client.Some? && b.delivered < |b.sent|
    ensures b.ran <= DeliverNext(b).ran
  {
    if b.sent[b.delivered].Response? { DeliverResponse(u, b); } else { DeliverOther(u, b); }
    hide Matched, DeliverNext, CallbackOf;
  }

  lemma DeliverServerSide(b: Connection)
    requires b.delivered < |b.sent| && b.peer.Member? && b.peer.app.client.Some?
    ensures DeliverNext(b).sent == b.sent && DeliverNext(b).served == b.served && DeliverNext(b).closed == b.closed
    ensures DeliverNext(b).delivered == b.delivered + 1
  {
  }

  lemma DeliverOne(s: System, u: nat)
    requires Ready(s, u) && s.connections[u].delivered < |s.connections[u].sent|
    ensures Enabled(s, Deliver(u)) && Ready(Next(s, Deliver(u)), u)
    ensures DeliveredMore(s.connections[u], Next(s, Deliver(u)).connections[u], 1)
  {
    StepKeeps(s, Deliver(u));
    assert Matched(u, s.connections[u]);
    hide Kept, Matched, DeliveredMore, DeliverNext;
    DeliverEffect(u, s.connections[u]);
  }

  lemma DeliveredCompose(a: Connection, b: Connection, c: Connection, n: nat)
    requires DeliveredMore(a, b, 1) && DeliveredMore(b, c, n)
    ensures DeliveredMore(a, c, n + 1)
  {
    forall k | |a.requests| <= k < |c.requests| ensures c.requests[k].Request? && c.requests[k].methodName == Given("client_list") {
      if k < |b.requests| { assert c.requests[k] == b.requests[k]; }
    }
  }

  /** All messages are delivered. */
  lemma {:induction false} DeliverAll(s: System, u: nat) returns (steps: seq<Step>)
    requires Ready(s, u)
    ensures Legal(s, steps) && Between(steps, u) && Ready(After(s, steps), u)
    ensures s.connections[u].delivered <= |s.connections[u].sent|
    ensures DeliveredMore(s.connections[u], After(s, steps).connections[u], |s.connections[u].sent| - s.connections[u].delivered)
    decreases |s.connections[u].sent| - s.connections[u].delivered
  {
    MoreToServe(s, u);
    if s.connections[u].delivered == |s.connections[u].sent| {
      steps := [];
      RunOfNone(s, u);
    } else {
      DeliverOne(s, u);
      ghost var t := Next(s, Deliver(u));
      assert t.connections[u].sent == s.connections[u].sent && t.connections[u].delivered == s.connections[u].delivered + 1;
      hide Kept, Attending, Next, Legal, After, Between, DeliveredMore, Enabled;
      var rest := DeliverAll(t, u);
      steps := [Deliver(u)] + rest;
      RunOfOneMore(s, Deliver(u), rest, u);
      DeliveredCompose(s.connections[u], t.connections[u], After(t, rest).connections[u],
                       |t.connections[u].sent| - t.connections[u].delivered);
    }
  }

  // ---------------------------------------------------------------- everything settled

  /** When all is served and delivered, every callback has run. */
  lemma AllAnswered(u: nat, c: Connection)
    requires Matched(u, c) && c.peer.Member? && c.peer.app.client.Some? && c.delivered == |c.sent|
    ensures |c.ran| == c.served
    ensures c.served == |c.requests| ==> Settled(c)
  {
    assert c.sent[..c.delivered] == c.sent;
    assert forall i :: i in c.peer.app.client.value.pending ==> |c.ran| < i <= |c.requests|;
  }

  /** One round: all is served, then all is delivered. */
  lemma Round(s: System, u: nat) returns (steps: seq<Step>)
    requires Ready(s, u)
    ensures Legal(s, steps) && Between(steps, u) && Ready(After(s, steps), u)
    ensures var b, c := s.connections[u], After(s, steps).connections[u];
            && c.delivered == |c.sent| && |c.ran| == c.served == |b.requests| && OnlyLists(c.requests, |b.requests|)
            && (OnlyLists(b.requests, |b.ran|) ==> c.requests == b.requests)
  {
    hide Kept, Attending, Legal, After, Matched, OnlyLists, Settled;
    var first := ServeAll(s, u);
    var t := After(s, first);
    var second := DeliverAll(t, u);
    RunsCompose(s, first, second);
    steps := first + second;
    KeptMatched(After(t, second), u);
    AllAnswered(u, After(t, second).connections[u]);
  }

  /** Two rounds are enough: the first may still lead to a request for the list, the second leads to nothing new. */
  lemma Settle(s: System, u: nat) returns (steps: seq<Step>)
    requires Ready(s, u)
    ensures Legal(s, steps) && Between(steps, u)
    ensures Ready(After(s, steps), u) && Settled(After(s, steps).connections[u])
  {
    hide Kept, Attending, Legal, After, Matched, OnlyLists, Settled;
    var first := Round(s, u);
    var t := After(s, first);
    var second := Round(t, u);
    RunsCompose(s, first, second);
    steps := first + second;
    KeptMatched(After(t, second), u);
    AllAnswered(u, After(t, second).connections[u]);
  }

  lemma KeptMatched(s: System, u: nat)
    requires Ready(s, u)
    ensures Matched(u, s.connections[u]) && s.connections[u].peer.Member? && s.connections[u].peer.app.client.Some?
  {
  }

  lemma {:induction false} AnsweredListIsSent(stream: seq<Message>, k: nat)
    requires k < |Responses(stream)| && IsList(Responses(stream)[k])
    ensures Listed(stream)
  {
    if stream != [] && !IsList(stream[|stream| - 1]) {
      AnsweredListIsSent(stream[..|stream| - 1], k);
    }
  }

  /** A settled client has been sent a client list. */
  lemma SettledIsListed(u: nat, c: Connection)
    requires Matched(u, c) && Attending(c) && Settled(c) && ListOk(c)
    ensures Listed(c.sent)
  {
    AllAnswered(u, c);
    assert c.ran != [];
    var k :| 0 <= k < |c.requests| && c.requests[k].Request? && c.requests[k].methodName == Given("client_list");
    assert Fits(u, c.requests[k], c.replies[k]);
    assert IsList(Responses(c.sent)[k]);
    AnsweredListIsSent(c.sent, k);
  }

  /** From every reachable state there is a run of steps between the server and a listening client after which
   nothing is pending between them, and the client's user list holds exactly live users under their names, every one
   of them that has logged in included. */
  lemma CanSettle(steps: seq<Step>, u: nat) returns (more: seq<Step>)
    requires Legal(START, steps) && AttendingIn(After(START, steps), u)
    ensures Legal(START, steps + more) && Between(more, u)
    ensures var t := After(START, steps + more);
            && AttendingIn(t, u) && Settled(t.connections[u])
            && var roster := NamesOf(t.connections[u].peer.app.users);
               (forall v :: v in roster ==> v in t.table.names && roster[v] == t.table.names[v])
               && (forall v :: v in t.loggedIn && v in t.table.names ==> v in roster)
  {
    ReachableIsKept(steps);
    more := Settle(After(START, steps), u);
    RunsCompose(START, steps, more);
    StartKept();
    RunOwn(START, steps + more, u);
    hide Legal, After;
    SettledIsCurrent(After(START, steps + more), u);
  }

  lemma SettledIsCurrent(t: System, u: nat)
    requires Ready(t, u) && Settled(t.connections[u]) && ClientOk(u, t.connections[u])
    ensures var roster := NamesOf(t.connections[u].peer.app.users);
            (forall v :: v in roster ==> v in t.table.names && roster[v] == t.table.names[v])
            && (forall v :: v in t.loggedIn && v in t.table.names ==> v in roster)
  {
    var c := t.connections[u];
    KeptMatched(t, u);
    SettledIsListed(u, c);
    assert Current(t.table.names, t.loggedIn, c.sent);
    assert c.sent[..c.delivered] == c.sent;
    assert NamesOf(c.peer.app.users) == Roster(c.sent);
    hide Matched, Roster, NamesOf, Kept;
  }
}
