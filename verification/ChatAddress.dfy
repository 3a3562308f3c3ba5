/**
 What the users of the chat do, and what the others are shown of it: from the steps of a run to the lines of a
 conversation.
 */
module ChatAddress {
  import opened ChatMessages
  import opened ChatServer
  import opened ChatClient
  import opened ChatSystem
  import opened ChatMatching
  import opened ChatRoster
  import opened ChatTheorems
  import opened ChatDelivery
  import opened ChatDisplay

  /** The user of u says something that its running client passes on. */
  predicate Speaks(s: System, u: nat, text: string) {
    IsMember(s, u) && s.connections[u].peer.app.client.Some? && s.connections[u].peer.app.client.value.running && text != ""
  }

  /** What the user of u addresses to v in one step: a public text is for everyone, a private text for the one it names. */
  function Addressed(s: System, step: Step, u: nat, v: nat): seq<Saying> {
    match step
    case SayPublic(from, text) => if from == u && Speaks(s, u, text) then [Saying(false, text)] else []
    case SayPrivate(from, to, text) => if from == u && to == v && Speaks(s, u, text) then [Saying(true, text)] else []
    case _ => []
  }

  /** And in a run. */
  ghost function AddressedBy(s: System, steps: seq<Step>, u: nat, v: nat): seq<Saying>
    requires Legal(s, steps)
    decreases |steps|
  {
    if steps == [] then [] else Addressed(s, steps[0], u, v) + AddressedBy(Next(s, steps[0]), steps[1..], u, v)
  }

  // ---------------------------------------------------------------- one step

  /** A private text becomes one request, which says it to its addressee and nothing to anyone else. */
  lemma PrivateIsForItsAddressee(s: System, u: nat, v: nat, text: string, w: nat)
    requires Enabled(s, SayPrivate(u, v, text)) && Speaks(s, u, text)
    ensures u in Next(s, SayPrivate(u, v, text)).connections
    ensures var before, after := s.connections[u].requests, Next(s, SayPrivate(u, v, text)).connections[u].requests;
            && |after| == |before| + 1 && after[..|before|] == before
            && Said(after[|before|], v) == [Saying(true, text)]
            && (w != v ==> Said(after[|before|], w) == [])
  {
  }

  /** A public text becomes one request, which says it to everyone. */
  lemma PublicIsForEveryone(s: System, u: nat, text: string, w: nat)
    requires Enabled(s, SayPublic(u, text)) && Speaks(s, u, text)
    ensures u in Next(s, SayPublic(u, text)).connections
    ensures var before, after := s.connections[u].requests, Next(s, SayPublic(u, text)).connections[u].requests;
            && |after| == |before| + 1 && after[..|before|] == before
            && Said(after[|before|], w) == [Saying(false, text)]
  {
  }

  /** All that the requests of a client have said to v. */
  function SaidByAll(requests: seq<Message>, v: nat): seq<Saying> {
    AllSaid(requests, 0, |requests|, v)
  }

  lemma SaidByOneMore(requests: seq<Message>, more: seq<Message>, v: nat)
    requires |more| == |requests| + 1 && more[..|requests|] == requests
    ensures SaidByAll(more, v) == SaidByAll(requests, v) + Said(more[|requests|], v)
  {
    hide Said;
    assert requests <= more;
    SaidOfPrefix(requests, more, 0, |requests|, v);
  }

  /** The requests of one connection of the application, before and after something is done to it. */
  predicate Grows(b: Connection, c: Connection, said: seq<Saying>, v: nat) {
    c.peer.Member? == b.peer.Member? && (b.peer.Member? ==> SaidByAll(c.requests, v) == SaidByAll(b.requests, v) + said)
  }

  lemma SayingGrows(s: System, step: Step, u: nat, v: nat)
    requires Enabled(s, step) && (step.SayPublic? || step.SayPrivate?) && step.uid == u && IsMember(s, u)
    ensures u in Next(s, step).connections
    ensures Grows(s.connections[u], Next(s, step).connections[u], Addressed(s, step, u, v), v)
  {
    var b := s.connections[u];
    if Speaks(s, u, step.text) {
      match step {
        case SayPublic(_, text) => PublicIsForEveryone(s, u, text, v);
        case SayPrivate(_, to, text) => PrivateIsForItsAddressee(s, u, to, text, v);
      }
      SaidByOneMore(b.requests, Next(s, step).connections[u].requests, v);
      hide Said, Asked;
    } else {
      assert b.requests + [] == b.requests;
    }
  }

  lemma ListSaysNothing(m: Message, v: nat)
    requires m.Request? && m.methodName == Given("client_list")
    ensures Said(m, v) == []
  {
  }

  lemma DeliverySaysNothing(u: nat, c: Connection, v: nat)
    requires Matched(u, c) && Listening(c)
    ensures Grows(c, DeliverNext(c), [], v)
  {
    if c.peer.Member? {
      DeliverRequests(u, c);
      var asked := DeliverNext(c).requests;
      hide Matched, Said, CallbackOf;
      if asked != c.requests {
        ListSaysNothing(asked[|c.requests|], v);
        SaidByOneMore(c.requests, asked, v);
      }
    }
  }

  /** What the requests of u, if it is of the application, have said to v. */
  function SaidIn(s: System, u: nat, v: nat): seq<Saying> {
    if IsMember(s, u) then SaidByAll(s.connections[u].requests, v) else []
  }

  lemma LoginSaysNothing(loginName: string, v: nat)
    ensures SaidByAll(Joined(loginName).sent, v) == []
  {
    var sent := Joined(loginName).sent;
    assert AllSaid(sent, 0, 0, v) == [];
    assert Said(sent[0], v) == [];
  }

  /** The steps in which only the connection of u changes. */
  lemma OwnStepSays(s: System, step: Step, u: nat, v: nat)
    requires !step.Connect? && !step.ConnectStranger? && !step.Serve? && !step.Close? && Enabled(s, step) && step.uid == u
    requires Matched(u, s.connections[u])
    ensures SaidIn(Next(s, step), u, v) == SaidIn(s, u, v) + Addressed(s, step, u, v)
  {
    hide Matched, SaidByAll, DeliverNext, SaidPublic, SaidPrivate;
    match step
    case SayPublic(_, _) => SayingGrows(s, step, u, v);
    case SayPrivate(_, _, _) => SayingGrows(s, step, u, v);
    case Deliver(_) => DeliverySaysNothing(u, s.connections[u], v);
    case _ =>
  }

  /** Every step adds to what the requests of u say to v just what the user of u addresses to v in it. */
  lemma StepSays(s: System, step: Step, u: nat, v: nat)
    requires Kept(s) && Enabled(s, step)
    ensures SaidIn(Next(s, step), u, v) == SaidIn(s, u, v) + Addressed(s, step, u, v)
  {
    assert TableKept(s);
    assert u in s.connections ==> Matched(u, s.connections[u]);
    hide Kept, Matched, SaidByAll, Closed, ServeNext, IsListing, DeliverNext, SaidPublic, SaidPrivate, Joined, Speaks;
    match step
    case Connect(name) => LoginSaysNothing(name, v);
    case ConnectStranger =>
    case Serve(uid, ids) => ServeSaysNothing(s, uid, ids, u, v);
    case Close(uid) => CloseSaysNothing(s, uid, u, v);
    case _ => if step.uid == u { OwnStepSays(s, step, u, v); }
  }

  lemma ServeSaysNothing(s: System, uid: nat, ids: seq<nat>, u: nat, v: nat)
    requires uid in s.connections && s.connections[uid].served < |s.connections[uid].requests|
    ensures SaidIn(ServeNext(s, uid, ids), u, v) == SaidIn(s, u, v)
  {
    hide ServeNext, SaidByAll;
    if u in s.connections { ServeIsQuiet(s, uid, ids, u); } else { ServeAddsNobody(s, uid, ids, u); }
  }

  lemma CloseSaysNothing(s: System, uid: nat, u: nat, v: nat)
    requires uid in s.connections
    ensures SaidIn(Closed(s, uid), u, v) == SaidIn(s, u, v)
  {
    hide SaidByAll;
    if u in s.connections { CloseIsQuiet(s, uid, u); }
  }

  // ---------------------------------------------------------------- runs

  lemma {:induction false} RunSays(s: System, steps: seq<Step>, u: nat, v: nat)
    requires Kept(s) && Legal(s, steps)
    ensures SaidIn(After(s, steps), u, v) == SaidIn(s, u, v) + AddressedBy(s, steps, u, v)
    decreases |steps|
  {
    hide Kept, SaidIn, Addressed, Next, Enabled;
    if steps != [] {
      StepSays(s, steps[0], u, v);
      StepKeeps(s, steps[0]);
      RunSays(Next(s, steps[0]), steps[1..], u, v);
    }
  }

  /** In every reachable state the requests of a client have said to v exactly what its user addressed to v while the
   client was running, in order. */
  lemma RequestsSayWhatIsAddressed(steps: seq<Step>, u: nat, v: nat)
    requires Legal(START, steps) && IsMember(After(START, steps), u)
    ensures SaidByAll(After(START, steps).connections[u].requests, v) == AddressedBy(START, steps, u, v)
  {
    StartKept();
    hide Kept, After, Legal, SaidByAll;
    RunSays(START, steps, u, v);
  }

  lemma {:induction false} SaidInParts(requests: seq<Message>, a: nat, b: nat, v: nat)
    requires a <= b <= |requests|
    ensures AllSaid(requests, 0, b, v) == AllSaid(requests, 0, a, v) + AllSaid(requests, a, b, v)
  {
    hide Said;
    if a < b { SaidInParts(requests, a, b - 1, v); }
  }

  /** From one user to the other.  In every reachable state, what the user of v has addressed to u is what v's requests
   said before u joined, then what u's client shows of v once it has handled what is on its way, then what the server
   has yet to handle: nothing is lost or shown twice, and nothing is shown that was not addressed to u. */
  lemma AddressedIsShown(steps: seq<Step>, u: nat, v: nat)
    requires Legal(START, steps) && v != u
    requires var s := After(START, steps);
             u in s.table.names && IsMember(s, u) && s.connections[u].peer.app.client.Some? && IsMember(s, v)
    ensures After(START, steps).connections[u].delivered <= |After(START, steps).connections[u].sent|
    ensures var c, d := After(START, steps).connections[u], After(START, steps).connections[v];
            && JoinedAt(c, v) <= d.served <= |d.requests|
            && AddressedBy(START, steps, v, u)
               == AllSaid(d.requests, 0, JoinedAt(c, v), u)
                  + ShownFrom(Drained(c.peer.app, c.sent[c.delivered..]).messages, v)
                  + AllSaid(d.requests, d.served, |d.requests|, u)
  {
    var s := After(START, steps);
    hide After, Legal, Drained, ShownFrom, Said;
    ShownOnceInOrder(steps, u, v);
    RequestsSayWhatIsAddressed(steps, v, u);
    JoinedInRange(steps, u, v);
    var d, joined := s.connections[v], JoinedAt(s.connections[u], v);
    SaidInParts(d.requests, joined, d.served, u);
    SaidInParts(d.requests, d.served, |d.requests|, u);
  }

  lemma JoinedInRange(steps: seq<Step>, u: nat, v: nat)
    requires Legal(START, steps)
    requires u in After(START, steps).connections && v in After(START, steps).connections
    ensures var c, d := After(START, steps).connections[u], After(START, steps).connections[v];
            JoinedAt(c, v) <= d.served <= |d.requests|
  {
    StartKept();
    assert forall u: nat, v: nat :: PairOk(START, u, v);
    RunKeepsDelivery(START, steps);
    assert PairOk(After(START, steps), u, v);
    hide Kept, After, Legal;
  }
}
