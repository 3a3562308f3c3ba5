/**
 Under which name a user speaks: what the server passes on and what the clients show of a user carries the name it
 logged in with.
 */
module ChatSignatures {
  import opened ChatMessages
  import opened ChatServer
  import opened ChatClient
  import opened ChatSystem
  import opened ChatMatching
  import opened ChatRoster
  import opened ChatTheorems
  import opened ChatDelivery
  import opened ChatDisplay
  import opened ChatNames

  function SpeakerName(m: Message): string {
    match m
    case Push(PublicMessage(_, name, _)) => name
    case Push(PrivateMessage(_, name, _)) => name
    case _ => ""
  }

  /** All that a stream passes on of the user v carries one of these names. */
  predicate Signed(stream: seq<Message>, v: nat, names: set<string>) {
    forall i :: 0 <= i < |stream| && SpokenBy(stream[i], v) ==> SpeakerName(stream[i]) in names
  }

  /** And so do the lines of a conversation. */
  predicate LinesSigned(messages: seq<ChatMessage>, v: nat, names: set<string>) {
    forall i :: 0 <= i < |messages| && messages[i].uid == v ==> messages[i].fromName in names
  }

  predicate SignedOk(u: nat, c: Connection, v: nat, names: set<string>) {
    Signed(c.sent, v, names) && (c.peer.Member? && v != u ==> LinesSigned(c.peer.app.messages, v, names))
  }

  predicate SignedIn(s: System, u: nat, v: nat, names: set<string>) {
    u in s.connections ==> SignedOk(u, s.connections[u], v, names)
  }

  // ---------------------------------------------------------------- the steps

  lemma MoreSigned(stream: seq<Message>, news: seq<Message>, v: nat, names: set<string>)
    requires Signed(stream, v, names) && Signed(news, v, names)
    ensures Signed(stream + news, v, names)
  {
  }

  /** What serving a request of w passes on is signed with w's name in the table, and a login passes on nothing said. */
  lemma ServedSigned(table: Table, w: nat, m: Message, ids: seq<nat>, u: nat, v: nat, names: set<string>)
    requires w == v ==> table.Name(v) in names || (m.Request? && m.methodName == Given("login"))
    ensures Signed(Served(table, w, m, ids).SentTo(u, w), v, names)
  {
  }

  /** The client's side is left alone and more is sent to it. */
  predicate IsSent(b: Connection, c: Connection, news: seq<Message>) {
    c.sent == b.sent + news && c.peer == b.peer
  }

  lemma SendingKeepsSigned(u: nat, b: Connection, c: Connection, news: seq<Message>, v: nat, names: set<string>)
    requires SignedOk(u, b, v, names) && IsSent(b, c, news) && Signed(news, v, names)
    ensures SignedOk(u, c, v, names)
  {
    MoreSigned(b.sent, news, v, names);
  }

  lemma CloseSigned(s: System, closing: nat, u: nat, v: nat, names: set<string>)
    requires closing in s.connections && SignedIn(s, u, v, names)
    ensures SignedIn(Closed(s, closing), u, v, names)
  {
    if u in s.connections && !s.connections[closing].closed {
      CloseSends(s, closing, u);
      CloseIsQuiet(s, closing, u);
      SendingKeepsSigned(u, s.connections[u], Closed(s, closing).connections[u], s.table.FarewellTo(u, closing), v, names);
      hide SignedOk, Closed;
    }
  }

  /** The names that v may carry: its own, or none before it is connected. */
  predicate Knows(s: System, v: nat, names: set<string>, name: string) {
    v > 0 && (v in s.connections ==> IsMember(s, v) && NamedOk(s, v, name) && name in names)
  }

  lemma ServeSigned(s: System, w: nat, ids: seq<nat>, u: nat, v: nat, names: set<string>, name: string)
    requires w in s.table.names && w in s.connections && s.connections[w].served < |s.connections[w].requests|
    requires SignedIn(s, u, v, names) && Knows(s, v, names, name)
    ensures SignedIn(ServeNext(s, w, ids), u, v, names)
  {
    var c := s.connections[w];
    var m := c.requests[c.served];
    if Served(s.table, w, m, ids).response == [] {
      assert SignedIn(Skipped(s, w), u, v, names);
      CloseSigned(Skipped(s, w), w, u, v, names);
    } else if u in s.connections {
      ServedSigned(s.table, w, m, ids, u, v, names);
      hide Served, SignedOk, Signed, ServeNext, Knows;
      ServeSends(s, w, ids, u);
      ServeIsQuiet(s, w, ids, u);
      SendingKeepsSigned(u, s.connections[u], ServeNext(s, w, ids).connections[u],
                         Served(s.table, w, m, ids).SentTo(u, w), v, names);
    } else {
      ServeAddsNobody(s, w, ids, u);
    }
  }

  lemma OneMoreLine(messages: seq<ChatMessage>, line: ChatMessage, v: nat, names: set<string>)
    requires LinesSigned(messages, v, names) && (line.uid == v ==> line.fromName in names)
    ensures LinesSigned(messages + [line], v, names)
  {
  }

  lemma SayingSigned(u: nat, c: Connection, toUid: nat, text: string, v: nat, names: set<string>)
    requires Matched(u, c) && c.peer.Member? && SignedOk(u, c, v, names) && v > 0
    ensures SignedOk(u, WithMoved(c, SaidPublic(c.peer.app, text)), v, names)
    ensures SignedOk(u, WithMoved(c, SaidPrivate(c.peer.app, toUid, text)), v, names)
  {
    var app := c.peer.app;
    if v != u && app.client.Some? {
      assert app.myUid == 0 || app.myUid == u;
      hide Matched;
      OneMoreLine(app.messages, ChatMessage(app.myUid, app.myName, text, false), v, names);
      OneMoreLine(app.messages, ChatMessage(app.myUid, app.myName, text, true), v, names);
      hide LinesSigned;
    }
  }

  lemma DeliverSigned(u: nat, c: Connection, v: nat, names: set<string>)
    requires Matched(u, c) && Listening(c) && SignedOk(u, c, v, names)
    ensures SignedOk(u, DeliverNext(c), v, names)
  {
    if c.peer.Member? {
      ShownOrEcho(u, c);
      DeliveredOne(c);
      hide Matched, DeliverNext;
      var m := c.sent[c.delivered];
      if Line(m) != [] && v != u { OneMoreLine(c.peer.app.messages, Line(m)[0], v, names); }
    }
  }

  lemma OwnStepSigned(s: System, step: Step, u: nat, v: nat, names: set<string>)
    requires Enabled(s, step) && !step.Connect? && !step.ConnectStranger? && !step.Serve? && !step.Close?
    requires step.uid == u && Matched(u, s.connections[u]) && SignedIn(s, u, v, names) && v > 0
    ensures SignedIn(Next(s, step), u, v, names)
  {
    var c := s.connections[u];
    hide Matched;
    match step
    case SayPublic(_, text) => SayingSigned(u, c, 0, text, v, names);
    case SayPrivate(_, to, text) => SayingSigned(u, c, to, text, v, names);
    case Deliver(_) => DeliverSigned(u, c, v, names);
    case _ =>
  }

  lemma StepSigned(s: System, step: Step, u: nat, v: nat, names: set<string>, name: string)
    requires Kept(s) && Enabled(s, step) && SignedIn(s, u, v, names) && Knows(s, v, names, name)
    ensures SignedIn(Next(s, step), u, v, names)
  {
    assert TableKept(s);
    assert u in s.connections ==> Matched(u, s.connections[u]);
    hide Kept, Matched, SignedOk, NamedOk, Closed, ServeNext, IsListing, DeliverNext;
    match step
    case Connect(loginName) => OpenedSigned(s, Opened(Member(Joined(loginName).app), Joined(loginName).sent), u, v, names);
    case ConnectStranger => OpenedSigned(s, Opened(Stranger, []), u, v, names);
    case Serve(w, ids) => ServeSigned(s, w, ids, u, v, names, name);
    case Close(closing) => CloseSigned(s, closing, u, v, names);
    case _ => if step.uid == u { OwnStepSigned(s, step, u, v, names); }
  }

  lemma OpenedSigned(s: System, c: Connection, u: nat, v: nat, names: set<string>)
    requires SignedIn(s, u, v, names) && c.sent == [] && (c.peer.Member? ==> c.peer.app.messages == [])
    ensures SignedIn(Entered(s, c), u, v, names)
  {
  }

  // ---------------------------------------------------------------- runs

  lemma {:induction false} RunKeepsSigned(s: System, steps: seq<Step>, u: nat, v: nat, name: string)
    requires Kept(s) && Legal(s, steps) && SignedIn(s, u, v, {name}) && IsMember(s, v) && NamedOk(s, v, name)
    ensures SignedIn(After(s, steps), u, v, {name})
    decreases |steps|
  {
    if steps != [] {
      assert TableKept(s);
      StepSigned(s, steps[0], u, v, {name}, name);
      StepNames(s, steps[0], v, name);
      StepKeeps(s, steps[0]);
      StaysMember(s, steps[0], v);
      hide Kept, NamedOk, SignedIn, Next, Enabled;
      RunKeepsSigned(Next(s, steps[0]), steps[1..], u, v, name);
    }
  }

  /** What the other end of a session is never changes. */
  lemma StaysMember(s: System, step: Step, v: nat)
    requires Enabled(s, step) && TableKept(s) && v in s.connections
    ensures v in Next(s, step).connections && (IsMember(Next(s, step), v) <==> IsMember(s, v))
  {
    hide Closed, ServeNext, IsListing;
    match step
    case Serve(w, ids) => ServeIsQuiet(s, w, ids, v);
    case Close(closing) => CloseIsQuiet(s, closing, v);
    case _ =>
  }

  lemma {:induction false} RunKeepsStranger(s: System, steps: seq<Step>, v: nat)
    requires Kept(s) && Legal(s, steps) && v in s.connections && !IsMember(s, v)
    ensures !IsMember(After(s, steps), v)
    decreases |steps|
  {
    if steps != [] {
      StaysMember(s, steps[0], v);
      StepKeeps(s, steps[0]);
      hide Kept, Next, Enabled;
      RunKeepsStranger(Next(s, steps[0]), steps[1..], v);
    }
  }

  lemma {:induction false} RunSigned(s: System, steps: seq<Step>, u: nat, v: nat)
    requires Kept(s) && Legal(s, steps) && SignedIn(s, u, v, {}) && v > 0 && v !in s.connections
    ensures IsMember(After(s, steps), v) ==> SignedIn(After(s, steps), u, v, {LoginName(s, steps, v)})
    decreases |steps|
  {
    if steps != [] {
      var t, rest := Next(s, steps[0]), steps[1..];
      assert TableKept(s);
      StepKeeps(s, steps[0]);
      StepSigned(s, steps[0], u, v, {}, "");
      if v in t.connections { NewConnection(s, steps[0], v); }
      hide Kept, NamedOk, Next, Enabled, After;
      if v !in t.connections {
        RunSigned(t, rest, u, v);
      } else if IsMember(t, v) {
        RunKeepsSigned(t, rest, u, v, LoginName(s, steps, v));
      } else {
        RunKeepsStranger(t, rest, v);
      }
    }
  }

  /** In every reachable state, whatever the server has passed on of what a user of the application said, and every line
   that another client shows of it, carries the name with which that user was connected. */
  lemma SpeakersAreNamed(steps: seq<Step>, u: nat, v: nat)
    requires Legal(START, steps) && u in After(START, steps).connections && IsMember(After(START, steps), v)
    ensures var c := After(START, steps).connections[u];
            && (forall i :: 0 <= i < |c.sent| && SpokenBy(c.sent[i], v) ==> SpeakerName(c.sent[i]) == LoginName(START, steps, v))
            && (c.peer.Member? && v != u ==>
                  forall i :: 0 <= i < |c.peer.app.messages| && c.peer.app.messages[i].uid == v ==>
                    c.peer.app.messages[i].fromName == LoginName(START, steps, v))
  {
    StartKept();
    RunKeeps(START, steps);
    assert v > 0 by { assert TableKept(After(START, steps)); }
    hide Kept, After, Legal, LoginName, SpokenBy, SpeakerName;
    RunSigned(START, steps, u, v);
  }
}
