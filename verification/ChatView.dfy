/**
 What a client shows besides what is said: its own name, and how many private messages of another user are unread.
 */
module ChatView {
  import opened Results
  import opened ChatMessages
  import opened ChatServer
  import opened ChatClient
  import opened ChatSystem
  import opened ChatMatching
  import opened ChatRoster
  import opened ChatDisplay
  import opened ChatNames

  predicate IsPrivateFrom(m: Message, v: nat) {
    m.Push? && m.event.PrivateMessage? && m.event.fromUid == v
  }

  predicate IsListed(v: nat, entries: seq<Entry>) {
    exists i :: 0 <= i < |entries| && entries[i].uid == v
  }

  /** The user v comes or goes, or is on a list. */
  predicate Renews(m: Message, v: nat) {
    match m
    case Push(UserJoined(uid, _)) => uid == v
    case Push(UserLeft(uid)) => uid == v
    case Response(_, Clients(entries)) => IsListed(v, entries)
    case _ => false
  }

  /** How many private messages of v a stream brings after v last came, went or was listed. */
  function Unread(stream: seq<Message>, v: nat): nat {
    if stream == [] then 0
    else
      var last := stream[|stream| - 1];
      if Renews(last, v) then 0 else Unread(stream[..|stream| - 1], v) + if IsPrivateFrom(last, v) then 1 else 0
  }

  lemma UnreadNext(stream: seq<Message>, n: nat, v: nat)
    requires n < |stream|
    ensures Unread(stream[..n + 1], v)
         == if Renews(stream[n], v) then 0 else Unread(stream[..n], v) + if IsPrivateFrom(stream[n], v) then 1 else 0
  {
    assert stream[..n + 1][..n] == stream[..n];
  }

  // ---------------------------------------------------------------- the invariant

  /** The entry of v, if there is one, is v's and counts what is unread of it. */
  predicate CountsUnread(users: map<nat, User>, u: nat, v: nat, unread: nat) {
    v in users ==> users[v].uid == v && (v != u ==> users[v].unread == unread)
  }

  predicate OwnLinesNamed(messages: seq<ChatMessage>, u: nat, name: string) {
    forall i :: 0 <= i < |messages| && messages[i].uid == u ==> messages[i].fromName == name
  }

  /** The client knows its own name from the response to its login on. */
  predicate KnowsItself(u: nat, app: App, answered: bool, name: string) {
    app.myName == (if answered then name else "") && OwnLinesNamed(app.messages, u, name)
  }

  predicate ViewOk(u: nat, c: Connection, v: nat, name: string) {
    c.delivered <= |c.sent|
    && (c.peer.Member? ==>
          AsksFor(c.requests, name)
          && (c.peer.app.client.Some? ==>
                KnowsItself(u, c.peer.app, c.ran != [], name)
                && CountsUnread(c.peer.app.users, u, v, Unread(c.sent[..c.delivered], v))))
  }

  // ---------------------------------------------------------------- deliveries

  lemma {:induction false} MergedUser(users: map<nat, User>, entries: seq<Entry>, v: nat)
    ensures v in MergeUsers(users, entries) <==> v in users || IsListed(v, entries)
    ensures IsListed(v, entries) ==> MergeUsers(users, entries)[v].uid == v && MergeUsers(users, entries)[v].unread == 0
    ensures v in users && !IsListed(v, entries) ==> MergeUsers(users, entries)[v] == users[v]
    decreases |entries|
  {
    if entries != [] {
      var e, rest := entries[0], entries[1..];
      MergedUser(users[e.uid := User(e.uid, e.name, 0)], rest, v);
      ListedTail(entries, v);
    }
  }

  lemma ListedTail(entries: seq<Entry>, v: nat)
    requires entries != []
    ensures IsListed(v, entries) <==> entries[0].uid == v || IsListed(v, entries[1..])
  {
    if IsListed(v, entries) && entries[0].uid != v {
      var i :| 0 <= i < |entries| && entries[i].uid == v;
      assert entries[1..][i - 1].uid == v;
    }
  }

  lemma PushCounts(app: App, event: Event, u: nat, v: nat, unread: nat)
    requires CountsUnread(app.users, u, v, unread) && (app.myUid == 0 || app.myUid == u)
    requires !SpokenBy(Push(event), 0) && (SpokenBy(Push(event), u) ==> app.myUid == u)
    ensures var m := Push(event);
            CountsUnread(AfterPush(app, event).users, u, v,
                         if Renews(m, v) then 0 else unread + if IsPrivateFrom(m, v) then 1 else 0)
  {
  }

  lemma PushNames(app: App, event: Event, u: nat, answered: bool, name: string)
    requires KnowsItself(u, app, answered, name) && (SpokenBy(Push(event), u) ==> app.myUid == u)
    ensures KnowsItself(u, AfterPush(app, event), answered, name)
  {
  }

  lemma DeliverPushView(u: nat, c: Connection, v: nat, name: string)
    requires Matched(u, c) && c.peer.Member? && c.peer.app.client.Some? && c.delivered < |c.sent|
    requires c.sent[c.delivered].Push? && ViewOk(u, c, v, name)
    ensures ViewOk(u, DeliverNext(c), v, name)
  {
    var event := c.sent[c.delivered].event;
    DeliverOther(u, c);
    UnreadNext(c.sent, c.delivered, v);
    assert (c.peer.app.myUid == 0 || c.peer.app.myUid == u) && !SpokenBy(Push(event), 0);
    assert SpokenBy(Push(event), u) ==> c.peer.app.myUid == u;
    hide Matched, AfterPush, Renews, Unread, AsksFor, IsPrivateFrom, CountsUnread, KnowsItself, SpokenBy;
    PushCounts(c.peer.app, event, u, v, Unread(c.sent[..c.delivered], v));
    PushNames(c.peer.app, event, u, c.ran != [], name);
    assert c.requests + [] == c.requests;
  }

  /** The reply to a request of the client, run by its callback. */
  lemma ReplyView(u: nat, app: App, m: Message, reply: Reply, first: bool, name: string, v: nat, unread: nat)
    requires AppRequest(m) && Fits(u, m, reply) && app.client.Some?
    requires if first then m.methodName == Given("login") && m.params.name == Given(name) else m.methodName != Given("login")
    requires KnowsItself(u, app, !first, name) && CountsUnread(app.users, u, v, unread)
    ensures var after := AfterReply(app, CallbackOf(m), reply).app;
            && KnowsItself(u, after, true, name)
            && CountsUnread(after.users, u, v, if Renews(Response(0, reply), v) then 0 else unread)
  {
    hide OwnLinesNamed;
    if reply.Clients? { MergedUser(app.users, reply.entries, v); }
    hide MergeUsers, IsListed;
  }

  lemma DeliverReplyView(u: nat, c: Connection, v: nat, name: string)
    requires Matched(u, c) && c.peer.Member? && Listening(c) && c.sent[c.delivered].Response? && ViewOk(u, c, v, name)
    ensures ViewOk(u, DeliverNext(c), v, name)
  {
    DeliverResponse(u, c);
    DeliveryAsksFor(u, c, name);
    DeliveredOne(c);
    UnreadNext(c.sent, c.delivered, v);
    NextReplyView(u, c, v, name);
    hide Matched, Unread, CallbackOf, CountsUnread, KnowsItself, AsksFor, Heard, DeliverNext;
  }

  lemma NextReplyView(u: nat, c: Connection, v: nat, name: string)
    requires Matched(u, c) && c.peer.Member? && c.peer.app.client.Some? && c.delivered < |c.sent|
    requires c.sent[c.delivered].Response? && ViewOk(u, c, v, name)
    ensures var after := Heard(c.peer.app, c.sent[c.delivered]).app;
            var unread := Unread(c.sent[..c.delivered], v);
            && KnowsItself(u, after, true, name)
            && CountsUnread(after.users, u, v, if Renews(c.sent[c.delivered], v) then 0 else unread)
  {
    var k, unread := |c.ran|, Unread(c.sent[..c.delivered], v);
    NextResponseIsPending(u, c);
    assert AppRequest(c.requests[k]) && k < |c.requests|;
    assert k == 0 <==> c.ran == [];
    hide Matched, Unread, AppRequest, Fits, CallbackOf, CountsUnread, OwnLinesNamed;
    var client := c.peer.app.client.value;
    var found := c.peer.app.(client := Some(client.(pending := client.pending - {k + 1})));
    ReplyView(u, found, c.requests[k], c.replies[k], k == 0, name, v, unread);
    hide AfterReply, KnowsItself;
  }

  lemma DeliverView(u: nat, c: Connection, v: nat, name: string)
    requires Matched(u, c) && Listening(c) && ViewOk(u, c, v, name)
    ensures ViewOk(u, DeliverNext(c), v, name)
  {
    if c.peer.Member? {
      if c.sent[c.delivered].Push? {
        DeliverPushView(u, c, v, name);
      } else if c.sent[c.delivered].Response? {
        DeliverReplyView(u, c, v, name);
      } else {
        UnreadNext(c.sent, c.delivered, v);
        assert c.requests + [] == c.requests;
        hide Matched, Unread, AsksFor;
      }
    }
  }

  // ---------------------------------------------------------------- steps and runs

  lemma OpenedView(u: nat, loginName: string, v: nat)
    requires u > 0
    ensures ViewOk(u, Opened(Member(Joined(loginName).app), Joined(loginName).sent), v, loginName)
  {
  }

  lemma QuietView(u: nat, b: Connection, c: Connection, v: nat, name: string)
    requires ViewOk(u, b, v, name) && Quiet(b, c)
    ensures ViewOk(u, c, v, name)
  {
    assert c.sent[..c.delivered] == b.sent[..b.delivered];
  }

  lemma SayingView(u: nat, c: Connection, toUid: nat, text: string, v: nat, name: string)
    requires Matched(u, c) && c.peer.Member? && ViewOk(u, c, v, name) && u > 0
    ensures ViewOk(u, WithMoved(c, SaidPublic(c.peer.app, text)), v, name)
    ensures ViewOk(u, WithMoved(c, SaidPrivate(c.peer.app, toUid, text)), v, name)
  {
    SayingAsksFor(c, toUid, text, name);
    assert c.peer.app.client.Some? ==> c.peer.app.myUid == (if c.ran == [] then 0 else u);
    hide Matched, AsksFor, Unread, CountsUnread;
  }

  lemma LeavingView(u: nat, c: Connection, v: nat, name: string)
    requires c.peer.Member? && ViewOk(u, c, v, name)
    ensures c.peer.app.client.Some? ==> ViewOk(u, Lost(c), v, name)
    ensures ViewOk(u, c.(peer := Member(OFFLINE)), v, name)
  {
  }

  /** The steps in which only the connection itself changes. */
  lemma OwnStepView(s: System, step: Step, v: nat, name: string)
    requires !step.Connect? && !step.ConnectStranger? && !step.Serve? && !step.Close? && Enabled(s, step) && step.uid > 0
    requires Matched(step.uid, s.connections[step.uid]) && ViewOk(step.uid, s.connections[step.uid], v, name)
    ensures step.uid in Next(s, step).connections && ViewOk(step.uid, Next(s, step).connections[step.uid], v, name)
  {
    var u := step.uid;
    var c := s.connections[u];
    match step
    case SayPublic(_, text) =>
      hide Matched, ViewOk;
      SayingView(u, c, 0, text, v, name);
    case SayPrivate(_, to, text) =>
      hide Matched, ViewOk;
      SayingView(u, c, to, text, v, name);
    case Inject(_, m) => hide Matched, Unread;
    case Deliver(_) =>
      hide Matched, ViewOk;
      DeliverView(u, c, v, name);
    case Lose(_) =>
      hide Matched, ViewOk;
      LeavingView(u, c, v, name);
    case Quit(_) =>
      hide Matched, ViewOk;
      LeavingView(u, c, v, name);
  }

  lemma StepView(s: System, step: Step, u: nat, v: nat, name: string)
    requires Kept(s) && Enabled(s, step) && u in s.connections && ViewOk(u, s.connections[u], v, name)
    ensures u in Next(s, step).connections && ViewOk(u, Next(s, step).connections[u], v, name)
  {
    assert TableKept(s) && Matched(u, s.connections[u]);
    hide ViewOk, Matched, Kept, Closed, ServeNext, IsListing, Quiet;
    match step
    case Serve(uid, ids) =>
      ServeIsQuiet(s, uid, ids, u);
      QuietView(u, s.connections[u], Next(s, step).connections[u], v, name);
    case Close(uid) =>
      CloseIsQuiet(s, uid, u);
      QuietView(u, s.connections[u], Next(s, step).connections[u], v, name);
    case Connect(_) =>
    case ConnectStranger =>
    case _ => if step.uid == u { OwnStepView(s, step, v, name); }
  }

  lemma {:induction false} RunKeepsView(s: System, steps: seq<Step>, u: nat, v: nat, name: string)
    requires Kept(s) && Legal(s, steps) && u in s.connections && ViewOk(u, s.connections[u], v, name)
    ensures u in After(s, steps).connections && ViewOk(u, After(s, steps).connections[u], v, name)
    decreases |steps|
  {
    hide Kept, ViewOk, Next, Enabled;
    if steps != [] {
      StepView(s, steps[0], u, v, name);
      StepKeeps(s, steps[0]);
      RunKeepsView(Next(s, steps[0]), steps[1..], u, v, name);
    }
  }

  lemma NewView(s: System, step: Step, u: nat, v: nat, name: string)
    requires TableKept(s) && Enabled(s, step) && u !in s.connections && u in Next(s, step).connections
    requires step.Connect? ==> name == step.loginName
    ensures ViewOk(u, Next(s, step).connections[u], v, name)
  {
    match step
    case Connect(loginName) =>
      OpenedView(u, loginName, v);
      QuietView(u, Opened(Member(Joined(loginName).app), Joined(loginName).sent), Next(s, step).connections[u], v, name);
    case Serve(uid, ids) => ServeAddsNobody(s, uid, ids, u);
    case _ =>
  }

  lemma {:induction false} RunView(s: System, steps: seq<Step>, u: nat, v: nat)
    requires Kept(s) && Legal(s, steps) && u !in s.connections
    ensures u in After(s, steps).connections ==> ViewOk(u, After(s, steps).connections[u], v, LoginName(s, steps, u))
    decreases |steps|
  {
    if steps != [] {
      var t, rest := Next(s, steps[0]), steps[1..];
      assert TableKept(s);
      StepKeeps(s, steps[0]);
      if u in t.connections {
        NewConnection(s, steps[0], u);
        NewView(s, steps[0], u, v, LoginName(s, steps, u));
      }
      hide Kept, ViewOk, Next, Enabled, After;
      if u !in t.connections { RunView(t, rest, u, v); } else { RunKeepsView(t, rest, u, v, LoginName(s, steps, u)); }
    }
  }

  /** In every reachable state a client knows itself under the name it was connected with as soon as its login has been
   answered, and shows its own lines under that name; each entry of its user list is of the user it stands for, and
   counts the private messages of another user that have arrived since that user last came or was listed. */
  lemma ClientViewIsRight(steps: seq<Step>, u: nat, v: nat)
    requires Legal(START, steps)
    requires var s := After(START, steps); IsMember(s, u) && s.connections[u].peer.app.client.Some?
    ensures After(START, steps).connections[u].delivered <= |After(START, steps).connections[u].sent|
    ensures var c := After(START, steps).connections[u];
            var app := c.peer.app;
            && app.myName == (if c.ran != [] then LoginName(START, steps, u) else "")
            && (forall i :: 0 <= i < |app.messages| && app.messages[i].uid == u ==>
                  app.messages[i].fromName == LoginName(START, steps, u))
            && (v in app.users ==>
                  app.users[v].uid == v && (v != u ==> app.users[v].unread == Unread(c.sent[..c.delivered], v)))
  {
    StartKept();
    hide Kept, After, Legal, LoginName, Unread, AsksFor;
    RunView(START, steps, u, v);
  }
}
