/**
 Under which name a user appears: the one it logged in with.
 */
module ChatNames {
  import opened Results
  import opened ChatMessages
  import opened ChatServer
  import opened ChatClient
  import opened ChatSystem
  import opened ChatMatching
  import opened ChatRoster
  import opened ChatTheorems
  import opened ChatDisplay
  import opened ChatProgress

  /** The name with which the session uid is connected in a run, if it is. */
  ghost function LoginName(s: System, steps: seq<Step>, uid: nat): string
    requires Legal(s, steps)
    decreases |steps|
  {
    if steps == [] then ""
    else if steps[0].Connect? && s.table.nextUid == uid then steps[0].loginName
    else LoginName(Next(s, steps[0]), steps[1..], uid)
  }

  /** The client asks for that name first of all, and never for another. */
  predicate AsksFor(requests: seq<Message>, name: string) {
    && requests != [] && requests[0] == Request(Given(1), Given("login"), Params(Given(name), Absent, Absent))
    && forall k :: 1 <= k < |requests| ==> requests[k].Request? && requests[k].methodName != Given("login")
  }

  /** The table has "guest" until the login is served, and the name from then on; only then is the user logged in. */
  predicate NamedOk(s: System, uid: nat, name: string) {
    IsMember(s, uid) ==>
      var c := s.connections[uid];
      && AsksFor(c.requests, name)
      && (uid in s.loggedIn <==> c.served > 0)
      && (uid in s.table.names ==> s.table.names[uid] == if c.served > 0 then name else "guest")
  }

  // ---------------------------------------------------------------- the steps

  lemma EnteringNames(s: System, loginName: string)
    requires TableKept(s)
    ensures NamedOk(Entered(s, Opened(Member(Joined(loginName).app), Joined(loginName).sent)), s.table.nextUid, loginName)
  {
  }

  lemma MoreAskedFor(requests: seq<Message>, more: seq<Message>, name: string)
    requires AsksFor(requests, name) && |more| == |requests| + 1 && more[..|requests|] == requests
    requires more[|requests|].Request? && more[|requests|].methodName != Given("login")
    ensures AsksFor(more, name)
  {
    forall k | 1 <= k < |more| ensures more[k].Request? && more[k].methodName != Given("login") {
      if k < |requests| { assert more[k] == more[..|requests|][k]; }
    }
    assert more[0] == more[..|requests|][0];
  }

  lemma SayingAsksFor(c: Connection, toUid: nat, text: string, name: string)
    requires c.peer.Member? && AsksFor(c.requests, name)
    ensures AsksFor(WithMoved(c, SaidPublic(c.peer.app, text)).requests, name)
    ensures AsksFor(WithMoved(c, SaidPrivate(c.peer.app, toUid, text)).requests, name)
  {
    var public, private := SaidPublic(c.peer.app, text), SaidPrivate(c.peer.app, toUid, text);
    assert c.requests + [] == c.requests;
    if public.sent != [] { MoreAskedFor(c.requests, c.requests + public.sent, name); }
    if private.sent != [] { MoreAskedFor(c.requests, c.requests + private.sent, name); }
  }

  lemma DeliveryAsksFor(uid: nat, c: Connection, name: string)
    requires Matched(uid, c) && c.peer.Member? && Listening(c) && AsksFor(c.requests, name)
    ensures AsksFor(DeliverNext(c).requests, name)
  {
    DeliverRequests(uid, c);
    var asked := DeliverNext(c).requests;
    hide Matched, CallbackOf;
    if asked != c.requests { MoreAskedFor(c.requests, asked, name); }
  }

  /** What serving a request does to the names, apart from a new login. */
  lemma RouteNames(table: Table, uid: nat, m: Message, ids: seq<nat>)
    requires uid in table.names
    ensures var o := Served(table, uid, m, ids).outcome;
            && o.table.names.Keys == table.names.Keys
            && (forall u :: u in table.names && u != uid ==> o.table.names[u] == table.names[u])
            && (o.push.Some? && o.push.value.UserJoined? ==> o.push.value.uid == uid)
            && (m.Request? && m.methodName != Given("login") ==>
                  o.table.names == table.names && !(o.push.Some? && o.push.value.UserJoined?))
            && (forall name :: m == Request(Given(1), Given("login"), Params(Given(name), Absent, Absent)) ==>
                  o.table.names[uid] == name && o.push == Some(UserJoined(uid, name)))
  {
  }

  /** Everything that NamedOk looks at stays, but perhaps the session leaves the table. */
  predicate NamesStay(s: System, t: System, uid: nat) {
    && uid in t.connections && uid in s.connections
    && t.connections[uid].peer.Member? == s.connections[uid].peer.Member?
    && t.connections[uid].requests == s.connections[uid].requests && t.connections[uid].served == s.connections[uid].served
    && (uid in t.loggedIn <==> uid in s.loggedIn)
    && (uid in t.table.names ==> uid in s.table.names && t.table.names[uid] == s.table.names[uid])
  }

  lemma StayingKeepsNames(s: System, t: System, uid: nat, name: string)
    requires NamesStay(s, t, uid) && NamedOk(s, uid, name)
    ensures uid in t.connections && NamedOk(t, uid, name)
  {
  }

  lemma EnterStays(s: System, c: Connection, uid: nat)
    requires TableKept(s) && uid in s.connections
    ensures NamesStay(s, Entered(s, c), uid)
  {
  }

  lemma CloseStays(s: System, closing: nat, uid: nat)
    requires closing in s.connections && uid in s.connections
    ensures NamesStay(s, Closed(s, closing), uid)
  {
  }

  /** Another session is served. */
  lemma ServeStays(s: System, serving: nat, ids: seq<nat>, uid: nat)
    requires serving in s.table.names && serving in s.connections && uid in s.connections && uid != serving
    requires s.connections[serving].served < |s.connections[serving].requests|
    ensures NamesStay(s, ServeNext(s, serving, ids), uid)
  {
    var c := s.connections[serving];
    var m := c.requests[c.served];
    AlwaysAResponse(s.table, serving, m, ids);
    RouteNames(s.table, serving, m, ids);
    hide Served;
    if Served(s.table, serving, m, ids).response == [] {
      var skipped := s.(connections := s.connections[serving := c.(served := c.served + 1)]);
      CloseStays(skipped, serving, uid);
      hide Closed;
    }
  }

  /** The session itself is served. */
  lemma OwnServeNames(s: System, uid: nat, ids: seq<nat>, name: string)
    requires uid in s.table.names && IsMember(s, uid) && Matched(uid, s.connections[uid]) && NamedOk(s, uid, name)
    requires s.connections[uid].served < |s.connections[uid].requests|
    ensures uid in ServeNext(s, uid, ids).connections && NamedOk(ServeNext(s, uid, ids), uid, name)
  {
    var c := s.connections[uid];
    var m := c.requests[c.served];
    AlwaysAResponse(s.table, uid, m, ids);
    assert AppRequest(m);
    ServingFits(s.table, uid, m, ids);
    hide Matched, AppRequest, Fits;
    RouteNames(s.table, uid, m, ids);
    hide Served;
  }

  lemma OwnStepNames(s: System, step: Step, uid: nat, name: string)
    requires IsMember(s, uid) && Matched(uid, s.connections[uid]) && NamedOk(s, uid, name) && Enabled(s, step)
    requires !step.Connect? && !step.ConnectStranger? && !step.Serve? && !step.Close? && step.uid == uid
    ensures uid in Next(s, step).connections && NamedOk(Next(s, step), uid, name)
  {
    var c := s.connections[uid];
    hide Matched, AsksFor, DeliverNext, SaidPublic, SaidPrivate;
    match step
    case SayPublic(_, text) => SayingAsksFor(c, 0, text, name);
    case SayPrivate(_, to, text) => SayingAsksFor(c, to, text, name);
    case Deliver(_) =>
      DeliveryAsksFor(uid, c, name);
      DeliveredOne(c);
    case _ =>
  }

  lemma StepNames(s: System, step: Step, uid: nat, name: string)
    requires Kept(s) && Enabled(s, step) && uid in s.connections && NamedOk(s, uid, name)
    ensures uid in Next(s, step).connections && NamedOk(Next(s, step), uid, name)
  {
    assert TableKept(s) && Matched(uid, s.connections[uid]);
    hide Kept, Matched, NamedOk, NamesStay, Closed, ServeNext, IsListing, DeliverNext;
    match step
    case Connect(loginName) =>
      var c := Opened(Member(Joined(loginName).app), Joined(loginName).sent);
      EnterStays(s, c, uid);
      StayingKeepsNames(s, Entered(s, c), uid, name);
    case ConnectStranger =>
      EnterStays(s, Opened(Stranger, []), uid);
      StayingKeepsNames(s, Entered(s, Opened(Stranger, [])), uid, name);
    case Serve(serving, ids) => ServeKeepsNames(s, serving, ids, uid, name);
    case Close(closing) =>
      CloseStays(s, closing, uid);
      StayingKeepsNames(s, Closed(s, closing), uid, name);
    case _ => MovingKeepsNames(s, step, uid, name);
  }

  lemma ServeKeepsNames(s: System, serving: nat, ids: seq<nat>, uid: nat, name: string)
    requires TableKept(s) && Enabled(s, Serve(serving, ids))
    requires uid in s.connections && Matched(uid, s.connections[uid]) && NamedOk(s, uid, name)
    ensures uid in ServeNext(s, serving, ids).connections && NamedOk(ServeNext(s, serving, ids), uid, name)
  {
    hide Matched, NamedOk, NamesStay, ServeNext, IsListing;
    if serving != uid {
      ServeStays(s, serving, ids, uid);
      StayingKeepsNames(s, ServeNext(s, serving, ids), uid, name);
    } else if IsMember(s, uid) {
      OwnServeNames(s, uid, ids, name);
    } else {
      ServeIsQuiet(s, uid, ids, uid);
      StrangersAreNamed(ServeNext(s, uid, ids), uid, name);
    }
  }

  lemma StrangersAreNamed(s: System, uid: nat, name: string)
    requires !IsMember(s, uid)
    ensures NamedOk(s, uid, name)
  {
  }

  /** The steps in which only a connection itself changes. */
  lemma MovingKeepsNames(s: System, step: Step, uid: nat, name: string)
    requires uid in s.connections && Matched(uid, s.connections[uid]) && NamedOk(s, uid, name) && Enabled(s, step)
    requires !step.Connect? && !step.ConnectStranger? && !step.Serve? && !step.Close?
    ensures uid in Next(s, step).connections && NamedOk(Next(s, step), uid, name)
  {
    hide Matched, NamedOk, DeliverNext;
    if IsMember(s, uid) && step.uid == uid {
      OwnStepNames(s, step, uid, name);
    } else if IsMember(s, uid) {
      assert NamesStay(s, Next(s, step), uid);
      StayingKeepsNames(s, Next(s, step), uid, name);
    } else {
      StrangersStay(s, step, uid);
      StrangersAreNamed(Next(s, step), uid, name);
    }
  }

  lemma StrangersStay(s: System, step: Step, uid: nat)
    requires uid in s.connections && !IsMember(s, uid) && Enabled(s, step)
    requires !step.Connect? && !step.ConnectStranger? && !step.Serve? && !step.Close?
    ensures uid in Next(s, step).connections && !IsMember(Next(s, step), uid)
  {
  }

  // ---------------------------------------------------------------- runs

  lemma {:induction false} RunKeepsName(s: System, steps: seq<Step>, uid: nat, name: string)
    requires Kept(s) && Legal(s, steps) && uid in s.connections && NamedOk(s, uid, name)
    ensures uid in After(s, steps).connections && NamedOk(After(s, steps), uid, name)
    decreases |steps|
  {
    hide Kept, NamedOk, Next, Enabled;
    if steps != [] {
      StepNames(s, steps[0], uid, name);
      StepKeeps(s, steps[0]);
      RunKeepsName(Next(s, steps[0]), steps[1..], uid, name);
    }
  }

  /** Who is entered in a step. */
  lemma NewConnection(s: System, step: Step, uid: nat)
    requires TableKept(s) && Enabled(s, step) && uid !in s.connections && uid in Next(s, step).connections
    ensures uid == s.table.nextUid && (step.Connect? || (step.ConnectStranger? && !IsMember(Next(s, step), uid)))
    ensures step.Connect? ==> NamedOk(Next(s, step), uid, step.loginName)
  {
    match step
    case Connect(name) => EnteringNames(s, name);
    case Serve(serving, ids) => ServeAddsNobody(s, serving, ids, uid);
    case _ =>
  }

  lemma {:induction false} RunNames(s: System, steps: seq<Step>, uid: nat)
    requires Kept(s) && Legal(s, steps) && uid !in s.connections
    ensures uid in After(s, steps).connections ==> NamedOk(After(s, steps), uid, LoginName(s, steps, uid))
    decreases |steps|
  {
    if steps != [] {
      var t, rest := Next(s, steps[0]), steps[1..];
      assert TableKept(s);
      StepKeeps(s, steps[0]);
      if uid in t.connections { NewConnection(s, steps[0], uid); }
      hide Kept, NamedOk, Next, Enabled, After;
      if uid !in t.connections {
        RunNames(t, rest, uid);
      } else {
        if !steps[0].Connect? { StrangersAreNamed(t, uid, LoginName(t, rest, uid)); }
        RunKeepsName(t, rest, uid, LoginName(s, steps, uid));
      }
    }
  }

  /** In every reachable state every live session of the application is named "guest" in the table until its login has
   been served, and the name it was connected with from then on; it is logged in exactly from then on. */
  lemma NamedAfterLogin(steps: seq<Step>, uid: nat)
    requires Legal(START, steps) && IsMember(After(START, steps), uid) && uid in After(START, steps).table.names
    ensures var s := After(START, steps);
            && (uid in s.loggedIn <==> s.connections[uid].served > 0)
            && s.table.names[uid] == if s.connections[uid].served > 0 then LoginName(START, steps, uid) else "guest"
  {
    StartKept();
    RunNames(START, steps, uid);
    hide Kept, After, Legal, LoginName;
  }

  /** From every reachable state a listening client can be brought, with the server, to a roster that is complete and
   that shows every user of the application who has logged in under the name it was connected with. */
  lemma RosterShowsLoginNames(steps: seq<Step>, u: nat) returns (more: seq<Step>)
    requires Legal(START, steps) && AttendingIn(After(START, steps), u)
    ensures Legal(START, steps + more) && Between(more, u)
    ensures var t := After(START, steps + more);
            && AttendingIn(t, u) && Settled(t.connections[u])
            && var roster := NamesOf(t.connections[u].peer.app.users);
               forall v :: IsMember(t, v) && v in t.loggedIn && v in t.table.names ==>
                 v in roster && roster[v] == LoginName(START, steps + more, v)
  {
    more := CanSettle(steps, u);
    var t := After(START, steps + more);
    hide Legal, After, LoginName, Settled, AttendingIn, NamesOf, Between;
    forall v | IsMember(t, v) && v in t.loggedIn && v in t.table.names
      ensures t.table.names[v] == LoginName(START, steps + more, v)
    {
      NamedAfterLogin(steps + more, v);
    }
  }

  /** In every reachable state, once the client of a live session has handled what is still on its way to it, it shows
   every user of the application on its list under the name it was connected with, or as "guest" before the login. */
  lemma DrainedRosterNames(steps: seq<Step>, u: nat, v: nat)
    requires Legal(START, steps)
    requires var s := After(START, steps);
             u in s.table.names && IsMember(s, u) && s.connections[u].peer.app.client.Some? && IsMember(s, v)
    ensures After(START, steps).connections[u].delivered <= |After(START, steps).connections[u].sent|
    ensures var s := After(START, steps);
            var c := s.connections[u];
            var roster := NamesOf(Drained(c.peer.app, c.sent[c.delivered..]).users);
            && (v in roster ==> roster[v] == if v in s.loggedIn then LoginName(START, steps, v) else "guest")
            && (Listed(c.sent) && v in s.loggedIn && v in s.table.names ==> v in roster)
  {
    hide Legal, After, LoginName, NamesOf, Drained;
    RosterConverges(steps, u);
    if v in After(START, steps).table.names { NamedAfterLogin(steps, v); }
  }
}
