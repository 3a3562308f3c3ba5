/**
 Requests, responses and callbacks of one connection: what every step keeps.
 */
module ChatMatching {
  import opened ChatMessages
  import opened ChatServer
  import opened ChatClient
  import opened ChatSystem
  import opened Results

  /** The requests that the application makes. */
  predicate AppRequest(m: Message) {
    && m.Request? && m.id.Given? && m.methodName.Given?
    && ((m.methodName.value == "login" && m.params.name.Given?)
        || m.methodName.value == "client_list"
        || (m.methodName.value == "send_public" && m.params.text.Given?)
        || (m.methodName.value == "send_private" && m.params.text.Given? && m.params.toUid.Given?))
  }

  function CallbackOf(m: Message): Callback
    requires AppRequest(m)
  {
    if m.methodName.value == "login" then AfterLogin
    else if m.methodName.value == "client_list" then AfterList
    else Ignore
  }

  /** A reply of the kind that the callback of the request is written for. */
  predicate Fits(uid: nat, m: Message, reply: Reply)
    requires AppRequest(m)
  {
    match CallbackOf(m)
    case AfterLogin => reply == LoggedIn(uid, m.params.name.value)
    case AfterList => reply.Clients?
    case Ignore => reply == Delivered
  }

  /** The k-th request carries the id k + 1, and the first one logs in. */
  ghost predicate RequestsInOrder(requests: seq<Message>) {
    && (forall k :: 0 <= k < |requests| ==> AppRequest(requests[k]) && requests[k].id == Given(k + 1))
    && |requests| > 0 && requests[0].methodName == Given("login")
  }

  /** The k-th response answers the k-th request with the reply the router built for it. */
  ghost predicate ResponsesInOrder(uid: nat, c: Connection)
    requires RequestsInOrder(c.requests)
  {
    && |c.replies| == c.served == |Responses(c.sent)|
    && c.served <= |c.requests|
    && forall k :: 0 <= k < c.served ==>
         Responses(c.sent)[k] == Response(k + 1, c.replies[k]) && Fits(uid, c.requests[k], c.replies[k])
  }

  /** The k-th callback to run was the one of the k-th request, on the reply built for it. */
  ghost predicate CallbacksInOrder(c: Connection)
    requires RequestsInOrder(c.requests)
  {
    && |c.ran| <= |c.replies| && |c.ran| <= |c.requests|
    && forall k :: 0 <= k < |c.ran| ==> c.ran[k] == Ran(k + 1, CallbackOf(c.requests[k]), c.replies[k])
  }

  /** The pending callbacks are those of the requests issued and not yet answered. */
  ghost predicate PendingExact(client: ClientState, requests: seq<Message>, answered: nat)
    requires RequestsInOrder(requests)
  {
    && client.nextId == |requests| + 1
    && (forall i :: i in client.pending <==> answered < i <= |requests|)
    && (forall i :: i in client.pending ==> client.pending[i] == CallbackOf(requests[i - 1]))
  }

  ghost predicate InSync(uid: nat, c: Connection)
    requires RequestsInOrder(c.requests) && c.peer.Member? && c.peer.app.client.Some? && c.delivered <= |c.sent|
  {
    var app := c.peer.app;
    && PendingExact(app.client.value, c.requests, |c.ran|)
    && NamesOf(app.users) == Roster(c.sent[..c.delivered])
    && app.myUid == (if |c.ran| == 0 then 0 else uid)
  }

  predicate SpokenBy(m: Message, uid: nat) {
    m.Push? && match m.event
               case PublicMessage(from, _, _) => from == uid
               case PrivateMessage(from, _, _) => from == uid
               case _ => false
  }

  /** What a session says itself comes back to it only after the response to its login; nobody has the uid 0. */
  ghost predicate SpeaksAfterLogin(stream: seq<Message>, uid: nat) {
    forall i :: 0 <= i < |stream| ==>
      !SpokenBy(stream[i], 0) && (SpokenBy(stream[i], uid) ==> Responses(stream[..i]) != [])
  }

  ghost predicate Matched(uid: nat, c: Connection) {
    && c.delivered <= |c.sent| && c.served <= |c.requests|
    && (c.peer.Member? ==>
          && RequestsInOrder(c.requests)
          && ResponsesInOrder(uid, c)
          && |c.ran| == |Responses(c.sent[..c.delivered])|
          && CallbacksInOrder(c)
          && SpeaksAfterLogin(c.sent, uid)
          && (c.peer.app.client.Some? ==> InSync(uid, c)))
  }

  // ---------------------------------------------------------------- the steps

  lemma MatchedAtConnect(uid: nat, loginName: string)
    requires uid > 0
    ensures Matched(uid, Opened(Member(Joined(loginName).app), Joined(loginName).sent))
    ensures Matched(uid, Opened(Stranger, []))
  {
  }

  /** The client asks for something: the request log and the pending callbacks stay in step. */
  lemma AskingKeepsOrder(app: App, methodName: string, params: Params, callback: Callback, requests: seq<Message>, answered: nat)
    requires app.client.Some? && RequestsInOrder(requests) && answered <= |requests|
    requires PendingExact(app.client.value, requests, answered)
    requires var m := Request(Given(|requests| + 1), Given(methodName), params); AppRequest(m) && CallbackOf(m) == callback
    ensures var moved := Asked(app, methodName, params, callback);
            && RequestsInOrder(requests + moved.sent)
            && moved.app.client.Some?
            && moved.app == app.(client := moved.app.client)
            && PendingExact(moved.app.client.value, requests + moved.sent, answered)
  {
  }

  /** More requests: nothing that is settled changes. */
  lemma MoreRequests(uid: nat, c: Connection, app: App, more: seq<Message>)
    requires Matched(uid, c) && c.peer.Member? && RequestsInOrder(c.requests + more)
    ensures var d := c.(peer := Member(app), requests := c.requests + more);
            ResponsesInOrder(uid, d) && CallbacksInOrder(d)
  {
  }

  /** A request without interest in the reply, after any change to the list of messages. */
  lemma AskingKeepsMatched(uid: nat, c: Connection, messages: seq<ChatMessage>, methodName: string, params: Params)
    requires Matched(uid, c) && c.peer.Member? && c.peer.app.client.Some?
    requires var m := Request(Given(|c.requests| + 1), Given(methodName), params); AppRequest(m) && CallbackOf(m) == Ignore
    ensures Matched(uid, WithMoved(c, Asked(c.peer.app.(messages := messages), methodName, params, Ignore)))
  {
    AskingKeepsOrder(c.peer.app.(messages := messages), methodName, params, Ignore, c.requests, |c.ran|);
    hide Fits, CallbackOf, AppRequest;
    var moved := Asked(c.peer.app.(messages := messages), methodName, params, Ignore);
    MoreRequests(uid, c, moved.app, moved.sent);
  }

  lemma SayingKeepsMatched(uid: nat, c: Connection, toUid: nat, text: string)
    requires Matched(uid, c) && c.peer.Member?
    ensures Matched(uid, WithMoved(c, SaidPublic(c.peer.app, text)))
    ensures Matched(uid, WithMoved(c, SaidPrivate(c.peer.app, toUid, text)))
  {
    hide Matched, Asked;
    var app := c.peer.app;
    if app.client.Some? && text != "" {
      AskingKeepsMatched(uid, c, app.messages + [ChatMessage(app.myUid, app.myName, text, false)],
                         "send_public", Params(Absent, Given(text), Absent));
      AskingKeepsMatched(uid, c, app.messages + [ChatMessage(app.myUid, app.myName, text, true)],
                         "send_private", Params(Absent, Given(text), Given(toUid)));
    } else {
      assert c.requests + [] == c.requests;
      assert WithMoved(c, Moved(app, [])) == c;
    }
  }

  lemma SpeakingGrows(stream: seq<Message>, uid: nat, m: Message)
    requires SpeaksAfterLogin(stream, uid) && !SpokenBy(m, 0) && (SpokenBy(m, uid) ==> Responses(stream) != [])
    ensures SpeaksAfterLogin(stream + [m], uid)
  {
    forall i | 0 <= i < |stream + [m]|
      ensures !SpokenBy((stream + [m])[i], 0)
      ensures SpokenBy((stream + [m])[i], uid) ==> Responses((stream + [m])[..i]) != []
    {
      assert (stream + [m])[..i] == stream[..i];
      if i == |stream| { assert stream[..i] == stream; }
    }
  }

  /** A push reaches the connection's channel. */
  lemma PushKeepsMatched(uid: nat, c: Connection, event: Event)
    requires Matched(uid, c)
    requires !SpokenBy(Push(event), 0) && (c.peer.Member? && SpokenBy(Push(event), uid) ==> c.served > 0)
    ensures Matched(uid, c.(sent := c.sent + [Push(event)]))
  {
    hide Fits, CallbackOf, AppRequest, Responses, Roster, NamesOf, PendingExact, RequestsInOrder;
    if c.peer.Member? {
      ResponsesAppend(c.sent, Push(event));
      assert (c.sent + [Push(event)])[..c.delivered] == c.sent[..c.delivered];
      SpeakingGrows(c.sent, uid, Push(event));
    }
  }

  /** The server answers the application's next request, and the reply fits. */
  lemma ServingFits(table: Table, uid: nat, m: Message, ids: seq<nat>)
    requires AppRequest(m)
    ensures var e := Served(table, uid, m, ids);
            |e.response| == 1 && e.response[0].Response? && e.response[0].answered == m.id.value
            && Fits(uid, m, e.response[0].body)
  {
  }

  lemma AnswerKeepsMatched(uid: nat, c: Connection, response: Message)
    requires Matched(uid, c) && c.served < |c.requests| && response.Response?
    requires c.peer.Member? ==> AppRequest(c.requests[c.served])
                                && response.answered == c.requests[c.served].id.value && Fits(uid, c.requests[c.served], response.body)
    ensures Matched(uid, c.(served := c.served + 1, replies := c.replies + [response.body], sent := c.sent + [response]))
  {
    hide Fits, CallbackOf, AppRequest, Responses, Roster, NamesOf, PendingExact;
    if c.peer.Member? {
      assert !SpokenBy(response, 0) && !SpokenBy(response, uid);
      ResponsesAppend(c.sent, response);
      assert (c.sent + [response])[..c.delivered] == c.sent[..c.delivered];
      SpeakingGrows(c.sent, uid, response);
    }
  }

  // ---------------------------------------------------------------- delivery

  /** The next response on its way to the application belongs to the oldest pending request. */
  lemma NextResponseIsPending(uid: nat, c: Connection)
    requires Matched(uid, c) && c.peer.Member? && c.peer.app.client.Some?
    requires c.delivered < |c.sent| && c.sent[c.delivered].Response?
    ensures var k := |c.ran|;
            && k < c.served
            && c.sent[c.delivered] == Response(k + 1, c.replies[k])
            && Dispatched(c.peer.app.client.value.pending, c.sent[c.delivered]) == RunCallback(CallbackOf(c.requests[k]), c.replies[k])
            && Fits(uid, c.requests[k], c.replies[k])
            && |Responses(c.sent[..c.delivered + 1])| == k + 1
  {
    NextResponse(c.sent, c.delivered);
    var k := |c.ran|;
    assert Responses(c.sent[..c.delivered + 1])[k] == c.sent[c.delivered];
    assert Responses(c.sent)[k] == c.sent[c.delivered];
  }

  lemma RosterStep(c: Connection)
    requires c.delivered < |c.sent|
    ensures Roster(c.sent[..c.delivered + 1]) == RosterAfter(Roster(c.sent[..c.delivered]), c.sent[c.delivered])
  {
    assert c.sent[..c.delivered + 1] == c.sent[..c.delivered] + [c.sent[c.delivered]];
    RosterAppend(c.sent[..c.delivered], c.sent[c.delivered]);
  }

  /** A push changes the client's user list as it changes a roster, and nothing that matching depends on. */
  lemma PushedUsers(app: App, event: Event)
    ensures AfterPush(app, event) == app.(users := AfterPush(app, event).users, messages := AfterPush(app, event).messages)
    ensures NamesOf(AfterPush(app, event).users) == RosterAfter(NamesOf(app.users), Push(event))
  {
    var after := NamesOf(AfterPush(app, event).users);
    match event
    case UserJoined(uid, name) => assert after == NamesOf(app.users)[uid := name];
    case UserLeft(uid) => assert after == NamesOf(app.users) - {uid};
    case PublicMessage(_, _, _) =>
    case PrivateMessage(from, _, _) => assert after == NamesOf(app.users);
  }

  lemma DeliverOther(uid: nat, c: Connection)
    requires Matched(uid, c) && c.peer.Member? && c.peer.app.client.Some?
    requires c.delivered < |c.sent| && !c.sent[c.delivered].Response?
    ensures Matched(uid, DeliverNext(c)) && DeliverNext(c).ran == c.ran && DeliverNext(c).peer.app.client == c.peer.app.client
  {
    hide Fits, CallbackOf, AppRequest, AfterPush, Responses, Roster, NamesOf;
    NextResponse(c.sent, c.delivered);
    RosterStep(c);
    if c.sent[c.delivered].Push? { PushedUsers(c.peer.app, c.sent[c.delivered].event); }
    assert c.requests + [] == c.requests;
  }

  /** The state after the callback of a response has run on the reply that fits it. */
  lemma RunFitting(uid: nat, app: App, m: Message, reply: Reply, requests: seq<Message>, answered: nat)
    requires app.client.Some? && AppRequest(m) && Fits(uid, m, reply)
    requires RequestsInOrder(requests) && answered <= |requests| && PendingExact(app.client.value, requests, answered)
    ensures var moved := AfterReply(app, CallbackOf(m), reply);
            && RequestsInOrder(requests + moved.sent)
            && moved.app.client.Some?
            && PendingExact(moved.app.client.value, requests + moved.sent, answered)
            && NamesOf(moved.app.users) == RosterAfter(NamesOf(app.users), Response(answered, reply))
            && moved.app.myUid == (if m.methodName.value == "login" then uid else app.myUid)
            && moved.app.messages == app.messages
            && moved.app.client.value.running == app.client.value.running
  {
    match CallbackOf(m)
    case AfterLogin =>
      AskingKeepsOrder(app.(myUid := reply.uid, myName := reply.name), "client_list", NULL_PARAMS, AfterList, requests, answered);
    case AfterList =>
      NamesOfMerge(app.users, reply.entries);
      assert requests + [] == requests;
    case Ignore =>
      assert requests + [] == requests;
  }

  /** The callback of the oldest pending request has run, and left the client in step. */
  lemma RunKeepsMatched(uid: nat, c: Connection, moved: Moved)
    requires Matched(uid, c) && c.peer.Member? && c.delivered < |c.sent|
    requires |c.ran| < c.served && |Responses(c.sent[..c.delivered + 1])| == |c.ran| + 1
    requires RequestsInOrder(c.requests + moved.sent) && moved.app.client.Some?
    requires PendingExact(moved.app.client.value, c.requests + moved.sent, |c.ran| + 1)
    requires NamesOf(moved.app.users) == Roster(c.sent[..c.delivered + 1]) && moved.app.myUid == uid
    ensures var k := |c.ran|;
            Matched(uid, WithMoved(c.(delivered := c.delivered + 1, ran := c.ran + [Ran(k + 1, CallbackOf(c.requests[k]), c.replies[k])]), moved))
  {
    hide Fits, CallbackOf, AppRequest, Roster, NamesOf, Responses, SpokenBy;
    MoreRequests(uid, c, moved.app, moved.sent);
  }

  lemma DeliverResponse(uid: nat, c: Connection)
    requires Matched(uid, c) && c.peer.Member? && c.peer.app.client.Some?
    requires c.delivered < |c.sent| && c.sent[c.delivered].Response?
    ensures Matched(uid, DeliverNext(c))
    ensures |c.ran| < |c.replies| && |c.ran| < |c.requests|
    ensures DeliverNext(c).ran == c.ran + [Ran(|c.ran| + 1, CallbackOf(c.requests[|c.ran|]), c.replies[|c.ran|])]
    ensures DeliverNext(c).peer.app.client.Some?
    ensures DeliverNext(c).peer.app.client.value.running == c.peer.app.client.value.running
  {
    assert |c.replies| == c.served;
    hide RosterAfter, Roster, NamesOf, AfterReply, Fits, CallbackOf, AppRequest, ResponsesInOrder, CallbacksInOrder, SpeaksAfterLogin, Responses;
    var k := |c.ran|;
    NextResponseIsPending(uid, c);
    RosterStep(c);
    var client := c.peer.app.client.value;
    var found := c.peer.app.(client := Some(client.(pending := client.pending - {k + 1})));
    RunFitting(uid, found, c.requests[k], c.replies[k], c.requests, k + 1);
    var moved := AfterReply(found, CallbackOf(c.requests[k]), c.replies[k]);
    assert Heard(c.peer.app, c.sent[c.delivered]) == moved;
    RosterIgnoresId(Roster(c.sent[..c.delivered]), k + 1, k + 1, c.replies[k]);
    RunKeepsMatched(uid, c, moved);
  }

  lemma RosterIgnoresId(names: Names, i: nat, j: nat, reply: Reply)
    ensures RosterAfter(names, Response(i, reply)) == RosterAfter(names, Response(j, reply))
  {
  }

  lemma DeliverKeepsMatched(uid: nat, c: Connection)
    requires Matched(uid, c) && Listening(c)
    ensures Matched(uid, DeliverNext(c))
  {
    if c.peer.Member? {
      if c.sent[c.delivered].Response? {
        DeliverResponse(uid, c);
      } else {
        DeliverOther(uid, c);
      }
    }
  }

  lemma InjectKeepsMatched(uid: nat, c: Connection, m: Message)
    requires Matched(uid, c) && c.peer.Stranger?
    ensures Matched(uid, c.(requests := c.requests + [m]))
  {
  }

  lemma LeavingKeepsMatched(uid: nat, c: Connection)
    requires Matched(uid, c) && c.peer.Member?
    ensures c.peer.app.client.Some? ==> Matched(uid, Lost(c))
    ensures Matched(uid, c.(peer := Member(OFFLINE)))
  {
    hide Fits, CallbackOf, AppRequest, Roster, NamesOf;
  }

  lemma HeardAsks(c: Connection)
    requires c.peer.Member? && c.peer.app.client.Some? && c.delivered < |c.sent|
    ensures DeliverNext(c).requests == c.requests + Heard(c.peer.app, c.sent[c.delivered]).sent
  {
  }

  lemma ReplyAsks(app: App, callback: Callback, reply: Reply)
    requires app.client.Some?
    ensures var sent := AfterReply(app, callback, reply).sent;
            && |sent| <= 1
            && (sent != [] ==> callback == AfterLogin && sent[0].Request? && sent[0].methodName == Given("client_list"))
            && (callback == AfterLogin && reply.LoggedIn? && app.client.value.running ==> sent != [])
  {
  }

  /** What a delivery makes the client ask for: the client list, after the response to a login, or nothing. */
  lemma DeliverRequests(uid: nat, c: Connection)
    requires Matched(uid, c) && c.peer.Member? && c.peer.app.client.Some? && c.delivered < |c.sent|
    ensures var asked := DeliverNext(c).requests;
            asked == c.requests
            || (|asked| == |c.requests| + 1 && asked[..|c.requests|] == c.requests
                && asked[|c.requests|].methodName == Given("client_list")
                && asked[|c.requests|].Request?
                && |c.ran| < |c.requests| && CallbackOf(c.requests[|c.ran|]) == AfterLogin)
    ensures c.sent[c.delivered].Response? && c.peer.app.client.value.running ==>
              |c.ran| < |c.requests|
              && (CallbackOf(c.requests[|c.ran|]) == AfterLogin ==> |DeliverNext(c).requests| == |c.requests| + 1)
  {
    HeardAsks(c);
    var app, m := c.peer.app, c.sent[c.delivered];
    if m.Response? {
      NextResponseIsPending(uid, c);
      var client := app.client.value;
      ReplyAsks(app.(client := Some(client.(pending := client.pending - {m.answered}))), CallbackOf(c.requests[|c.ran|]), m.body);
    }
    hide Matched, AfterReply, DeliverNext, AppRequest, CallbackOf, Responses;
  }
}
