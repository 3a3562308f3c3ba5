/** The request router of src/net/server/Router.cpp with its default fallback handler. */
module ChatRouter {
  import opened ChatMessages

  const INVALID_REQUEST := -32600
  const METHOD_NOT_FOUND := -32601
  const HANDLER_JSON_ERROR := -32001
  const HANDLER_ERROR := -32000

  /** How a handler ends: with a result, with a json::exception, or with another exception. */
  datatype Attempt = Done(result: Reply) | JsonFailure | OtherFailure

  /** What the router does with a message. */
  datatype Decision<H> =
    | Throw  // the id or the method cannot be read; the exception leaves the router
    | Refuse(response: Message)
    | Run(id: nat, handler: H, params: Params)

  function Decide<H>(handlers: map<string, H>, request: Message): Decision<H> {
    if request.RequestId().Mistyped? then Throw else
    var id := request.RequestId().Or(0);
    if !request.Request? then Refuse(Response(id, Error(INVALID_REQUEST, "Invalid Request: Not a request")))
    else if request.methodName.Mistyped? then Throw
    else
      var name := request.methodName.Or("");
      if name == "" then Refuse(Response(id, Error(INVALID_REQUEST, "Invalid Request: No method")))
      else if name !in handlers then Refuse(Response(id, Error(METHOD_NOT_FOUND, "Method not found: " + name)))
      else Run(id, handlers[name], request.params)
  }

  function Answer(id: nat, attempt: Attempt): Message {
    match attempt
    case Done(result) => Response(id, result)
    case JsonFailure => Response(id, Error(HANDLER_JSON_ERROR, "Handler JSON error: "))
    case OtherFailure => Response(id, Error(HANDLER_ERROR, "Server error: "))
  }

  /** Every branch answers with the id of the request; only an unreadable id or method escapes. */
  lemma EveryBranchKeepsTheId<H>(handlers: map<string, H>, request: Message, attempt: Attempt)
    ensures Decide(handlers, request).Throw? <==>
              request.RequestId().Mistyped? || (request.Request? && request.methodName.Mistyped?)
    ensures var d := Decide(handlers, request);
            !d.Throw? ==>
              var response := if d.Refuse? then d.response else Answer(d.id, attempt);
              response.Response? && response.answered == request.RequestId().Or(0)
  {
  }

  /** A handler runs exactly for a request whose method it is registered under, on the request's own parameters. */
  lemma HandlersRunOnlyForTheirMethod<H>(handlers: map<string, H>, request: Message, handler: H)
    ensures var d := Decide(handlers, request);
            (d.Run? && d.handler == handler) <==>
              request.Request? && !request.id.Mistyped? && request.methodName.Given? && request.methodName.value != ""
              && request.methodName.value in handlers && handlers[request.methodName.value] == handler
    ensures var d := Decide(handlers, request); d.Run? ==> d.params == request.params && d.id == request.id.Or(0)
  {
  }

  /** Which error a message is refused with: -32600 if it is no request or names no method, -32601 if its method is not
   registered. */
  lemma RefusalCodes<H>(handlers: map<string, H>, request: Message)
    ensures var d := Decide(handlers, request);
            && (d.Refuse? ==> d.response.Response? && d.response.body.Error?)
            && (d.Refuse? && d.response.body.code == -32600 <==>
                  !d.Throw? && (!request.Request? || request.methodName == Absent || request.methodName == Given("")))
            && (d.Refuse? && d.response.body.code == -32601 <==>
                  !d.Throw? && request.Request? && request.methodName.Given? && request.methodName.value != ""
                  && request.methodName.value !in handlers)
  {
  }

  /** Which error a handler that throws is answered with. */
  lemma HandlerCodes(id: nat, attempt: Attempt)
    requires !attempt.Done?
    ensures Answer(id, attempt).Response? && Answer(id, attempt).body.Error?
    ensures Answer(id, attempt).body.code == -32001 <==> attempt == JsonFailure
    ensures Answer(id, attempt).body.code == -32000 <==> attempt == OtherFailure
  {
  }

  /** The table of handlers; H names a handler. */
  class Router<H> {
    var handlers: map<string, H>

    constructor ()
      ensures handlers == map[]
    {
      handlers := map[];
    }

    method Add(name: string, handler: H)
      modifies this
      ensures handlers == old(handlers)[name := handler]
    {
      handlers := handlers[name := handler];
    }

    /** The part of handle before the handler is called. */
    method Dispatch(request: Message) returns (decision: Decision<H>)
      ensures decision == Decide(handlers, request)
    {
      if request.RequestId().Mistyped? { return Throw; }
      var id := request.RequestId().Or(0);
      if !request.Request? {
        return Refuse(Response(id, Error(INVALID_REQUEST, "Invalid Request: Not a request")));
      }
      if request.methodName.Mistyped? { return Throw; }
      var name := request.methodName.Or("");
      if name == "" {
        return Refuse(Response(id, Error(INVALID_REQUEST, "Invalid Request: No method")));
      }
      if name !in handlers {
        return Refuse(Response(id, Error(METHOD_NOT_FOUND, "Method not found: " + name)));
      }
      return Run(id, handlers[name], request.params);
    }
  }
}
