/**
 * The server side of streaming RPC: the per-connection `MessageLoop` that keeps
 * the `inFlightRequests` map, the frames a method run emits, and `Register`.
 *
 * The socket, the writer goroutine and the method goroutines are not modelled:
 * each inbound message is one atomic step that appends to the connection's
 * output, and a started method is recorded in `started` instead of running.
 */
module ServerStream {
  import opened Results
  import opened Json

  /** A decoded `socketMessageIn`; `Unparseable` when `json.Unmarshal` fails. */
  datatype Inbound =
    | Unparseable
    | Message(id: string, kind: string, methodName: string, data: Json)

  /** A `socketMessageOut`; empty strings and `None` are the omitted fields. */
  datatype OutFrame = OutFrame(id: string, kind: string, methodName: string, err: string, data: Option<Json>)

  /** A `streamRequest`: the method and id it was created with, and its raw input. */
  datatype Request = Request(methodName: string, id: string, input: Json)

  datatype Conn = Conn(
    inFlight: map<string, Request>,
    out: seq<OutFrame>,
    started: seq<Request>,
    cancelled: seq<Request>)

  const ParseErrorFrame := OutFrame("", "error", "", "failed to parse JSON", None)

  const InitialConn := Conn(map[], [], [], [])

  /** `SendRaw`: a frame stamped with the request's method and id. */
  function SendRaw(req: Request, kind: string, data: Option<Json>): (f: OutFrame)
    ensures f.id == req.id && f.methodName == req.methodName && f.kind == kind && f.err == ""
  {
    OutFrame(req.id, kind, req.methodName, "", data)
  }

  function ErrorFrame(req: Request, text: string): OutFrame {
    SendRaw(req, "error", Some(JString(text)))
  }

  /** Every key is non-empty, names a request with that id, and a registered method. */
  predicate Valid(c: Conn, handlers: set<string>) {
    forall k :: k in c.inFlight ==> k != "" && c.inFlight[k].id == k && c.inFlight[k].methodName in handlers
  }

  /** One iteration of `MessageLoop` for the registered method names `handlers`. */
  function Step(c: Conn, handlers: set<string>, msg: Inbound): (r: Conn)
    requires Valid(c, handlers)
    ensures Valid(r, handlers)
    ensures |r.out| <= |c.out| + 1
  {
    match msg
    case Unparseable => c.(out := c.out + [ParseErrorFrame])
    case Message(id, kind, methodName, data) =>
      var found := id in c.inFlight;
      var req := if found then c.inFlight[id] else Request(methodName, id, data);
      if kind == "call" then
        if req.methodName !in handlers then c.(out := c.out + [ErrorFrame(req, "invalid value for 'method'")])
        else if req.id == "" then c.(out := c.out + [ErrorFrame(req, "'id' field was empty")])
        else if found then c.(out := c.out + [ErrorFrame(req, "'id' field used previous ID value")])
        else c.(inFlight := c.inFlight[req.id := req], started := c.started + [req])
      else if kind == "cancel" then
        if !found then c.(out := c.out + [ErrorFrame(req, "'id' not found")])
        else c.(inFlight := c.inFlight - {req.id}, cancelled := c.cancelled + [req])
      else c.(out := c.out + [ErrorFrame(req, "invalid value for 'kind'")])
  }

  /** The messages of a connection handled in order. */
  function Run(c: Conn, handlers: set<string>, msgs: seq<Inbound>): (r: Conn)
    requires Valid(c, handlers)
    ensures Valid(r, handlers)
    decreases |msgs|
  {
    if msgs == [] then c else Run(Step(c, handlers, msgs[0]), handlers, msgs[1..])
  }

  // ---------------------------------------------------------------------
  // Frame handling rules

  /** A frame that fails to parse yields one unstamped error frame and nothing else. */
  lemma ParseFailure(c: Conn, handlers: set<string>)
    requires Valid(c, handlers)
    ensures Step(c, handlers, Unparseable) == c.(out := c.out + [ParseErrorFrame])
  {
  }

  /** Which error, if any, a message produces; `None` means it is accepted. */
  function Rejection(c: Conn, handlers: set<string>, id: string, kind: string, methodName: string): (r: Option<string>)
    ensures kind != "call" && kind != "cancel" ==> r == Some("invalid value for 'kind'")
    ensures kind == "cancel" ==> (r.None? <==> id in c.inFlight)
    ensures kind == "call" && id !in c.inFlight ==>
      (r.None? <==> methodName in handlers && id != "")
    ensures kind == "call" && id in c.inFlight && Valid(c, handlers) ==>
      r == Some("'id' field used previous ID value")
  {
    var found := id in c.inFlight;
    var m := if found then c.inFlight[id].methodName else methodName;
    var i := if found then c.inFlight[id].id else id;
    if kind == "call" then
      if m !in handlers then Some("invalid value for 'method'")
      else if i == "" then Some("'id' field was empty")
      else if found then Some("'id' field used previous ID value")
      else None
    else if kind == "cancel" then
      if !found then Some("'id' not found") else None
    else Some("invalid value for 'kind'")
  }

  /**
   * A rejected message appends exactly one error frame, stamped with the
   * in-flight request's method and id when the id is known (else the message's),
   * and leaves the map and the run log untouched.
   */
  lemma RejectedMessage(c: Conn, handlers: set<string>, id: string, kind: string, methodName: string, data: Json)
    requires Valid(c, handlers)
    requires Rejection(c, handlers, id, kind, methodName).Some?
    ensures var req := if id in c.inFlight then c.inFlight[id] else Request(methodName, id, data);
      var r := Step(c, handlers, Message(id, kind, methodName, data));
      && r.inFlight == c.inFlight && r.started == c.started && r.cancelled == c.cancelled
      && r.out == c.out + [ErrorFrame(req, Rejection(c, handlers, id, kind, methodName).value)]
  {
  }

  /** An accepted call adds exactly one entry keyed by its id and starts the method once. */
  lemma AcceptedCall(c: Conn, handlers: set<string>, id: string, methodName: string, data: Json)
    requires Valid(c, handlers)
    requires Rejection(c, handlers, id, "call", methodName).None?
    ensures var r := Step(c, handlers, Message(id, "call", methodName, data));
      && id !in c.inFlight
      && r.inFlight == c.inFlight[id := Request(methodName, id, data)]
      && r.started == c.started + [Request(methodName, id, data)]
      && r.out == c.out && r.cancelled == c.cancelled
  {
  }

  /** An accepted cancel cancels the in-flight request and removes only its entry. */
  lemma AcceptedCancel(c: Conn, handlers: set<string>, id: string, methodName: string, data: Json)
    requires Valid(c, handlers)
    requires id in c.inFlight
    ensures var r := Step(c, handlers, Message(id, "cancel", methodName, data));
      && r.inFlight == c.inFlight - {id}
      && r.cancelled == c.cancelled + [c.inFlight[id]]
      && r.out == c.out && r.started == c.started
  {
  }

  /** Whether the list holds a cancel message for `id`. */
  predicate CancelsId(msgs: seq<Inbound>, id: string) {
    exists i :: 0 <= i < |msgs| && msgs[i].Message? && msgs[i].kind == "cancel" && msgs[i].id == id
  }

  /**
   * Entries leave the map only through cancel: an id in flight stays in flight,
   * with the same request, across any messages that do not cancel it, so it can
   * never be reused on that connection.
   */
  lemma {:induction false} OnlyCancelRemoves(c: Conn, handlers: set<string>, msgs: seq<Inbound>, id: string)
    requires Valid(c, handlers) && id in c.inFlight
    requires !CancelsId(msgs, id)
    ensures var r := Run(c, handlers, msgs);
      id in r.inFlight && r.inFlight[id] == c.inFlight[id]
    decreases |msgs|
  {
    if msgs != [] {
      assert forall i :: 0 <= i < |msgs[1..]| ==> msgs[1..][i] == msgs[i + 1];
      OnlyCancelRemoves(Step(c, handlers, msgs[0]), handlers, msgs[1..], id);
    }
  }

  /** The finished method's id is still reserved: a second call with it is rejected. */
  lemma IdNotReusable(c: Conn, handlers: set<string>, id: string, methodName: string, data: Json, msgs: seq<Inbound>, methodName2: string, data2: Json)
    requires Valid(c, handlers)
    requires Rejection(c, handlers, id, "call", methodName).None?
    requires !CancelsId(msgs, id)
    ensures var c1 := Step(c, handlers, Message(id, "call", methodName, data));
      var r := Run(c1, handlers, msgs);
      Rejection(r, handlers, id, "call", methodName2) == Some("'id' field used previous ID value")
  {
    var c1 := Step(c, handlers, Message(id, "call", methodName, data));
    OnlyCancelRemoves(c1, handlers, msgs, id);
  }

  // ---------------------------------------------------------------------
  // Method runs

  /**
   * `runMethod`: the frames one run sends, given the outputs the method sends
   * with `Send` and the error it returns.
   */
  function RunFrames(req: Request, outputs: seq<Json>, err: Option<string>): (fs: seq<OutFrame>)
    ensures |fs| == |outputs| + 2
    ensures fs[0].kind == "methodStarted"
    ensures forall i :: 0 <= i < |fs| ==> fs[i].id == req.id && fs[i].methodName == req.methodName
    ensures forall i :: 1 <= i < |fs| - 1 ==> fs[i].kind == "methodOutput" && fs[i].data == Some(outputs[i - 1])
    ensures fs[|fs| - 1].kind == (if err.Some? then "error" else "methodDone")
    ensures err.Some? ==> fs[|fs| - 1].data == Some(JString(err.value))
  {
    var outs := seq(|outputs|, i requires 0 <= i < |outputs| => SendRaw(req, "methodOutput", Some(outputs[i])));
    [SendRaw(req, "methodStarted", None)] + outs
      + [if err.Some? then SendRaw(req, "error", Some(JString(err.value))) else SendRaw(req, "methodDone", None)]
  }

  /** Each run ends with exactly one terminal frame: `error` or `methodDone`, never both. */
  lemma ExactlyOneTerminal(req: Request, outputs: seq<Json>, err: Option<string>)
    ensures var fs := RunFrames(req, outputs, err);
      forall i :: 0 <= i < |fs| ==> (fs[i].kind == "error" || fs[i].kind == "methodDone" <==> i == |fs| - 1)
  {
  }

  // ---------------------------------------------------------------------
  // Registration

  /** `Register`: a second stream under a registered name is rejected, the table unchanged. */
  function Register<H>(handlers: map<string, H>, name: string, h: H): (r: Result<map<string, H>, string>)
    ensures name in handlers <==> r.Err?
    ensures r.Err? ==> r.error == "multiple streams registered to the same name"
    ensures r.Ok? ==> r.value.Keys == handlers.Keys + {name} && r.value[name] == h
    ensures r.Ok? ==> forall k :: k in handlers ==> r.value[k] == handlers[k]
  {
    if name in handlers then Err("multiple streams registered to the same name")
    else Ok(handlers[name := h])
  }

  /** A name registered once cannot be registered again, whatever the second handler. */
  lemma RegisterTwiceFails<H>(handlers: map<string, H>, name: string, h1: H, h2: H)
    requires name !in handlers
    ensures Register(handlers, name, h1).Ok?
    ensures Register(Register(handlers, name, h1).value, name, h2).Err?
  {
  }
}
