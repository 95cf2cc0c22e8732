/**
 * The app daemon's contract (toolkit/internal/app-daemon.ts): every request
 * refreshes the time of the last request; GET /api/health answers
 * `{ok: true}`; POST /api/RunAppMethod looks a server method up by file and
 * name and answers with a success or an error shape; startup handlers run one
 * after the other and the first failure ends the process with code 1; a
 * one-minute timer ends it with code 0 once a minute has passed without a
 * request. Express, the body parser, the logger and the clock are not part of
 * the model: times are parameters and each request is one atomic step.
 */
module AppDaemon {
  import opened Results
  import opened Json

  /**
   * A server method: the promise it returns for the call's `data` (None is
   * `undefined`), resolved with a result (None is `undefined`) or rejected
   * with the text of what it threw.
   */
  type RpcMethod = Option<Json> -> Result<Option<Json>, string>

  /** `serverRpcMethods`: the methods of each server file, by name. */
  type Methods = map<string, map<string, RpcMethod>>

  /** What a request to the daemon carries once the body parser has run. */
  datatype Request = Request(verb: string, path: string, body: Json)

  /** A JSON answer with its status, or express's own 404 for a route nobody registered. */
  datatype Reply = JsonReply(status: int, body: Json) | NoRoute

  /** Why a call to /api/RunAppMethod failed. */
  datatype CallError =
    | InvalidBody
    | NoFile(serverFile: string)
    | NoMethod(serverFile: string, methodName: string)
    | Threw(text: string)

  /** The validated body of a call: the file, the method name and the (possibly undefined) data. */
  datatype Call = Call(serverFile: string, methodName: string, data: Option<Json>)

  /** The daemon's mutable state. */
  datatype Daemon = Daemon(lastRequest: int, methods: Methods)

  // ---------------------------------------------------------------------
  // Calling a server method

  /** The body schema: an object whose serverFile and methodName are strings; data may be anything or absent. */
  function ParseCall(body: Json): (r: Result<Call, CallError>)
    ensures r.Ok? <==> (body.JObject?
      && "serverFile" in body.fields && body.fields["serverFile"].JString?
      && "methodName" in body.fields && body.fields["methodName"].JString?)
    ensures r.Err? ==> r.error == InvalidBody
    ensures r.Ok? ==> (r.value.serverFile == body.fields["serverFile"].s
      && r.value.methodName == body.fields["methodName"].s
      && r.value.data == Field(body, "data"))
  {
    match (Field(body, "serverFile"), Field(body, "methodName"))
    case (Some(JString(f)), Some(JString(m))) => Ok(Call(f, m, Field(body, "data")))
    case _ => Err(InvalidBody)
  }

  /** The lookup `serverRpcMethods[serverFile][methodName]`: a missing file and a missing method are reported apart. */
  function Lookup(methods: Methods, serverFile: string, methodName: string): (r: Result<RpcMethod, CallError>)
    ensures r.Ok? <==> serverFile in methods && methodName in methods[serverFile]
    ensures r.Ok? ==> r.value == methods[serverFile][methodName]
    ensures serverFile !in methods ==> r == Err(NoFile(serverFile))
    ensures serverFile in methods && methodName !in methods[serverFile] ==> r == Err(NoMethod(serverFile, methodName))
  {
    if serverFile !in methods then Err(NoFile(serverFile))
    else if methodName !in methods[serverFile] then Err(NoMethod(serverFile, methodName))
    else Ok(methods[serverFile][methodName])
  }

  /** The text the error shape carries: the message of the error raised for each failure. */
  function ErrorText(e: CallError): string {
    match e
    case InvalidBody => "ZodError"
    case NoFile(f) => "Error: No methods found for file " + f
    case NoMethod(f, m) => "Error: No method found for " + f + "." + m
    case Threw(text) => text
  }

  /** `res.json({type: 'success', result})`; an undefined result leaves the key out. */
  function SuccessBody(result: Option<Json>): Json {
    match result
    case None => JObject(map["type" := JString("success")])
    case Some(v) => JObject(map["type" := JString("success"), "result" := v])
  }

  function ErrorBody(e: CallError): Json {
    JObject(map["type" := JString("error"), "error" := JString(ErrorText(e))])
  }

  /** The outcome of one call: validation, lookup, then the method itself. */
  function Invoke(methods: Methods, body: Json): (r: Result<Option<Json>, CallError>)
    ensures ParseCall(body).Err? ==> r == Err(InvalidBody)
    ensures ParseCall(body).Ok? ==> var c := ParseCall(body).value;
      r.Ok? ==> Lookup(methods, c.serverFile, c.methodName).Ok?
  {
    var c :- ParseCall(body);
    var m :- Lookup(methods, c.serverFile, c.methodName);
    match m(c.data)
    case Ok(v) => Ok(v)
    case Err(text) => Err(Threw(text))
  }

  /** The /api/RunAppMethod handler: 200 with the success shape, or 500 with the error shape. */
  function RunAppMethod(methods: Methods, body: Json): (r: Reply)
    ensures r.JsonReply? && (r.status == 200 || r.status == 500)
    ensures r.status == 200 <==> Invoke(methods, body).Ok?
    ensures r.status == 200 ==> r.body == SuccessBody(Invoke(methods, body).value)
    ensures r.status == 500 ==> r.body == ErrorBody(Invoke(methods, body).error)
  {
    match Invoke(methods, body)
    case Ok(v) => JsonReply(200, SuccessBody(v))
    case Err(e) => JsonReply(500, ErrorBody(e))
  }

  /** A call that names an existing method answers with exactly what that method resolves to. */
  lemma CallReachesMethod(methods: Methods, f: string, m: string, data: Json)
    requires f in methods && m in methods[f]
    ensures var body := JObject(map["serverFile" := JString(f), "methodName" := JString(m), "data" := data]);
      var out := methods[f][m](Some(data));
      && (out.Ok? ==> RunAppMethod(methods, body) == JsonReply(200, SuccessBody(out.value)))
      && (out.Err? ==> RunAppMethod(methods, body) == JsonReply(500, ErrorBody(Threw(out.error))))
  {
    var body := JObject(map["serverFile" := JString(f), "methodName" := JString(m), "data" := data]);
    assert ParseCall(body) == Ok(Call(f, m, Some(data)));
  }

  /** A call naming a file or method that is not registered answers 500 with the error shape naming it. */
  lemma MissingMethodIsError(methods: Methods, body: Json)
    requires ParseCall(body).Ok?
    requires var c := ParseCall(body).value; c.serverFile !in methods || c.methodName !in methods[c.serverFile]
    ensures var c := ParseCall(body).value;
      && (c.serverFile !in methods ==>
            RunAppMethod(methods, body) == JsonReply(500, ErrorBody(NoFile(c.serverFile))))
      && (c.serverFile in methods ==>
            RunAppMethod(methods, body) == JsonReply(500, ErrorBody(NoMethod(c.serverFile, c.methodName))))
  {
  }

  // ---------------------------------------------------------------------
  // Requests

  /** The health route's answer. */
  const HealthBody := JObject(map["ok" := JBool(true)])

  /**
   * One request at time `now`: the first middleware records `now` before any
   * route is chosen, so every request, even one no route matches, refreshes
   * the time of the last request; the registered methods never change.
   */
  function Handle(d: Daemon, now: int, req: Request): (r: (Daemon, Reply))
    ensures r.0 == d.(lastRequest := now)
    ensures req.verb == "GET" && req.path == "/api/health" ==> r.1 == JsonReply(200, HealthBody)
    ensures req.verb == "POST" && req.path == "/api/RunAppMethod" ==> r.1 == RunAppMethod(d.methods, req.body)
    ensures r.1.NoRoute? <==> !(req.verb == "GET" && req.path == "/api/health") && !(req.verb == "POST" && req.path == "/api/RunAppMethod")
  {
    var d' := d.(lastRequest := now);
    if req.verb == "GET" && req.path == "/api/health" then (d', JsonReply(200, HealthBody))
    else if req.verb == "POST" && req.path == "/api/RunAppMethod" then (d', RunAppMethod(d.methods, req.body))
    else (d', NoRoute)
  }

  /** A failed call never ends the process: the daemon answers and keeps its methods. */
  lemma FailedCallKeepsServing(d: Daemon, now: int, body: Json)
    requires Invoke(d.methods, body).Err?
    ensures var r := Handle(d, now, Request("POST", "/api/RunAppMethod", body));
      r.1.JsonReply? && r.1.status == 500 && r.0.methods == d.methods
  {
  }

  // ---------------------------------------------------------------------
  // Startup

  /** A startup handler's outcome: None when it resolves, Some(text) when it throws. */
  type Handler = Option<string>

  datatype Startup =
    | Listening
    | Exited(code: int, message: string, cause: string)

  const StartupCrash := "Robin app daemon crashed during startup handlers"

  /** The position of the first handler that throws, if any: the reference for RunStartup. */
  function FirstThrow(handlers: seq<Handler>): (r: Option<nat>)
    ensures r.None? <==> forall i :: 0 <= i < |handlers| ==> handlers[i].None?
    ensures r.Some? ==> r.value < |handlers| && handlers[r.value].Some?
    ensures r.Some? ==> forall i :: 0 <= i < r.value ==> handlers[i].None?
  {
    if handlers == [] then None
    else if handlers[0].Some? then Some(0)
    else match FirstThrow(handlers[1..])
      case None => None
      case Some(i) => Some(i + 1)
  }

  /**
   * main: the handlers run in registration order, each awaited before the
   * next; the first to throw stops the rest and the process exits with code 1
   * before listening. `ran` counts the handlers that were started.
   */
  method RunStartup(handlers: seq<Handler>) returns (ran: nat, outcome: Startup)
    ensures outcome.Listening? <==> FirstThrow(handlers).None?
    ensures outcome.Listening? ==> ran == |handlers|
    ensures outcome.Exited? ==>
      && ran == FirstThrow(handlers).value + 1
      && outcome == Exited(1, StartupCrash, handlers[ran - 1].value)
  {
    ran := 0;
    while ran < |handlers|
      invariant 0 <= ran <= |handlers|
      invariant forall i :: 0 <= i < ran ==> handlers[i].None?
    {
      var h := handlers[ran];
      ran := ran + 1;
      if h.Some? {
        FirstThrowAt(handlers, ran - 1);
        outcome := Exited(1, StartupCrash, h.value);
        return;
      }
    }
    outcome := Listening;
  }

  /** A throwing handler after only resolving ones is the first to throw. */
  lemma {:induction false} FirstThrowAt(handlers: seq<Handler>, k: nat)
    requires k < |handlers| && handlers[k].Some?
    requires forall i :: 0 <= i < k ==> handlers[i].None?
    ensures FirstThrow(handlers) == Some(k)
    decreases k
  {
    if k > 0 {
      var tail := handlers[1..];
      assert forall i :: 0 <= i < k - 1 ==> tail[i] == handlers[i + 1];
      FirstThrowAt(tail, k - 1);
    }
  }

  /** Appending handlers after a throwing one changes nothing: they never run. */
  lemma {:induction false} LaterHandlersIgnored(handlers: seq<Handler>, more: seq<Handler>)
    requires FirstThrow(handlers).Some?
    ensures FirstThrow(handlers + more) == FirstThrow(handlers)
    decreases |handlers|
  {
    if handlers[0].None? {
      assert (handlers + more)[1..] == handlers[1..] + more;
      LaterHandlersIgnored(handlers[1..], more);
    }
  }

  // ---------------------------------------------------------------------
  // Idle exit

  /** Both the timer's period and the idle limit are one minute (the log line says five). */
  const Minute := 1 * 60 * 1000

  /** One tick of the idle timer: exit with code 0 when more than a minute has passed since the last request. */
  function IdleCheck(now: int, lastRequest: int): (r: Option<int>)
    ensures r.Some? ==> r.value == 0
    ensures r.Some? <==> now - lastRequest > 60000
  {
    if now - lastRequest > Minute then Some(0) else None
  }

  /** Within a minute of any request the timer never exits. */
  lemma RequestDefersExit(d: Daemon, t: int, req: Request, now: int)
    requires now <= t + 60000
    ensures IdleCheck(now, Handle(d, t, req).0.lastRequest).None?
  {
  }

  /**
   * With the timer started at `start` (ticks at start + k minutes, k >= 1) and
   * no request after `last`, the tick that ends the process.
   */
  function ExitTick(start: int, last: int): (k: nat)
    ensures k >= 1
    ensures IdleCheck(start + k * Minute, last).Some?
    ensures forall j :: 1 <= j < k ==> IdleCheck(start + j * Minute, last).None?
  {
    var d := last - start;
    if d < 0 then 1
    else
      var k := d / Minute + 2;
      assert (d / Minute) * Minute <= d < (d / Minute) * Minute + Minute;
      k
  }

  /** The process ends at most two minutes after the later of the last request and the timer's start. */
  lemma ExitWithinTwoMinutes(start: int, last: int)
    ensures start + ExitTick(start, last) * Minute <= (if last > start then last else start) + 2 * 60000
    ensures start + ExitTick(start, last) * Minute > last + 60000
  {
    var d := last - start;
    if d >= 0 {
      assert (d / Minute) * Minute <= d;
    }
  }
}
