/**
 * The browser side of streaming RPC: `Stream` handles, the module-level
 * `inFlight` registry keyed by correlation id, inbound frame dispatch and the
 * `'WebsocketClosed'` fan-out when the current socket closes.
 *
 * Objects are modelled in an arena: a stream reference is an index into
 * `streams`. User callbacks are opaque values that may throw; every callback
 * invocation and every frame sent is appended to an effect log.
 */
module ClientStream {
  import opened Results
  import opened Json

  datatype CloseCause = CalledCloseMethod | WebsocketClosed | MethodDone
  datatype ErrorSource = HandlerException | MethodError

  /** A user-supplied function; `throws` says whether calling it raises. */
  datatype Callback = Callback(tag: nat, throws: bool)

  const NoopClose := Callback(0, false)
  const DefaultMessage := Callback(1, false)
  const DefaultError := Callback(2, false)

  /** The wrapper installed by the `onclose` setter: it closes `owner`, then calls `user`. */
  datatype CloseHandler = CloseHandler(owner: nat, user: Callback)

  datatype Stream = Stream(
    methodName: string,
    id: string,
    started: bool,
    closed: bool,
    onmessage: Callback,
    onerror: Callback,
    closeHandler: CloseHandler)

  /** An inbound frame after `JSON.parse`; a missing `kind` behaves like any unknown kind. */
  datatype Frame = Frame(kind: string, id: string, data: Json)
  datatype Inbound = Unparseable | Parsed(frame: Frame)

  datatype OutFrame =
    | CallFrame(methodName: string, id: string, data: Json)
    | CancelFrame(methodName: string, id: string)

  datatype Exc = AlreadyStarted | NotStarted | JsonParseError | Raised(cb: Callback)

  datatype Payload = DataPayload(data: Json) | ExcPayload(exc: Exc)

  datatype Effect =
    | Sent(out: OutFrame)
    | CalledMessage(cb: Callback, frame: Frame)
    | CalledError(cb: Callback, payload: Payload, source: ErrorSource)
    | CalledClose(cb: Callback, cause: CloseCause)

  datatype Outcome = Done | Threw(exc: Exc)

  datatype Registry = Registry(
    streams: seq<Stream>,
    inFlight: OrderedMap,
    effects: seq<Effect>,
    socket: nat)

  // ---------------------------------------------------------------------
  // The insertion-ordered map (a JS `Map` from correlation id to stream reference)

  datatype OrderedMap = OrderedMap(order: seq<string>, vals: map<string, nat>)

  const EmptyMap := OrderedMap([], map[])

  /** Keys listed once each, in insertion order, and exactly the keys that have values. */
  predicate WellFormed(m: OrderedMap) {
    && NoDups(m.order)
    && (forall k :: k in m.vals ==> k in m.order)
    && (forall i :: 0 <= i < |m.order| ==> m.order[i] in m.vals)
  }

  predicate NoDups(ks: seq<string>) {
    forall i, j :: 0 <= i < j < |ks| ==> ks[i] != ks[j]
  }

  lemma NoDupsCons(x: string, ks: seq<string>)
    ensures NoDups([x] + ks) <==> x !in ks && NoDups(ks)
  {
    var xs := [x] + ks;
    assert forall i :: 0 < i < |xs| ==> xs[i] == ks[i - 1];
    if x !in ks && NoDups(ks) {
      forall i, j | 0 <= i < j < |xs| ensures xs[i] != xs[j] {
        if i == 0 { assert xs[j] in ks; }
      }
    }
    if NoDups(xs) {
      forall i, j | 0 <= i < j < |ks| ensures ks[i] != ks[j] {
        assert xs[i + 1] != xs[j + 1];
      }
      forall j | 0 <= j < |ks| ensures ks[j] != x {
        assert xs[0] != xs[j + 1];
      }
    }
  }

  /** The sequence with every occurrence of `k` removed, order kept. */
  function Remove(ks: seq<string>, k: string): (r: seq<string>)
    ensures forall x :: x in r <==> x in ks && x != k
    ensures NoDups(ks) ==> NoDups(r)
  {
    if ks == [] then []
    else
      var rest := Remove(ks[1..], k);
      assert ks == [ks[0]] + ks[1..];
      NoDupsCons(ks[0], ks[1..]);
      assert forall x :: x in ks <==> x == ks[0] || x in ks[1..];
      if ks[0] == k then rest
      else
        NoDupsCons(ks[0], rest);
        [ks[0]] + rest
  }

  /** `Map.set`: an existing key keeps its position, a new key goes last. */
  function MapSet(m: OrderedMap, k: string, v: nat): (r: OrderedMap)
    requires WellFormed(m)
    ensures WellFormed(r)
    ensures r.vals == m.vals[k := v]
    ensures k in m.vals ==> r.order == m.order
    ensures k !in m.vals ==> r.order == m.order + [k]
  {
    assert k !in m.vals ==> NoDups(m.order + [k]) by {
      if k !in m.vals {
        var o := m.order + [k];
        forall i, j | 0 <= i < j < |o| ensures o[i] != o[j] {
          if j == |m.order| { assert o[i] in m.order; }
        }
      }
    }
    if k in m.vals then OrderedMap(m.order, m.vals[k := v])
    else OrderedMap(m.order + [k], m.vals[k := v])
  }

  /** `Map.delete`: drops `k` and keeps the order of the rest. */
  function MapDelete(m: OrderedMap, k: string): (r: OrderedMap)
    requires WellFormed(m)
    ensures WellFormed(r)
    ensures r.vals == m.vals - {k}
    ensures forall x :: x in r.order <==> x in m.order && x != k
  {
    var r := OrderedMap(Remove(m.order, k), m.vals - {k});
    assert forall i :: 0 <= i < |r.order| ==> r.order[i] in r.order;
    r
  }

  /** `[...inFlight.values()]`, in insertion order. */
  function Values(m: OrderedMap): (r: seq<nat>)
    requires WellFormed(m)
    ensures |r| == |m.order|
    ensures forall i :: 0 <= i < |r| ==> r[i] == m.vals[m.order[i]]
  {
    seq(|m.order|, i requires 0 <= i < |m.order| => m.vals[m.order[i]])
  }

  // ---------------------------------------------------------------------
  // Registry invariant

  /**
   * Every in-flight entry names a started stream whose id is its key, and every
   * close wrapper is bound to an existing stream.
   */
  predicate Valid(reg: Registry) {
    && WellFormed(reg.inFlight)
    && (forall k :: k in reg.inFlight.vals ==>
          && reg.inFlight.vals[k] < |reg.streams|
          && reg.streams[reg.inFlight.vals[k]].id == k
          && reg.streams[reg.inFlight.vals[k]].started)
    && (forall j :: 0 <= j < |reg.streams| ==> reg.streams[j].closeHandler.owner < |reg.streams|)
  }

  /** Every stream's close wrapper is bound to the stream itself (no clones). */
  predicate SelfOwned(reg: Registry) {
    forall j :: 0 <= j < |reg.streams| ==> reg.streams[j].closeHandler.owner == j
  }

  // ---------------------------------------------------------------------
  // Stream operations

  /** `new Stream(method)`: an unstarted stream whose close wrapper closes itself. */
  function NewStream(reg: Registry, methodName: string, random: string): (r: (Registry, nat))
    requires Valid(reg)
    ensures Valid(r.0)
    ensures r.1 == |reg.streams| && |r.0.streams| == r.1 + 1 && r.0.streams[..r.1] == reg.streams
    ensures var s := r.0.streams[r.1];
      && s.methodName == methodName && s.id == methodName + "-" + random
      && !s.started && !s.closed
      && s.closeHandler == CloseHandler(r.1, NoopClose)
    ensures r.0.inFlight == reg.inFlight && r.0.effects == reg.effects && r.0.socket == reg.socket
  {
    var n := |reg.streams|;
    var s := Stream(methodName, methodName + "-" + random, false, false, DefaultMessage, DefaultError, CloseHandler(n, NoopClose));
    assert (reg.streams + [s])[..n] == reg.streams;
    (reg.(streams := reg.streams + [s]), n)
  }

  /** The `onclose` setter: installs a wrapper around `f` bound to this stream. */
  function SetOnClose(reg: Registry, idx: nat, f: Callback): (r: Registry)
    requires Valid(reg) && idx < |reg.streams|
    ensures Valid(r)
    ensures |r.streams| == |reg.streams| && r.streams[idx].closeHandler == CloseHandler(idx, f)
    ensures forall j :: 0 <= j < |r.streams| && j != idx ==> r.streams[j] == reg.streams[j]
    ensures r.inFlight == reg.inFlight && r.effects == reg.effects
  {
    reg.(streams := reg.streams[idx := reg.streams[idx].(closeHandler := CloseHandler(idx, f))])
  }

  /**
   * Calling a close wrapper: the OWNER is marked closed and its id is removed
   * from `inFlight` before the user callback runs; the callback may throw.
   */
  function InvokeClose(reg: Registry, h: CloseHandler, cause: CloseCause): (r: (Registry, Outcome))
    requires Valid(reg) && h.owner < |reg.streams|
    ensures Valid(r.0)
    ensures r.0.streams == reg.streams[h.owner := reg.streams[h.owner].(closed := true)]
    ensures r.0.inFlight.vals == reg.inFlight.vals - {reg.streams[h.owner].id}
    ensures r.0.effects == reg.effects + [CalledClose(h.user, cause)]
    ensures r.1 == (if h.user.throws then Threw(Raised(h.user)) else Done)
    ensures r.0.socket == reg.socket
  {
    var owner := reg.streams[h.owner];
    var r := Registry(
      reg.streams[h.owner := owner.(closed := true)],
      MapDelete(reg.inFlight, owner.id),
      reg.effects + [CalledClose(h.user, cause)],
      reg.socket);
    (r, if h.user.throws then Threw(Raised(h.user)) else Done)
  }

  /** `start(data)`: throws if already started; otherwise registers and sends the call frame. */
  function Start(reg: Registry, idx: nat, data: Json): (r: (Registry, Outcome))
    requires Valid(reg) && idx < |reg.streams|
    ensures Valid(r.0)
    ensures reg.streams[idx].started ==> r == (reg, Threw(AlreadyStarted))
    ensures !reg.streams[idx].started ==>
      var s := reg.streams[idx];
      && r.1 == Done
      && r.0.streams == reg.streams[idx := s.(started := true)]
      && r.0.inFlight.vals == reg.inFlight.vals[s.id := idx]
      && r.0.effects == reg.effects + [Sent(CallFrame(s.methodName, s.id, data))]
    ensures r.0.socket == reg.socket
  {
    var s := reg.streams[idx];
    if s.started then (reg, Threw(AlreadyStarted))
    else
      var r := Registry(
        reg.streams[idx := s.(started := true)],
        MapSet(reg.inFlight, s.id, idx),
        reg.effects + [Sent(CallFrame(s.methodName, s.id, data))],
        reg.socket);
      (r, Done)
  }

  /**
   * `close()`: throws if never started, does nothing if already closed, otherwise
   * calls the close wrapper with 'CalledCloseMethod' and then sends the cancel
   * frame; a throwing user callback rejects before the cancel is sent.
   */
  function Close(reg: Registry, idx: nat): (r: (Registry, Outcome))
    requires Valid(reg) && idx < |reg.streams|
    ensures Valid(r.0)
    ensures !reg.streams[idx].started ==> r == (reg, Threw(NotStarted))
    ensures reg.streams[idx].started && reg.streams[idx].closed ==> r == (reg, Done)
    ensures reg.streams[idx].started && !reg.streams[idx].closed ==>
      var s := reg.streams[idx];
      var mid := InvokeClose(reg, s.closeHandler, CalledCloseMethod);
      && r.1 == mid.1
      && r.0.streams == mid.0.streams && r.0.inFlight == mid.0.inFlight
      && r.0.effects == mid.0.effects + (if mid.1.Done? then [Sent(CancelFrame(s.methodName, s.id))] else [])
    ensures r.0.socket == reg.socket
  {
    var s := reg.streams[idx];
    if !s.started then (reg, Threw(NotStarted))
    else if s.closed then (reg, Done)
    else
      var mid := InvokeClose(reg, s.closeHandler, CalledCloseMethod);
      if mid.1.Threw? then mid
      else (mid.0.(effects := mid.0.effects + [Sent(CancelFrame(s.methodName, s.id))]), Done)
  }

  /**
   * `newStreamWithSameHandlers()`: a fresh unstarted stream with the same method
   * and message/error callbacks, sharing the ORIGINAL's close wrapper.
   */
  function CloneWithSameHandlers(reg: Registry, idx: nat, random: string): (r: (Registry, nat))
    requires Valid(reg) && idx < |reg.streams|
    ensures Valid(r.0)
    ensures r.1 == |reg.streams| && |r.0.streams| == r.1 + 1 && r.0.streams[..r.1] == reg.streams
    ensures var s := reg.streams[idx]; var c := r.0.streams[r.1];
      && c.methodName == s.methodName && c.id == s.methodName + "-" + random
      && !c.started && !c.closed
      && c.onmessage == s.onmessage && c.onerror == s.onerror
      && c.closeHandler == s.closeHandler
    ensures r.0.inFlight == reg.inFlight && r.0.effects == reg.effects && r.0.socket == reg.socket
  {
    var s := reg.streams[idx];
    var n := |reg.streams|;
    var c := Stream(s.methodName, s.methodName + "-" + random, false, false, s.onmessage, s.onerror, s.closeHandler);
    assert (reg.streams + [c])[..n] == reg.streams;
    (reg.(streams := reg.streams + [c]), n)
  }

  /**
   * `newStreamWithSameHandlers()` as its name intends: the clone gets the
   * original's close callback wrapped for the clone itself.
   */
  function CloneWithSameHandlersFixed(reg: Registry, idx: nat, random: string): (r: (Registry, nat))
    requires Valid(reg) && idx < |reg.streams|
    ensures Valid(r.0)
    ensures SelfOwned(reg) ==> SelfOwned(r.0)
    ensures r.1 == |reg.streams| && |r.0.streams| == r.1 + 1 && r.0.streams[..r.1] == reg.streams
    ensures var s := reg.streams[idx]; var c := r.0.streams[r.1];
      && c.methodName == s.methodName && c.id == s.methodName + "-" + random
      && !c.started && !c.closed
      && c.onmessage == s.onmessage && c.onerror == s.onerror
      && c.closeHandler == CloseHandler(r.1, s.closeHandler.user)
    ensures r.0.inFlight == reg.inFlight && r.0.effects == reg.effects && r.0.socket == reg.socket
  {
    var s := reg.streams[idx];
    var n := |reg.streams|;
    var c := Stream(s.methodName, s.methodName + "-" + random, false, false, s.onmessage, s.onerror, CloseHandler(n, s.closeHandler.user));
    assert (reg.streams + [c])[..n] == reg.streams;
    (reg.(streams := reg.streams + [c]), n)
  }

  // ---------------------------------------------------------------------
  // Inbound dispatch and socket close

  function CallError(reg: Registry, cb: Callback, p: Payload, src: ErrorSource): (r: (Registry, Outcome))
    ensures r.0.streams == reg.streams && r.0.inFlight == reg.inFlight && r.0.socket == reg.socket
    ensures r.0.effects == reg.effects + [CalledError(cb, p, src)]
    ensures r.1.Threw? <==> cb.throws
  {
    (reg.(effects := reg.effects + [CalledError(cb, p, src)]), if cb.throws then Threw(Raised(cb)) else Done)
  }

  /**
   * `ws.onmessage`: an unparseable frame throws before any lookup; a frame for an
   * unknown id is dropped; otherwise it is routed by kind, and a throw from the
   * handler is passed to `onerror` with 'HandlerException'.
   */
  function HandleInbound(reg: Registry, msg: Inbound): (r: (Registry, Outcome))
    requires Valid(reg)
    ensures Valid(r.0)
    ensures msg.Unparseable? ==> r == (reg, Threw(JsonParseError))
    ensures msg.Parsed? && msg.frame.id !in reg.inFlight.vals ==> r == (reg, Done)
    ensures r.0.socket == reg.socket
  {
    match msg
    case Unparseable => (reg, Threw(JsonParseError))
    case Parsed(f) =>
      if f.id !in reg.inFlight.vals then (reg, Done)
      else
        var s := reg.streams[reg.inFlight.vals[f.id]];
        var mid :=
          if f.kind == "error" then CallError(reg, s.onerror, DataPayload(f.data), MethodError)
          else if f.kind == "methodDone" then InvokeClose(reg, s.closeHandler, MethodDone)
          else (reg.(effects := reg.effects + [CalledMessage(s.onmessage, f)]),
                if s.onmessage.throws then Threw(Raised(s.onmessage)) else Done);
        if mid.1.Threw? then CallError(mid.0, s.onerror, ExcPayload(mid.1.exc), HandlerException) else mid
  }

  /** Calls each target's close wrapper with 'WebsocketClosed'; a throw abandons the rest. */
  function FanOut(reg: Registry, targets: seq<nat>): (r: (Registry, Outcome))
    requires Valid(reg)
    requires forall i :: 0 <= i < |targets| ==> targets[i] < |reg.streams|
    ensures Valid(r.0) && |r.0.streams| == |reg.streams| && r.0.socket == reg.socket
    decreases |targets|
  {
    if targets == [] then (reg, Done)
    else
      var step := InvokeClose(reg, reg.streams[targets[0]].closeHandler, WebsocketClosed);
      if step.1.Threw? then step else FanOut(step.0, targets[1..])
  }

  /**
   * `ws.onclose` for socket generation `gen`: only the current socket reacts. It
   * moves to a new generation, then fans 'WebsocketClosed' out over a snapshot of
   * `inFlight`. The flag says whether the reconnect timer gets scheduled, which a
   * throwing callback prevents.
   */
  function OnSocketClose(reg: Registry, gen: nat): (r: (Registry, Outcome, bool))
    requires Valid(reg)
    ensures Valid(r.0)
    ensures gen != reg.socket ==> r == (reg, Done, false)
    ensures gen == reg.socket ==> r.0.socket == reg.socket + 1 && (r.2 <==> r.1.Done?)
  {
    if gen != reg.socket then (reg, Done, false)
    else
      var next := reg.(socket := reg.socket + 1);
      var fan := FanOut(next, Values(reg.inFlight));
      (fan.0, fan.1, fan.1.Done?)
  }

  // ---------------------------------------------------------------------
  // Properties across operations

  /** A frame for an id that is no longer in flight (e.g. after close) reaches no callback. */
  lemma LateFrameIgnored(reg: Registry, idx: nat, f: Frame)
    requires Valid(reg) && idx < |reg.streams| && SelfOwned(reg)
    requires reg.streams[idx].started && !reg.streams[idx].closed
    requires f.id == reg.streams[idx].id
    ensures var closed := Close(reg, idx).0;
      HandleInbound(closed, Parsed(f)) == (closed, Done)
  {
  }

  /** An 'error' frame reaches `onerror` with 'MethodError' and leaves the stream registered. */
  lemma ErrorFrameKeepsStream(reg: Registry, f: Frame)
    requires Valid(reg) && f.kind == "error" && f.id in reg.inFlight.vals
    ensures var s := reg.streams[reg.inFlight.vals[f.id]];
      var r := HandleInbound(reg, Parsed(f));
      && r.0.inFlight == reg.inFlight
      && r.0.streams == reg.streams
      && r.0.effects[..|reg.effects| + 1] == reg.effects + [CalledError(s.onerror, DataPayload(f.data), MethodError)]
  {
    var s := reg.streams[reg.inFlight.vals[f.id]];
    var e1 := reg.effects + [CalledError(s.onerror, DataPayload(f.data), MethodError)];
    assert (e1 + [CalledError(s.onerror, ExcPayload(Raised(s.onerror)), HandlerException)])[..|reg.effects| + 1] == e1;
  }

  /** A 'methodDone' frame closes the stream (for a self-owned wrapper) with cause 'MethodDone'. */
  lemma MethodDoneCloses(reg: Registry, f: Frame)
    requires Valid(reg) && SelfOwned(reg) && f.kind == "methodDone" && f.id in reg.inFlight.vals
    ensures var i := reg.inFlight.vals[f.id];
      var r := HandleInbound(reg, Parsed(f));
      && i < |r.0.streams| && r.0.streams[i].closed
      && f.id !in r.0.inFlight.vals
      && r.0.effects[|reg.effects|] == CalledClose(reg.streams[i].closeHandler.user, MethodDone)
  {
  }

  /** Any other kind goes to `onmessage`; a throwing `onmessage` is reported to `onerror`, not rethrown. */
  lemma OtherFrameToMessage(reg: Registry, f: Frame)
    requires Valid(reg) && f.kind != "error" && f.kind != "methodDone" && f.id in reg.inFlight.vals
    ensures var s := reg.streams[reg.inFlight.vals[f.id]];
      var r := HandleInbound(reg, Parsed(f));
      && r.0.inFlight == reg.inFlight
      && r.0.effects == reg.effects + [CalledMessage(s.onmessage, f)]
        + (if s.onmessage.throws then [CalledError(s.onerror, ExcPayload(Raised(s.onmessage)), HandlerException)] else [])
      && (r.1.Threw? <==> s.onmessage.throws && s.onerror.throws)
  {
  }

  /** The close callbacks the fan-out runs when none of them throws, one per target in order. */
  function CloseEffects(reg: Registry, targets: seq<nat>): seq<Effect>
    requires forall i :: 0 <= i < |targets| ==> targets[i] < |reg.streams|
    decreases |targets|
  {
    if targets == [] then []
    else [CalledClose(reg.streams[targets[0]].closeHandler.user, WebsocketClosed)] + CloseEffects(reg, targets[1..])
  }

  /** The ids of the target streams. */
  function TargetIds(reg: Registry, targets: seq<nat>): set<string>
    requires forall i :: 0 <= i < |targets| ==> targets[i] < |reg.streams|
  {
    set i | 0 <= i < |targets| :: reg.streams[targets[i]].id
  }

  /** Whether none of the targets' user close callbacks throws. */
  predicate NoneThrow(reg: Registry, targets: seq<nat>)
    requires forall i :: 0 <= i < |targets| ==> targets[i] < |reg.streams|
  {
    forall i :: 0 <= i < |targets| ==> !reg.streams[targets[i]].closeHandler.user.throws
  }

  /** Fan-out over callbacks that do not throw runs each target's wrapper exactly once, in order. */
  lemma {:induction false} FanOutEffects(reg: Registry, targets: seq<nat>)
    requires Valid(reg)
    requires forall i :: 0 <= i < |targets| ==> targets[i] < |reg.streams|
    requires NoneThrow(reg, targets)
    ensures FanOut(reg, targets).1 == Done
    ensures FanOut(reg, targets).0.effects == reg.effects + CloseEffects(reg, targets)
    decreases |targets|
  {
    if targets != [] {
      var tail := targets[1..];
      var mid := InvokeClose(reg, reg.streams[targets[0]].closeHandler, WebsocketClosed).0;
      assert SameCallbacks(reg, mid);
      FanOutEffects(mid, tail);
      CloseEffectsSame(reg, mid, tail);
      var e := CalledClose(reg.streams[targets[0]].closeHandler.user, WebsocketClosed);
      assert mid.effects == reg.effects + [e];
      assert CloseEffects(reg, targets) == [e] + CloseEffects(reg, tail);
      AppendAssoc(reg.effects, [e], CloseEffects(reg, tail));
    }
  }

  /**
   * Fan-out over self-owned streams whose callbacks do not throw removes exactly the
   * targets' ids from `inFlight`.
   */
  lemma {:induction false} FanOutClosesAll(reg: Registry, targets: seq<nat>)
    requires Valid(reg) && SelfOwned(reg)
    requires forall i :: 0 <= i < |targets| ==> targets[i] < |reg.streams|
    requires NoneThrow(reg, targets)
    ensures FanOut(reg, targets).0.inFlight.vals == reg.inFlight.vals - TargetIds(reg, targets)
    decreases |targets|
  {
    if targets == [] {
      assert TargetIds(reg, targets) == {};
    } else {
      var t := targets[0];
      var tail := targets[1..];
      var mid := InvokeClose(reg, reg.streams[t].closeHandler, WebsocketClosed).0;
      assert SelfOwned(mid) && SameCallbacks(reg, mid);
      FanOutClosesAll(mid, tail);
      TargetIdsSplit(reg, mid, targets);
      MinusTwice(reg.inFlight.vals, reg.streams[t].id, TargetIds(mid, tail));
    }
  }

  lemma AppendAssoc<T>(a: seq<T>, b: seq<T>, c: seq<T>)
    ensures (a + b) + c == a + (b + c)
  {
  }

  lemma MinusTwice(m: map<string, nat>, x: string, xs: set<string>)
    ensures (m - {x}) - xs == m - ({x} + xs)
  {
  }

  /** Two arenas of the same size whose streams have the same ids and close wrappers. */
  predicate SameCallbacks(a: Registry, b: Registry) {
    && |a.streams| == |b.streams|
    && (forall j :: 0 <= j < |a.streams| ==>
          a.streams[j].id == b.streams[j].id && a.streams[j].closeHandler == b.streams[j].closeHandler)
  }

  lemma {:induction false} CloseEffectsSame(a: Registry, b: Registry, targets: seq<nat>)
    requires SameCallbacks(a, b)
    requires forall i :: 0 <= i < |targets| ==> targets[i] < |a.streams|
    ensures CloseEffects(a, targets) == CloseEffects(b, targets)
    decreases |targets|
  {
    if targets != [] {
      CloseEffectsSame(a, b, targets[1..]);
    }
  }

  lemma TargetIdsSplit(a: Registry, b: Registry, targets: seq<nat>)
    requires SameCallbacks(a, b) && targets != []
    requires forall i :: 0 <= i < |targets| ==> targets[i] < |a.streams|
    ensures TargetIds(a, targets) == {a.streams[targets[0]].id} + TargetIds(b, targets[1..])
  {
    var tail := targets[1..];
    forall x | x in TargetIds(a, targets) ensures x in {a.streams[targets[0]].id} + TargetIds(b, tail) {
      var i :| 0 <= i < |targets| && x == a.streams[targets[i]].id;
      if i > 0 { assert targets[i] == tail[i - 1]; }
    }
    forall x | x in TargetIds(b, tail) ensures x in TargetIds(a, targets) {
      var i :| 0 <= i < |tail| && x == b.streams[tail[i]].id;
      assert tail[i] == targets[i + 1];
    }
  }

  /**
   * When the current socket closes and no wrapper throws, every self-owned stream in
   * flight gets exactly one 'WebsocketClosed' callback, in insertion order, the
   * registry ends empty and the reconnect is scheduled.
   */
  lemma SocketCloseFansOut(reg: Registry)
    requires Valid(reg) && SelfOwned(reg)
    requires forall k :: k in reg.inFlight.vals ==> !reg.streams[reg.inFlight.vals[k]].closeHandler.user.throws
    ensures var r := OnSocketClose(reg, reg.socket);
      && r.1 == Done && r.2
      && r.0.effects == reg.effects + CloseEffects(reg, Values(reg.inFlight))
      && r.0.inFlight.vals == map[]
  {
    var next := reg.(socket := reg.socket + 1);
    var targets := Values(reg.inFlight);
    assert NoneThrow(next, targets) by {
      forall i | 0 <= i < |targets| ensures !next.streams[targets[i]].closeHandler.user.throws {
        assert reg.inFlight.order[i] in reg.inFlight.vals;
      }
    }
    FanOutEffects(next, targets);
    FanOutClosesAll(next, targets);
    CloseEffectsSame(next, reg, targets);
    assert reg.inFlight.vals.Keys <= TargetIds(next, targets) by {
      forall k | k in reg.inFlight.vals ensures k in TargetIds(next, targets) {
        var i :| 0 <= i < |reg.inFlight.order| && reg.inFlight.order[i] == k;
        assert next.streams[targets[i]].id == k;
      }
    }
    OnCurrentSocketClose(reg);
    MinusAll(reg.inFlight.vals, TargetIds(next, targets));
  }

  lemma OnCurrentSocketClose(reg: Registry)
    requires Valid(reg)
    ensures var fan := FanOut(reg.(socket := reg.socket + 1), Values(reg.inFlight));
      OnSocketClose(reg, reg.socket) == (fan.0, fan.1, fan.1.Done?)
  {
  }

  lemma MinusAll(m: map<string, nat>, xs: set<string>)
    requires m.Keys <= xs
    ensures m - xs == map[]
  {
  }

  /** A close event from a socket that is no longer current changes nothing. */
  lemma StaleSocketCloseIgnored(reg: Registry, gen: nat)
    requires Valid(reg) && gen != reg.socket
    ensures OnSocketClose(reg, gen) == (reg, Done, false)
  {
  }

  /**
   * The clone shares the original's close wrapper: after starting the clone and
   * closing it, the ORIGINAL is marked closed and loses its `inFlight` entry, while
   * the clone stays registered and unclosed.
   */
  lemma CloneClosesOriginal(reg: Registry, idx: nat, random: string, data: Json)
    requires Valid(reg) && SelfOwned(reg) && idx < |reg.streams|
    requires reg.streams[idx].started && !reg.streams[idx].closed
    requires !reg.streams[idx].closeHandler.user.throws
    requires reg.streams[idx].methodName + "-" + random != reg.streams[idx].id
    ensures var (r1, c) := CloneWithSameHandlers(reg, idx, random);
      var r2 := Start(r1, c, data).0;
      var (r3, o) := Close(r2, c);
      && o == Done
      && r3.streams[idx].closed
      && reg.streams[idx].id !in r3.inFlight.vals
      && !r3.streams[c].closed
      && r3.inFlight.vals[reg.streams[idx].methodName + "-" + random] == c
  {
  }

  /**
   * With the corrected clone, starting and closing the clone closes the clone
   * alone: the original and the rest of `inFlight` are as before.
   */
  lemma FixedCloneClosesItself(reg: Registry, idx: nat, random: string, data: Json)
    requires Valid(reg) && idx < |reg.streams|
    requires !reg.streams[idx].closeHandler.user.throws
    requires reg.streams[idx].methodName + "-" + random !in reg.inFlight.vals
    ensures var (r1, c) := CloneWithSameHandlersFixed(reg, idx, random);
      var r2 := Start(r1, c, data).0;
      var (r3, o) := Close(r2, c);
      && o == Done
      && r3.streams[c].closed
      && r3.streams[..c] == reg.streams
      && r3.inFlight.vals == reg.inFlight.vals
  {
    var (r1, c) := CloneWithSameHandlersFixed(reg, idx, random);
    var id := reg.streams[idx].methodName + "-" + random;
    assert reg.inFlight.vals[id := c] - {id} == reg.inFlight.vals;
  }
}
