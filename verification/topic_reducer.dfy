/**
 * The topic-reconciliation reducer of `useTopicQuery`: it merges a fetched
 * snapshot `{state, counter}` with the id-stamped messages that arrive over the
 * topic's stream. The reducer state is either `Empty` with the messages seen so
 * far, or `Synced` with a counter and the reconciled state.
 *
 * Payloads are untyped at run time (`D`); `parse` stands for the caller's zod
 * schema (`safeParse`) and `reducer` for the caller's fold function.
 */
module TopicReducer {
  import opened Results

  /** The optional `kind` field of a pub/sub packet. */
  datatype Kind = KindState | KindUser | KindAbsent

  /** A packet: `messageId` and an untyped payload (the state itself when `kind` is 'state'). */
  datatype Packet<D> = Packet(kind: Kind, messageId: int, data: D)

  datatype StreamState<D> =
    | Empty(seenMessages: seq<Packet<D>>)
    | Synced(counter: int, state: D)

  /** The buffered messages newer than the snapshot counter, in arrival order. */
  function After<D>(ms: seq<Packet<D>>, counter: int): (r: seq<Packet<D>>)
    ensures |r| <= |ms|
    ensures forall i :: 0 <= i < |r| ==> r[i].messageId > counter
    ensures forall i :: 0 <= i < |r| ==> r[i] in ms
    ensures forall i :: 0 <= i < |ms| && ms[i].messageId > counter ==> ms[i] in r
  {
    if ms == [] then []
    else if ms[0].messageId > counter then [ms[0]] + After(ms[1..], counter)
    else After(ms[1..], counter)
  }

  /** The valid payloads of `ms` folded onto `s0`, left to right; invalid payloads are skipped. */
  function FoldValid<D, O>(ms: seq<Packet<D>>, s0: D, parse: D -> Option<O>, reducer: (D, O) -> D): D
    decreases |ms|
  {
    if ms == [] then s0
    else
      var last := ms[|ms| - 1];
      var acc := FoldValid(ms[..|ms| - 1], s0, parse, reducer);
      match parse(last.data)
      case Some(o) => reducer(acc, o)
      case None => acc
  }

  /** The largest message id in `ms`, starting from `start`; invalid payloads count too. */
  function MaxId<D>(ms: seq<Packet<D>>, start: int): (r: int)
    ensures r >= start
    ensures forall i :: 0 <= i < |ms| ==> ms[i].messageId <= r
    ensures r == start || exists i :: 0 <= i < |ms| && ms[i].messageId == r
  {
    if ms == [] then start
    else
      var m := if ms[0].messageId > start then ms[0].messageId else start;
      MaxId(ms[1..], m)
  }

  /** One step of the reducer (stream.tsx lines 65-120). */
  function Reduce<D, O>(prev: StreamState<D>, packet: Packet<D>, parse: D -> Option<O>, reducer: (D, O) -> D): StreamState<D> {
    if packet.kind == KindState then
      if prev.Synced? && prev.counter >= packet.messageId then prev
      else
        var seen := After(if prev.Empty? then prev.seenMessages else [], packet.messageId);
        Synced(MaxId(seen, packet.messageId), FoldValid(seen, packet.data, parse, reducer))
    else if prev.Empty? then
      Empty(prev.seenMessages + [packet])
    else
      match parse(packet.data)
      case Some(o) => Synced(packet.messageId, reducer(prev.state, o))
      case None => prev
  }

  /** The packets applied one after another, in arrival order. */
  function Run<D, O>(st: StreamState<D>, ps: seq<Packet<D>>, parse: D -> Option<O>, reducer: (D, O) -> D): StreamState<D>
    decreases |ps|
  {
    if ps == [] then st else Run(Reduce(st, ps[0], parse, reducer), ps[1..], parse, reducer)
  }

  /** What `useTopicQuery` hands its caller: undefined until a snapshot was applied. */
  function Exposed<D>(st: StreamState<D>): (r: Option<D>)
    ensures r.None? <==> st.Empty?
    ensures st.Synced? ==> r == Some(st.state)
  {
    match st
    case Empty(_) => None
    case Synced(_, s) => Some(s)
  }

  // ---------------------------------------------------------------------
  // Snapshot packets

  /** A snapshot no newer than the synced counter is ignored. */
  lemma StaleSnapshotIgnored<D, O>(prev: StreamState<D>, p: Packet<D>, parse: D -> Option<O>, reducer: (D, O) -> D)
    requires p.kind == KindState && prev.Synced? && prev.counter >= p.messageId
    ensures Reduce(prev, p, parse, reducer) == prev
  {
  }

  /** Applying a snapshot to the buffer: survivors, folded state and new counter. */
  lemma SnapshotOnBuffer<D, O>(buf: seq<Packet<D>>, p: Packet<D>, parse: D -> Option<O>, reducer: (D, O) -> D)
    requires p.kind == KindState
    ensures var r := Reduce(Empty(buf), p, parse, reducer);
      && r.Synced?
      && r.state == FoldValid(After(buf, p.messageId), p.data, parse, reducer)
      && r.counter >= p.messageId
      && (forall i :: 0 <= i < |buf| && buf[i].messageId > p.messageId ==> buf[i].messageId <= r.counter)
      && (r.counter == p.messageId || exists i :: 0 <= i < |buf| && buf[i].messageId == r.counter && buf[i].messageId > p.messageId)
  {
    var seen := After(buf, p.messageId);
    var r := Reduce(Empty(buf), p, parse, reducer);
    assert r.counter == MaxId(seen, p.messageId);
    forall j | 0 <= j < |buf| && buf[j].messageId > p.messageId
      ensures buf[j].messageId <= r.counter
    {
      assert buf[j] in seen;
      var i :| 0 <= i < |seen| && seen[i] == buf[j];
    }
    if r.counter != p.messageId {
      var i :| 0 <= i < |seen| && seen[i].messageId == r.counter;
      assert seen[i] in buf;
      var j :| 0 <= j < |buf| && buf[j] == seen[i];
    }
  }

  /** A newer snapshot while synced replaces the state and strictly raises the counter. */
  lemma NewerSnapshotWhileSynced<D, O>(prev: StreamState<D>, p: Packet<D>, parse: D -> Option<O>, reducer: (D, O) -> D)
    requires p.kind == KindState && prev.Synced? && prev.counter < p.messageId
    ensures Reduce(prev, p, parse, reducer) == Synced(p.messageId, p.data)
    ensures Reduce(prev, p, parse, reducer).counter > prev.counter
  {
  }

  /** Filtering the buffer commutes with concatenation, so arrival order is kept. */
  lemma {:induction false} AfterConcat<D>(a: seq<Packet<D>>, b: seq<Packet<D>>, c: int)
    ensures After(a + b, c) == After(a, c) + After(b, c)
  {
    if a == [] {
      assert a + b == b;
    } else {
      assert (a + b)[0] == a[0];
      assert (a + b)[1..] == a[1..] + b;
      AfterConcat(a[1..], b, c);
    }
  }

  /** Folding one more packet onto a fold: a valid payload is applied once, an invalid one is skipped. */
  lemma FoldValidPush<D, O>(ms: seq<Packet<D>>, m: Packet<D>, s0: D, parse: D -> Option<O>, reducer: (D, O) -> D)
    ensures FoldValid(ms + [m], s0, parse, reducer) ==
      match parse(m.data)
      case Some(o) => reducer(FoldValid(ms, s0, parse, reducer), o)
      case None => FoldValid(ms, s0, parse, reducer)
  {
    assert (ms + [m])[..|ms|] == ms;
  }

  // ---------------------------------------------------------------------
  // Live packets

  /** While empty, a live packet is appended to the buffer and nothing else changes. */
  lemma LiveWhileEmpty<D, O>(buf: seq<Packet<D>>, p: Packet<D>, parse: D -> Option<O>, reducer: (D, O) -> D)
    requires p.kind != KindState
    ensures Reduce(Empty(buf), p, parse, reducer) == Empty(buf + [p])
  {
  }

  /** While synced, a valid live message is folded once and its id becomes the counter. */
  lemma ValidLiveWhileSynced<D, O>(c: int, s: D, p: Packet<D>, o: O, parse: D -> Option<O>, reducer: (D, O) -> D)
    requires p.kind != KindState && parse(p.data) == Some(o)
    ensures Reduce(Synced(c, s), p, parse, reducer) == Synced(p.messageId, reducer(s, o))
  {
  }

  /** While synced, an invalid live payload changes nothing. */
  lemma InvalidLiveWhileSynced<D, O>(c: int, s: D, p: Packet<D>, parse: D -> Option<O>, reducer: (D, O) -> D)
    requires p.kind != KindState && parse(p.data).None?
    ensures Reduce(Synced(c, s), p, parse, reducer) == Synced(c, s)
  {
  }

  /**
   * The synced path has no guard against old ids: a message whose id is not above
   * the counter is folded again and the counter moves backwards.
   */
  lemma ReplayIsAppliedAgain()
    ensures var r := Reduce(Synced(5, 10), Packet(KindAbsent, 3, 1), (d: int) => Some(d), (s: int, o: int) => s + o);
      r == Synced(3, 11) && r.counter < 5
  {
  }

  // ---------------------------------------------------------------------
  // Whole runs

  /** Once a snapshot has been applied the state never returns to Empty. */
  lemma {:induction false} SyncedStaysSynced<D, O>(st: StreamState<D>, ps: seq<Packet<D>>, parse: D -> Option<O>, reducer: (D, O) -> D)
    requires st.Synced?
    ensures Run(st, ps, parse, reducer).Synced?
    decreases |ps|
  {
    if ps != [] {
      SyncedStaysSynced(Reduce(st, ps[0], parse, reducer), ps[1..], parse, reducer);
    }
  }

  /** Before any snapshot the consumer sees nothing, and every packet is buffered in order. */
  lemma {:induction false} NoSnapshotNoState<D, O>(buf: seq<Packet<D>>, ps: seq<Packet<D>>, parse: D -> Option<O>, reducer: (D, O) -> D)
    requires forall i :: 0 <= i < |ps| ==> ps[i].kind != KindState
    ensures Run(Empty(buf), ps, parse, reducer) == Empty(buf + ps)
    ensures Exposed(Run(Empty(buf), ps, parse, reducer)) == None
    decreases |ps|
  {
    if ps != [] {
      NoSnapshotNoState(buf + [ps[0]], ps[1..], parse, reducer);
      assert buf + [ps[0]] + ps[1..] == buf + ps;
    }
  }

  /**
   * Snapshot-merge: messages buffered before the snapshot and live messages after it,
   * all newer than the snapshot counter, end in the snapshot state folded over every
   * valid payload newer than the counter, in arrival order.
   */
  lemma {:induction false} LiveAfterSync<D, O>(c: int, s: D, done: seq<Packet<D>>, s0: D, live: seq<Packet<D>>, parse: D -> Option<O>, reducer: (D, O) -> D)
    requires s == FoldValid(done, s0, parse, reducer)
    requires forall i :: 0 <= i < |live| ==> live[i].kind != KindState
    ensures var r := Run(Synced(c, s), live, parse, reducer);
      r.Synced? && r.state == FoldValid(done + live, s0, parse, reducer)
    decreases |live|
  {
    if live == [] {
      assert done + live == done;
    } else {
      var p := live[0];
      FoldValidPush(done, p, s0, parse, reducer);
      var next := Reduce(Synced(c, s), p, parse, reducer);
      assert next.Synced? && next.state == FoldValid(done + [p], s0, parse, reducer);
      LiveAfterSync(next.counter, next.state, done + [p], s0, live[1..], parse, reducer);
      assert done + [p] + live[1..] == done + live;
    }
  }

  lemma MergeCorrect<D, O>(buf: seq<Packet<D>>, snap: Packet<D>, live: seq<Packet<D>>, parse: D -> Option<O>, reducer: (D, O) -> D)
    requires forall i :: 0 <= i < |buf| ==> buf[i].kind != KindState
    requires snap.kind == KindState
    requires forall i :: 0 <= i < |live| ==> live[i].kind != KindState
    ensures var r := Run(Empty([]), buf + [snap] + live, parse, reducer);
      r.Synced? && r.state == FoldValid(After(buf, snap.messageId) + live, snap.data, parse, reducer)
  {
    RunConcat(Empty([]), buf, [snap] + live, parse, reducer);
    NoSnapshotNoState([], buf, parse, reducer);
    assert [] + buf == buf;
    assert buf + [snap] + live == buf + ([snap] + live);
    var synced := Reduce(Empty(buf), snap, parse, reducer);
    assert Run(Empty(buf), [snap] + live, parse, reducer) == Run(synced, live, parse, reducer);
    LiveAfterSync(synced.counter, synced.state, After(buf, snap.messageId), snap.data, live, parse, reducer);
  }

  lemma {:induction false} RunConcat<D, O>(st: StreamState<D>, a: seq<Packet<D>>, b: seq<Packet<D>>, parse: D -> Option<O>, reducer: (D, O) -> D)
    ensures Run(st, a + b, parse, reducer) == Run(Run(st, a, parse, reducer), b, parse, reducer)
    decreases |a|
  {
    if a == [] {
      assert a + b == b;
    } else {
      assert (a + b)[0] == a[0];
      assert (a + b)[1..] == a[1..] + b;
      RunConcat(Reduce(st, a[0], parse, reducer), a[1..], b, parse, reducer);
    }
  }

  /** Messages 1, 2, 3 buffered, then a snapshot with counter 1: messages 2 and 3 are folded onto it. */
  lemma ScenarioThreeMessages<D, O>(s: D, d1: D, d2: D, d3: D, o2: O, o3: O, parse: D -> Option<O>, reducer: (D, O) -> D)
    requires parse(d2) == Some(o2) && parse(d3) == Some(o3)
    ensures var buf := [Packet(KindAbsent, 1, d1), Packet(KindAbsent, 2, d2), Packet(KindAbsent, 3, d3)];
      Run(Empty([]), buf + [Packet(KindState, 1, s)], parse, reducer) == Synced(3, reducer(reducer(s, o2), o3))
  {
    var m1, m2, m3 := Packet(KindAbsent, 1, d1), Packet(KindAbsent, 2, d2), Packet(KindAbsent, 3, d3);
    var snap := Packet(KindState, 1, s);
    var buf := [m1, m2, m3];
    NoSnapshotNoState([], buf, parse, reducer);
    RunConcat(Empty([]), buf, [snap], parse, reducer);
    assert [] + buf == buf;
    assert Run(Empty(buf), [snap], parse, reducer) == Reduce(Empty(buf), snap, parse, reducer);
    ScenarioSurvivors(m1, m2, m3);
    ScenarioFold(m2, m3, s, o2, o3, parse, reducer);
    assert MaxId([m2, m3], 1) == 3 by {
      assert [m2, m3][1..] == [m3];
      assert MaxId([m3], 2) == 3;
    }
  }

  lemma ScenarioSurvivors<D>(m1: Packet<D>, m2: Packet<D>, m3: Packet<D>)
    requires m1.messageId == 1 && m2.messageId == 2 && m3.messageId == 3
    ensures After([m1, m2, m3], 1) == [m2, m3]
  {
    assert After([m3], 1) == [m3];
    assert After([m2, m3], 1) == [m2, m3] by { assert [m2, m3][1..] == [m3]; }
    assert [m1, m2, m3][1..] == [m2, m3];
  }

  lemma ScenarioFold<D, O>(m2: Packet<D>, m3: Packet<D>, s: D, o2: O, o3: O, parse: D -> Option<O>, reducer: (D, O) -> D)
    requires parse(m2.data) == Some(o2) && parse(m3.data) == Some(o3)
    ensures FoldValid([m2, m3], s, parse, reducer) == reducer(reducer(s, o2), o3)
  {
    FoldValidPush([], m2, s, parse, reducer);
    assert [] + [m2] == [m2];
    FoldValidPush([m2], m3, s, parse, reducer);
    assert [m2] + [m3] == [m2, m3];
  }
}
