/**
 * The in-process publish/subscribe registry. Topics live in an arena (the Go
 * `*Topic` pointers become indices into `topics`) and the registry's map sends
 * `Id.String()` of a topic id to the arena slot currently registered under it.
 * Channels are numbered; what a channel receives is recorded, in order, in
 * the registry's event log. Every public operation is one atomic step.
 */
module PubSub {
  import opened Results
  import opened Strs
  import opened Json
  import Identity

  type TopicId = Identity.Id
  type Chan = nat

  /** A topic; `counter` is reported by `getInfo` but never written. */
  datatype Topic = Topic(id: TopicId, counter: int, closed: bool, subscribers: seq<Chan>)

  /** A published string: user text, or the JSON text of a `MetaTopicInfo`. */
  datatype Message = Text(text: string) | MetaInfo(kind: string, data: Json)

  datatype Event = Delivered(to: Chan, message: Message) | ChannelClosed(chan: Chan)

  datatype ErrKind = ErrTopicClosed | ErrTopicDoesntExist | ErrTopicExists

  /** A sentinel error, wrapped with the topic's id string when `detail` is non-empty. */
  datatype Error = Error(kind: ErrKind, detail: string)

  datatype Registry = Registry(
    topics: seq<Topic>,
    index: map<string, nat>,
    meta: Option<nat>,
    nextChan: Chan,
    events: seq<Event>)

  datatype Subscription = Subscription(out: Chan, topic: nat)

  datatype TopicInfo = TopicInfo(id: TopicId, closed: bool, count: int, subscriberCount: nat)

  /** `Close` of the meta topic publishes to itself while holding its own lock. */
  datatype CloseOutcome = Closed(reg: Registry) | Deadlock

  const MetaTopic: TopicId := Identity.Id("/topics", "meta")

  const EmptyRegistry := Registry([], map[], None, 0, [])

  /** What every reachable registry satisfies. */
  ghost predicate Valid(reg: Registry) {
    && (forall k :: k in reg.index ==>
          reg.index[k] < |reg.topics| && Identity.IdString(reg.topics[reg.index[k]].id) == k)
    && (reg.meta.Some? ==> reg.meta.value < |reg.topics|)
    && (forall i :: 0 <= i < |reg.topics| ==> reg.topics[i].counter == 0)
    && (forall i, x :: 0 <= i < |reg.topics| && x in reg.topics[i].subscribers ==> x < reg.nextChan)
  }

  function IdJson(id: TopicId): Json {
    JObject(map["category" := JString(id.category), "key" := JString(id.key)])
  }

  // ---------------------------------------------------------------------
  // Creating topics

  /** `createTopic`: fails only when the id string names an open topic. */
  function CreateTopicUnchecked(reg: Registry, id: TopicId): (r: Result<(Registry, nat), Error>)
    requires Valid(reg)
    ensures r.Ok? <==>
      (Identity.IdString(id) !in reg.index || reg.topics[reg.index[Identity.IdString(id)]].closed)
    ensures r.Err? ==> r.error == Error(ErrTopicExists, Identity.IdString(id))
    ensures r.Ok? ==> Valid(r.value.0)
  {
    var key := Identity.IdString(id);
    if key in reg.index && !reg.topics[reg.index[key]].closed then
      Err(Error(ErrTopicExists, key))
    else
      var h := |reg.topics|;
      var next := reg.(topics := reg.topics + [Topic(id, 0, false, [])], index := reg.index[key := h]);
      assert forall i :: 0 <= i < |reg.topics| ==> next.topics[i] == reg.topics[i];
      Ok((next, h))
  }

  /** `CreateTopic`: categories under "/topics" are reserved for the registry itself. */
  function CreateTopic(reg: Registry, id: TopicId): (r: Result<(Registry, nat), Error>)
    requires Valid(reg)
    ensures HasPrefix(id.category, "/topics") ==> r == Err(Error(ErrTopicExists, ""))
    ensures r.Ok? ==> Valid(r.value.0)
  {
    if HasPrefix(id.category, "/topics") then Err(Error(ErrTopicExists, ""))
    else CreateTopicUnchecked(reg, id)
  }

  /** `CreateMetaTopics`: registers the meta topic and remembers it. */
  function CreateMetaTopics(reg: Registry): (r: Result<Registry, Error>)
    requires Valid(reg)
    ensures r.Ok? ==> Valid(r.value) && r.value.meta.Some?
  {
    var c := CreateTopicUnchecked(reg, MetaTopic);
    if c.Err? then Err(c.error) else Ok(c.value.0.(meta := Some(c.value.1)))
  }

  /** The package-level registry after `init`. */
  function Initial(): (r: Result<Registry, Error>)
    ensures r.Ok? ==> Valid(r.value)
  {
    CreateMetaTopics(EmptyRegistry)
  }

  // ---------------------------------------------------------------------
  // Subscribers

  /** `Subscribe`: a fresh channel appended to the topic's subscriber list. */
  function Subscribe(reg: Registry, id: TopicId): (r: Result<(Registry, Subscription), Error>)
    requires Valid(reg)
    ensures r.Ok? ==> Valid(r.value.0)
  {
    var key := Identity.IdString(id);
    if key !in reg.index then Err(Error(ErrTopicDoesntExist, key))
    else
      var h := reg.index[key];
      var t := reg.topics[h];
      if t.closed then Err(Error(ErrTopicClosed, Identity.IdString(t.id)))
      else
        var c := reg.nextChan;
        var next := reg.(topics := reg.topics[h := t.(subscribers := t.subscribers + [c])], nextChan := c + 1);
        Ok((next, Subscription(c, h)))
  }

  /** The subscribers other than `c`, in their original order. */
  function RemoveAll(subs: seq<Chan>, c: Chan): (r: seq<Chan>)
    ensures |r| <= |subs|
    ensures forall x :: x in r <==> x in subs && x != c
  {
    if subs == [] then []
    else RemoveAll(subs[..|subs| - 1], c) + (if subs[|subs| - 1] == c then [] else [subs[|subs| - 1]])
  }

  /** `removeSubscriber`: the in-place compaction with a write index. */
  method RemoveSubscriber(subs: seq<Chan>, c: Chan) returns (r: seq<Chan>)
    ensures r == RemoveAll(subs, c)
  {
    var buf := subs;
    var w := 0;
    var i := 0;
    while i < |subs|
      invariant 0 <= w <= i <= |subs| == |buf|
      invariant buf[..w] == RemoveAll(subs[..i], c)
      invariant buf[i..] == subs[i..]
    {
      var item := buf[i];
      assert subs[..i + 1][..i] == subs[..i];
      if item != c {
        buf := buf[w := item];
        w := w + 1;
      }
      i := i + 1;
    }
    assert subs[..|subs|] == subs;
    r := buf[..w];
  }

  /** `Unsubscribe`. */
  function Unsubscribe(reg: Registry, sub: Subscription): (r: Registry)
    requires Valid(reg) && sub.topic < |reg.topics|
    ensures Valid(r)
    ensures |r.topics| == |reg.topics| && r.index == reg.index && r.events == reg.events
    ensures forall i :: 0 <= i < |reg.topics| && i != sub.topic ==> r.topics[i] == reg.topics[i]
    ensures forall x :: x in r.topics[sub.topic].subscribers <==>
      x in reg.topics[sub.topic].subscribers && x != sub.out
  {
    var t := reg.topics[sub.topic];
    reg.(topics := reg.topics[sub.topic := t.(subscribers := RemoveAll(t.subscribers, sub.out))])
  }

  // ---------------------------------------------------------------------
  // Publishing and closing

  function Deliveries(subs: seq<Chan>, m: Message): (r: seq<Event>)
    ensures |r| == |subs|
    ensures forall i :: 0 <= i < |subs| ==> r[i] == Delivered(subs[i], m)
  {
    if subs == [] then [] else [Delivered(subs[0], m)] + Deliveries(subs[1..], m)
  }

  function Closings(subs: seq<Chan>): (r: seq<Event>)
    ensures |r| == |subs|
    ensures forall i :: 0 <= i < |subs| ==> r[i] == ChannelClosed(subs[i])
  {
    if subs == [] then [] else [ChannelClosed(subs[0])] + Closings(subs[1..])
  }

  /** `Publish`: the message goes to each subscriber in list order, unless the topic is closed. */
  function Publish(reg: Registry, h: nat, m: Message): (r: Registry)
    requires h < |reg.topics|
    ensures r.(events := reg.events) == reg
  {
    var t := reg.topics[h];
    if t.closed then reg else reg.(events := reg.events + Deliveries(t.subscribers, m))
  }

  /**
   * `Close`: marks the topic closed, announces it on the meta topic, closes
   * every subscriber channel and drops the list. A closed topic is left alone.
   */
  function Close(reg: Registry, h: nat): (r: CloseOutcome)
    requires Valid(reg) && h < |reg.topics|
    ensures r.Closed? ==> Valid(r.reg)
    ensures r.Deadlock? <==> !reg.topics[h].closed && reg.meta == Some(h)
  {
    var t := reg.topics[h];
    if t.closed then Closed(reg)
    else if reg.meta == Some(h) then Deadlock
    else
      var marked := reg.(topics := reg.topics[h := t.(closed := true)]);
      var announced := if reg.meta.Some? then Publish(marked, reg.meta.value, MetaInfo("close", IdJson(t.id))) else marked;
      Closed(announced.(
        topics := reg.topics[h := t.(closed := true, subscribers := [])],
        events := announced.events + Closings(t.subscribers)))
  }

  // ---------------------------------------------------------------------
  // Information

  /** `getInfo`. */
  function GetInfo(t: Topic): (r: TopicInfo)
    ensures r.subscriberCount == |t.subscribers| && r.closed == t.closed && r.id == t.id
  {
    TopicInfo(t.id, t.closed, t.counter, |t.subscribers|)
  }

  /** `GetTopicInfo`: the info of every registered topic under its id string. */
  function GetTopicInfo(reg: Registry): (r: map<string, TopicInfo>)
    requires Valid(reg)
    ensures r.Keys == reg.index.Keys
    ensures forall k :: k in r ==> r[k].count == 0 && Identity.IdString(r[k].id) == k
  {
    map k | k in reg.index :: GetInfo(reg.topics[reg.index[k]])
  }

  // ---------------------------------------------------------------------
  // Properties

  /** Creating an id whose topic is open fails and changes nothing. */
  lemma CreateOpenFails(reg: Registry, id: TopicId)
    requires Valid(reg) && !HasPrefix(id.category, "/topics")
    requires Identity.IdString(id) in reg.index && !reg.topics[reg.index[Identity.IdString(id)]].closed
    ensures CreateTopic(reg, id) == Err(Error(ErrTopicExists, Identity.IdString(id)))
  {
  }

  /** A free or closed id gets a fresh open topic with no subscribers; other ids keep their topic. */
  lemma CreateFreshTopic(reg: Registry, id: TopicId)
    requires Valid(reg) && !HasPrefix(id.category, "/topics")
    requires Identity.IdString(id) !in reg.index || reg.topics[reg.index[Identity.IdString(id)]].closed
    ensures CreateTopic(reg, id).Ok?
    ensures var (next, h) := CreateTopic(reg, id).value;
      && next.index[Identity.IdString(id)] == h
      && next.topics[h] == Topic(id, 0, false, [])
      && (forall k :: k in reg.index && k != Identity.IdString(id) ==>
            k in next.index && next.topics[next.index[k]] == reg.topics[reg.index[k]])
      && next.events == reg.events
  {
  }

  /** After `init`, the meta topic is open with no subscribers, and no caller can replace it. */
  lemma InitialMeta()
    ensures Initial().Ok?
    ensures var reg := Initial().value;
      && reg.meta == Some(0)
      && reg.topics[0] == Topic(MetaTopic, 0, false, [])
      && CreateTopic(reg, MetaTopic).Err?
  {
    assert HasPrefix(MetaTopic.category, "/topics");
  }

  lemma SubscribeMissing(reg: Registry, id: TopicId)
    requires Valid(reg) && Identity.IdString(id) !in reg.index
    ensures Subscribe(reg, id) == Err(Error(ErrTopicDoesntExist, Identity.IdString(id)))
  {
  }

  lemma SubscribeClosed(reg: Registry, id: TopicId)
    requires Valid(reg) && Identity.IdString(id) in reg.index
    requires reg.topics[reg.index[Identity.IdString(id)]].closed
    ensures Subscribe(reg, id) == Err(Error(ErrTopicClosed, Identity.IdString(id)))
  {
  }

  /** A successful subscribe appends one fresh channel to that topic and touches nothing else. */
  lemma SubscribeAppends(reg: Registry, id: TopicId)
    requires Valid(reg) && Identity.IdString(id) in reg.index
    requires !reg.topics[reg.index[Identity.IdString(id)]].closed
    ensures Subscribe(reg, id).Ok?
    ensures var (next, sub) := Subscribe(reg, id).value;
      var h := reg.index[Identity.IdString(id)];
      && sub.topic == h
      && sub.out !in reg.topics[h].subscribers
      && next.topics[h].subscribers == reg.topics[h].subscribers + [sub.out]
      && (forall i :: 0 <= i < |reg.topics| && i != h ==> next.topics[i] == reg.topics[i])
      && next.index == reg.index && next.events == reg.events
  {
  }

  /** Removal distributes over concatenation, so the kept subscribers keep their order. */
  lemma {:induction false} RemoveAllConcat(a: seq<Chan>, b: seq<Chan>, c: Chan)
    ensures RemoveAll(a + b, c) == RemoveAll(a, c) + RemoveAll(b, c)
    decreases |b|
  {
    if b == [] {
      assert a + b == a;
    } else {
      var b' := b[..|b| - 1];
      assert (a + b)[..|a + b| - 1] == a + b';
      RemoveAllConcat(a, b', c);
    }
  }

  /** Removing a channel that is not subscribed changes nothing. */
  lemma {:induction false} RemoveAbsent(subs: seq<Chan>, c: Chan)
    requires c !in subs
    ensures RemoveAll(subs, c) == subs
    decreases |subs|
  {
    if subs != [] {
      RemoveAbsent(subs[..|subs| - 1], c);
      assert subs[..|subs| - 1] + [subs[|subs| - 1]] == subs;
    }
  }

  /** Subscribing and then unsubscribing restores the subscriber list. */
  lemma SubscribeUnsubscribe(reg: Registry, id: TopicId)
    requires Valid(reg)
    requires Subscribe(reg, id).Ok?
    ensures var (next, sub) := Subscribe(reg, id).value;
      Unsubscribe(next, sub).topics == reg.topics
  {
    var key := Identity.IdString(id);
    SubscribeAppends(reg, id);
    var (next, sub) := Subscribe(reg, id).value;
    var h := sub.topic;
    var subs := reg.topics[h].subscribers;
    RemoveAllConcat(subs, [sub.out], sub.out);
    RemoveAbsent(subs, sub.out);
    assert RemoveAll([sub.out], sub.out) == [];
    assert Unsubscribe(next, sub).topics[h] == reg.topics[h];
  }

  /** Publishing to an open topic delivers to each subscriber, in list order. */
  lemma PublishOpen(reg: Registry, h: nat, m: Message)
    requires h < |reg.topics| && !reg.topics[h].closed
    ensures var subs := reg.topics[h].subscribers;
      var r := Publish(reg, h, m);
      && |r.events| == |reg.events| + |subs|
      && r.events[..|reg.events|] == reg.events
      && forall i :: 0 <= i < |subs| ==> r.events[|reg.events| + i] == Delivered(subs[i], m)
  {
  }

  lemma PublishClosed(reg: Registry, h: nat, m: Message)
    requires h < |reg.topics| && reg.topics[h].closed
    ensures Publish(reg, h, m) == reg
  {
  }

  /** The first close of a non-meta topic: closed flag set, list emptied, announcement then channel closes. */
  lemma CloseFirst(reg: Registry, h: nat)
    requires Valid(reg) && h < |reg.topics| && !reg.topics[h].closed && reg.meta != Some(h)
    ensures Close(reg, h).Closed?
    ensures var t := reg.topics[h];
      var r := Close(reg, h).reg;
      var announce := if reg.meta.Some? && !reg.topics[reg.meta.value].closed
        then Deliveries(reg.topics[reg.meta.value].subscribers, MetaInfo("close", IdJson(t.id))) else [];
      && r.topics[h] == t.(closed := true, subscribers := [])
      && (forall i :: 0 <= i < |reg.topics| && i != h ==> r.topics[i] == reg.topics[i])
      && r.index == reg.index
      && r.events == reg.events + announce + Closings(t.subscribers)
  {
  }

  /** Closing twice is the same as closing once. */
  lemma CloseIdempotent(reg: Registry, h: nat)
    requires Valid(reg) && h < |reg.topics|
    requires Close(reg, h).Closed?
    ensures Close(Close(reg, h).reg, h) == Close(reg, h)
  {
  }

  /** A closed topic accepts no subscribers and delivers nothing. */
  lemma ClosedIsInert(reg: Registry, h: nat, id: TopicId, m: Message)
    requires Valid(reg) && h < |reg.topics| && Close(reg, h).Closed?
    requires Identity.IdString(id) in reg.index && reg.index[Identity.IdString(id)] == h
    ensures var r := Close(reg, h).reg;
      && Subscribe(r, id).Err?
      && Publish(r, h, m) == r
  {
  }
}
