/**
 The in-memory broker as a state machine. A publish takes a snapshot of its topic's channels under the
 lock and sends to them one by one without it, so that other events come in between.
 */
module BrokerEvents {
  const BUFFER_SIZE: nat := 64

  /** A channel of one topic; messages are known by the number of their publish. */
  datatype Channel = Channel(topic: string, received: seq<nat>, buffer: seq<nat>) {
    function History(): seq<nat> {
      received + buffer
    }
  }

  /**
   A publish that has taken its snapshot. `pending` are the channels that it still has to send to, `lost`
   tells how full the buffer was for each channel that it passed over, and `before` are the publishes
   that were over when it took its snapshot.
   */
  datatype Publish = Publish(topic: string, snapshot: set<nat>, pending: seq<nat>, lost: map<nat, nat>, before: set<nat>)

  datatype State = State(subscribers: map<string, set<nat>>, channels: seq<Channel>, publishes: seq<Publish>)

  datatype Event =
    | Subscribe(topic: string)
    | Unsubscribe(topic: string, ch: nat)
    | Snapshot(topic: string, order: seq<nat>)
    | Send(p: nat)
    | Receive(ch: nat)

  const Initial := State(map[], [], [])

  function SubscribersOf(s: State, topic: string): set<nat> {
    if topic in s.subscribers then s.subscribers[topic] else {}
  }

  function Elements(order: seq<nat>): set<nat> {
    set c | c in order
  }

  predicate NoDuplicates(order: seq<nat>) {
    forall i, j :: 0 <= i < j < |order| ==> order[i] != order[j]
  }

  predicate Enabled(s: State, e: Event) {
    match e
    case Subscribe(topic) => topic != ""
    case Unsubscribe(_, _) => true
    case Snapshot(topic, order) => topic != "" && NoDuplicates(order) && Elements(order) == SubscribersOf(s, topic)
    case Send(p) => p < |s.publishes| && s.publishes[p].pending != [] && s.publishes[p].pending[0] < |s.channels|
    case Receive(ch) => ch < |s.channels| && s.channels[ch].buffer != []
  }

  function Over(s: State): set<nat> {
    set p | 0 <= p < |s.publishes| && s.publishes[p].pending == []
  }

  function Remove(subscribers: map<string, set<nat>>, topic: string, ch: nat): map<string, set<nat>> {
    if topic !in subscribers then subscribers
    else if subscribers[topic] - {ch} == {} then subscribers - {topic}
    else subscribers[topic := subscribers[topic] - {ch}]
  }

  function SendFirst(s: State, p: nat): State
    requires Enabled(s, Send(p))
  {
    var x := s.publishes[p];
    var c := x.pending[0];
    var ch := s.channels[c];
    if |ch.buffer| < BUFFER_SIZE then
      s.(publishes := s.publishes[p := x.(pending := x.pending[1..])],
         channels := s.channels[c := ch.(buffer := ch.buffer + [p])])
    else
      s.(publishes := s.publishes[p := x.(pending := x.pending[1..], lost := x.lost[c := |ch.buffer|])])
  }

  function Step(s: State, e: Event): State
    requires Enabled(s, e)
  {
    match e
    case Subscribe(topic) =>
      s.(channels := s.channels + [Channel(topic, [], [])],
         subscribers := s.subscribers[topic := SubscribersOf(s, topic) + {|s.channels|}])
    case Unsubscribe(topic, ch) => s.(subscribers := Remove(s.subscribers, topic, ch))
    case Snapshot(topic, order) =>
      s.(publishes := s.publishes + [Publish(topic, SubscribersOf(s, topic), order, map[], Over(s))])
    case Send(p) => SendFirst(s, p)
    case Receive(ch) =>
      var x := s.channels[ch];
      s.(channels := s.channels[ch := x.(received := x.received + [x.buffer[0]], buffer := x.buffer[1..])])
  }
}

/** What holds in every reachable state of the broker. */
module BrokerSafety {
  import opened BrokerEvents

  ghost predicate TopicOk(s: State, t: string)
    requires t in s.subscribers
  {
    t != "" && s.subscribers[t] != {}
    && forall c :: c in s.subscribers[t] ==> c < |s.channels| && s.channels[c].topic == t
  }

  /** The publish has sent to the channel: it has its own snapshot, and is not waiting any more. */
  ghost predicate SentTo(s: State, p: nat, c: nat)
    requires c < |s.channels|
  {
    && p < |s.publishes| && s.publishes[p].topic == s.channels[c].topic
    && c in s.publishes[p].snapshot && c !in s.publishes[p].pending && c !in s.publishes[p].lost
  }

  /** A later message of a channel does not come from a publish that was over when an earlier one began. */
  ghost predicate InOrder(s: State, h: seq<nat>) {
    forall i, j :: 0 <= i < j < |h| && h[i] < |s.publishes| ==> h[j] !in s.publishes[h[i]].before
  }

  ghost predicate ChannelOk(s: State, c: nat)
    requires c < |s.channels|
  {
    var h := s.channels[c].History();
    && |s.channels[c].buffer| <= BUFFER_SIZE
    && (forall i :: 0 <= i < |h| ==> SentTo(s, h[i], c))
    && NoDuplicates(h) && InOrder(s, h)
  }

  /** Every channel of the snapshot is waited for, has the message, or has lost it to a full buffer. */
  ghost predicate Accounted(s: State, p: nat, c: nat)
    requires p < |s.publishes|
  {
    && c < |s.channels| && s.channels[c].topic == s.publishes[p].topic
    && (c in s.publishes[p].pending || c in s.publishes[p].lost || p in s.channels[c].History())
    && (c in s.publishes[p].lost ==> s.publishes[p].lost[c] == BUFFER_SIZE)
  }

  ghost predicate PublishOk(s: State, p: nat)
    requires p < |s.publishes|
  {
    var x := s.publishes[p];
    && NoDuplicates(x.pending) && Elements(x.pending) <= x.snapshot && x.lost.Keys <= x.snapshot - Elements(x.pending)
    && (forall c :: c in x.snapshot ==> Accounted(s, p, c))
    && (forall q :: q in x.before ==> q < p && s.publishes[q].pending == [])
  }

  ghost predicate Safe(s: State) {
    && (forall t {:trigger TopicOk(s, t)} :: t in s.subscribers ==> TopicOk(s, t))
    && (forall c {:trigger ChannelOk(s, c)} :: 0 <= c < |s.channels| ==> ChannelOk(s, c))
    && (forall p {:trigger PublishOk(s, p)} :: 0 <= p < |s.publishes| ==> PublishOk(s, p))
  }

  lemma SubscribeKeeps(s: State, topic: string)
    requires Safe(s) && topic != ""
    ensures Safe(Step(s, Subscribe(topic)))
  {
    var t := Step(s, Subscribe(topic));
    forall x | x in t.subscribers ensures TopicOk(t, x) {
      assert x in s.subscribers ==> TopicOk(s, x);
      assert |s.channels| in t.subscribers[topic];
    }
    forall c | 0 <= c < |t.channels| ensures ChannelOk(t, c) {
      if c < |s.channels| {
        ChannelKeeps(s, t, c);
      }
    }
    forall p | 0 <= p < |t.publishes| ensures PublishOk(t, p) {
      assert PublishOk(s, p);
      forall c | c in t.publishes[p].snapshot ensures Accounted(t, p, c) {
        assert Accounted(s, p, c);
      }
    }
  }

  /** A channel that did not change stays in order as long as the publishes that it knows did not go back. */
  lemma ChannelKeeps(s: State, t: State, c: nat)
    requires Safe(s) && c < |s.channels| <= |t.channels| && t.channels[c] == s.channels[c]
    requires |s.publishes| <= |t.publishes|
    requires forall p :: 0 <= p < |s.publishes| ==>
               && t.publishes[p].topic == s.publishes[p].topic && t.publishes[p].snapshot == s.publishes[p].snapshot
               && t.publishes[p].before == s.publishes[p].before
               && (SentTo(s, p, c) ==> c !in t.publishes[p].pending && c !in t.publishes[p].lost)
    ensures ChannelOk(t, c)
  {
    assert ChannelOk(s, c);
    var h := s.channels[c].History();
    forall i | 0 <= i < |h| ensures SentTo(t, h[i], c) {
      assert SentTo(s, h[i], c);
    }
    forall i, j | 0 <= i < j < |h| && h[i] < |t.publishes| ensures h[j] !in t.publishes[h[i]].before {
      assert SentTo(s, h[i], c);
    }
  }

  lemma UnsubscribeKeeps(s: State, topic: string, ch: nat)
    requires Safe(s)
    ensures Safe(Step(s, Unsubscribe(topic, ch)))
  {
    var t := Step(s, Unsubscribe(topic, ch));
    forall x | x in t.subscribers ensures TopicOk(t, x) {
      assert TopicOk(s, x);
    }
    forall c | 0 <= c < |t.channels| ensures ChannelOk(t, c) {
      ChannelKeeps(s, t, c);
    }
    forall p | 0 <= p < |t.publishes| ensures PublishOk(t, p) {
      assert PublishOk(s, p);
      forall c | c in t.publishes[p].snapshot ensures Accounted(t, p, c) {
        assert Accounted(s, p, c);
      }
    }
  }

  lemma SnapshotKeeps(s: State, topic: string, order: seq<nat>)
    requires Safe(s) && Enabled(s, Snapshot(topic, order))
    ensures Safe(Step(s, Snapshot(topic, order)))
  {
    var t := Step(s, Snapshot(topic, order));
    forall x | x in t.subscribers ensures TopicOk(t, x) {
      assert TopicOk(s, x);
    }
    forall c | 0 <= c < |t.channels| ensures ChannelOk(t, c) {
      ChannelKeeps(s, t, c);
    }
    forall p | 0 <= p < |t.publishes| ensures PublishOk(t, p) {
      if p < |s.publishes| {
        assert PublishOk(s, p);
        forall c | c in t.publishes[p].snapshot ensures Accounted(t, p, c) {
          assert Accounted(s, p, c);
        }
      } else {
        forall c | c in t.publishes[p].snapshot ensures Accounted(t, p, c) {
          assert TopicOk(s, topic);
          assert c in Elements(order);
        }
      }
    }
  }

  lemma ReceiveKeeps(s: State, ch: nat)
    requires Safe(s) && Enabled(s, Receive(ch))
    ensures Safe(Step(s, Receive(ch)))
    ensures Step(s, Receive(ch)).channels[ch].History() == s.channels[ch].History()
  {
    var t, x := Step(s, Receive(ch)), s.channels[ch];
    assert x.received + [x.buffer[0]] + x.buffer[1..] == x.received + x.buffer;
    assert forall c :: 0 <= c < |s.channels| ==>
      t.channels[c].History() == s.channels[c].History() && t.channels[c].topic == s.channels[c].topic;
    forall y | y in t.subscribers ensures TopicOk(t, y) {
      assert TopicOk(s, y);
    }
    forall c | 0 <= c < |t.channels| ensures ChannelOk(t, c) {
      assert ChannelOk(s, c);
      var h := s.channels[c].History();
      forall i | 0 <= i < |h| ensures SentTo(t, h[i], c) {
        assert SentTo(s, h[i], c);
      }
    }
    forall p | 0 <= p < |t.publishes| ensures PublishOk(t, p) {
      assert PublishOk(s, p);
      forall c | c in t.publishes[p].snapshot ensures Accounted(t, p, c) {
        assert Accounted(s, p, c);
      }
    }
  }

  // ---------------------------------------------------------------------------
  // Sending.

  lemma PendingDrops(s: State, p: nat)
    requires Safe(s) && Enabled(s, Send(p))
    ensures var x := s.publishes[p];
            && x.pending[0] !in x.pending[1..] && x.pending[0] in x.snapshot && x.pending[0] !in x.lost
            && (forall c :: c in x.pending <==> c == x.pending[0] || c in x.pending[1..])
            && NoDuplicates(x.pending[1..]) && Elements(x.pending[1..]) == Elements(x.pending) - {x.pending[0]}
  {
    assert PublishOk(s, p);
    var x := s.publishes[p];
    assert x.pending == [x.pending[0]] + x.pending[1..];
    assert x.pending[0] in Elements(x.pending);
  }

  lemma SendKeepsChannel(s: State, p: nat, c: nat)
    requires Safe(s) && Enabled(s, Send(p)) && c < |s.channels|
    ensures ChannelOk(Step(s, Send(p)), c)
  {
    var t, x := Step(s, Send(p)), s.publishes[p];
    PendingDrops(s, p);
    var to := x.pending[0];
    assert to in x.snapshot;
    assert PublishOk(s, p) && Accounted(s, p, to);
    if c == to && |s.channels[c].buffer| < BUFFER_SIZE {
      assert ChannelOk(s, c);
      var h, h' := s.channels[c].History(), t.channels[c].History();
      assert h' == h + [p];
      forall i | 0 <= i < |h'| ensures SentTo(t, h'[i], c) {
        assert i < |h| ==> SentTo(s, h[i], c);
      }
      forall i, j | 0 <= i < j < |h'| ensures h'[i] != h'[j] && h'[j] !in t.publishes[h'[i]].before {
        assert SentTo(s, h[i], c);
        assert PublishOk(s, h[i]);
      }
    } else {
      ChannelKeeps(s, t, c);
    }
  }

  lemma SendKeepsPublish(s: State, p: nat, q: nat)
    requires Safe(s) && Enabled(s, Send(p)) && q < |s.publishes|
    ensures PublishOk(Step(s, Send(p)), q)
  {
    var t, x := Step(s, Send(p)), s.publishes[p];
    PendingDrops(s, p);
    assert PublishOk(s, q);
    assert ChannelOk(s, x.pending[0]);
    forall c | c in t.publishes[q].snapshot ensures Accounted(t, q, c) {
      assert Accounted(s, q, c);
      if c == x.pending[0] && |s.channels[c].buffer| < BUFFER_SIZE {
        var h := s.channels[c].History();
        assert t.channels[c].History() == h + [p];
      }
    }
  }

  lemma SendKeeps(s: State, p: nat)
    requires Safe(s) && Enabled(s, Send(p))
    ensures Safe(Step(s, Send(p)))
  {
    var t := Step(s, Send(p));
    forall y | y in t.subscribers ensures TopicOk(t, y) {
      assert TopicOk(s, y);
    }
    forall c | 0 <= c < |t.channels| ensures ChannelOk(t, c) {
      SendKeepsChannel(s, p, c);
    }
    forall q | 0 <= q < |t.publishes| ensures PublishOk(t, q) {
      SendKeepsPublish(s, p, q);
    }
  }

  // ---------------------------------------------------------------------------
  // Whole runs.

  lemma StepKeeps(s: State, e: Event)
    requires Safe(s) && Enabled(s, e)
    ensures Safe(Step(s, e))
  {
    match e
    case Subscribe(topic) => SubscribeKeeps(s, topic);
    case Unsubscribe(topic, ch) => UnsubscribeKeeps(s, topic, ch);
    case Snapshot(topic, order) => SnapshotKeeps(s, topic, order);
    case Send(p) => SendKeeps(s, p);
    case Receive(ch) => ReceiveKeeps(s, ch);
  }

  ghost predicate Runs(s: State, events: seq<Event>, t: State)
    decreases |events|
  {
    if events == [] then s == t else Enabled(s, events[0]) && Runs(Step(s, events[0]), events[1..], t)
  }

  lemma {:induction false} RunKeeps(s: State, events: seq<Event>, t: State)
    requires Safe(s) && Runs(s, events, t)
    ensures Safe(t)
    decreases |events|
  {
    if events != [] {
      StepKeeps(s, events[0]);
      RunKeeps(Step(s, events[0]), events[1..], t);
    }
  }

  /** The number of copies of a message in a channel, received ones included. */
  function Copies(h: seq<nat>, p: nat): nat {
    multiset(h)[p]
  }

  lemma AtMostOnce(h: seq<nat>, p: nat)
    requires NoDuplicates(h)
    ensures Copies(h, p) == if p in h then 1 else 0
  {
    if p in h {
      var i :| 0 <= i < |h| && h[i] == p;
      assert h == h[..i] + [p] + h[i + 1..];
      assert p !in h[..i] && p !in h[i + 1..];
      assert multiset(h) == multiset(h[..i]) + multiset{p} + multiset(h[i + 1..]);
    }
  }

  /**
   In every run: a channel has at most one copy of each message, only messages of its own topic, and at
   most 64 of them wait; and no topic is kept without subscribers.
   */
  lemma ChannelsAreSound(events: seq<Event>, t: State, c: nat, p: nat)
    requires Runs(Initial, events, t) && c < |t.channels|
    ensures var h := t.channels[c].History();
            && Copies(h, p) <= 1
            && (p in h ==> p < |t.publishes| && t.publishes[p].topic == t.channels[c].topic && c in t.publishes[p].snapshot)
            && |t.channels[c].buffer| <= 64
    ensures forall topic :: topic in t.subscribers ==> t.subscribers[topic] != {}
  {
    RunKeeps(Initial, events, t);
    assert ChannelOk(t, c);
    var h := t.channels[c].History();
    AtMostOnce(h, p);
    if p in h {
      var i :| 0 <= i < |h| && h[i] == p;
      assert SentTo(t, h[i], c);
    }
    forall topic | topic in t.subscribers ensures t.subscribers[topic] != {} {
      assert TopicOk(t, topic);
    }
  }

  /** When a publish is over, every channel of its snapshot has its message once, or its buffer was full. */
  lemma LostOnlyWhenFull(events: seq<Event>, t: State, p: nat, c: nat)
    requires Runs(Initial, events, t) && p < |t.publishes| && t.publishes[p].pending == [] && c in t.publishes[p].snapshot
    ensures c < |t.channels|
    ensures Copies(t.channels[c].History(), p) == if c in t.publishes[p].lost then 0 else 1
    ensures c in t.publishes[p].lost ==> t.publishes[p].lost[c] == 64
  {
    RunKeeps(Initial, events, t);
    assert PublishOk(t, p) && Accounted(t, p, c);
    assert ChannelOk(t, c);
    var h := t.channels[c].History();
    AtMostOnce(h, p);
    if p in h {
      var i :| 0 <= i < |h| && h[i] == p;
      assert SentTo(t, h[i], c);
    }
  }

  /** Two publishes that do not overlap in time arrive in their order wherever both arrive. */
  lemma NeverReordered(events: seq<Event>, t: State, c: nat, i: nat, j: nat)
    requires Runs(Initial, events, t) && c < |t.channels|
    requires i < |t.channels[c].History()| && j < |t.channels[c].History()|
    requires var h := t.channels[c].History(); h[j] < |t.publishes| && h[i] in t.publishes[h[j]].before
    ensures i < j
  {
    RunKeeps(Initial, events, t);
    assert ChannelOk(t, c);
    var h := t.channels[c].History();
    assert SentTo(t, h[j], c) && PublishOk(t, h[j]);
  }
}

/** The broker object. */
module Broker {
  import opened Wrappers
  import opened BrokerEvents
  import opened BrokerSafety

  datatype PublishError = TopicEmpty | RenderFailed

  class MemoryBroker {
    var subscribers: map<string, set<nat>>
    var channels: seq<Channel>
    /** The calls of `Publish` that have taken their snapshot, each with what it still has to do. */
    var publishes: seq<Publish>

    function Now(): State
      reads this
    {
      State(subscribers, channels, publishes)
    }

    ghost predicate Valid()
      reads this
    {
      Safe(Now())
    }

    constructor ()
      ensures Valid() && Now() == Initial
    {
      subscribers, channels, publishes := map[], [], [];
    }

    /** A buffered channel for the topic; a closed one, without a number, for the empty topic. */
    method Subscribe(topic: string) returns (ch: Option<nat>)
      requires Valid()
      modifies this
      ensures Valid()
      ensures topic == "" ==> ch == None && Now() == old(Now())
      ensures topic != "" ==> ch == Some(|old(channels)|) && Now() == Step(old(Now()), BrokerEvents.Subscribe(topic))
    {
      if topic == "" {
        return None;
      }
      ghost var before := Now();
      SubscribeKeeps(before, topic);
      ch := Some(|channels|);
      channels := channels + [Channel(topic, [], [])];
      if topic !in subscribers {
        subscribers := subscribers[topic := {}];
      }
      subscribers := subscribers[topic := subscribers[topic] + {ch.value}];
      assert subscribers == before.subscribers[topic := SubscribersOf(before, topic) + {ch.value}];
      assert Now() == Step(before, BrokerEvents.Subscribe(topic));
    }

    /** The clean-up that comes with a channel; it may be called more than once. */
    method Unsubscribe(topic: string, ch: nat)
      requires Valid()
      modifies this
      ensures Valid() && Now() == Step(old(Now()), BrokerEvents.Unsubscribe(topic, ch))
    {
      UnsubscribeKeeps(Now(), topic, ch);
      if topic in subscribers {
        var subs := subscribers[topic];
        if ch in subs {
          subs := subs - {ch};
        }
        assert subs == subscribers[topic] - {ch};
        if |subs| == 0 {
          subscribers := subscribers - {topic};
        } else {
          subscribers := subscribers[topic := subs];
        }
      }
    }

    /** The first part of `Publish`, under the lock; `order` is how the map happens to list the channels. */
    method BeginPublish(topic: string, rendered: bool, order: seq<nat>) returns (r: Result<nat, PublishError>)
      requires Valid()
      requires NoDuplicates(order) && Elements(order) == SubscribersOf(Now(), topic)
      modifies this
      ensures Valid()
      ensures r == if topic == "" then Failure(TopicEmpty) else if !rendered then Failure(RenderFailed)
                   else Success(|old(publishes)|)
      ensures Now() == if r.Success? then Step(old(Now()), Snapshot(topic, order)) else old(Now())
    {
      if topic == "" {
        return Failure(TopicEmpty);
      }
      if !rendered {
        return Failure(RenderFailed);
      }
      SnapshotKeeps(Now(), topic, order);
      r := Success(|publishes|);
      publishes := publishes + [Publish(topic, Elements(order), order, map[], Over(Now()))];
    }

    /** One turn of the sending loop: the message goes into the buffer, or is skipped when that is full. */
    method SendNext(p: nat)
      requires Valid() && Enabled(Now(), Send(p))
      modifies this
      ensures Valid() && Now() == Step(old(Now()), Send(p))
    {
      SendKeeps(Now(), p);
      var x := publishes[p];
      var c := x.pending[0];
      var ch := channels[c];
      x := x.(pending := x.pending[1..]);
      if |ch.buffer| < BUFFER_SIZE {
        channels := channels[c := ch.(buffer := ch.buffer + [p])];
      } else {
        x := x.(lost := x.lost[c := |ch.buffer|]);
      }
      publishes := publishes[p := x];
    }

    /** A subscriber takes the oldest waiting message. */
    method Receive(ch: nat) returns (message: nat)
      requires Valid() && Enabled(Now(), BrokerEvents.Receive(ch))
      modifies this
      ensures Valid() && Now() == Step(old(Now()), BrokerEvents.Receive(ch))
      ensures channels[ch].History() == old(channels[ch].History()) && message == old(channels[ch].buffer)[0]
    {
      ReceiveKeeps(Now(), ch);
      var x := channels[ch];
      message := x.buffer[0];
      channels := channels[ch := x.(received := x.received + [message], buffer := x.buffer[1..])];
    }
  }
}
