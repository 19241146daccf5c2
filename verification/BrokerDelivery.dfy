/** What a publish delivers, told from the events of a run alone. */
module BrokerDelivery {
  import opened BrokerEvents
  import opened BrokerSafety

  /** The number of channels that have been made; the next one gets this number. */
  function ChannelsMade(events: seq<Event>): nat {
    if events == [] then 0
    else ChannelsMade(events[..|events| - 1]) + if events[|events| - 1].Subscribe? then 1 else 0
  }

  /** The number of publishes that have begun; the next one gets this number. */
  function PublishesBegun(events: seq<Event>): nat {
    if events == [] then 0
    else PublishesBegun(events[..|events| - 1]) + if events[|events| - 1].Snapshot? then 1 else 0
  }

  /** The number of sends of one publish. */
  function Sends(events: seq<Event>, p: nat): nat {
    if events == [] then 0
    else Sends(events[..|events| - 1], p) + if events[|events| - 1] == Send(p) then 1 else 0
  }

  /** The channel was made by a subscription to the topic, and has not been unsubscribed from it since. */
  predicate IsSubscribed(events: seq<Event>, topic: string, c: nat) {
    events != []
    && var before, last := events[..|events| - 1], events[|events| - 1];
       || (last == Subscribe(topic) && c == ChannelsMade(before))
       || (last != Unsubscribe(topic, c) && IsSubscribed(before, topic, c))
  }

  /** At some point of the run the publish came to the channel while 64 messages were waiting there. */
  ghost predicate WasFull(events: seq<Event>, p: nat, c: nat) {
    exists n, s: State :: 0 <= n < |events| && events[n] == Send(p) && MeetsFull(events[..n], s, p, c)
  }

  ghost predicate MeetsFull(events: seq<Event>, s: State, p: nat, c: nat) {
    && Runs(Initial, events, s) && p < |s.publishes| && s.publishes[p].pending != [] && s.publishes[p].pending[0] == c
    && c < |s.channels| && |s.channels[c].buffer| == 64
  }

  // ---------------------------------------------------------------------------
  // Runs in parts.

  lemma {:induction false} RunsInParts(s: State, a: seq<Event>, b: seq<Event>, t: State) returns (m: State)
    requires Runs(s, a + b, t)
    ensures Runs(s, a, m) && Runs(m, b, t)
    decreases |a|
  {
    if a == [] {
      assert a + b == b;
      m := s;
    } else {
      assert (a + b)[1..] == a[1..] + b;
      m := RunsInParts(Step(s, a[0]), a[1..], b, t);
    }
  }

  /** The last event of a run. */
  lemma RunsLast(s: State, events: seq<Event>, t: State) returns (m: State)
    requires Runs(s, events, t) && events != []
    ensures Runs(s, events[..|events| - 1], m) && Enabled(m, events[|events| - 1]) && t == Step(m, events[|events| - 1])
  {
    var last := [events[|events| - 1]];
    assert events == events[..|events| - 1] + last;
    m := RunsInParts(s, events[..|events| - 1], last, t);
    assert last[1..] == [];
  }

  // ---------------------------------------------------------------------------
  // Who is subscribed.

  lemma RemoveTakesOne(subscribers: map<string, set<nat>>, topic: string, ch: nat, t: string)
    ensures SubscribersOf(State(Remove(subscribers, topic, ch), [], []), t)
         == SubscribersOf(State(subscribers, [], []), t) - if t == topic then {ch} else {}
  {
  }

  lemma {:induction false} SubscribersAreTold(events: seq<Event>, s: State, topic: string)
    requires Runs(Initial, events, s)
    ensures |s.channels| == ChannelsMade(events) && |s.publishes| == PublishesBegun(events)
    ensures forall c: nat :: c in SubscribersOf(s, topic) <==> IsSubscribed(events, topic, c)
    decreases |events|
  {
    if events != [] {
      var before, last := events[..|events| - 1], events[|events| - 1];
      var m := RunsLast(Initial, events, s);
      SubscribersAreTold(before, m, topic);
      if last.Unsubscribe? {
        RemoveTakesOne(m.subscribers, last.topic, last.ch, topic);
      }
    }
  }

  // ---------------------------------------------------------------------------
  // What becomes of a publish.

  lemma {:induction false} PublishGoesOn(s: State, events: seq<Event>, t: State, p: nat)
    requires Runs(s, events, t) && p < |s.publishes|
    ensures p < |t.publishes| && t.publishes[p].topic == s.publishes[p].topic && t.publishes[p].snapshot == s.publishes[p].snapshot
    ensures |t.publishes[p].pending| + Sends(events, p) == |s.publishes[p].pending|
    decreases |events|
  {
    if events != [] {
      var m := RunsLast(s, events, t);
      PublishGoesOn(s, events[..|events| - 1], m, p);
    }
  }

  lemma {:induction false} LostWasFull(events: seq<Event>, t: State, p: nat, c: nat)
    requires Runs(Initial, events, t) && p < |t.publishes| && c in t.publishes[p].lost
    ensures WasFull(events, p, c)
    decreases |events|
  {
    if events != [] {
      var n := |events| - 1;
      var m := RunsLast(Initial, events, t);
      if p < |m.publishes| && c in m.publishes[p].lost {
        LostWasFull(events[..n], m, p, c);
        var k, s: State :| 0 <= k < n && events[..n][k] == Send(p) && MeetsFull(events[..n][..k], s, p, c);
        assert events[..n][..k] == events[..k];
      } else {
        RunKeeps(Initial, events[..n], m);
        assert ChannelOk(m, c);
        assert MeetsFull(events[..n], m, p, c);
      }
    }
  }

  /** The publish lists each subscriber once. */
  lemma OrderIsSubscribers(before: seq<Event>, topic: string, order: seq<nat>, s: State, c: nat)
    requires Runs(Initial, before, s) && Enabled(s, Snapshot(topic, order))
    ensures NoDuplicates(order) && (c in order <==> IsSubscribed(before, topic, c))
  {
    SubscribersAreTold(before, s, topic);
    assert c in order <==> c in Elements(order);
  }

  predicate HasNothingToSend(s: State, p: nat) {
    p < |s.publishes| ==> s.publishes[p].pending == []
  }

  lemma SnapshotOfRun(before: seq<Event>, topic: string, order: seq<nat>, after: seq<Event>, t: State) returns (s: State)
    requires Runs(Initial, before + [Snapshot(topic, order)] + after, t)
    ensures Runs(Initial, before, s) && Enabled(s, Snapshot(topic, order)) && |s.publishes| == PublishesBegun(before)
    ensures Runs(Step(s, Snapshot(topic, order)), after, t)
  {
    var m := RunsInParts(Initial, before + [Snapshot(topic, order)], after, t);
    s := RunsInParts(Initial, before, [Snapshot(topic, order)], m);
    assert [Snapshot(topic, order)][1..] == [];
    SubscribersAreTold(before, s, topic);
  }

  /**
   Who has subscribed to the topic and has not unsubscribed when a publish begins has its message once when the publish
   is over, or 64 messages were waiting when it was this channel's turn. It is over after one send for each subscriber.
   */
  lemma SubscribersAreServed(before: seq<Event>, topic: string, order: seq<nat>, after: seq<Event>, t: State, c: nat)
    requires Runs(Initial, before + [Snapshot(topic, order)] + after, t) && IsSubscribed(before, topic, c)
    requires HasNothingToSend(t, PublishesBegun(before))
    ensures c < |t.channels| && c in order && Sends(after, PublishesBegun(before)) == |order|
    ensures var p := PublishesBegun(before);
            var copies := Copies(t.channels[c].History(), p);
            copies == 1 || (copies == 0 && WasFull(before + [Snapshot(topic, order)] + after, p, c))
  {
    var events, p := before + [Snapshot(topic, order)] + after, PublishesBegun(before);
    var s := SnapshotOfRun(before, topic, order, after, t);
    OrderIsSubscribers(before, topic, order, s, c);
    PublishGoesOn(Step(s, Snapshot(topic, order)), after, t, p);
    SubscribersAreTold(before, s, topic);
    LostOnlyWhenFull(events, t, p, c);
    if c in t.publishes[p].lost {
      LostWasFull(events, t, p, c);
    }
  }

  /** Nobody else gets it. */
  lemma OnlySubscribersAreServed(before: seq<Event>, topic: string, order: seq<nat>, after: seq<Event>, t: State, c: nat)
    requires Runs(Initial, before + [Snapshot(topic, order)] + after, t)
    requires c < |t.channels| && PublishesBegun(before) in t.channels[c].History()
    ensures IsSubscribed(before, topic, c)
  {
    var p := PublishesBegun(before);
    var s := SnapshotOfRun(before, topic, order, after, t);
    PublishGoesOn(Step(s, Snapshot(topic, order)), after, t, p);
    ChannelsAreSound(before + [Snapshot(topic, order)] + after, t, c, p);
    SubscribersAreTold(before, s, topic);
  }
}
