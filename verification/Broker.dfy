/**
 The fan-out of server-sent events: every subscriber has a bounded channel, and a message is dropped
 for the subscribers whose channel is full.

 A channel is shared by the broker and its subscriber; it is referred to by its position among all
 channels ever made. Besides its buffer a channel carries the history of what it was offered.
 */
module Broker {
  import opened Common

  const CHANNEL_SIZE := 16

  type Message = string

  /** `since` and `until` count the messages published before the channel got, and lost, its subscription. */
  datatype Channel = Channel(buffer: seq<Message>, closed: bool, since: nat, until: Option<nat>,
                             offered: seq<Message>, kept: seq<bool>, received: seq<Message>)

  /** The messages whose mark is set, in order. */
  function Marked(s: seq<Message>, marks: seq<bool>): seq<Message>
    requires |s| == |marks|
  {
    if s == [] then []
    else
      var n := |s| - 1;
      Marked(s[..n], marks[..n]) + if marks[n] then [s[n]] else []
  }

  function Dropped(marks: seq<bool>): nat {
    if marks == [] then 0 else Dropped(marks[..|marks| - 1]) + if marks[|marks| - 1] then 0 else 1
  }

  /** Offer a message to a channel: it is kept if there is room. */
  function Offer(c: Channel, m: Message): Channel {
    var room := |c.buffer| < CHANNEL_SIZE;
    c.(buffer := if room then c.buffer + [m] else c.buffer, offered := c.offered + [m], kept := c.kept + [room])
  }

  function Take(c: Channel): Channel
    requires c.buffer != []
  {
    c.(buffer := c.buffer[1..], received := c.received + [c.buffer[0]])
  }

  /** What was received and what is buffered are, in order, the messages that found room. */
  ghost predicate Sound(c: Channel) {
    && |c.buffer| <= CHANNEL_SIZE
    && |c.kept| == |c.offered|
    && c.received + c.buffer == Marked(c.offered, c.kept)
    && (forall k :: 0 <= k < |c.kept| && k < CHANNEL_SIZE ==> c.kept[k])
    && (c.closed ==> c.until.Some?)
  }

  /** A channel was offered exactly what was published while it was subscribed. */
  ghost predicate Fed(c: Channel, published: seq<Message>) {
    var end := if c.until.Some? then c.until.value else |published|;
    c.since <= end <= |published| && c.offered == published[c.since..end]
  }

  lemma {:induction false} MarkedSize(s: seq<Message>, marks: seq<bool>)
    requires |s| == |marks|
    ensures |Marked(s, marks)| + Dropped(marks) == |s|
  {
    if s != [] {
      MarkedSize(s[..|s| - 1], marks[..|s| - 1]);
    }
  }

  /** The marked messages are at these increasing positions. */
  ghost predicate Positions(s: seq<Message>, marks: seq<bool>, at: seq<nat>, picked: seq<Message>)
    requires |s| == |marks|
  {
    && |at| == |picked|
    && (forall k :: 0 <= k < |at| ==> at[k] < |s| && marks[at[k]] && s[at[k]] == picked[k])
    && forall j, k :: 0 <= j < k < |at| ==> at[j] < at[k]
  }

  lemma PositionsSnoc(s: seq<Message>, marks: seq<bool>, at: seq<nat>, picked: seq<Message>)
    requires |s| == |marks| > 0 && Positions(s[..|s| - 1], marks[..|s| - 1], at, picked)
    ensures Positions(s, marks, at, picked)
    ensures marks[|s| - 1] ==> Positions(s, marks, at + [|s| - 1], picked + [s[|s| - 1]])
  {
  }

  lemma {:induction false} MarkedInOrder(s: seq<Message>, marks: seq<bool>) returns (at: seq<nat>)
    requires |s| == |marks|
    ensures Positions(s, marks, at, Marked(s, marks))
  {
    if s == [] {
      at := [];
    } else {
      hide Positions;
      var n := |s| - 1;
      at := MarkedInOrder(s[..n], marks[..n]);
      PositionsSnoc(s, marks, at, Marked(s[..n], marks[..n]));
      at := if marks[n] then at + [n] else at;
    }
  }

  /** What a subscriber received and has buffered is a subsequence of what was published since it subscribed. */
  lemma ReceivedInOrder(c: Channel, published: seq<Message>) returns (at: seq<nat>)
    requires Sound(c) && Fed(c, published)
    ensures |at| == |c.received + c.buffer|
    ensures forall k :: 0 <= k < |at| ==> c.since <= at[k] < |published| && published[at[k]] == (c.received + c.buffer)[k]
    ensures forall j, k :: 0 <= j < k < |at| ==> at[j] < at[k]
  {
    var inner := MarkedInOrder(c.offered, c.kept);
    at := seq(|inner|, k requires 0 <= k < |inner| => c.since + inner[k]);
  }

  lemma OfferIsSound(c: Channel, m: Message, published: seq<Message>)
    requires Sound(c) && !c.closed && c.until.None? && Fed(c, published)
    ensures Sound(Offer(c, m)) && Fed(Offer(c, m), published + [m])
    ensures Dropped(Offer(c, m).kept) == Dropped(c.kept) + if |c.buffer| < CHANNEL_SIZE then 0 else 1
  {
    var d := Offer(c, m);
    var n := |c.offered|;
    assert d.offered[..n] == c.offered && d.kept[..n] == c.kept;
    if n < CHANNEL_SIZE {
      MarkedSize(c.offered, c.kept);
    }
    assert (published + [m])[c.since..] == published[c.since..] + [m];
  }

  lemma TakeIsSound(c: Channel)
    requires Sound(c) && c.buffer != []
    ensures Sound(Take(c))
  {
    assert c.received + [c.buffer[0]] + c.buffer[1..] == c.received + c.buffer;
  }

  lemma MoreWasPublished(c: Channel, published: seq<Message>, m: Message)
    requires Fed(c, published) && c.until.Some?
    ensures Fed(c, published + [m])
  {
  }

  // ---------------------------------------------------------------------------
  // Totals
  // ---------------------------------------------------------------------------

  function Offers(c: Channel): nat { |c.offered| }

  function Received(c: Channel): nat { |c.received| }

  function Buffered(c: Channel): nat { |c.buffer| }

  function Drops(c: Channel): nat { Dropped(c.kept) }

  ghost predicate AllSound(channels: seq<Channel>) {
    forall i :: 0 <= i < |channels| ==> Sound(channels[i])
  }

  /** Every attempted send was received, is buffered (discarded, once its channel is closed), or was dropped. */
  lemma {:induction false} AttemptsAddUp(channels: seq<Channel>)
    requires AllSound(channels)
    ensures Sum(channels, Offers) == Sum(channels, Received) + Sum(channels, Buffered) + Sum(channels, Drops)
  {
    if channels != [] {
      var n := |channels| - 1;
      AttemptsAddUp(channels[..n]);
      MarkedSize(channels[n].offered, channels[n].kept);
    }
  }

  // ---------------------------------------------------------------------------
  // The broker
  // ---------------------------------------------------------------------------

  /** Subscribers have different, open channels, and every channel with a subscription belongs to one. */
  ghost predicate Subscribed(channels: seq<Channel>, subscribers: map<string, nat>) {
    && (forall id :: id in subscribers ==> Live(channels, subscribers[id]))
    && (forall id, other :: id in subscribers && other in subscribers && id != other ==> subscribers[id] != subscribers[other])
    && (forall i :: 0 <= i < |channels| && channels[i].until.None? ==> i in subscribers.Values)
  }

  ghost predicate Live(channels: seq<Channel>, h: nat) {
    h < |channels| && channels[h].until.None? && !channels[h].closed
  }

  ghost predicate AllFed(channels: seq<Channel>, published: seq<Message>) {
    forall i :: 0 <= i < |channels| ==> Fed(channels[i], published)
  }

  function Fresh(since: nat): Channel {
    Channel([], false, since, None, [], [], [])
  }

  function Detached(c: Channel, closed: bool, now: nat): Channel {
    c.(closed := closed, until := Some(now))
  }

  /** The channel loses its subscription without being closed: its name was taken over. */
  function Displace(channels: seq<Channel>, subscribers: map<string, nat>, id: string, now: nat): seq<Channel>
    requires id in subscribers ==> subscribers[id] < |channels|
  {
    if id in subscribers then channels[subscribers[id] := Detached(channels[subscribers[id]], false, now)] else channels
  }

  lemma DetachKeepsHistory(channels: seq<Channel>, published: seq<Message>, h: nat, closed: bool)
    requires AllSound(channels) && AllFed(channels, published) && Live(channels, h)
    ensures
      var after := channels[h := Detached(channels[h], closed, |published|)];
      AllSound(after) && AllFed(after, published) && Sum(after, Drops) == Sum(channels, Drops)
  {
    var c := Detached(channels[h], closed, |published|);
    assert Sound(channels[h]) && Fed(channels[h], published);
    assert Sound(c) && Fed(c, published);
    hide Sound, Fed;
    SumUpdate(channels, h, c, Drops);
  }

  lemma Unmap(channels: seq<Channel>, subscribers: map<string, nat>, id: string, c: Channel)
    requires Subscribed(channels, subscribers) && id in subscribers && c.until.Some?
    ensures subscribers[id] < |channels|
    ensures Subscribed(channels[subscribers[id] := c], subscribers - {id})
  {
    var h := subscribers[id];
    assert Live(channels, h);
    var after, subs := channels[h := c], subscribers - {id};
    forall other | other in subs ensures Live(after, subs[other]) {
      assert Live(channels, subscribers[other]);
    }
    forall i | 0 <= i < |after| && after[i].until.None? ensures i in subs.Values {
      assert channels[i].until.None?;
      var other :| other in subscribers && subscribers[other] == i;
      assert other in subs && subs[other] == i;
    }
  }

  lemma Map(channels: seq<Channel>, subscribers: map<string, nat>, id: string, now: nat)
    requires Subscribed(channels, subscribers) && id !in subscribers
    ensures Subscribed(channels + [Fresh(now)], subscribers[id := |channels|])
  {
    var after, subs := channels + [Fresh(now)], subscribers[id := |channels|];
    forall other | other in subs ensures Live(after, subs[other]) {
      assert other != id ==> Live(channels, subscribers[other]);
    }
    forall other | other in subscribers ensures subscribers[other] != |channels| {
      assert Live(channels, subscribers[other]);
    }
    forall i | 0 <= i < |after| && after[i].until.None? ensures i in subs.Values {
      if i == |channels| {
        assert id in subs && subs[id] == i;
      } else {
        assert channels[i].until.None?;
        var other :| other in subscribers && subscribers[other] == i;
        assert other in subs && subs[other] == i;
      }
    }
  }

  lemma DisplaceIsSound(channels: seq<Channel>, subscribers: map<string, nat>, published: seq<Message>, id: string)
    requires AllSound(channels) && AllFed(channels, published) && Subscribed(channels, subscribers)
    ensures id in subscribers ==> subscribers[id] < |channels|
    ensures
      var after := Displace(channels, subscribers, id, |published|);
      && AllSound(after) && AllFed(after, published) && Subscribed(after, subscribers - {id})
      && Sum(after, Drops) == Sum(channels, Drops) && |after| == |channels|
  {
    hide AllSound, AllFed, Subscribed, Drops, Detached;
    if id in subscribers {
      Look(channels, subscribers, id);
      DetachKeepsHistory(channels, published, subscribers[id], false);
      DetachedIsOff(channels[subscribers[id]], false, |published|);
      Unmap(channels, subscribers, id, Detached(channels[subscribers[id]], false, |published|));
    } else {
      assert subscribers - {id} == subscribers;
    }
  }

  lemma DetachedIsOff(c: Channel, closed: bool, now: nat)
    ensures Detached(c, closed, now).until.Some?
  {
  }

  lemma FreshIsSound(channels: seq<Channel>, published: seq<Message>)
    requires AllSound(channels) && AllFed(channels, published)
    ensures
      var after := channels + [Fresh(|published|)];
      AllSound(after) && AllFed(after, published) && Sum(after, Drops) == Sum(channels, Drops)
  {
    SumAppend(channels, Fresh(|published|), Drops);
  }

  lemma Rename(subscribers: map<string, nat>, id: string, h: nat)
    ensures (subscribers - {id})[id := h] == subscribers[id := h]
  {
  }

  lemma SubscribeIsSound(channels: seq<Channel>, subscribers: map<string, nat>, published: seq<Message>, id: string)
    requires AllSound(channels) && AllFed(channels, published) && Subscribed(channels, subscribers)
    ensures id in subscribers ==> subscribers[id] < |channels|
    ensures
      var after := Displace(channels, subscribers, id, |published|) + [Fresh(|published|)];
      && AllSound(after) && AllFed(after, published) && Subscribed(after, subscribers[id := |channels|])
      && Sum(after, Drops) == Sum(channels, Drops)
  {
    DisplaceIsSound(channels, subscribers, published, id);
    hide AllSound, AllFed, Subscribed, Drops, Displace, Fresh;
    var displaced := Displace(channels, subscribers, id, |published|);
    FreshIsSound(displaced, published);
    Map(displaced, subscribers - {id}, id, |published|);
    Rename(subscribers, id, |channels|);
  }

  lemma Look(channels: seq<Channel>, subscribers: map<string, nat>, id: string)
    requires Subscribed(channels, subscribers) && id in subscribers
    ensures Live(channels, subscribers[id])
  {
  }

  /** The message was offered to exactly the channels in `done`. */
  ghost predicate OfferedTo(before: seq<Channel>, done: set<nat>, m: Message, after: seq<Channel>) {
    && |after| == |before|
    && forall i :: 0 <= i < |before| ==> after[i] == if i in done then Offer(before[i], m) else before[i]
  }

  lemma OfferOneMore(before: seq<Channel>, done: set<nat>, m: Message, now: seq<Channel>, h: nat)
    requires OfferedTo(before, done, m, now) && h < |now| && h !in done
    ensures now[h] == before[h]
    ensures OfferedTo(before, done + {h}, m, now[h := Offer(now[h], m)])
  {
  }

  /** The handles of the subscribers that are not left. */
  ghost function Handles(subscribers: map<string, nat>, left: set<string>): set<nat> {
    set id | id in subscribers && id !in left :: subscribers[id]
  }

  lemma OneLess(channels: seq<Channel>, subscribers: map<string, nat>, left: set<string>, id: string)
    requires Subscribed(channels, subscribers) && id in left && id in subscribers
    ensures Live(channels, subscribers[id]) && subscribers[id] !in Handles(subscribers, left)
    ensures Handles(subscribers, left - {id}) == Handles(subscribers, left) + {subscribers[id]}
  {
  }

  lemma PublishIsSound(before: seq<Channel>, subscribers: map<string, nat>, published: seq<Message>, m: Message, after: seq<Channel>)
    requires AllSound(before) && AllFed(before, published) && Subscribed(before, subscribers)
    requires OfferedTo(before, subscribers.Values, m, after)
    ensures AllSound(after) && AllFed(after, published + [m]) && Subscribed(after, subscribers)
  {
    hide Sound, Fed;
    forall i | 0 <= i < |after| ensures Sound(after[i]) && Fed(after[i], published + [m]) {
      if i in subscribers.Values {
        var id :| id in subscribers && subscribers[id] == i;
        assert Live(before, i);
        OfferIsSound(before[i], m, published);
      } else {
        MoreWasPublished(before[i], published, m);
      }
    }
    forall id | id in subscribers ensures Live(after, subscribers[id]) {
      assert Live(before, subscribers[id]);
    }
  }

  class Broker {
    var channels: seq<Channel>
    var subscribers: map<string, nat>
    var droppedTotal: nat
    var published: seq<Message>  // history, for the specification

    /** Every channel accounts for what was published during its subscription; the counter counts all drops. */
    ghost predicate Valid()
      reads this
    {
      && AllSound(channels) && AllFed(channels, published) && Subscribed(channels, subscribers)
      && droppedTotal == Sum(channels, Drops)
    }

    constructor ()
      ensures Valid() && channels == [] && subscribers == map[] && published == []
    {
      channels, subscribers, droppedTotal, published := [], map[], 0, [];
    }

    method Subscribe(id: string) returns (h: nat)
      requires Valid()
      modifies this
      ensures Valid() && published == old(published) && droppedTotal == old(droppedTotal)
      ensures h == |old(channels)| && subscribers == old(subscribers)[id := h]
      ensures channels == Displace(old(channels), old(subscribers), id, |published|) + [Fresh(|published|)]
    {
      hide Sound, Fed;
      SubscribeIsSound(channels, subscribers, published, id);
      h := |channels|;
      channels := Displace(channels, subscribers, id, |published|) + [Fresh(|published|)];
      subscribers := subscribers[id := h];
    }

    /** Close the channel of a subscriber, if there is one; no channel is closed twice. */
    method Unsubscribe(id: string)
      requires Valid()
      modifies this
      ensures Valid() && published == old(published) && droppedTotal == old(droppedTotal)
      ensures subscribers == old(subscribers) - {id}
      ensures id !in old(subscribers) ==> channels == old(channels)
      ensures id in old(subscribers) ==>
        var h := old(subscribers)[id];
        h < |old(channels)| && channels == old(channels)[h := Detached(old(channels)[h], true, |published|)]
    {
      hide Sound, Fed;
      if id in subscribers {
        Look(channels, subscribers, id);
        DetachKeepsHistory(channels, published, subscribers[id], true);
        Unmap(channels, subscribers, id, Detached(channels[subscribers[id]], true, |published|));
        Close(subscribers[id]);
        subscribers := subscribers - {id};
      } else {
        assert subscribers - {id} == subscribers;
      }
    }

    /** Closing a closed channel would panic. */
    method Close(h: nat)
      requires h < |channels| && !channels[h].closed
      modifies this`channels
      ensures channels == old(channels)[h := Detached(old(channels)[h], true, |published|)]
    {
      channels := channels[h := Detached(channels[h], true, |published|)];
    }

    /** Sending to a closed channel would panic; a full channel refuses. */
    method TrySend(h: nat, m: Message) returns (sent: bool)
      requires h < |channels| && !channels[h].closed
      modifies this`channels
      ensures channels == old(channels)[h := Offer(old(channels)[h], m)]
      ensures sent <==> |old(channels)[h].buffer| < CHANNEL_SIZE
    {
      sent := |channels[h].buffer| < CHANNEL_SIZE;
      channels := channels[h := Offer(channels[h], m)];
    }

    /** Offer the message to all subscribers, in any order. */
    method Publish(m: Message)
      requires Valid()
      modifies this
      ensures Valid() && published == old(published) + [m] && subscribers == old(subscribers)
      ensures OfferedTo(old(channels), subscribers.Values, m, channels)
    {
      hide Sound, Fed, AllSound, AllFed, Offer, Drops, OfferedTo, Subscribed, Handles;
      ghost var before := channels;
      var left := subscribers.Keys;
      PublishStarts(before, subscribers, m);
      while left != {}
        invariant left <= subscribers.Keys && subscribers == old(subscribers) && published == old(published)
        invariant |channels| == |before| && OfferedTo(before, Handles(subscribers, left), m, channels)
        invariant droppedTotal == Sum(channels, Drops)
        decreases left
      {
        var id :| id in left;
        var h := subscribers[id];
        OneLess(before, subscribers, left, id);
        OfferOneMore(before, Handles(subscribers, left), m, channels, h);
        DropsAfterOffer(channels, h, m);
        var sent := TrySend(h, m);
        if !sent {
          droppedTotal := droppedTotal + 1;
        }
        left := left - {id};
      }
      PublishEnds(subscribers);
      PublishIsSound(before, subscribers, published, m, channels);
      published := published + [m];
    }

    /** Take the oldest message from a channel, also from a closed one; `None` when there is none. */
    method Receive(h: nat) returns (m: Option<Message>)
      requires Valid() && h < |channels|
      modifies this`channels
      ensures Valid()
      ensures m.None? <==> old(channels)[h].buffer == []
      ensures m.None? ==> channels == old(channels)
      ensures m.Some? ==> m.value == old(channels)[h].buffer[0] && channels == old(channels)[h := Take(old(channels)[h])]
    {
      hide AllSound, AllFed, Subscribed, Take, Drops;
      if channels[h].buffer == [] {
        return None;
      }
      m := Some(channels[h].buffer[0]);
      TakeKeepsAll(channels, subscribers, published, h);
      channels := channels[h := Take(channels[h])];
    }
  }

  lemma PublishStarts(channels: seq<Channel>, subscribers: map<string, nat>, m: Message)
    ensures OfferedTo(channels, Handles(subscribers, subscribers.Keys), m, channels)
  {
  }

  lemma PublishEnds(subscribers: map<string, nat>)
    ensures Handles(subscribers, {}) == subscribers.Values
  {
  }

  lemma DropsAfterOffer(channels: seq<Channel>, h: nat, m: Message)
    requires h < |channels|
    ensures Sum(channels[h := Offer(channels[h], m)], Drops)
         == Sum(channels, Drops) + if |channels[h].buffer| < CHANNEL_SIZE then 0 else 1
  {
    var c := channels[h];
    SumUpdate(channels, h, Offer(c, m), Drops);
    assert Offer(c, m).kept[..|c.kept|] == c.kept;
  }

  lemma TakeKeepsAll(channels: seq<Channel>, subscribers: map<string, nat>, published: seq<Message>, h: nat)
    requires AllSound(channels) && AllFed(channels, published) && Subscribed(channels, subscribers)
    requires h < |channels| && channels[h].buffer != []
    ensures
      var after := channels[h := Take(channels[h])];
      && AllSound(after) && AllFed(after, published) && Subscribed(after, subscribers)
      && Sum(after, Drops) == Sum(channels, Drops)
  {
    hide Sound;
    TakeIsSound(channels[h]);
    SumUpdate(channels, h, Take(channels[h]), Drops);
    var after := channels[h := Take(channels[h])];
    forall id | id in subscribers ensures Live(after, subscribers[id]) {
      assert Live(channels, subscribers[id]);
    }
  }
}
