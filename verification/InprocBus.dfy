/** The in-process bus of `internal/bus/inproc/inproc.go`: subscriptions are objects shared by the live
    lists and the cancel closures. */
module InprocBus {
  import opened Wrappers
  import opened BusModel

  /** A Go channel of bounded capacity: sending on or closing a closed channel would panic. */
  class Channel<M> {
    const capacity: nat
    var queue: seq<M>
    var closed: bool

    constructor (capacity: nat)
      ensures this.capacity == capacity && queue == [] && !closed
    {
      this.capacity := capacity;
      queue, closed := [], false;
    }

    /** The non-blocking send of a select with a default branch. */
    method TrySend(msg: M)
      requires !closed
      modifies this
      ensures queue == (if |old(queue)| < capacity then old(queue) + [msg] else old(queue)) && closed == old(closed)
    {
      if |queue| < capacity {
        queue := queue + [msg];
      }
    }

    method CloseChannel()
      requires !closed
      modifies this
      ensures closed && queue == old(queue)
    {
      closed := true;
    }
  }

  /** `id` numbers the subscriptions of a bus in the order in which they were made. */
  class Subscription<M> {
    ghost const id: nat
    const topic: Topic
    const ch: Channel<M>
    var closed: bool

    ghost predicate Valid()
      reads this, ch
    {
      closed == ch.closed
    }

    ghost function Abs(): Subscriber<M>
      reads this, ch
    {
      Subscriber(topic, ch.queue, closed)
    }

    constructor (ghost id: nat, topic: Topic, capacity: nat)
      ensures this.id == id && Valid() && fresh(ch) && ch.capacity == capacity && Abs() == Subscriber(topic, [], false)
    {
      this.id := id;
      this.topic := topic;
      this.ch := new Channel(capacity);
      closed := false;
    }

    method Deliver(msg: M)
      requires Valid()
      modifies ch
      ensures Valid() && Abs() == Offer(old(Abs()), ch.capacity, msg)
    {
      if closed {
        return;
      }
      ch.TrySend(msg);
    }

    method CloseSubscription()
      requires Valid()
      modifies this, ch
      ensures Valid() && Abs() == old(Abs()).(closed := true)
    {
      if closed {
        return;
      }
      closed := true;
      ch.CloseChannel();
    }
  }

  class Bus<M> {
    const bufferSize: nat
    var closed: bool
    var subs: map<Topic, seq<Subscription<M>>>
    ghost var all: seq<Subscription<M>>

    ghost function Channels(): set<Channel<M>>
      reads this
    {
      ChannelsOf(all)
    }

    static ghost function ChannelsOf(all: seq<Subscription<M>>): set<Channel<M>> {
      set k | 0 <= k < |all| :: all[k].ch
    }

    /** Every subscription has its own channel. */
    ghost predicate Objects()
      reads this, all, Channels()
    {
      ObjectsOf(all, bufferSize)
    }

    static ghost predicate ObjectsOf(all: seq<Subscription<M>>, bufferSize: nat)
      reads all, ChannelsOf(all)
    {
      && (forall k :: 0 <= k < |all| ==> all[k].id == k && all[k].ch.capacity == bufferSize)
      && (forall j, k :: 0 <= j < k < |all| ==> all[j].ch != all[k].ch)
      && (forall k :: 0 <= k < |all| ==> all[k].Valid())
    }

    /** The lists refer to subscriptions of this bus. */
    ghost predicate Lists()
      reads this
    {
      forall t :: t in subs ==> Known(subs[t])
    }

    ghost predicate Known(list: seq<Subscription<M>>)
      reads this
    {
      forall k :: 0 <= k < |list| ==> list[k].id < |all| && all[list[k].id] == list[k]
    }

    /** ... and the bus is in a valid state of the state machine. */
    ghost predicate Valid()
      reads this, all, Channels()
    {
      Objects() && Lists() && BusModel.Valid(Abs())
    }

    static ghost function Ids(list: seq<Subscription<M>>): (ids: seq<nat>)
      ensures |ids| == |list| && forall k :: 0 <= k < |list| ==> ids[k] == list[k].id
    {
      seq(|list|, k requires 0 <= k < |list| => list[k].id)
    }

    ghost function Subscribers(): (s: seq<Subscriber<M>>)
      reads this, all, Channels()
      ensures |s| == |all| && forall k :: 0 <= k < |all| ==> s[k] == all[k].Abs()
    {
      Views(all)
    }

    static ghost function Views(list: seq<Subscription<M>>): (s: seq<Subscriber<M>>)
      reads list, ChannelsOf(list)
      ensures |s| == |list| && forall k :: 0 <= k < |list| ==> s[k] == list[k].Abs()
    {
      if list == [] then [] else Views(list[..|list| - 1]) + [list[|list| - 1].Abs()]
    }

    ghost function Live(): map<Topic, seq<nat>>
      reads this
    {
      LiveOf(subs)
    }

    static ghost function LiveOf(subs: map<Topic, seq<Subscription<M>>>): map<Topic, seq<nat>> {
      map t | t in subs :: Ids(subs[t])
    }

    static lemma LiveUpdate(subs: map<Topic, seq<Subscription<M>>>, topic: Topic, list: seq<Subscription<M>>)
      ensures LiveOf(subs[topic := list]) == LiveOf(subs)[topic := Ids(list)]
      ensures topic in LiveOf(subs) <==> topic in subs
      ensures topic in subs ==> LiveOf(subs)[topic] == Ids(subs[topic])
    {
      hide Ids;
    }

    static lemma IdsAppend(list: seq<Subscription<M>>, s: Subscription<M>)
      ensures Ids(list + [s]) == Ids(list) + [s.id] && Ids([]) == []
    {
    }

    static lemma IdsWithout(list: seq<Subscription<M>>, i: nat)
      requires i < |list| && forall k :: 0 <= k < i ==> list[k].id != list[i].id
      ensures list[i].id in Ids(list)
      ensures Ids(list[..i] + list[i + 1..]) == Without(Ids(list), list[i].id)
    {
      WithoutAt(Ids(list), i);
      assert Ids(list[..i] + list[i + 1..]) == Ids(list)[..i] + Ids(list)[i + 1..];
      assert Ids(list)[i] in Ids(list);
    }

    static lemma NotInIds(list: seq<Subscription<M>>, id: nat)
      requires forall k :: 0 <= k < |list| ==> list[k].id != id
      ensures id !in Ids(list)
    {
    }

    ghost function Abs(): State<M>
      reads this, all, Channels()
    {
      State(closed, bufferSize, Subscribers(), Live())
    }

    ghost function Stepped(e: Event<M>): State<M>
      requires Valid() && Enabled(Abs(), e)
      reads this, all, Channels()
    {
      Next(Abs(), e)
    }

    constructor (bufferSize: nat)
      ensures Valid() && fresh(Channels()) && Abs() == New(bufferSize)
    {
      this.bufferSize := bufferSize;
      closed, subs, all := false, map[], [];
    }

    method DeliverToOne(sub: Subscription<M>, msg: M)
      requires Objects() && sub.id < |all| && all[sub.id] == sub
      modifies Channels()
      ensures Objects()
      ensures Subscribers() == old(Subscribers())[sub.id := Offer(old(Subscribers())[sub.id], bufferSize, msg)]
    {
      hide Views;
      sub.Deliver(msg);
    }

    method DeliverToAll(list: seq<Subscription<M>>, msg: M)
      requires Objects() && Known(list)
      modifies Channels()
      ensures Objects()
      ensures Subscribers() == BusModel.Deliver(old(Subscribers()), Ids(list), bufferSize, msg)
    {
      hide Views, Objects, Offer;
      ghost var ids, start := Ids(list), Subscribers();
      var i := 0;
      while i < |list|
        invariant 0 <= i <= |list| && Objects()
        invariant Subscribers() == BusModel.Deliver(start, ids[..i], bufferSize, msg)
      {
        assert ids[..i + 1][..i] == ids[..i] && ids[..i + 1][i] == list[i].id;
        DeliverToOne(list[i], msg);
        i := i + 1;
      }
      assert ids[..|list|] == ids;
    }

    /** Hands the message to every subscription on the topic, without waiting for slow ones. */
    method Publish(topic: Topic, msg: M) returns (ok: bool)
      requires Valid()
      modifies Channels()
      ensures Valid() && ok == !closed
      ensures Abs() == old(Stepped(Event.Publish(topic, msg)))
    {
      hide Views, BusModel.Valid;
      StepKeeps(Abs(), Event.Publish(topic, msg));
      if closed {
        return false;
      }
      DeliverToAll(if topic in subs then subs[topic] else [], msg);
      return true;
    }

    /** Registers a new subscription; None on a closed bus. */
    method Subscribe(topic: Topic) returns (sub: Option<Subscription<M>>)
      requires Valid()
      modifies this
      ensures Valid() && fresh(Channels() - old(Channels()))
      ensures Abs() == old(Stepped(Event.Subscribe(topic)))
      ensures sub.None? <==> old(closed)
      ensures sub.Some? ==> fresh(sub.value) && all == old(all) + [sub.value]
      ensures sub.None? ==> all == old(all)
    {
      hide BusModel.Valid, Views, ObjectsOf, Ids;
      StepKeeps(Abs(), Event.Subscribe(topic));
      if closed {
        return None;
      }
      var s := NewSubscription(topic);
      Register(s, topic);
      return Some(s);
    }

    method NewSubscription(topic: Topic) returns (s: Subscription<M>)
      requires Objects()
      ensures Objects() && Subscribers() == old(Subscribers())
      ensures fresh(s) && fresh(s.ch) && s.id == |all| && s.ch.capacity == bufferSize && s.Valid()
      ensures s.Abs() == Subscriber(topic, [], false) && s.ch !in Channels()
    {
      s := new Subscription(|all|, topic, bufferSize);
    }

    static lemma ChannelsAppend(all: seq<Subscription<M>>, s: Subscription<M>)
      ensures ChannelsOf(all + [s]) == ChannelsOf(all) + {s.ch}
    {
      var more := all + [s];
      assert more[|all|] == s;
      forall c | c in ChannelsOf(all) ensures c in ChannelsOf(more) {
        var k :| 0 <= k < |all| && c == all[k].ch;
        assert more[k].ch == c;
      }
    }

    static lemma ObjectsAppend(all: seq<Subscription<M>>, bufferSize: nat, s: Subscription<M>)
      requires ObjectsOf(all, bufferSize)
      requires s.id == |all| && s.ch.capacity == bufferSize && s.Valid() && s.ch !in ChannelsOf(all)
      ensures ObjectsOf(all + [s], bufferSize)
    {
      var more := all + [s];
      assert forall k :: 0 <= k < |all| ==> more[k] == all[k] && all[k].ch in ChannelsOf(all);
    }

    static lemma ViewsAppend(all: seq<Subscription<M>>, s: Subscription<M>)
      ensures Views(all + [s]) == Views(all) + [s.Abs()]
    {
      assert (all + [s])[..|all|] == all;
    }

    method Register(s: Subscription<M>, topic: Topic)
      requires Objects() && Lists()
      requires s.id == |all| && s.ch.capacity == bufferSize && s.Valid() && s.ch !in Channels()
      modifies this`all, this`subs
      ensures Objects() && Lists() && all == old(all) + [s] && Channels() == old(Channels()) + {s.ch}
      ensures Subscribers() == old(Subscribers()) + [s.Abs()]
      ensures Live() == old(Live())[topic := old(if topic in Live() then Live()[topic] else []) + [s.id]]
    {
      hide Views, ObjectsOf;
      ChannelsAppend(all, s);
      ObjectsAppend(all, bufferSize, s);
      ViewsAppend(all, s);
      all := all + [s];
      AddToList(s, topic);
    }

    method AddToList(s: Subscription<M>, topic: Topic)
      requires s.id < |all| && all[s.id] == s
      requires forall t, k :: t in subs && 0 <= k < |subs[t]| ==> subs[t][k].id < |all| && all[subs[t][k].id] == subs[t][k]
      modifies this`subs
      ensures Lists()
      ensures Live() == old(Live())[topic := old(if topic in Live() then Live()[topic] else []) + [s.id]]
    {
      hide Ids, LiveOf;
      var list := if topic in subs then subs[topic] else [];
      LiveUpdate(subs, topic, list + [s]);
      IdsAppend(list, s);
      subs := subs[topic := list + [s]];
    }

    /** The cancel closure of a subscription: takes it off its topic's list and closes it. */
    method CancelSubscription(sub: Subscription<M>)
      requires Valid() && sub.id < |all| && all[sub.id] == sub
      modifies this`subs, sub, Channels()
      ensures Valid() && all == old(all)
      ensures Abs() == old(Stepped(Event.Cancel(sub.id)))
    {
      hide BusModel.Valid, Views, ObjectsOf, Ids;
      StepKeeps(Abs(), Event.Cancel(sub.id));
      assert Subscribers()[sub.id].topic == sub.topic;
      RemoveFromList(sub);
      CloseOne(sub);
    }

    method CloseOne(sub: Subscription<M>)
      requires Objects() && sub.id < |all| && all[sub.id] == sub
      modifies sub, sub.ch
      ensures Objects()
      ensures Subscribers() == old(Subscribers())[sub.id := old(Subscribers())[sub.id].(closed := true)]
    {
      hide Views;
      sub.CloseSubscription();
    }

    method RemoveFromList(sub: Subscription<M>)
      requires Lists() && sub.id < |all| && all[sub.id] == sub
      modifies this`subs
      ensures Lists()
      ensures Live() == old(if sub.topic in Live() && sub.id in Live()[sub.topic]
                            then Live()[sub.topic := Without(Live()[sub.topic], sub.id)] else Live())
    {
      hide Ids, LiveOf, Without;
      LiveUpdate(subs, sub.topic, []);
      if sub.topic in subs {
        var list := subs[sub.topic];
        var i := 0;
        while i < |list|
          invariant 0 <= i <= |list| && forall k :: 0 <= k < i ==> list[k] != sub
        {
          if list[i] == sub {
            var rest := list[..i] + list[i + 1..];
            IdsWithout(list, i);
            LiveUpdate(subs, sub.topic, rest);
            subs := subs[sub.topic := rest];
            return;
          }
          i := i + 1;
        }
        NotInIds(list, sub.id);
      }
    }

    static lemma {:induction false} WithoutAt(ids: seq<nat>, i: nat)
      requires i < |ids| && forall k :: 0 <= k < i ==> ids[k] != ids[i]
      ensures Without(ids, ids[i]) == ids[..i] + ids[i + 1..]
    {
      if i > 0 {
        WithoutAt(ids[1..], i - 1);
        assert ids[..i] + ids[i + 1..] == [ids[0]] + (ids[1..][..i - 1] + ids[1..][i..]);
      }
    }

    /** Closes every live subscription and empties the lists. */
    method CloseBus()
      requires Valid()
      modifies this`closed, this`subs, all, Channels()
      ensures Valid() && all == old(all)
      ensures Abs() == old(Stepped(Event.Close))
    {
      hide BusModel.Valid, Views, ObjectsOf, Ids, Next, IsLive, Listed, LiveOf, Indexed;
      StepKeeps(Abs(), Event.Close);
      ghost var s := Abs();
      ValidIsIndexed(s);
      if closed {
        CloseAgain(s);
        return;
      }
      closed := true;
      assert Subscribers() == s.subs;
      CloseAll();
      ListedIsLive(s);
      ghost var views := Subscribers();
      forall k: nat | k < |views| ensures views[k] == s.subs[k].(closed := s.subs[k].closed || IsLive(s, k)) {
        assert Listed(subs.Keys, k) <==> IsLive(s, k);
      }
      CloseIs(s, views);
      subs := map[];
      assert Subscribers() == views;
      NothingLive();
    }

    /** Some list of a topic in `done` names subscription k. */
    ghost predicate Listed(done: set<Topic>, k: nat)
      reads this
    {
      exists t :: t in done && t in Live() && k in Live()[t]
    }

    lemma ListedIsLive(s: State<M>)
      requires s.live == Live()
      ensures forall k: nat :: Listed(subs.Keys, k) <==> IsLive(s, k)
    {
    }

    lemma ListedNowhere()
      ensures forall k: nat :: !Listed({}, k)
    {
    }

    lemma ListedMore(done: set<Topic>, t: Topic)
      requires t in subs
      ensures forall k: nat :: Listed(done + {t}, k) <==> Listed(done, k) || k in Ids(subs[t])
    {
      assert Live()[t] == Ids(subs[t]);
    }

    static lemma ValidIsIndexed(s: State<M>)
      requires BusModel.Valid(s)
      ensures Indexed(s)
    {
    }

    static lemma NothingLive()
      ensures LiveOf(map[]) == map[]
    {
    }

    static lemma CloseAgain(s: State<M>)
      requires Indexed(s) && s.closed
      ensures Next(s, Event.Close) == s
    {
    }

    static lemma CloseIs(s: State<M>, views: seq<Subscriber<M>>)
      requires Indexed(s) && |views| == |s.subs|
      requires forall k: nat :: k < |views| ==> views[k] == s.subs[k].(closed := s.subs[k].closed || IsLive(s, k))
      ensures !s.closed ==> Next(s, Event.Close) == s.(closed := true, live := map[], subs := views)
    {
    }

    method CloseList(list: seq<Subscription<M>>)
      requires Objects() && Known(list)
      modifies all, Channels()
      ensures Objects()
      ensures forall k: nat :: k < |all| ==>
        Subscribers()[k] == old(Subscribers())[k].(closed := old(Subscribers())[k].closed || k in Ids(list))
    {
      hide Views, Objects;
      ghost var start, ids := Subscribers(), Ids(list);
      for i := 0 to |list|
        invariant Objects()
        invariant forall k: nat :: k < |all| ==>
          Subscribers()[k] == start[k].(closed := start[k].closed || k in ids[..i])
      {
        assert ids[..i + 1] == ids[..i] + [list[i].id];
        CloseOne(list[i]);
      }
      assert ids[..|list|] == ids;
    }

    method CloseAll()
      requires Objects() && Lists()
      modifies all, Channels()
      ensures Objects()
      ensures forall k: nat :: k < |all| ==>
        Subscribers()[k] == old(Subscribers())[k].(closed := old(Subscribers())[k].closed || Listed(subs.Keys, k))
    {
      hide Views, Objects, LiveOf, Listed, Ids;
      ghost var start := Subscribers();
      ListedNowhere();
      var topics := subs.Keys;
      ghost var done: set<Topic> := {};
      while topics != {}
        invariant Objects() && done + topics == subs.Keys
        invariant forall k: nat :: k < |all| ==>
          Subscribers()[k] == start[k].(closed := start[k].closed || Listed(done, k))
        decreases |topics|
      {
        var t :| t in topics;
        CloseList(subs[t]);
        ListedMore(done, t);
        topics := topics - {t};
        done := done + {t};
      }
      assert done == subs.Keys;
    }

    /** What a subscriber reads from its channel without waiting. */
    method Receive(sub: Subscription<M>) returns (r: Option<M>)
      requires Valid() && sub.id < |all| && all[sub.id] == sub
      modifies sub.ch
      ensures Valid()
      ensures r == old(if sub.ch.queue == [] then None else Some(sub.ch.queue[0]))
      ensures Abs() == old(Stepped(Event.Receive(sub.id)))
    {
      hide BusModel.Valid, Views;
      StepKeeps(Abs(), Event.Receive(sub.id));
      if sub.ch.queue == [] {
        return None;
      }
      r := Some(sub.ch.queue[0]);
      ghost var was := Subscribers();
      sub.ch.queue := sub.ch.queue[1..];
      assert Subscribers() == was[sub.id := was[sub.id].(queue := was[sub.id].queue[1..])];
    }
  }
}
