/** The in-process bus of `internal/bus/inproc/inproc.go` as a state machine: subscriptions with bounded
    queues, numbered in the order in which they were made, and a live list for every topic. */
module BusModel {
  type Topic = string

  datatype Subscriber<M> = Subscriber(topic: Topic, queue: seq<M>, closed: bool)

  datatype State<M> = State(closed: bool, capacity: nat, subs: seq<Subscriber<M>>, live: map<Topic, seq<nat>>)

  datatype Event<M> =
    | Publish(topic: Topic, msg: M)
    | Subscribe(topic: Topic)
    | Cancel(id: nat)
    | Close
    | Receive(id: nat)

  function New<M>(capacity: nat): State<M> { State(false, capacity, [], map[]) }

  function LiveOn<M>(s: State<M>, topic: Topic): seq<nat> {
    if topic in s.live then s.live[topic] else []
  }

  /** A full queue drops the message; a closed one ignores it. */
  function Offer<M>(sub: Subscriber<M>, capacity: nat, msg: M): Subscriber<M> {
    if sub.closed || |sub.queue| >= capacity then sub else sub.(queue := sub.queue + [msg])
  }

  function Deliver<M>(subs: seq<Subscriber<M>>, ids: seq<nat>, capacity: nat, msg: M): (r: seq<Subscriber<M>>)
    requires forall k :: 0 <= k < |ids| ==> ids[k] < |subs|
    ensures |r| == |subs|
  {
    if ids == [] then subs
    else
      var last := ids[|ids| - 1];
      var before := Deliver(subs, ids[..|ids| - 1], capacity, msg);
      before[last := Offer(before[last], capacity, msg)]
  }

  function Without(ids: seq<nat>, id: nat): seq<nat> {
    if ids == [] then [] else if ids[0] == id then ids[1..] else [ids[0]] + Without(ids[1..], id)
  }

  predicate IsLive<M>(s: State<M>, id: nat) {
    exists t :: t in s.live && id in s.live[t]
  }

  /** Every live list refers to existing subscriptions. */
  predicate Indexed<M>(s: State<M>) {
    forall t, k :: t in s.live && 0 <= k < |s.live[t]| ==> s.live[t][k] < |s.subs|
  }

  predicate Enabled<M>(s: State<M>, e: Event<M>) {
    match e
    case Cancel(id) => id < |s.subs|
    case Receive(id) => id < |s.subs|
    case _ => true
  }

  function Next<M>(s: State<M>, e: Event<M>): State<M>
    requires Indexed(s) && Enabled(s, e)
  {
    match e
    case Publish(topic, msg) =>
      if s.closed then s else s.(subs := Deliver(s.subs, LiveOn(s, topic), s.capacity, msg))
    case Subscribe(topic) =>
      if s.closed then s
      else s.(subs := s.subs + [Subscriber(topic, [], false)], live := s.live[topic := LiveOn(s, topic) + [|s.subs|]])
    case Cancel(id) =>
      var topic := s.subs[id].topic;
      s.(subs := s.subs[id := s.subs[id].(closed := true)],
         live := if id in LiveOn(s, topic) then s.live[topic := Without(s.live[topic], id)] else s.live)
    case Close =>
      if s.closed then s
      else s.(closed := true, live := map[],
              subs := seq(|s.subs|, k requires 0 <= k < |s.subs| =>
                        s.subs[k].(closed := s.subs[k].closed || IsLive(s, k))))
    case Receive(id) =>
      var q := s.subs[id].queue;
      if q == [] then s else s.(subs := s.subs[id := s.subs[id].(queue := q[1..])])
  }

  // ---------- what every step keeps ----------

  predicate Distinct(ids: seq<nat>) { forall j, k :: 0 <= j < k < |ids| ==> ids[j] != ids[k] }

  /** A live list names each open subscription of its topic once, and nothing else; no queue is longer than
      its bound; a closed bus has no open subscription. */
  ghost predicate Valid<M>(s: State<M>) {
    && Indexed(s)
    && (forall t :: t in s.live ==> Distinct(s.live[t]))
    && (forall t, id: nat :: t in s.live && id in s.live[t] ==> id < |s.subs| && s.subs[id].topic == t && !s.subs[id].closed)
    && (forall id :: 0 <= id < |s.subs| && !s.subs[id].closed ==> id in LiveOn(s, s.subs[id].topic))
    && (forall id :: 0 <= id < |s.subs| ==> |s.subs[id].queue| <= s.capacity)
    && (s.closed ==> s.live == map[])
  }

  /** A message reaches every subscription on a list without duplicates exactly once, and no other. */
  lemma {:induction false} DeliverToEach<M>(subs: seq<Subscriber<M>>, ids: seq<nat>, capacity: nat, msg: M)
    requires (forall k :: 0 <= k < |ids| ==> ids[k] < |subs|) && Distinct(ids)
    ensures forall id: nat :: id < |subs| ==>
      Deliver(subs, ids, capacity, msg)[id] == if id in ids then Offer(subs[id], capacity, msg) else subs[id]
  {
    if ids != [] {
      var front, last := ids[..|ids| - 1], ids[|ids| - 1];
      DeliverToEach(subs, front, capacity, msg);
      assert ids == front + [last];
      assert last !in front;
    }
  }

  lemma {:induction false} WithoutShape(ids: seq<nat>, id: nat)
    requires Distinct(ids)
    ensures Distinct(Without(ids, id))
    ensures forall x: nat :: x in Without(ids, id) <==> x in ids && x != id
  {
    if ids != [] {
      assert forall k :: 0 <= k < |ids[1..]| ==> ids[1..][k] == ids[k + 1];
      WithoutShape(ids[1..], id);
      assert ids == [ids[0]] + ids[1..];
      assert ids[0] !in ids[1..];
    }
  }

  lemma PublishKeeps<M>(s: State<M>, topic: Topic, msg: M)
    requires Valid(s)
    ensures Valid(Next(s, Publish(topic, msg)))
  {
    DeliverToEach(s.subs, LiveOn(s, topic), s.capacity, msg);
  }

  lemma SubscribeKeeps<M>(s: State<M>, topic: Topic)
    requires Valid(s)
    ensures Valid(Next(s, Subscribe(topic)))
  {
    var s', n, l := Next(s, Subscribe(topic)), |s.subs|, LiveOn(s, topic);
    if !s.closed {
      assert forall x: nat :: x in l ==> x < n;
      LiveAppend(l, n);
      forall t, x: nat | t in s'.live && x in s'.live[t]
        ensures x < |s'.subs| && s'.subs[x].topic == t && !s'.subs[x].closed
      {
        assert x == n || x in LiveOn(s, t);
      }
      forall id | 0 <= id < |s'.subs| && !s'.subs[id].closed ensures id in LiveOn(s', s'.subs[id].topic) {
        assert id < n ==> id in LiveOn(s, s.subs[id].topic);
      }
      IndexedByMembers(s');
    }
  }

  lemma LiveAppend(l: seq<nat>, n: nat)
    requires Distinct(l) && forall x: nat :: x in l ==> x < n
    ensures Distinct(l + [n]) && (forall x: nat :: x in l + [n] <==> x in l || x == n)
  {
    assert forall k :: 0 <= k < |l| ==> l[k] in l;
  }

  lemma IndexedByMembers<M>(s: State<M>)
    requires forall t, x: nat :: t in s.live && x in s.live[t] ==> x < |s.subs|
    ensures Indexed(s)
  {
    forall t, k | t in s.live && 0 <= k < |s.live[t]| ensures s.live[t][k] < |s.subs| {
      assert s.live[t][k] in s.live[t];
    }
  }

  lemma CancelKeeps<M>(s: State<M>, id: nat)
    requires Valid(s) && id < |s.subs|
    ensures Valid(Next(s, Cancel(id)))
  {
    var topic := s.subs[id].topic;
    WithoutShape(LiveOn(s, topic), id);
    var s' := Next(s, Cancel(id));
    forall t, x: nat | t in s'.live && x in s'.live[t]
      ensures x < |s'.subs| && s'.subs[x].topic == t && !s'.subs[x].closed
    {
      assert x in s.live[t];
    }
    IndexedByMembers(s');
  }

  lemma CloseKeeps<M>(s: State<M>)
    requires Valid(s)
    ensures Valid(Next(s, Close))
  {
    var s' := Next(s, Close);
    forall id: nat | id < |s.subs| ensures !s.closed ==> s'.subs[id].closed {
      if !s.subs[id].closed {
        assert id in LiveOn(s, s.subs[id].topic);
      }
    }
  }

  /** Every step of a bus keeps it valid: no send on a closed queue, no queue closed twice. */
  lemma StepKeeps<M>(s: State<M>, e: Event<M>)
    requires Valid(s) && Enabled(s, e)
    ensures Valid(Next(s, e))
  {
    hide Next;
    match e
    case Publish(topic, msg) => PublishKeeps(s, topic, msg);
    case Subscribe(topic) => SubscribeKeeps(s, topic);
    case Cancel(id) => CancelKeeps(s, id);
    case Close => CloseKeeps(s);
    case Receive(id) => ReceiveKeeps(s, id);
  }

  lemma ReceiveKeeps<M>(s: State<M>, id: nat)
    requires Valid(s) && id < |s.subs|
    ensures Valid(Next(s, Receive(id)))
  {
  }
}
