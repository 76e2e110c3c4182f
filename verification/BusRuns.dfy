/** What a subscriber of the bus gets, over every run of publishes, subscribes, cancels, closes and receives. */
module BusRuns {
  import opened BusModel

  function Front<T>(s: seq<T>): seq<T>
    requires s != []
  {
    s[..|s| - 1]
  }

  function Last<T>(s: seq<T>): T
    requires s != []
  {
    s[|s| - 1]
  }

  /** The events can happen in this order on a new bus. */
  ghost predicate IsRun<M(!new)>(es: seq<Event<M>>, capacity: nat)
    decreases |es|, 0
  {
    es == [] || (IsRun(Front(es), capacity) && Enabled(After(Front(es), capacity), Last(es)))
  }

  ghost function After<M(!new)>(es: seq<Event<M>>, capacity: nat): (s: State<M>)
    requires IsRun(es, capacity)
    ensures Valid(s) && s.capacity == capacity
    decreases |es|, 1
  {
    if es == [] then New(capacity)
    else
      var s := After(Front(es), capacity);
      StepKeeps(s, Last(es));
      Next(s, Last(es))
  }

  // ---------- what the events say ----------

  /** The topics of the successful subscriptions, in order. */
  ghost function Topics<M(!new)>(es: seq<Event<M>>): seq<Topic> {
    if es == [] then []
    else if Last(es).Subscribe? && Close !in Front(es) then Topics(Front(es)) + [Last(es).topic]
    else Topics(Front(es))
  }

  /** After these events subscription id exists, is on this topic, and neither it nor the bus was closed. */
  ghost predicate Listening<M(!new)>(es: seq<Event<M>>, id: nat, topic: Topic) {
    id < |Topics(es)| && Topics(es)[id] == topic && Close !in es && Cancel(id) !in es
  }

  /** Everything published on the topic of subscription id while it was open. */
  ghost function Offered<M(!new)>(es: seq<Event<M>>, id: nat): seq<M> {
    if es == [] then []
    else if Last(es).Publish? && Listening(Front(es), id, Last(es).topic) then Offered(Front(es), id) + [Last(es).msg]
    else Offered(Front(es), id)
  }

  /** What the subscriber has taken out of its queue. */
  ghost function Received<M(!new)>(es: seq<Event<M>>, capacity: nat, id: nat): seq<M>
    requires IsRun(es, capacity)
  {
    if es == [] then []
    else
      var s := After(Front(es), capacity);
      if Last(es) == Receive(id) && s.subs[id].queue != [] then Received(Front(es), capacity, id) + [s.subs[id].queue[0]]
      else Received(Front(es), capacity, id)
  }

  /** The last event publishes to subscription id and finds its queue full. */
  ghost predicate FindsFull<M(!new)>(es: seq<Event<M>>, capacity: nat, id: nat)
    requires IsRun(es, capacity) && es != []
  {
    var s := After(Front(es), capacity);
    Last(es).Publish? && Listening(Front(es), id, Last(es).topic) && id < |s.subs| && |s.subs[id].queue| >= capacity
  }

  /** Some publish found the queue full. */
  ghost predicate Overflowed<M(!new)>(es: seq<Event<M>>, capacity: nat, id: nat)
    requires IsRun(es, capacity)
  {
    es != [] && (FindsFull(es, capacity, id) || Overflowed(Front(es), capacity, id))
  }

  /** What was offered before the first publish that found the queue full. */
  ghost function BeforeOverflow<M(!new)>(es: seq<Event<M>>, capacity: nat, id: nat): seq<M>
    requires IsRun(es, capacity)
  {
    if !Overflowed(es, capacity, id) then Offered(es, id)
    else BeforeOverflow(Front(es), capacity, id)
  }

  /** What was received and what is still queued. */
  ghost function Delivered<M(!new)>(es: seq<Event<M>>, capacity: nat, id: nat): seq<M>
    requires IsRun(es, capacity)
  {
    var s := After(es, capacity);
    Received(es, capacity, id) + (if id < |s.subs| then s.subs[id].queue else [])
  }

  ghost predicate Subsequence<M(!new)>(a: seq<M>, b: seq<M>) {
    a == [] || (b != [] && ((Last(a) == Last(b) && Subsequence(Front(a), Front(b))) || Subsequence(a, Front(b))))
  }

  // ---------- the state is what the events say ----------

  lemma {:induction false} StateOfEvents<M(!new)>(es: seq<Event<M>>, capacity: nat)
    requires IsRun(es, capacity)
    ensures var s := After(es, capacity);
      |s.subs| == |Topics(es)| && (s.closed <==> Close in es) &&
      (forall id: nat :: Cancel(id) in es ==> id < |s.subs|) &&
      forall id: nat :: id < |s.subs| ==>
        s.subs[id].topic == Topics(es)[id] && (s.subs[id].closed <==> Close in es || Cancel(id) in es)
    decreases |es|
  {
    if es != [] {
      var f, e := Front(es), Last(es);
      StateOfEvents(f, capacity);
      var s := After(f, capacity);
      assert es == f + [e];
      assert forall x :: x in es <==> x in f || x == e;
      StepOfState(s, e);
    }
  }

  /** What one step does to the number, the topics and the flags of the subscriptions. */
  lemma StepOfState<M(!new)>(s: State<M>, e: Event<M>)
    requires Valid(s) && Enabled(s, e)
    ensures var s' := Next(s, e);
      (s'.closed <==> s.closed || e == Close) &&
      |s'.subs| == (if e.Subscribe? && !s.closed then |s.subs| + 1 else |s.subs|) &&
      (e.Subscribe? && !s.closed ==> s'.subs[|s.subs|] == Subscriber(e.topic, [], false)) &&
      forall id: nat :: id < |s.subs| ==>
        s'.subs[id].topic == s.subs[id].topic &&
        (s'.subs[id].closed <==> s.subs[id].closed || e == Cancel(id) || (e == Close && !s.closed))
  {
    match e
    case Publish(topic, msg) => DeliverToEach(s.subs, LiveOn(s, topic), s.capacity, msg);
    case Close =>
      forall id: nat | id < |s.subs| && !s.subs[id].closed ensures !s.closed ==> Next(s, e).subs[id].closed {
        assert id in LiveOn(s, s.subs[id].topic);
      }
    case _ =>
  }

  /** What one step does to the queue of a subscription. */
  lemma StepOfQueue<M(!new)>(s: State<M>, e: Event<M>, id: nat)
    requires Valid(s) && Enabled(s, e) && id < |s.subs|
    ensures id < |Next(s, e).subs|
    ensures Next(s, e).subs[id].queue ==
      (if e.Publish? && !s.subs[id].closed && s.subs[id].topic == e.topic && |s.subs[id].queue| < s.capacity
       then s.subs[id].queue + [e.msg]
       else if e == Receive(id) && s.subs[id].queue != [] then s.subs[id].queue[1..]
       else s.subs[id].queue)
  {
    match e
    case Publish(topic, msg) =>
      DeliverToEach(s.subs, LiveOn(s, topic), s.capacity, msg);
      if !s.subs[id].closed { assert id in LiveOn(s, s.subs[id].topic); }
    case _ =>
  }

  /** The last event hands a message to subscription id. */
  ghost predicate Offers<M(!new)>(es: seq<Event<M>>, id: nat) {
    es != [] && Last(es).Publish? && Listening(Front(es), id, Last(es).topic)
  }

  lemma ListeningIsOpen<M(!new)>(es: seq<Event<M>>, capacity: nat, id: nat, topic: Topic)
    requires IsRun(es, capacity)
    ensures var s := After(es, capacity);
      Listening(es, id, topic) <==> id < |s.subs| && s.subs[id].topic == topic && !s.subs[id].closed
  {
    hide IsRun, After;
    StateOfEvents(es, capacity);
  }

  lemma RunFront<M(!new)>(es: seq<Event<M>>, capacity: nat)
    requires IsRun(es, capacity) && es != []
    ensures IsRun(Front(es), capacity)
    ensures var s := After(Front(es), capacity);
      Valid(s) && Enabled(s, Last(es)) && After(es, capacity) == Next(s, Last(es))
  {
    hide Next, Valid;
  }

  /** Only an offer that finds room changes what has been delivered: it adds the message at the end. */
  lemma DeliveredStep<M(!new)>(es: seq<Event<M>>, capacity: nat, id: nat)
    requires IsRun(es, capacity) && es != []
    ensures IsRun(Front(es), capacity)
    ensures Delivered(es, capacity, id) ==
      if Offers(es, id) && !FindsFull(es, capacity, id) then Delivered(Front(es), capacity, id) + [Last(es).msg]
      else Delivered(Front(es), capacity, id)
  {
    hide Next, Valid, IsRun, After, Listening;
    RunFront(es, capacity);
    var s, e, r := After(Front(es), capacity), Last(es), Received(Front(es), capacity, id);
    if e.Publish? { ListeningIsOpen(Front(es), capacity, id, e.topic); }
    if id < |s.subs| {
      StepOfQueue(s, e, id);
      var q := s.subs[id].queue;
      if e == Receive(id) && q != [] {
        assert r + [q[0]] + q[1..] == r + q;
      } else if e.Publish? {
        assert r + (q + [e.msg]) == r + q + [e.msg];
      }
    } else {
      StepOfState(s, e);
    }
  }

  lemma SubsequenceGrows<M(!new)>(a: seq<M>, b: seq<M>, m: M)
    requires Subsequence(a, b)
    ensures Subsequence(a, b + [m]) && Subsequence(a + [m], b + [m])
  {
    assert Front(b + [m]) == b && Front(a + [m]) == a;
  }

  /** In every run, what a subscriber has received plus what it has queued is an in-order subsequence of
      what was published on its topic while it was open, complete up to the first publish that found its
      queue full, and all of it if none did. */
  lemma {:induction false} DeliveryIsFaithful<M(!new)>(es: seq<Event<M>>, capacity: nat, id: nat)
    requires IsRun(es, capacity)
    ensures Subsequence(Delivered(es, capacity, id), Offered(es, id))
    ensures BeforeOverflow(es, capacity, id) <= Delivered(es, capacity, id)
    ensures !Overflowed(es, capacity, id) ==> Delivered(es, capacity, id) == Offered(es, id)
    decreases |es|
  {
    if es == [] {
      NothingDelivered<M>(capacity, id);
    } else {
      var f := Front(es);
      DeliveredStep(es, capacity, id);
      DeliveryIsFaithful(f, capacity, id);
      OneMoreEvent(es, capacity, id);
    }
  }

  lemma NothingDelivered<M(!new)>(capacity: nat, id: nat)
    ensures Delivered<M>([], capacity, id) == [] == Offered<M>([], id)
  {
  }

  lemma OneMoreEvent<M(!new)>(es: seq<Event<M>>, capacity: nat, id: nat)
    requires es != [] && IsRun(es, capacity) && IsRun(Front(es), capacity)
    requires Delivered(es, capacity, id) ==
      if Offers(es, id) && !FindsFull(es, capacity, id) then Delivered(Front(es), capacity, id) + [Last(es).msg]
      else Delivered(Front(es), capacity, id)
    requires Subsequence(Delivered(Front(es), capacity, id), Offered(Front(es), id))
    requires BeforeOverflow(Front(es), capacity, id) <= Delivered(Front(es), capacity, id)
    requires !Overflowed(Front(es), capacity, id) ==> Delivered(Front(es), capacity, id) == Offered(Front(es), id)
    ensures Subsequence(Delivered(es, capacity, id), Offered(es, id))
    ensures BeforeOverflow(es, capacity, id) <= Delivered(es, capacity, id)
    ensures !Overflowed(es, capacity, id) ==> Delivered(es, capacity, id) == Offered(es, id)
  {
    hide Delivered, After, IsRun, Listening, Subsequence;
    if Offers(es, id) {
      SubsequenceGrows(Delivered(Front(es), capacity, id), Offered(Front(es), id), Last(es).msg);
    }
  }
}
