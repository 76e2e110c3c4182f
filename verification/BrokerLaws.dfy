/** Who speaks, how often, and how a run ends: over every environment. */
module BrokerLaws {
  import opened Wrappers
  import opened Policy
  import opened Broker
  import PeerConfig

  /** What accepted flags give: at least two distinct peers, a transport for each, an opener among them. */
  predicate Usable(conv: Conversation, s: Surface) {
    s.NPeer? && |s.order| >= 2 && Distinct(s.order) && s.transports == (set id | id in s.order) && conv.openerId in s.order &&
    conv.openerId != ""
  }

  lemma UsableIsMany(conv: Conversation, s: Surface)
    requires Usable(conv, s)
    ensures ManyPeers(s) && PeerIds(s) == s.order && OpenerOf(conv, s) == conv.openerId
    ensures forall id :: id in s.order ==> TransportFor(s, id) == ById(id)
  {
    assert s.order[0] in s.transports;
  }

  lemma SpeakerStep(conv: Conversation, s: Surface, env: nat -> Round, k: nat)
    requires Usable(conv, s)
    ensures var from := Speaker(conv, s, env, k);
      Speaker(conv, s, env, k + 1) == Policy.Next(from, NextResponse(conv, TextOf(env(k).delivery)), s.order).next
    ensures TurnAt(conv, s, env, k).toId == Speaker(conv, s, env, k + 1)
    ensures TurnAt(conv, s, env, k).fromId == Speaker(conv, s, env, k)
  {
    UsableIsMany(conv, s);
  }

  /** Every speaker is a declared peer and is reached over its own transport, the one a turn is addressed
      to speaks next, and nobody speaks twice in a row. */
  lemma {:induction false} RoutingChain(conv: Conversation, s: Surface, env: nat -> Round, k: nat)
    requires Usable(conv, s)
    ensures Speaker(conv, s, env, k) in s.order
    ensures TransportFor(s, Speaker(conv, s, env, k)) == ById(Speaker(conv, s, env, k))
    ensures TurnAt(conv, s, env, k).toId == TurnAt(conv, s, env, k + 1).fromId == Speaker(conv, s, env, k + 1)
    ensures Speaker(conv, s, env, k + 1) != Speaker(conv, s, env, k) && Speaker(conv, s, env, k + 1) in s.order
    decreases k
  {
    UsableIsMany(conv, s);
    if k > 0 { RoutingChain(conv, s, env, k - 1); }
    SpeakerStep(conv, s, env, k);
    SpeakerStep(conv, s, env, k + 1);
    NextIsAnotherPeer(Speaker(conv, s, env, k), NextResponse(conv, TextOf(env(k).delivery)), s.order);
  }

  /** The same, read off the log of a run that was started with accepted flags. */
  lemma RunRoutesAmongDeclaredPeers(raws: seq<string>, broadcast: string, opener: string, cfg: PeerConfig.Config,
                                    conv: Conversation, s: Surface, env: nat -> Round, r: FinalResult)
    requires PeerConfig.Accepts(raws, broadcast, opener)
    requires PeerConfig.Reads(cfg, raws, broadcast, opener)
    requires s == NPeer(PeerConfig.Order(cfg.peers), set id | id in PeerConfig.Order(cfg.peers))
    requires conv.openerId == cfg.openerId && EndedBy(conv, s, env, r)
    ensures r.turns != [] ==> r.turns[0].fromId == cfg.openerId
    ensures forall k :: 0 <= k < |r.turns| ==>
      r.turns[k].fromId in s.order && r.turns[k].toId in s.order && r.turns[k].toId != r.turns[k].fromId &&
      TransportFor(s, r.turns[k].fromId) == ById(r.turns[k].fromId)
    ensures forall k :: 0 <= k && k + 1 < |r.turns| ==> r.turns[k].toId == r.turns[k + 1].fromId
  {
    PeerConfig.AcceptedConfigIsUsable(raws, broadcast, opener, cfg);
    OpenerIsNamed(cfg);
    forall k: nat | k < |r.turns|
      ensures r.turns[k].fromId in s.order && r.turns[k].toId in s.order && r.turns[k].toId != r.turns[k].fromId &&
        TransportFor(s, r.turns[k].fromId) == ById(r.turns[k].fromId) &&
        (k + 1 < |r.turns| ==> r.turns[k].toId == r.turns[k + 1].fromId)
    {
      RoutingChain(conv, s, env, k);
      assert r.turns[k].fromId == Speaker(conv, s, env, k);
    }
    if r.turns != [] {
      UsableIsMany(conv, s);
      assert r.turns[0].fromId == Speaker(conv, s, env, 0);
    }
  }

  lemma OpenerIsNamed(cfg: PeerConfig.Config)
    requires cfg.openerId in PeerConfig.Order(cfg.peers)
    requires forall k :: 0 <= k < |cfg.peers| ==> Policy.ValidId(cfg.peers[k].id)
    ensures cfg.openerId != ""
  {
  }

  /** A trailer naming another declared peer decides who speaks next. */
  lemma AddressedPeerSpeaksNext(conv: Conversation, s: Surface, env: nat -> Round, k: nat, text: string, id: PeerID)
    requires Usable(conv, s) && ValidId(id) && id in s.order && id != Speaker(conv, s, env, k)
    requires NextResponse(conv, TextOf(env(k).delivery)) == text + "\n" + (NEXT_OPEN + " " + id + "" + NEXT_CLOSE)
    ensures Speaker(conv, s, env, k + 1) == id
  {
    hide Policy.Next, NextResponse;
    SpeakerStep(conv, s, env, k);
    TrailerIsObeyed(Speaker(conv, s, env, k), text, " ", id, "", s.order);
  }

  // ---------- the schedule without trailers ----------

  predicate NoTrailers(conv: Conversation, env: nat -> Round, n: nat) {
    forall k: nat :: k < n ==> Trailer(NextResponse(conv, TextOf(env(k).delivery))) == None
  }

  lemma ModUnique(x: nat, q: nat, r: nat, n: nat)
    requires n > 0 && r < n && x == q * n + r
    ensures x % n == r
  {
    var d := x / n;
    assert x == d * n + x % n;
    MulMono(q + 1, d, n);
    MulMono(d + 1, q, n);
  }

  lemma MulMono(a: int, b: int, n: nat)
    ensures a <= b ==> a * n <= b * n
  {
  }

  lemma ModAdd(x: nat, d: nat, n: nat)
    requires n > 0 && d < n
    ensures (x + d) % n == if x % n + d < n then x % n + d else x % n + d - n
  {
    var q, r := x / n, x % n;
    assert x == q * n + r;
    if r + d < n {
      ModUnique(x + d, q, r + d, n);
    } else {
      assert (q + 1) * n == q * n + n;
      ModUnique(x + d, q + 1, r + d - n, n);
    }
  }

  lemma NextWithoutTrailer(peers: seq<PeerID>, p: nat, reply: string)
    requires p < |peers| && Distinct(peers) && Trailer(reply) == None
    ensures Policy.Next(peers[p], reply, peers).next == peers[if p + 1 < |peers| then p + 1 else 0]
  {
    var j := IndexOf(peers, peers[p]);
    assert peers[j] == peers[p];
  }

  /** Without trailers turn k is spoken by the peer k places behind the opener, in declared order, modulo
      the number of peers. */
  lemma {:induction false} RoundRobinSchedule(conv: Conversation, s: Surface, env: nat -> Round, k: nat)
    requires Usable(conv, s) && NoTrailers(conv, env, k)
    ensures Speaker(conv, s, env, k) == s.order[(IndexOf(s.order, conv.openerId) + k) % |s.order|]
    decreases k
  {
    hide Trailer, NextResponse, Speaker, TurnAt, Policy.Next;
    var n, i := |s.order|, IndexOf(s.order, conv.openerId);
    if k == 0 {
      UsableIsMany(conv, s);
      SpeakerAtFirst(conv, s, env);
      ModUnique(i, 0, i, n);
    } else {
      RoundRobinSchedule(conv, s, env, k - 1);
      SpeakerStep(conv, s, env, k - 1);
      var x := i + k - 1;
      NextWithoutTrailer(s.order, x % n, NextResponse(conv, TextOf(env(k - 1).delivery)));
      ModAdd(x, 1, n);
    }
  }

  lemma SpeakerAtFirst(conv: Conversation, s: Surface, env: nat -> Round)
    ensures Speaker(conv, s, env, 0) == OpenerOf(conv, s)
  {
  }

  /** Who speaks d turns behind turn `start`. */
  lemma SpeakerInRound(conv: Conversation, s: Surface, env: nat -> Round, start: nat, d: nat)
    requires Usable(conv, s) && NoTrailers(conv, env, start + |s.order|) && d < |s.order|
    ensures var r := (IndexOf(s.order, conv.openerId) + start) % |s.order|;
      Speaker(conv, s, env, start + d) == s.order[Place(r, d, |s.order|)]
  {
    hide Trailer, NextResponse, Speaker, IndexOf;
    RoundRobinSchedule(conv, s, env, start + d);
    ModAdd(IndexOf(s.order, conv.openerId) + start, d, |s.order|);
  }

  /** Any n consecutive turns of n peers give every peer the word exactly once. */
  lemma EveryPeerOncePerRound(conv: Conversation, s: Surface, env: nat -> Round, start: nat, id: PeerID)
    requires Usable(conv, s) && NoTrailers(conv, env, start + |s.order|) && id in s.order
    ensures exists k: nat :: start <= k < start + |s.order| && Speaker(conv, s, env, k) == id
    ensures forall j: nat, k: nat :: start <= j < k < start + |s.order| ==>
              Speaker(conv, s, env, j) != Speaker(conv, s, env, k)
  {
    hide Speaker, NoTrailers;
    SpeaksInRound(conv, s, env, start, id);
    forall j: nat, k: nat | start <= j < k < start + |s.order| ensures Speaker(conv, s, env, j) != Speaker(conv, s, env, k) {
      TwoInRound(conv, s, env, start, j - start, k - start);
    }
  }

  lemma SpeaksInRound(conv: Conversation, s: Surface, env: nat -> Round, start: nat, id: PeerID)
    requires Usable(conv, s) && NoTrailers(conv, env, start + |s.order|) && id in s.order
    ensures exists k: nat :: start <= k < start + |s.order| && Speaker(conv, s, env, k) == id
  {
    hide Speaker, NoTrailers;
    var n := |s.order|;
    var r, j := (IndexOf(s.order, conv.openerId) + start) % n, IndexOf(s.order, id);
    var d := if j >= r then j - r else j - r + n;
    SpeakerInRound(conv, s, env, start, d);
    assert Place(r, d, n) == j;
    assert Speaker(conv, s, env, start + d) == id;
  }

  lemma TwoInRound(conv: Conversation, s: Surface, env: nat -> Round, start: nat, d: nat, e: nat)
    requires Usable(conv, s) && NoTrailers(conv, env, start + |s.order|) && d < e < |s.order|
    ensures Speaker(conv, s, env, start + d) != Speaker(conv, s, env, start + e)
  {
    hide Speaker, NoTrailers, IndexOf;
    SpeakerInRound(conv, s, env, start, d);
    SpeakerInRound(conv, s, env, start, e);
  }

  function Place(r: nat, d: nat, n: nat): (p: nat)
    requires r < n && d < n
    ensures p < n
  {
    if r + d < n then r + d else r + d - n
  }

  /** A legacy run of two peers alternates strictly, whatever the replies contain. */
  lemma {:induction false} LegacyAlternates(conv: Conversation, s: Surface, env: nat -> Round, k: nat)
    requires !ManyPeers(s)
    ensures Speaker(conv, s, env, k) == "a" || Speaker(conv, s, env, k) == "b"
    ensures Speaker(conv, s, env, k + 1) == if Speaker(conv, s, env, k) == "a" then "b" else "a"
    ensures TurnAt(conv, s, env, k).toId == Speaker(conv, s, env, k + 1)
    ensures TransportFor(s, Speaker(conv, s, env, k)) == if Speaker(conv, s, env, k) == "a" then SlotA else SlotB
    decreases k
  {
    if k > 0 { LegacyAlternates(conv, s, env, k - 1); }
    NextIsAnotherPeer(Speaker(conv, s, env, k), NextResponse(conv, TextOf(env(k).delivery)), ["a", "b"]);
  }

  // ---------- how runs end ----------

  /** A run has room for one turn at least and MaxTurns at most, and it ends at the cap exactly when it has
      used the room up (unless a control message claims that status). */
  lemma RunIsBounded(conv: Conversation, s: Surface, env: nat -> Round, r: FinalResult)
    requires EndedBy(conv, s, env, r)
    ensures |r.turns| <= (if conv.header.maxTurns > 1 then conv.header.maxTurns else 1) && r.turnsConsumed == |r.turns|
    ensures forall k :: 0 <= k < |r.turns| ==> (r.turns[k].reason == OpenerTurn <==> k == 0)
    ensures |r.turns| == (if conv.header.maxTurns > 1 then conv.header.maxTurns else 1) ==> r.status == MaxTurnsHit
    ensures r.status == MaxTurnsHit && (forall k :: Ending(env(k).drained) != Some(MaxTurnsHit)) ==>
      |r.turns| == (if conv.header.maxTurns > 1 then conv.header.maxTurns else 1)
  {
    hide Ending, Policy.Next, NextResponse;
    var n := |r.turns|;
    if n > 1 { assert EndOf(conv, n - 2, env(n - 2)) == GoOn; }
    if n > 0 && EndOf(conv, n, env(n)) == Before(r.status) && EndOf(conv, n - 1, env(n - 1)) == GoOn {
      assert n < conv.header.maxTurns;
    }
  }

  /** Starting and stopping a list of transports counts each one as often as it is listed. */
  lemma {:induction false} CountsOf(ts: seq<Transport>, t: Transport)
    ensures Count(StartCalls(ts), Started(t)) == Count(StopCalls(ts), Stopped(t)) == multiset(ts)[t]
    ensures Count(StartCalls(ts), Stopped(t)) == 0 == Count(StopCalls(ts), Started(t))
    decreases |ts|
  {
    if ts != [] {
      var front, last := ts[..|ts| - 1], ts[|ts| - 1];
      CountsOf(front, t);
      assert ts == front + [last];
      CountSnoc(StartCalls(front), Started(last), Started(t));
      CountSnoc(StartCalls(front), Started(last), Stopped(t));
      CountSnoc(StopCalls(front), Stopped(last), Stopped(t));
      CountSnoc(StopCalls(front), Stopped(last), Started(t));
    }
  }

  function Count(calls: seq<Call>, c: Call): nat {
    if calls == [] then 0 else Count(calls[..|calls| - 1], c) + (if calls[|calls| - 1] == c then 1 else 0)
  }

  lemma CountSnoc(calls: seq<Call>, d: Call, c: Call)
    ensures Count(calls + [d], c) == Count(calls, c) + (if d == c then 1 else 0)
  {
    assert (calls + [d])[..|calls|] == calls;
  }

  lemma {:induction false} CountConcat(a: seq<Call>, b: seq<Call>, c: Call)
    ensures Count(a + b, c) == Count(a, c) + Count(b, c)
    decreases |b|
  {
    if b == [] {
      assert a + b == a;
    } else {
      assert (a + b)[..|a + b| - 1] == a + b[..|b| - 1];
      CountConcat(a, b[..|b| - 1], c);
    }
  }

  /** On every exit path each peer that started is stopped exactly as often as it started (once, when the
      declared ids are distinct), and no other peer is stopped. */
  lemma StartedPeersAreStopped(calls: seq<Call>, started: seq<Transport>, t: Transport)
    requires Clean(calls, started)
    ensures Count(calls, Stopped(t)) == Count(calls, Started(t)) == multiset(started)[t]
  {
    hide Count;
    CountsOf(started, t);
    var a, b := StartCalls(started), StopCalls(started);
    CountConcat(a, b, Started(t));
    CountConcat(a, b, Stopped(t));
    if calls != a + b {
      var u :| calls == a + [StartFailed(u)] + b;
      CountConcat(a + [StartFailed(u)], b, Started(t));
      CountConcat(a + [StartFailed(u)], b, Stopped(t));
      CountSnoc(a, StartFailed(u), Started(t));
      CountSnoc(a, StartFailed(u), Stopped(t));
    }
  }
}
