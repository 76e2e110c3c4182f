/** The conversation loop of `internal/conversation/broker.go`. Everything outside (peers, control
    messages, cancellation) is an environment the loop asks round by round. */
module Broker {
  import opened Wrappers
  import opened Policy
  import E = Envelope
  import Sentinel

  datatype Status =
    | CompletedSentinel | CompletedJudge | MaxTurnsHit | PeerCrashed | PeerBlocked | Timeout | Interrupted | Errored

  datatype Reason = OpenerTurn | Addressed | FallbackRoundRobin

  datatype Turn = Turn(
    index: int,
    fromId: PeerID,
    toId: PeerID,
    reason: Reason,
    nextIdParsed: Option<PeerID>,
    fallbackUsed: bool,
    response: string)

  datatype Control = Verdict(terminate: bool, status: Status) | Crashed | Blocked | OtherControl

  /** `order` and `transports` are PeerOrder and the keys of PeersByID. */
  datatype Surface = Legacy | NPeer(order: seq<PeerID>, transports: set<PeerID>)

  /** `header` is what envelopes show of the conversation. */
  datatype Conversation = Conversation(
    header: E.Conversation,
    sentinelKind: bool,
    sentinel: string,
    openerId: PeerID,
    opener: PeerID)

  datatype Transport = ById(id: PeerID) | SlotA | SlotB

  // ---------- lookups ----------

  predicate ManyPeers(s: Surface) { s.NPeer? && s.transports != {} }

  function PeerIds(s: Surface): (ids: seq<PeerID>)
    ensures ids != []
  {
    if ManyPeers(s) && s.order != [] then s.order else ["a", "b"]
  }

  function TransportFor(s: Surface, id: PeerID): Transport {
    if ManyPeers(s) && id in s.transports then ById(id) else if id == "a" then SlotA else SlotB
  }

  function SlotFromPeerID(id: PeerID): PeerID { if id == "b" then "b" else "a" }

  function OpenerOf(conv: Conversation, s: Surface): PeerID {
    if ManyPeers(s) then (if conv.openerId == "" && s.order != [] then s.order[0] else conv.openerId)
    else if conv.opener == "a" || conv.opener == "b" then conv.opener else "a"
  }

  // ---------- one round ----------

  /** A peer answers with a turn of its own making; the broker takes over its text and its number. */
  datatype Delivery = Reply(text: string, index: int) | Failed(cancelled: bool)

  /** What the outside does in one round: cancels before, answers, cancels after, and sends control messages. */
  datatype Round = Round(cancelledBefore: bool, delivery: Delivery, cancelledAfter: bool, drained: seq<Control>)

  function NextResponse(conv: Conversation, response: string): string {
    if conv.sentinelKind then Sentinel.Stripped(response, conv.sentinel) else response
  }

  /** The record of the turn in which `from` answers in round k. */
  function Recorded(conv: Conversation, s: Surface, k: nat, from: PeerID, response: string, index: int): Turn {
    var d := Policy.Next(from, NextResponse(conv, response), PeerIds(s));
    Turn(index, from, d.next, if k == 0 then OpenerTurn else if d.fallbackUsed then FallbackRoundRobin else Addressed,
         d.parsed, d.fallbackUsed, response)
  }

  /** The first drained message that ends the run, and how. */
  function Ending(drained: seq<Control>): Option<Status> {
    if drained == [] then None
    else match drained[0]
      case Verdict(true, status) => Some(status)
      case Crashed => Some(PeerCrashed)
      case Blocked => Some(PeerBlocked)
      case _ => Ending(drained[1..])
  }

  /** How round k ends: before a turn is logged, after it, or not at all. */
  datatype RoundEnd = Before(status: Status) | After(status: Status) | GoOn

  function EndOf(conv: Conversation, k: nat, r: Round): RoundEnd {
    if r.cancelledBefore then Before(Interrupted)
    else match r.delivery
      case Failed(cancelled) => Before(if cancelled then Interrupted else Errored)
      case Reply(_, _) =>
        if k + 1 >= conv.header.maxTurns then After(MaxTurnsHit)
        else if r.cancelledAfter then After(Interrupted)
        else match Ending(r.drained)
          case Some(status) => After(status)
          case None => GoOn
  }

  function TextOf(d: Delivery): string { if d.Reply? then d.text else "" }

  function NumberOf(d: Delivery): int { if d.Reply? then d.index else 0 }

  /** Who speaks in round k when no round before it ended the run. */
  function Speaker(conv: Conversation, s: Surface, env: nat -> Round, k: nat): PeerID
    decreases k, 0
  {
    if k == 0 then OpenerOf(conv, s)
    else
      var next := TurnAt(conv, s, env, k - 1).toId;
      if ManyPeers(s) then next else SlotFromPeerID(next)
  }

  function TurnAt(conv: Conversation, s: Surface, env: nat -> Round, k: nat): Turn
    decreases k, 1
  {
    Recorded(conv, s, k, Speaker(conv, s, env, k), TextOf(env(k).delivery), NumberOf(env(k).delivery))
  }

  // ---------- starting and stopping ----------

  datatype Call = Started(t: Transport) | StartFailed(t: Transport) | Stopped(t: Transport)

  function StartCalls(ts: seq<Transport>): seq<Call> {
    if ts == [] then [] else StartCalls(ts[..|ts| - 1]) + [Started(ts[|ts| - 1])]
  }

  function StopCalls(ts: seq<Transport>): seq<Call> {
    if ts == [] then [] else StopCalls(ts[..|ts| - 1]) + [Stopped(ts[|ts| - 1])]
  }

  function ByIds(ids: seq<PeerID>): (ts: seq<Transport>)
    ensures |ts| == |ids| && forall k :: 0 <= k < |ids| ==> ts[k] == ById(ids[k])
  {
    seq(|ids|, k requires 0 <= k < |ids| => ById(ids[k]))
  }

  /** Some transports are started, at most one start fails, and exactly the started ones are stopped again,
      each once and after it was started. */
  ghost predicate Clean(calls: seq<Call>, started: seq<Transport>) {
    calls == StartCalls(started) + StopCalls(started) ||
    exists t :: calls == StartCalls(started) + [StartFailed(t)] + StopCalls(started)
  }

  /** Every declared peer has a transport and starts. */
  predicate AllStart(s: Surface, starts: nat -> bool) {
    if ManyPeers(s) then forall k :: 0 <= k < |s.order| ==> s.order[k] in s.transports && starts(k)
    else starts(0) && starts(1)
  }

  predicate HasTransport(s: Surface, id: PeerID) { s.NPeer? && id in s.transports }

  /** The ids that have a transport, in order. */
  function Known(s: Surface, ids: seq<PeerID>): seq<PeerID> {
    if ids == [] then []
    else
      var last := ids[|ids| - 1];
      Known(s, ids[..|ids| - 1]) + if HasTransport(s, last) then [last] else []
  }

  lemma {:induction false} KnownAll(s: Surface, ids: seq<PeerID>)
    requires forall id :: id in ids ==> HasTransport(s, id)
    ensures Known(s, ids) == ids
    decreases |ids|
  {
    if ids != [] {
      KnownAll(s, ids[..|ids| - 1]);
      assert ids == ids[..|ids| - 1] + [ids[|ids| - 1]];
    }
  }

  lemma StopOneMore(ids: seq<PeerID>, id: PeerID)
    ensures StopCalls(ByIds(ids + [id])) == StopCalls(ByIds(ids)) + [Stopped(ById(id))]
  {
    var ts := ByIds(ids + [id]);
    assert ts[..|ts| - 1] == ByIds(ids);
  }

  /** Ids without a transport are skipped. */
  method StopPeerIDs(s: Surface, ids: seq<PeerID>, calls0: seq<Call>) returns (calls: seq<Call>)
    ensures calls == calls0 + StopCalls(ByIds(Known(s, ids)))
  {
    hide StopCalls, ByIds, Known;
    calls := calls0;
    NothingToStop(s);
    assert ids[..0] == [];
    for i := 0 to |ids|
      invariant calls == calls0 + StopCalls(ByIds(Known(s, ids[..i])))
    {
      KnownStep(s, ids, i);
      if s.NPeer? && ids[i] in s.transports {
        StopOneMore(Known(s, ids[..i]), ids[i]);
        calls := calls + [Stopped(ById(ids[i]))];
      }
    }
    assert ids[..|ids|] == ids;
  }

  lemma KnownStep(s: Surface, ids: seq<PeerID>, i: nat)
    requires i < |ids|
    ensures var known := Known(s, ids[..i]);
      Known(s, ids[..i + 1]) == if HasTransport(s, ids[i]) then known + [ids[i]] else known
  {
    assert ids[..i + 1][..i] == ids[..i];
  }

  lemma NothingToStop(s: Surface)
    ensures Known(s, []) == [] && StopCalls(ByIds([])) == []
  {
  }

  lemma ByIdsSnoc(ids: seq<PeerID>, i: nat)
    requires i < |ids|
    ensures ByIds(ids[..i + 1]) == ByIds(ids[..i]) + [ById(ids[i])]
    ensures StartCalls(ByIds(ids[..i + 1])) == StartCalls(ByIds(ids[..i])) + [Started(ById(ids[i]))]
    ensures StopCalls(ByIds(ids[..i + 1])) == StopCalls(ByIds(ids[..i])) + [Stopped(ById(ids[i]))]
  {
    var ts := ByIds(ids[..i + 1]);
    assert ts[..|ts| - 1] == ByIds(ids[..i]);
  }

  lemma CleanAfter(started: seq<Transport>)
    ensures Clean(StartCalls(started) + StopCalls(started), started)
    ensures forall t :: Clean(StartCalls(started) + [StartFailed(t)] + StopCalls(started), started)
  {
    hide StartCalls, StopCalls;
  }

  /** The declared peers, in order. */
  method StartDeclared(s: Surface, starts: nat -> bool) returns (ok: bool, calls: seq<Call>, ghost started: seq<Transport>)
    requires ManyPeers(s)
    ensures ok <==> AllStart(s, starts)
    ensures ok ==> calls == StartCalls(started) && started == ByIds(s.order) && forall id :: id in s.order ==> id in s.transports
    ensures !ok ==> Clean(calls, started)
  {
    hide StartCalls, StopCalls, ByIds, Clean, Known;
    NothingToStart();
    calls := [];
    started := [];
    assert s.order[..0] == [];
    for i := 0 to |s.order|
      invariant started == ByIds(s.order[..i]) && calls == StartCalls(started)
      invariant forall k :: 0 <= k < i ==> s.order[k] in s.transports && starts(k)
    {
      var id := s.order[i];
      ByIdsSnoc(s.order, i);
      KnownAll(s, s.order[..i]);
      CleanAfter(started);
      if id !in s.transports {
        calls := StopPeerIDs(s, s.order[..i], calls);
        return false, calls, started;
      }
      if !starts(i) {
        calls := StopPeerIDs(s, s.order[..i], calls + [StartFailed(ById(id))]);
        return false, calls, started;
      }
      calls := calls + [Started(ById(id))];
      started := ByIds(s.order[..i + 1]);
    }
    assert s.order[..|s.order|] == s.order;
    return true, calls, started;
  }

  lemma NothingToStart()
    ensures StartCalls([]) == [] && ByIds([]) == []
  {
  }

  /** The two peers of a legacy run. */
  method StartTwo(starts: nat -> bool) returns (ok: bool, calls: seq<Call>, ghost started: seq<Transport>)
    ensures ok <==> starts(0) && starts(1)
    ensures ok ==> calls == StartCalls(started) && started == [SlotA, SlotB]
    ensures !ok ==> Clean(calls, started)
  {
    if !starts(0) {
      calls := [StartFailed(SlotA)];
      assert calls == StartCalls([]) + [StartFailed(SlotA)] + StopCalls([]);
      return false, calls, [];
    }
    calls := [Started(SlotA)];
    OneCall(SlotA);
    if !starts(1) {
      calls := calls + [StartFailed(SlotB)] + [Stopped(SlotA)];
      return false, calls, [SlotA];
    }
    calls := calls + [Started(SlotB)];
    assert [SlotA, SlotB][..1] == [SlotA];
    return true, calls, [SlotA, SlotB];
  }

  /** `starts(k)` tells whether the k-th start succeeds. On any failure the peers started so far are
      stopped again. */
  method StartAllPeers(s: Surface, starts: nat -> bool) returns (ok: bool, calls: seq<Call>, ghost started: seq<Transport>)
    ensures ok <==> AllStart(s, starts)
    ensures ok ==> calls == StartCalls(started)
    ensures ok ==> started == (if ManyPeers(s) then ByIds(s.order) else [SlotA, SlotB])
    ensures ok && ManyPeers(s) ==> forall id :: id in s.order ==> id in s.transports
    ensures !ok ==> Clean(calls, started)
  {
    hide StartCalls, Clean, ByIds;
    if ManyPeers(s) {
      ok, calls, started := StartDeclared(s, starts);
    } else {
      ok, calls, started := StartTwo(starts);
    }
  }

  lemma OneCall(t: Transport)
    ensures StartCalls([t]) == [Started(t)] && StopCalls([t]) == [Stopped(t)]
  {
    assert [t][..0] == [];
  }

  /** The transports that stopping reaches. */
  function Reached(s: Surface): seq<Transport> {
    if ManyPeers(s) then ByIds(Known(s, s.order)) else [SlotA, SlotB]
  }

  method StopAllPeers(s: Surface, calls0: seq<Call>) returns (calls: seq<Call>)
    ensures calls == calls0 + StopCalls(Reached(s))
  {
    if ManyPeers(s) {
      calls := StopPeerIDs(s, s.order, calls0);
      return;
    }
    calls := calls0 + [Stopped(SlotA)] + [Stopped(SlotB)];
    OneCall(SlotA);
    assert [SlotA, SlotB][..1] == [SlotA];
  }

  // ---------- the loop ----------

  datatype FinalResult = FinalResult(status: Status, turns: seq<Turn>, turnsConsumed: nat)

  /** The run ended in a round that the environment ended, with the turns of all rounds before. */
  ghost predicate EndedBy(conv: Conversation, s: Surface, env: nat -> Round, r: FinalResult) {
    var n := |r.turns|;
    (forall k :: 0 <= k < n ==> r.turns[k] == TurnAt(conv, s, env, k)) &&
    r.turnsConsumed == n &&
    (((forall k :: 0 <= k < n ==> EndOf(conv, k, env(k)) == GoOn) && EndOf(conv, n, env(n)) == Before(r.status)) ||
     (n > 0 && (forall k :: 0 <= k < n - 1 ==> EndOf(conv, k, env(k)) == GoOn) && EndOf(conv, n - 1, env(n - 1)) == After(r.status)))
  }

  /** The switch over the drained control messages. */
  method FirstEnding(drained: seq<Control>) returns (ending: Option<Status>)
    ensures ending == Ending(drained)
  {
    hide Ending;
    var i := 0;
    assert drained[0..] == drained;
    while i < |drained|
      invariant 0 <= i <= |drained| && Ending(drained[i..]) == Ending(drained)
    {
      EndingStep(drained, i);
      match drained[i] {
        case Verdict(true, status) => return Some(status);
        case Crashed => return Some(PeerCrashed);
        case Blocked => return Some(PeerBlocked);
        case _ =>
      }
      i := i + 1;
    }
    EndingNothing(drained[i..]);
    return None;
  }

  /** No round so far ended the run, and the log is theirs. */
  ghost predicate Going(conv: Conversation, s: Surface, env: nat -> Round, turns: seq<Turn>) {
    forall k :: 0 <= k < |turns| ==> turns[k] == TurnAt(conv, s, env, k) && EndOf(conv, k, env(k)) == GoOn
  }

  /** The text that does not depend on the run: the briefing of the first envelope, and the markers. */
  datatype Wording = Wording(briefing: string, markers: nat -> string)

  /** The envelope of round k: the seed for the opener, later the stripped reply of the round before. */
  function EnvelopeAt(conv: Conversation, s: Surface, env: nat -> Round, w: Wording, k: nat): (e: E.Envelope)
    ensures e.turnIndex == k + 1 && e.marker == w.markers(k)
  {
    if k == 0 then E.BuildEnvelopeTurn1(conv.header, Speaker(conv, s, env, 0), w.briefing, w.markers(0))
    else
      E.BuildEnvelopeTurnN(conv.header, k + 1, Speaker(conv, s, env, k - 1),
                           NextResponse(conv, TextOf(env(k - 1).delivery)), w.markers(k))
  }

  /** This envelope was handed to this transport. */
  datatype Asked = Asked(t: Transport, envelope: E.Envelope)

  /** In every round its speaker was asked, with the envelope of the round. */
  ghost predicate AskedSpeakers(conv: Conversation, s: Surface, env: nat -> Round, w: Wording, asked: seq<Asked>) {
    forall k :: 0 <= k < |asked| ==>
      asked[k] == Asked(TransportFor(s, Speaker(conv, s, env, k)), EnvelopeAt(conv, s, env, w, k))
  }

  lemma EndBefore(conv: Conversation, s: Surface, env: nat -> Round, turns: seq<Turn>, status: Status)
    requires Going(conv, s, env, turns) && EndOf(conv, |turns|, env(|turns|)) == Before(status)
    ensures EndedBy(conv, s, env, FinalResult(status, turns, |turns|))
  {
    hide EndOf, TurnAt;
  }

  lemma EndAfter(conv: Conversation, s: Surface, env: nat -> Round, turns: seq<Turn>, turn: Turn, status: Status)
    requires Going(conv, s, env, turns) && turn == TurnAt(conv, s, env, |turns|)
    requires EndOf(conv, |turns|, env(|turns|)) == After(status)
    ensures EndedBy(conv, s, env, FinalResult(status, turns + [turn], |turns| + 1))
  {
    hide EndOf, TurnAt;
  }

  lemma KeepGoing(conv: Conversation, s: Surface, env: nat -> Round, turns: seq<Turn>, turn: Turn)
    requires Going(conv, s, env, turns) && turn == TurnAt(conv, s, env, |turns|)
    requires EndOf(conv, |turns|, env(|turns|)) == GoOn
    ensures Going(conv, s, env, turns + [turn])
  {
    hide EndOf, TurnAt;
  }

  lemma FirstEnvelope(conv: Conversation, s: Surface, env: nat -> Round, w: Wording)
    ensures EnvelopeAt(conv, s, env, w, 0) == E.BuildEnvelopeTurn1(conv.header, OpenerOf(conv, s), w.briefing, w.markers(0))
  {
    hide E.BuildEnvelopeTurn1;
  }

  lemma NextEnvelope(conv: Conversation, s: Surface, env: nat -> Round, w: Wording, k: nat)
    requires env(k).delivery.Reply?
    ensures EnvelopeAt(conv, s, env, w, k + 1) ==
      E.BuildEnvelopeTurnN(conv.header, k + 2, Speaker(conv, s, env, k), NextResponse(conv, env(k).delivery.text), w.markers(k + 1))
  {
    hide E.BuildEnvelopeTurnN, Speaker, NextResponse;
  }

  lemma NothingAsked(conv: Conversation, s: Surface, env: nat -> Round, w: Wording)
    ensures AskedSpeakers(conv, s, env, w, [])
  {
  }

  lemma AskedMore(conv: Conversation, s: Surface, env: nat -> Round, w: Wording, asked: seq<Asked>)
    requires AskedSpeakers(conv, s, env, w, asked)
    ensures var k := |asked|;
      AskedSpeakers(conv, s, env, w, asked + [Asked(TransportFor(s, Speaker(conv, s, env, k)), EnvelopeAt(conv, s, env, w, k))])
  {
    hide Speaker, EnvelopeAt, TransportFor;
  }

  method RunLoop(conv: Conversation, s: Surface, env: nat -> Round, w: Wording) returns (r: FinalResult, ghost asked: seq<Asked>)
    ensures EndedBy(conv, s, env, r)
    ensures |r.turns| <= |asked| <= |r.turns| + 1 && AskedSpeakers(conv, s, env, w, asked)
  {
    hide Recorded, Ending, TransportFor, EndedBy, Going, E.BuildEnvelopeTurn1, E.BuildEnvelopeTurnN, EnvelopeAt, NextResponse, AskedSpeakers;
    NothingAsked(conv, s, env, w);
    FirstEnvelope(conv, s, env, w);
    var turns: seq<Turn> := [];
    asked := [];
    var active := OpenerOf(conv, s);
    var envelope := E.BuildEnvelopeTurn1(conv.header, active, w.briefing, w.markers(0));
    GoingAtFirst(conv, s, env);
    while true
      invariant active == Speaker(conv, s, env, |turns|) && Going(conv, s, env, turns)
      invariant |asked| == |turns| && envelope == EnvelopeAt(conv, s, env, w, |turns|) && AskedSpeakers(conv, s, env, w, asked)
      decreases conv.header.maxTurns - |turns|
    {
      var n, round := |turns|, env(|turns|);
      ghost var was := turns;
      if round.cancelledBefore {
        EndBefore(conv, s, env, turns, Interrupted);
        return FinalResult(Interrupted, turns, n), asked;
      }
      AskedMore(conv, s, env, w, asked);
      asked := asked + [Asked(TransportFor(s, active), envelope)];
      if round.delivery.Failed? {
        var status := if round.delivery.cancelled then Interrupted else Errored;
        EndBefore(conv, s, env, turns, status);
        return FinalResult(status, turns, n), asked;
      }
      var turn := Recorded(conv, s, n, active, round.delivery.text, round.delivery.index);
      turns := turns + [turn];
      if |turns| >= conv.header.maxTurns {
        EndAfter(conv, s, env, was, turn, MaxTurnsHit);
        return FinalResult(MaxTurnsHit, turns, n + 1), asked;
      }
      if round.cancelledAfter {
        EndAfter(conv, s, env, was, turn, Interrupted);
        return FinalResult(Interrupted, turns, n + 1), asked;
      }
      var ending := FirstEnding(round.drained);
      if ending.Some? {
        EndAfter(conv, s, env, was, turn, ending.value);
        return FinalResult(ending.value, turns, n + 1), asked;
      }
      KeepGoing(conv, s, env, was, turn);
      NextEnvelope(conv, s, env, w, n);
      envelope := E.BuildEnvelopeTurnN(conv.header, |turns| + 1, active, NextResponse(conv, round.delivery.text), w.markers(|turns|));
      active := if ManyPeers(s) then turn.toId else SlotFromPeerID(turn.toId);
    }
  }

  lemma GoingAtFirst(conv: Conversation, s: Surface, env: nat -> Round)
    ensures Going(conv, s, env, [])
  {
  }

  lemma EndingStep(drained: seq<Control>, i: nat)
    requires i < |drained|
    ensures Ending(drained[i..]) == match drained[i]
      case Verdict(true, status) => Some(status)
      case Crashed => Some(PeerCrashed)
      case Blocked => Some(PeerBlocked)
      case _ => Ending(drained[i + 1..])
  {
    assert drained[i..][1..] == drained[i + 1..];
  }

  lemma EndingNothing(drained: seq<Control>)
    requires drained == []
    ensures Ending(drained) == None
  {
  }

  /** A whole run: start, subscribe to the control topic, loop, stop. */
  method Run(conv: Conversation, s: Surface, starts: nat -> bool, subscribed: bool, env: nat -> Round, w: Wording)
    returns (r: FinalResult, calls: seq<Call>, ghost started: seq<Transport>, ghost asked: seq<Asked>)
    ensures Clean(calls, started)
    ensures if AllStart(s, starts) && subscribed then EndedBy(conv, s, env, r) else r == FinalResult(Errored, [], 0)
    ensures |r.turns| <= |asked| <= |r.turns| + 1 && AskedSpeakers(conv, s, env, w, asked)
  {
    hide EndedBy, Speaker, TransportFor, Clean;
    var ok;
    ok, calls, started := StartAllPeers(s, starts);
    if !ok {
      return FinalResult(Errored, [], 0), calls, started, [];
    }
    r, asked := FinalResult(Errored, [], 0), [];
    if subscribed {
      r, asked := RunLoop(conv, s, env, w);
    }
    if ManyPeers(s) { KnownAll(s, s.order); }
    calls := StopAllPeers(s, calls);
    CleanRun(started);
  }

  lemma CleanRun(started: seq<Transport>)
    ensures Clean(StartCalls(started) + StopCalls(started), started)
  {
  }
}
