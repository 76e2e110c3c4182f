/** What the broker sends on, where it sends it, and why it stops: read off the log and the envelopes of a run. */
module MessageLaws {
  import opened Wrappers
  import opened Sequences
  import opened Text
  import opened Lines
  import opened Sentinel
  import opened TrailerLaws
  import opened Broker
  import opened BrokerLaws
  import Policy
  import E = Envelope

  type PeerID = Policy.PeerID

  // ---------- what is sent on ----------

  /** The response is the content, white space up to the end of a line, the first line that is the token, and
      what follows that line. */
  ghost predicate CutAtToken(response: string, token: string, content: string, ws: string, line: string, rest: string) {
    response == content + ws + line + rest &&
    (forall c :: c in ws ==> c in {' ', '\t', '\r', '\n'}) &&
    (content != "" ==> content[|content| - 1] !in {' ', '\t', '\r', '\n'}) &&
    (ws == "" ==> content == "") && (ws != "" ==> ws[|ws| - 1] == '\n') &&
    '\n' !in line && TrimSpace(line) == token && (rest != "" ==> rest[0] == '\n') &&
    !OnOwnLine(content + ws, token)
  }

  /** In a sentinel conversation the content is the response up to the token's line, and no line of it is the
      token; in any other it is the response. */
  ghost predicate SentOn(conv: Conversation, response: string, content: string) {
    if !conv.sentinelKind then content == response
    else
      var token := if conv.sentinel == "" then "<<END>>" else conv.sentinel;
      !OnOwnLine(content, token) &&
      (content == response || exists ws, line, rest :: CutAtToken(response, token, content, ws, line, rest))
  }

  lemma SplitParts(a: string, b: string)
    ensures Split(a + "\n" + b) == Split(a) + Split(b)
  {
    hide Split;
    JoinAppend(Split(a), Split(b), "\n");
    JoinSplit(a);
    JoinSplit(b);
    SplitJoin(Split(a) + Split(b));
  }

  lemma FirstOfSplit(line: string, rest: string)
    requires LF !in line && (rest != "" ==> rest[0] == LF)
    ensures Split(line + rest)[0] == line
  {
    hide Split;
    if rest == "" {
      SplitOne(line);
      assert line + rest == line;
    } else {
      assert line + rest == line + "\n" + rest[1..];
      SplitCons(line, rest[1..]);
    }
  }

  lemma FirstToken(lines: seq<string>, token: string, n: nat)
    requires n < |lines| && TrimSpace(lines[n]) == token && forall k :: 0 <= k < n ==> TrimSpace(lines[k]) != token
    ensures LinesBefore(lines, token) == n
  {
    hide TrimSpace, LinesBefore;
    LinesBeforeShape(lines, token);
  }

  lemma WhiteIsSpace(ws: string)
    requires forall c :: c in ws ==> c in {' ', '\t', '\r', '\n'}
    ensures AllSpace(ws)
  {
    assert forall k :: 0 <= k < |ws| ==> ws[k] in ws;
  }

  /** Text in whole lines, none of which is the token. */
  lemma LinesWithout(front: string, token: string) returns (f: string)
    requires front != "" && front[|front| - 1] == LF && !OnOwnLine(front, token) && token != ""
    ensures front == f + "\n" && forall k :: 0 <= k < |Split(f)| ==> TrimSpace(Split(f)[k]) != token
  {
    hide TrimSpace, Split;
    f := front[..|front| - 1];
    SplitParts(f, "");
    SplitOne("");
    assert front == f + "\n" + "";
    forall k | 0 <= k < |Split(f)| ensures TrimSpace(Split(f)[k]) != token { assert Split(front)[k] == Split(f)[k]; }
  }

  lemma CutIsStripped(response: string, token: string, content: string, ws: string, line: string, rest: string)
    requires CutAtToken(response, TokenOr(token), content, ws, line, rest)
    ensures Stripped(response, token) == content
  {
    hide TrimSpace, Split, LinesBefore, Join;
    var tok := TokenOr(token);
    WhiteIsSpace(ws);
    FirstOfSplit(line, rest);
    if ws == "" {
      assert response == line + rest;
      FirstToken(Split(response), tok, 0);
      assert Split(response)[..0] == [];
      JoinNothing<char>("\n");
    } else {
      var f := LinesWithout(content + ws, tok);
      assert response == f + "\n" + (line + rest);
      SplitParts(f, line + rest);
      var n := |Split(f)|;
      FirstToken(Split(response), tok, n);
      assert Split(response)[..n] == Split(f);
      JoinSplit(f);
      TrimRightSpace(f, "\n");
      TrimRightSpace(content, ws);
      TrimRightNothing(content);
    }
  }

  lemma TokenCuts(response: string, token: string) returns (ws: string, line: string, rest: string)
    requires OnOwnLine(response, TokenOr(token))
    ensures CutAtToken(response, TokenOr(token), Stripped(response, token), ws, line, rest)
  {
    hide TrimSpace, Split, LinesBefore, Join, OnOwnLine, TrimRight, CutAtToken;
    var tok, lines := TokenOr(token), Split(response);
    var n := LinesBefore(lines, tok);
    LinesBeforeShape(lines, tok);
    SeenBefore(response, tok, n);
    line := lines[n];
    var front;
    front, rest := AroundLine(response, lines, n);
    if n == 0 {
      ws := "";
      NothingLeft(lines[..0]);
      CutInFront(response, tok, line, rest);
    } else {
      ws := CutBehind(response, lines[..n], tok, line, rest);
    }
  }

  /** The token stands on the first line. */
  lemma CutInFront(response: string, token: string, line: string, rest: string)
    requires response == "" + line + rest && token != "" && LF !in line && TrimSpace(line) == token && (rest != "" ==> rest[0] == LF)
    ensures CutAtToken(response, token, "", "", line, rest)
  {
    hide TrimSpace, OnOwnLine;
    NothingOwned(token);
    assert "" + "" == "";
  }

  /** Other lines stand in front of it. */
  lemma CutBehind(response: string, lines: seq<string>, token: string, line: string, rest: string) returns (ws: string)
    requires lines != [] && response == Join(lines, "\n") + "\n" + line + rest
    requires token != "" && LF !in line && TrimSpace(line) == token && (rest != "" ==> rest[0] == LF)
    requires forall k :: 0 <= k < |lines| ==> LF !in lines[k] && TrimSpace(lines[k]) != token
    ensures CutAtToken(response, token, TrimRight(Join(lines, "\n")), ws, line, rest)
  {
    hide TrimSpace, Join, OnOwnLine, TrimRight;
    var kept := Join(lines, "\n");
    var content := TrimRight(kept);
    TrimRightShape(kept);
    var trail := kept[|content|..];
    ws := trail + "\n";
    assert kept == content + trail;
    assert kept + "\n" == content + ws;
    FrontHasNone(lines, token);
    SpaceIsWhite(trail);
  }

  lemma SpaceIsWhite(s: string)
    requires AllSpace(s)
    ensures forall c :: c in s + "\n" ==> c in {' ', '\t', '\r', '\n'}
  {
  }

  lemma SeenBefore(response: string, token: string, n: nat)
    requires OnOwnLine(response, token) && n <= |Split(response)|
    requires forall k :: 0 <= k < n ==> TrimSpace(Split(response)[k]) != token
    ensures n < |Split(response)| && token != ""
  {
    hide Split, TrimSpace;
  }

  lemma NothingLeft(lines: seq<string>)
    requires lines == []
    ensures TrimRight(Join(lines, "\n")) == ""
  {
    JoinNothing<char>("\n");
  }

  lemma NothingOwned(token: string)
    requires token != ""
    ensures !OnOwnLine("", token)
  {
    hide Split;
    SplitOne("");
  }

  /** What stands in front of line n and behind it. */
  lemma AroundLine(response: string, lines: seq<string>, n: nat) returns (front: string, rest: string)
    requires n < |lines| && lines == Split(response)
    ensures response == front + lines[n] + rest && (rest != "" ==> rest[0] == LF)
    ensures front == if n == 0 then "" else Join(lines[..n], "\n") + "\n"
  {
    hide Split, Join;
    JoinSplit(response);
    var a, b := lines[..n], lines[n + 1..];
    JoinOne(lines[n], "\n");
    rest := if b == [] then "" else "\n" + Join(b, "\n");
    front := if n == 0 then "" else Join(a, "\n") + "\n";
    if b == [] {
      assert lines[n..] == [lines[n]];
    } else {
      assert lines[n..] == [lines[n]] + b;
      JoinCons(lines[n], b, "\n");
    }
    assert Join(lines[n..], "\n") == lines[n] + rest;
    if n == 0 {
      assert lines[n..] == lines;
    } else {
      assert lines == a + lines[n..];
      JoinAppend(a, lines[n..], "\n");
    }
  }

  lemma FrontHasNone(lines: seq<string>, token: string)
    requires token != "" && lines != [] && forall k :: 0 <= k < |lines| ==> LF !in lines[k] && TrimSpace(lines[k]) != token
    ensures !OnOwnLine(Join(lines, "\n") + "\n", token)
  {
    hide Split, Join, TrimSpace;
    var f := Join(lines, "\n");
    SplitJoin(lines);
    SplitParts(f, "");
    SplitOne("");
    assert f + "\n" + "" == f + "\n";
    EmptyIsNotToken(token);
  }

  lemma EmptyIsNotToken(token: string)
    requires token != ""
    ensures TrimSpace("") != token
  {
  }

  /** There is one such content, and the broker computes it. */
  lemma SentOnIsExact(conv: Conversation, response: string, content: string)
    ensures SentOn(conv, response, content) <==> content == NextResponse(conv, response)
  {
    hide CutAtToken, Stripped, OnOwnLine;
    if conv.sentinelKind {
      var token := TokenOr(conv.sentinel);
      StrippedFor(response, conv.sentinel);
      if OnOwnLine(response, token) {
        var ws, line, rest := TokenCuts(response, conv.sentinel);
      }
      forall ws, line, rest | CutAtToken(response, token, content, ws, line, rest) ensures content == Stripped(response, conv.sentinel) {
        CutIsStripped(response, conv.sentinel, content, ws, line, rest);
      }
    }
  }

  /** Stripping with the token of the conversation. */
  lemma StrippedFor(response: string, token: string)
    ensures !OnOwnLine(Stripped(response, token), TokenOr(token))
    ensures Stripped(response, token) != response <==> OnOwnLine(response, TokenOr(token))
  {
    hide OnOwnLine, Split, LinesBefore;
    SentinelNeverLeaks(response, TokenOr(token));
  }

  // ---------- the envelopes of a run ----------

  /** Who opens: in a legacy run b if it was asked for and else a, in the others the named opener or the first peer. */
  function FirstSpeaker(conv: Conversation, s: Surface): PeerID {
    if s.NPeer? && s.transports != {} then
      if conv.openerId != "" || s.order == [] then conv.openerId else s.order[0]
    else if conv.opener == "b" then "b" else "a"
  }

  lemma EnvelopeAfter(conv: Conversation, s: Surface, env: nat -> Round, w: Wording, k: nat)
    ensures EnvelopeAt(conv, s, env, w, k + 1) ==
      E.BuildEnvelopeTurnN(conv.header, k + 2, Speaker(conv, s, env, k), NextResponse(conv, TextOf(env(k).delivery)), w.markers(k + 1))
  {
    hide NextResponse, E.BuildEnvelopeTurnN, Speaker;
  }

  lemma AskedWith(conv: Conversation, s: Surface, env: nat -> Round, w: Wording, asked: seq<Asked>, k: nat)
    requires AskedSpeakers(conv, s, env, w, asked) && k < |asked|
    ensures asked[k].envelope == EnvelopeAt(conv, s, env, w, k)
  {
    hide EnvelopeAt, Speaker, TransportFor;
  }

  /** Every envelope that was handed over: first the seed for the opener, then what is sent on of the response
      logged last, under the name of the peer that gave it. */
  lemma EnvelopesCarryResponses(conv: Conversation, s: Surface, env: nat -> Round, w: Wording, r: FinalResult, asked: seq<Asked>, k: nat)
    returns (content: string)
    requires EndedBy(conv, s, env, r) && AskedSpeakers(conv, s, env, w, asked)
    requires k < |asked| <= |r.turns| + 1
    ensures k == 0 ==> asked[k].envelope == E.BuildEnvelopeTurn1(conv.header, FirstSpeaker(conv, s), w.briefing, w.markers(0))
    ensures k > 0 ==> SentOn(conv, r.turns[k - 1].response, content)
    ensures k > 0 ==>
      asked[k].envelope == E.BuildEnvelopeTurnN(conv.header, k + 1, r.turns[k - 1].fromId, content, w.markers(k))
  {
    hide SentOn, NextResponse, E.BuildEnvelopeTurn1, E.BuildEnvelopeTurnN, EndedBy, EnvelopeAt, AskedSpeakers, Speaker, TurnAt, FirstSpeaker;
    AskedWith(conv, s, env, w, asked, k);
    if k == 0 {
      FirstEnvelope(conv, s, env, w);
      OpenerIs(conv, s);
      content := "";
    } else {
      EnvelopeAfter(conv, s, env, w, k - 1);
      LogIs(conv, s, env, r, k - 1);
      content := NextResponse(conv, r.turns[k - 1].response);
      SentOnIsExact(conv, r.turns[k - 1].response, content);
    }
  }

  lemma LogIs(conv: Conversation, s: Surface, env: nat -> Round, r: FinalResult, k: nat)
    requires EndedBy(conv, s, env, r) && k < |r.turns|
    ensures r.turns[k] == TurnAt(conv, s, env, k) && r.turns[k].fromId == Speaker(conv, s, env, k)
    ensures r.turns[k].response == TextOf(env(k).delivery)
  {
    hide Policy.Next, NextResponse, EndOf;
  }

  // ---------- the route of a turn ----------

  /** The declared order, or a and b in a legacy run. */
  predicate Ordered(conv: Conversation, s: Surface, order: seq<PeerID>) {
    if Usable(conv, s) then order == s.order else !ManyPeers(s) && order == ["a", "b"]
  }

  /** The peer behind `from` in the order, round and round. */
  ghost predicate Follows(order: seq<PeerID>, from: PeerID, next: PeerID) {
    exists i, j :: 0 <= i < |order| && 0 <= j < |order| && order[i] == from && order[j] == next &&
      j == if i + 1 < |order| then i + 1 else 0
  }

  /** The record of every turn: the trailer of what is sent on names the next speaker if it names another peer,
      else the next one in order follows; and the reason says which. */
  ghost predicate Routed(order: seq<PeerID>, t: Turn, first: bool) {
    var named := t.nextIdParsed.Some? && t.nextIdParsed.value in order && t.nextIdParsed.value != t.fromId;
    (named ==> t.toId == t.nextIdParsed.value) && (!named ==> Follows(order, t.fromId, t.toId)) &&
    (t.fallbackUsed <==> !named) &&
    t.reason == (if first then OpenerTurn else if named then Addressed else FallbackRoundRobin)
  }

  lemma NextFollows(order: seq<PeerID>, from: PeerID)
    requires from in order
    ensures Follows(order, from, Policy.RoundRobin(from, order))
  {
    var i := Policy.IndexOf(order, from);
    assert order[i] == from && order[if i + 1 < |order| then i + 1 else 0] == Policy.RoundRobin(from, order);
  }

  lemma SpeaksInOrder(conv: Conversation, s: Surface, env: nat -> Round, order: seq<PeerID>, k: nat)
    requires Ordered(conv, s, order)
    ensures Speaker(conv, s, env, k) in order && PeerIds(s) == order
    ensures TurnAt(conv, s, env, k).toId == Speaker(conv, s, env, k + 1)
    ensures Speaker(conv, s, env, 0) == FirstSpeaker(conv, s)
  {
    hide Speaker, TurnAt, ManyPeers;
    SpeakerAtFirst(conv, s, env);
    OpenerIs(conv, s);
    if Usable(conv, s) {
      UsableIsMany(conv, s);
      RoutingChain(conv, s, env, k);
    } else {
      LegacyAlternates(conv, s, env, k);
      LegacyOrder(s);
    }
  }

  lemma LegacyOrder(s: Surface)
    requires !ManyPeers(s)
    ensures PeerIds(s) == ["a", "b"]
  {
  }

  lemma OpenerIs(conv: Conversation, s: Surface)
    ensures OpenerOf(conv, s) == FirstSpeaker(conv, s)
  {
  }

  lemma RecordIsRouted(conv: Conversation, s: Surface, order: seq<PeerID>, k: nat, from: PeerID, response: string, index: int)
    requires from in order && PeerIds(s) == order
    ensures var t := Recorded(conv, s, k, from, response, index);
      Routed(order, t, k == 0) && t.nextIdParsed == Policy.Trailer(NextResponse(conv, response)) && t.fromId == from && t.response == response
  {
    hide Policy.Trailer, NextResponse, Follows;
    NextFollows(order, from);
  }

  /** Every logged turn names whom the trailer of its message names, is routed by it, and is followed by a turn
      of the peer it was addressed to; the first one is the opener's. */
  lemma TurnsAreRouted(conv: Conversation, s: Surface, env: nat -> Round, r: FinalResult, order: seq<PeerID>, k: nat, content: string)
    requires EndedBy(conv, s, env, r) && Ordered(conv, s, order) && k < |r.turns|
    requires SentOn(conv, r.turns[k].response, content)
    ensures Routed(order, r.turns[k], k == 0)
    ensures forall id :: r.turns[k].nextIdParsed == Some(id) <==> Names(content, id)
    ensures k == 0 ==> r.turns[k].fromId == FirstSpeaker(conv, s)
    ensures k + 1 < |r.turns| ==> r.turns[k + 1].fromId == r.turns[k].toId
  {
    hide SentOn, NextResponse, Names, Policy.Trailer, Routed, EndedBy, Speaker, Recorded, Ordered;
    LogIs(conv, s, env, r, k);
    SpeaksInOrder(conv, s, env, order, k);
    if k + 1 < |r.turns| { LogIs(conv, s, env, r, k + 1); }
    SentOnIsExact(conv, r.turns[k].response, content);
    RecordIsRouted(conv, s, order, k, Speaker(conv, s, env, k), TextOf(env(k).delivery), NumberOf(env(k).delivery));
    forall id ensures Policy.Trailer(content) == Some(id) <==> Names(content, id) { TrailerIsExact(content, id); }
  }

  /** The peer under whose name a turn is logged is the one that was asked: over its own transport, or over the first
      or second slot of a legacy run. */
  lemma AskedPeerAnswers(conv: Conversation, s: Surface, env: nat -> Round, w: Wording, r: FinalResult, asked: seq<Asked>,
                         order: seq<PeerID>, k: nat)
    requires EndedBy(conv, s, env, r) && AskedSpeakers(conv, s, env, w, asked) && Ordered(conv, s, order)
    requires k < |r.turns| && k < |asked|
    ensures asked[k].t == if Usable(conv, s) then ById(r.turns[k].fromId) else if r.turns[k].fromId == "a" then SlotA else SlotB
  {
    hide EnvelopeAt, TurnAt, Speaker, EndedBy, ManyPeers;
    LogIs(conv, s, env, r, k);
    if Usable(conv, s) { RoutingChain(conv, s, env, k); } else { LegacyAlternates(conv, s, env, k); }
  }

  /** In a sentinel conversation a trailer in front of the token's line decides who speaks next. */
  lemma TrailerBeforeTokenDecides(conv: Conversation, s: Surface, env: nat -> Round, r: FinalResult, order: seq<PeerID>, k: nat,
                                  content: string, ws: string, line: string, rest: string, id: PeerID)
    requires EndedBy(conv, s, env, r) && Ordered(conv, s, order) && k < |r.turns| && conv.sentinelKind
    requires CutAtToken(r.turns[k].response, if conv.sentinel == "" then "<<END>>" else conv.sentinel, content, ws, line, rest)
    requires Names(content, id) && id in order && id != r.turns[k].fromId
    ensures r.turns[k].toId == id && !r.turns[k].fallbackUsed && (k > 0 ==> r.turns[k].reason == Addressed)
    ensures k + 1 < |r.turns| ==> r.turns[k + 1].fromId == id
  {
    hide CutAtToken, SentOn, Names, EndedBy, Ordered, Follows, Stripped;
    CutIsStripped(r.turns[k].response, conv.sentinel, content, ws, line, rest);
    SentOnIsExact(conv, r.turns[k].response, content);
    TurnsAreRouted(conv, s, env, r, order, k, content);
  }

  // ---------- why a run ends ----------

  /** A control message that ends the run with this status. */
  predicate Decides(c: Control, status: Status) {
    match c
    case Verdict(terminate, st) => terminate && st == status
    case Crashed => status == PeerCrashed
    case Blocked => status == PeerBlocked
    case OtherControl => false
  }

  predicate Decisive(c: Control) { c.Crashed? || c.Blocked? || (c.Verdict? && c.terminate) }

  /** Nothing ends the run in round k. */
  predicate NothingEnds(conv: Conversation, k: nat, round: Round) {
    !round.cancelledBefore && round.delivery.Reply? && k + 1 < conv.header.maxTurns && !round.cancelledAfter &&
    forall i :: 0 <= i < |round.drained| ==> !Decisive(round.drained[i])
  }

  /** The round is over before its turn is logged: by cancellation, or because the peer does not answer. */
  predicate EndsUnanswered(round: Round, status: Status) {
    if round.cancelledBefore then status == Interrupted
    else round.delivery.Failed? && status == if round.delivery.cancelled then Interrupted else Errored
  }

  /** The round ends the run behind its turn, number n: at the cap, by cancellation, or by the first control message
      that decides. */
  ghost predicate EndsAnswered(conv: Conversation, n: nat, round: Round, status: Status) {
    !round.cancelledBefore && round.delivery.Reply? &&
    if n >= conv.header.maxTurns then status == MaxTurnsHit
    else if round.cancelledAfter then status == Interrupted
    else exists i :: 0 <= i < |round.drained| && Decides(round.drained[i], status) && forall j :: 0 <= j < i ==> !Decisive(round.drained[j])
  }

  lemma {:induction false} EndingIsFirst(drained: seq<Control>) returns (i: nat)
    ensures i <= |drained| && forall j :: 0 <= j < i ==> !Decisive(drained[j])
    ensures i == |drained| ==> Ending(drained) == None
    ensures i < |drained| ==> Ending(drained).Some? && Decides(drained[i], Ending(drained).value)
    decreases |drained|
  {
    i := 0;
    if drained != [] && !Decisive(drained[0]) {
      i := EndingIsFirst(drained[1..]);
      i := i + 1;
    }
  }

  lemma RoundEnds(conv: Conversation, k: nat, round: Round)
    ensures EndOf(conv, k, round) == GoOn ==> NothingEnds(conv, k, round)
    ensures forall status :: EndOf(conv, k, round) == Before(status) ==> EndsUnanswered(round, status)
    ensures forall status :: EndOf(conv, k, round) == After(status) ==> EndsAnswered(conv, k + 1, round, status)
  {
    hide Ending, Decisive, Decides;
    var i := EndingIsFirst(round.drained);
  }

  /** Every run ends in the first round that something ends, with the status of what ended it. */
  lemma RunEndsForItsReason(conv: Conversation, s: Surface, env: nat -> Round, r: FinalResult)
    requires EndedBy(conv, s, env, r)
    ensures forall k :: 0 <= k < |r.turns| - 1 ==> NothingEnds(conv, k, env(k))
    ensures var n := |r.turns|;
      ((n == 0 || NothingEnds(conv, n - 1, env(n - 1))) && EndsUnanswered(env(n), r.status)) ||
      (n > 0 && EndsAnswered(conv, n, env(n - 1), r.status))
  {
    hide EndOf, NothingEnds, EndsUnanswered, EndsAnswered, TurnAt;
    var n := |r.turns|;
    forall k | 0 <= k < n - 1 ensures NothingEnds(conv, k, env(k)) { RoundEnds(conv, k, env(k)); }
    RoundEnds(conv, n, env(n));
    if n > 0 { RoundEnds(conv, n - 1, env(n - 1)); }
  }
}
