/** Conversations in which every turn is the envelope the program builds, echoed by the terminal, and a reply. */
module EnvelopeTurns {
  import opened Text
  import opened Envelope
  import opened TurnStream
  import opened TurnIsolation
  import opened SilentTurns
  import PeerRuns

  /** The first envelope a peer gets if it opens, or a later one. */
  datatype Kind =
    | Opening(slot: string, briefing: string)
    | Later(turnIndex: int, from: string, previous: string)

  /** An envelope with its marker, how the terminal echoes it, and what the peer answers: the reply, the end of
      its line, the marker between `lead` and `trail`, and the rest. */
  datatype Exchange = Exchange(kind: Kind, marker: string, mode: EchoMode, reply: string, brk: string,
                               lead: string, trail: string, rest: string)

  function EnvelopeOf(conv: Conversation, x: Exchange): Envelope {
    match x.kind
    case Opening(slot, briefing) => BuildEnvelopeTurn1(conv, slot, briefing, x.marker)
    case Later(turnIndex, from, previous) => BuildEnvelopeTurnN(conv, turnIndex, from, previous, x.marker)
  }

  function HeadOf(conv: Conversation, x: Exchange): string {
    match x.kind
    case Opening(slot, briefing) => FirstHead(conv, slot, briefing)
    case Later(turnIndex, from, previous) => BodyHead(conv.id, turnIndex, conv.maxTurns, "peer-" + from, previous)
  }

  function TurnFrom(conv: Conversation, x: Exchange): PeerTurn
    requires x.brk != ""
  {
    Echoed(TurnOf(x.mode, HeadOf(conv, x), x.marker, ReplyLine(x.reply, x.brk), x.lead, x.trail + x.rest))
  }

  function TurnsFrom(conv: Conversation, xs: seq<Exchange>): (turns: seq<PeerTurn>)
    requires forall k :: 0 <= k < |xs| ==> xs[k].brk != ""
    ensures |turns| == |xs| && forall k :: 0 <= k < |xs| ==> turns[k] == TurnFrom(conv, xs[k])
  {
    seq(|xs|, k requires 0 <= k < |xs| => TurnFrom(conv, xs[k]))
  }

  /** The texts of an exchange that were there before its marker. */
  ghost predicate NewMarker(conv: Conversation, x: Exchange, leftover: string) {
    IsMarker(x.marker) && !Contains(conv.id, x.marker) && !Contains(x.reply, x.marker) && !Contains(leftover, x.marker) &&
    match x.kind
    case Opening(slot, briefing) =>
      !Contains(SeedFor(conv, slot), x.marker) && !Contains(briefing, x.marker) &&
      briefing != "" && !MarkerChar(briefing[0]) && briefing[0] != LF
    case Later(_, from, previous) => !Contains("peer-" + from, x.marker) && !Contains(previous, x.marker)
  }

  /** The marker stands on a line of its own, with blanks and tabs around it; lines end in LF or CR LF. */
  ghost predicate OwnLine(x: Exchange) {
    OwnLineParts(x.brk, x.lead, x.trail) && (x.rest == "" || "\n" <= x.rest || "\r\n" <= x.rest)
  }

  /** What the terminal emits is the echoed envelope, the reply, the marker on a line of its own, and a rest. */
  lemma EmitsTheEnvelope(conv: Conversation, x: Exchange)
    requires IsMarker(x.marker) && (x.brk == "\n" || x.brk == "\r\n")
    ensures Emitted(TurnFrom(conv, x))
         == Echo(x.mode, EnvelopeOf(conv, x).body) + x.reply + x.brk + x.lead + x.marker + x.trail + x.rest
  {
    hide IsMarker, Echo, Segment, BodyHead, FirstHead, BuildEnvelopeTurn1, ReplyLine;
    var line := ReplyLine(x.reply, x.brk);
    LineOfReply(x.reply, x.brk);
    SameStream(Echo(x.mode, EnvelopeOf(conv, x).body), line, x.reply, x.brk, x.lead, x.marker, x.trail, x.rest);
    match x.kind
    case Opening(slot, briefing) =>
      FirstBody(conv, slot, briefing, x.marker);
      EchoOfEnvelope(x.mode, FirstHead(conv, slot, briefing), x.marker, line, x.lead, x.trail + x.rest);
    case Later(turnIndex, from, previous) =>
      EchoOfEnvelope(x.mode, HeadOf(conv, x), x.marker, line, x.lead, x.trail + x.rest);
  }

  lemma LineOfReply(reply: string, brk: string)
    requires brk == "\n" || brk == "\r\n"
    ensures ReplyLine(reply, brk) + "\n" == reply + brk
  {
    var front := brk[..|brk| - 1];
    assert front == "" || front == "\r";
    assert reply + (front + "\n") == reply + front + "\n";
  }

  lemma HeadIsFresh(conv: Conversation, x: Exchange, leftover: string)
    requires NewMarker(conv, x, leftover)
    ensures var h := HeadOf(conv, x); !Contains(h, x.marker) && h != "" && !MarkerChar(h[0]) && h[0] != LF
  {
    hide Contains, IsMarker, BodyHead, FirstHead, SeedFor, HeaderLine;
    match x.kind
    case Opening(slot, briefing) => FirstHeadContainsNot(conv, slot, briefing, x.marker);
    case Later(turnIndex, from, previous) =>
      HeadContainsNot(conv.id, turnIndex, conv.maxTurns, "peer-" + from, previous, x.marker);
      LaterHeadStarts(conv.id, turnIndex, conv.maxTurns, "peer-" + from, previous);
  }

  lemma LaterHeadStarts(id: string, turnIndex: int, maxTurns: int, fromLabel: string, content: string)
    ensures var h := BodyHead(id, turnIndex, maxTurns, fromLabel, content); h != "" && h[0] == '['
  {
    hide HeaderLine;
    HeaderEnds(id, turnIndex, maxTurns, fromLabel);
  }

  lemma ExchangeIsFresh(conv: Conversation, x: Exchange, leftover: string)
    requires NewMarker(conv, x, leftover) && OwnLine(x)
    ensures FreshBehind(leftover, TurnFrom(conv, x))
  {
    hide Contains, IsMarker, HeadOf, AllHorizontal, LineEnd, Fresh, ReplyLine;
    HeadIsFresh(conv, x, leftover);
    ReplyLineIs(x.reply, x.brk, x.marker);
    OwnLineIsHorizontal(x.brk, x.lead, x.trail, x.rest);
    TurnIsFresh(x.mode, HeadOf(conv, x), x.marker, ReplyLine(x.reply, x.brk), x.lead, x.trail + x.rest);
  }

  /** What is left when turn k begins. */
  function LeftoverOf(banner: string, xs: seq<Exchange>, k: nat): string
    requires k <= |xs|
  {
    if k == 0 then banner else xs[k - 1].trail + xs[k - 1].rest
  }

  /** Conversations made of the program's envelopes meet the hypothesis of the isolation theorem, as soon as
      every marker is new to the texts of its own exchange and to what is left of the one before. */
  lemma EnvelopesAreFair(conv: Conversation, banner: string, xs: seq<Exchange>)
    requires forall k :: 0 <= k < |xs| ==> OwnLine(xs[k]) && NewMarker(conv, xs[k], LeftoverOf(banner, xs, k))
    ensures forall k :: 0 <= k < |xs| ==> xs[k].brk != ""
    ensures PeerRuns.Fair(banner, TurnsFrom(conv, xs))
  {
    hide NewMarker, OwnLine, FreshBehind, TurnFrom;
    forall k | 0 <= k < |xs| ensures xs[k].brk != "" { LineHasEnd(xs[k]); }
    var turns := TurnsFrom(conv, xs);
    forall k | 0 <= k < |turns| ensures FreshBehind(PeerRuns.Leftover(banner, turns, k), turns[k]) {
      LeftoverIs(conv, banner, xs, k);
      ExchangeIsFresh(conv, xs[k], LeftoverOf(banner, xs, k));
    }
  }

  lemma LineHasEnd(x: Exchange)
    requires OwnLine(x)
    ensures x.brk != ""
  {
  }

  lemma LeftoverIs(conv: Conversation, banner: string, xs: seq<Exchange>, k: nat)
    requires k < |xs| && forall j :: 0 <= j < |xs| ==> xs[j].brk != ""
    ensures PeerRuns.Leftover(banner, TurnsFrom(conv, xs), k) == LeftoverOf(banner, xs, k)
  {
    hide HeadOf, Echo;
  }

  /** So in every run of such a conversation every answer is the trimmed reply to its envelope. */
  lemma EveryAnswerIsItsReply(conv: Conversation, banner: string, xs: seq<Exchange>,
                              steps: seq<PeerRuns.Step>, s: PeerRuns.State, k: nat)
    requires forall k :: 0 <= k < |xs| ==> xs[k].brk != ""
    requires forall k :: 0 <= k < |xs| ==> OwnLine(xs[k]) && NewMarker(conv, xs[k], LeftoverOf(banner, xs, k))
    requires PeerRuns.Run(banner, TurnsFrom(conv, xs), PeerRuns.START, steps, s) && k < |s.replies|
    ensures k < |xs| && s.replies[k] == Trim(xs[k].reply)
  {
    hide NewMarker, OwnLine, PeerRuns.Run, PeerRuns.Fair, Trim, HeadOf, Echo, ReplyLine, Contains;
    EnvelopesAreFair(conv, banner, xs);
    PeerRuns.TurnsAreIsolated(banner, TurnsFrom(conv, xs), steps, s, k);
    ReplyIsTrimmed(conv, xs[k], LeftoverOf(banner, xs, k));
  }

  lemma ReplyIsTrimmed(conv: Conversation, x: Exchange, leftover: string)
    requires OwnLine(x) && NewMarker(conv, x, leftover)
    ensures x.brk != "" && Trim(ReplyOf(TurnFrom(conv, x))) == Trim(x.reply)
  {
    hide Trim, HeadOf, Contains, IsMarker, ReplyLine;
    ReplyLineIs(x.reply, x.brk, x.marker);
  }
}
