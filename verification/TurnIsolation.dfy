/** Whole conversations with one peer: the reply of every turn is read exactly, whatever the chunks. */
module TurnIsolation {
  import opened Text
  import opened MarkerSearch
  import opened Envelope
  import opened PersistentProcess
  import opened TurnStream

  // ---------- the echo of an envelope ----------

  /** What a terminal echoes: the bytes as written, or with CR LF for every LF. */
  datatype EchoMode = Raw | CrLf

  function WithCr(s: string): string {
    if s == "" then "" else (if s[0] == LF then "\r\n" else [s[0]]) + WithCr(s[1..])
  }

  function Echo(mode: EchoMode, s: string): string { if mode.Raw? then s else WithCr(s) }

  lemma {:induction false} WithCrConcat(a: string, b: string)
    ensures WithCr(a + b) == WithCr(a) + WithCr(b)
  {
    if a == "" {
      assert a + b == b;
    } else {
      assert (a + b)[0] == a[0] && (a + b)[1..] == a[1..] + b;
      WithCrConcat(a[1..], b);
    }
  }

  lemma {:induction false} WithCrOneLine(s: string)
    requires LF !in s
    ensures WithCr(s) == s
  {
    if s != "" {
      assert s[0] in s;
      assert forall c :: c in s[1..] ==> c in s;
      WithCrOneLine(s[1..]);
      assert s == [s[0]] + s[1..];
    }
  }

  lemma {:induction false} EchoContainsNot(s: string, m: string)
    requires IsMarker(m) && !Contains(s, m)
    ensures !Contains(WithCr(s), m)
    decreases |s|
  {
    hide Contains, WithCr, IsMarker;
    MarkerFence(m);
    var e := LineEnd(s, 0);
    var a := s[..e];
    WithCrOneLine(a);
    if e == |s| {
      assert a == s;
    } else {
      var b := s[e + 1..];
      PartContainsNot(s, m, 0, e);
      PartContainsNot(s, m, e + 1, |s|);
      assert b == s[e + 1..|s|];
      EchoContainsNot(b, m);
      WithCrLine(s, a, b);
      MarkerLength(m);
      ShortContainsNot("", m);
      ContainsNeither("", LF, WithCr(b), m);
      ContainsNeither(a, '\r', "" + [LF] + WithCr(b), m);
      assert a + ['\r'] + ("" + [LF] + WithCr(b)) == a + ("\r\n" + WithCr(b));
    }
  }

  lemma WithCrLine(s: string, a: string, b: string)
    requires s == a + [LF] + b || s == a + ([LF] + b)
    ensures WithCr(s) == WithCr(a) + ("\r\n" + WithCr(b))
  {
    assert s == a + ([LF] + b);
    WithCrConcat(a, [LF] + b);
    assert ([LF] + b)[1..] == b;
  }

  /** The turn in which `head` and the instruction are echoed and the peer replies. */
  function TurnOf(mode: EchoMode, head: string, m: string, reply: string, lead: string, tail: string): Turn {
    Turn(Echo(mode, head), if mode.Raw? then INSTRUCTION_END else ENDING_CRLF, reply, lead, tail, m)
  }

  lemma WithCrBody(head: string, w: string)
    requires LF !in w
    ensures WithCr(head + (w + "\n")) == WithCr(head) + (w + "\r\n")
  {
    WithCrConcat(head, w + "\n");
    WithCrOneLine(w);
    WithCrLine(w + "\n", w, "");
    assert "\r\n" + WithCr("") == "\r\n";
  }

  lemma EchoOfBody(mode: EchoMode, head: string, m: string)
    requires IsMarker(m)
    ensures Echo(mode, head + INSTRUCTION + m + INSTRUCTION_END)
         == Echo(mode, head) + INSTRUCTION + m + (if mode.Raw? then INSTRUCTION_END else ENDING_CRLF)
  {
    hide IsMarker, WithCr;
    MarkerFence(m);
    var w := INSTRUCTION + m + " on its own line.";
    assert head + INSTRUCTION + m + INSTRUCTION_END == head + (w + "\n");
    if mode.CrLf? {
      WithCrBody(head, w);
      assert WithCr(head) + (w + "\r\n") == WithCr(head) + INSTRUCTION + m + ENDING_CRLF;
    }
  }

  /** The echoed envelope and the turn's stream are the same bytes up to the reply. */
  lemma EchoOfEnvelope(mode: EchoMode, head: string, m: string, reply: string, lead: string, tail: string)
    requires IsMarker(m)
    ensures Segment(TurnOf(mode, head, m, reply, lead, tail))
         == Echo(mode, head + INSTRUCTION + m + INSTRUCTION_END) + reply + "\n" + lead + m + tail
  {
    hide IsMarker, Echo;
    var t := TurnOf(mode, head, m, reply, lead, tail);
    EchoOfBody(mode, head, m);
    SegmentByReply(t);
  }

  lemma SegmentByReply(t: Turn)
    ensures Segment(t) == t.head + INSTRUCTION + t.marker + t.ending + t.reply + "\n" + t.lead + t.marker + t.tail
  {
    assert "" + t.head == t.head;
    var a := t.head + INSTRUCTION + t.marker;
    assert a + (t.ending + t.reply + "\n" + t.lead) == a + t.ending + t.reply + "\n" + t.lead;
  }

  lemma TurnIsFresh(mode: EchoMode, head: string, m: string, reply: string, lead: string, tail: string)
    requires IsMarker(m) && !Contains(head, m) && head != "" && !MarkerChar(head[0]) && head[0] != LF
    requires !Contains(reply, m) && AllHorizontal(lead) && AllHorizontal(tail[..LineEnd(tail, 0)])
    ensures Fresh(TurnOf(mode, head, m, reply, lead, tail))
  {
    hide Contains, IsMarker;
    EchoContainsNot(head, m);
  }

  // ---------- one turn, every chunking ----------

  predicate OnlyOutput(events: seq<Event>) { forall k :: 0 <= k < |events| ==> events[k].Output? }

  function Joined(events: seq<Event>): string
    requires OnlyOutput(events)
  {
    if events == [] then "" else events[0].data + Joined(events[1..])
  }

  /** A look at an initial part of a turn's stream. */
  lemma LookAtPart(late: string, t: Turn, n: nat, exited: bool, sig: Signals)
    requires Fresh(t) && !Contains(late, t.marker) && n <= |Stream(late, t)|
    ensures n >= MarkerPos(late, t) + |t.marker| ==>
      Poll(Held(Stream(late, t)[..n], 0, exited), t.marker, sig) == (Held("", 0, exited), Reply(Trim(t.reply)))
    ensures n < MarkerPos(late, t) + |t.marker| ==>
      !Poll(Held(Stream(late, t)[..n], 0, exited), t.marker, sig).1.Reply? &&
      Poll(Held(Stream(late, t)[..n], 0, exited), t.marker, sig).0 == Held(Stream(late, t)[..n], 0, exited) &&
      (n <= MAX_BUFFER_BYTES && !exited && sig == Signals(false, false) ==>
         Poll(Held(Stream(late, t)[..n], 0, exited), t.marker, sig).1 == Waiting)
  {
    hide Fresh, Contains, Stream, MarkerPos, FindMarker, StripEcho, Trim;
    SearchInPart(late, t, n);
    StripInStream(late, t);
    StreamParts(late, t);
    FreshMarker(t);
    var c := Stream(late, t)[..n];
    if n >= MarkerPos(late, t) + |t.marker| {
      assert c[..MarkerPos(late, t)] == Stream(late, t)[..MarkerPos(late, t)];
    }
  }

  lemma {:induction false} TurnFromPart(late: string, t: Turn, n: nat, events: seq<Event>)
    requires Fresh(t) && !Contains(late, t.marker) && OnlyOutput(events) && n <= |Stream(late, t)|
    requires Stream(late, t)[..n] + Joined(events) <= Stream(late, t)
    requires n + |Joined(events)| >= MarkerPos(late, t) + |t.marker|
    requires |Stream(late, t)| <= MAX_BUFFER_BYTES
    ensures Converse(Held(Stream(late, t)[..n], 0, false), t.marker, Signals(false, false), events)
         == (Held("", 0, false), Reply(Trim(t.reply)))
    decreases |events|
  {
    hide Fresh, Contains, Stream, MarkerPos, Poll, Trim;
    var s, sig := Stream(late, t), Signals(false, false);
    var h := Held(s[..n], 0, false);
    LookAtPart(late, t, n, false, sig);
    if n < MarkerPos(late, t) + |t.marker| {
      var e := events[0].data;
      var k := n + |e|;
      assert s[..n] + Joined(events) == s[..n] + e + Joined(events[1..]);
      assert s[..k] == s[..n] + e by { PrefixOf(s, s[..n] + e, Joined(events[1..])); }
      TurnFromPart(late, t, k, events[1..]);
    }
  }

  lemma PrefixOf(s: string, a: string, b: string)
    requires a + b <= s
    ensures |a| <= |s| && s[..|a|] == a
  {
    assert (a + b)[..|a|] == a;
  }

  /** One turn: however the echo, the reply and the marker are cut into chunks, the answer is the reply
      without the whitespace around it, and nothing is left over. */
  lemma OneTurn(t: Turn, events: seq<Event>)
    requires Fresh(t) && OnlyOutput(events) && |Segment(t)| <= MAX_BUFFER_BYTES
    requires Joined(events) <= Segment(t) && |Joined(events)| >= |Segment(t)| - |t.tail|
    ensures Converse(Held("", 0, false), t.marker, Signals(false, false), events)
         == (Held("", 0, false), Reply(Trim(t.reply)))
  {
    hide Fresh, Contains, MarkerPos;
    var s := Stream("", t);
    assert s[..0] == "" && "" + Joined(events) == Joined(events);
    StreamParts("", t);
    NothingContains(t);
    TurnFromPart("", t, 0, events);
  }

  lemma NothingContains(t: Turn)
    requires Fresh(t)
    ensures !Contains("", t.marker)
  {
    FreshMarker(t);
    ShortContainsNot("", t.marker);
  }

  /** A line may end in LF or in CR LF, and blanks and tabs may stand around the marker on its line. */
  ghost predicate OwnLineParts(brk: string, lead: string, trail: string) {
    (brk == "\n" || brk == "\r\n") && forall c :: c in lead || c in trail ==> c == ' ' || c == '\t'
  }

  /** The reply with what precedes the line feed that ends it. */
  function ReplyLine(reply: string, brk: string): string
    requires brk != ""
  {
    reply + brk[..|brk| - 1]
  }

  lemma ReplyLineIs(reply: string, brk: string, m: string)
    requires IsMarker(m) && !Contains(reply, m) && (brk == "\n" || brk == "\r\n")
    ensures ReplyLine(reply, brk) + "\n" == reply + brk
    ensures !Contains(ReplyLine(reply, brk), m)
    ensures Trim(ReplyLine(reply, brk)) == Trim(reply)
  {
    hide Contains, IsMarker, Trim;
    MarkerFence(m);
    MarkerLength(m);
    ShortContainsNot("", m);
    ContainsNeither(reply, '\r', "", m);
    var front := brk[..|brk| - 1];
    assert front == "" || front == "\r";
    assert brk == front + "\n";
    assert reply + (front + "\n") == reply + front + "\n";
    assert reply + ['\r'] + "" == reply + "\r";
    assert reply + "" == reply;
    TrimBehind(reply, front);
  }

  lemma OwnLineIsHorizontal(brk: string, lead: string, trail: string, rest: string)
    requires OwnLineParts(brk, lead, trail) && (rest == "" || "\n" <= rest || "\r\n" <= rest)
    ensures AllHorizontal(lead) && AllHorizontal((trail + rest)[..LineEnd(trail + rest, 0)])
  {
    assert forall k :: 0 <= k < |lead| ==> lead[k] in lead;
    var s, e := trail + rest, LineEnd(trail + rest, 0);
    if "\r\n" <= rest { assert rest[1] == s[|trail| + 1] == LF; }
    if "\n" <= rest { assert rest[0] == s[|trail|] == LF; }
    forall k | 0 <= k < e ensures Horizontal(s[k]) {
      if k < |trail| { assert s[k] in trail; } else if "\r\n" <= rest { assert s[|trail|] == rest[0]; }
    }
  }

  /** The round trip of a later envelope: written, echoed with or without CR, answered, read. The peer may end its
      lines with CR LF, as a terminal does, and put blanks and tabs around the marker. */
  lemma EnvelopeRoundTrip(conv: Conversation, turnIndex: int, from: string, previous: string, m: string,
                          mode: EchoMode, reply: string, brk: string, lead: string, trail: string, events: seq<Event>)
    requires IsMarker(m) && !Contains(conv.id, m) && !Contains("peer-" + from, m)
    requires !Contains(previous, m) && !Contains(reply, m) && OnlyOutput(events)
    requires OwnLineParts(brk, lead, trail)
    requires Joined(events)
          == Echo(mode, BuildEnvelopeTurnN(conv, turnIndex, from, previous, m).body) + reply + brk + lead + m + trail + brk
    requires |Joined(events)| <= MAX_BUFFER_BYTES
    ensures Converse(Held("", 0, false), m, Signals(false, false), events) == (Held("", 0, false), Reply(Trim(reply)))
  {
    hide Contains, IsMarker, HeaderLine, Joined, Fresh, Converse;
    var head := BodyHead(conv.id, turnIndex, conv.maxTurns, "peer-" + from, previous);
    HeadContainsNot(conv.id, turnIndex, conv.maxTurns, "peer-" + from, previous, m);
    HeaderEnds(conv.id, turnIndex, conv.maxTurns, "peer-" + from);
    assert head[0] == '[';
    RoundTripOf(mode, head, m, reply, brk, lead, trail, events);
  }

  lemma RoundTripOf(mode: EchoMode, head: string, m: string, reply: string, brk: string, lead: string, trail: string,
                    events: seq<Event>)
    requires IsMarker(m) && !Contains(head, m) && head != "" && !MarkerChar(head[0]) && head[0] != LF
    requires !Contains(reply, m) && OnlyOutput(events) && |Joined(events)| <= MAX_BUFFER_BYTES && OwnLineParts(brk, lead, trail)
    requires Joined(events) == Echo(mode, head + INSTRUCTION + m + INSTRUCTION_END) + reply + brk + lead + m + trail + brk
    ensures Converse(Held("", 0, false), m, Signals(false, false), events) == (Held("", 0, false), Reply(Trim(reply)))
  {
    hide Contains, IsMarker, Joined, Fresh, Converse, Echo, Segment, AllHorizontal, ReplyLine, Trim;
    ReplyLineIs(reply, brk, m);
    OwnLineIsHorizontal(brk, lead, trail, brk);
    var line, tail := ReplyLine(reply, brk), trail + brk;
    var t := TurnOf(mode, head, m, line, lead, tail);
    TurnIsFresh(mode, head, m, line, lead, tail);
    EchoOfEnvelope(mode, head, m, line, lead, tail);
    SameStream(Echo(mode, head + INSTRUCTION + m + INSTRUCTION_END), line, reply, brk, lead, m, trail, brk);
    assert Joined(events) == Segment(t);
    OneTurn(t, events);
  }

  lemma SameStream(echo: string, line: string, reply: string, brk: string, lead: string, m: string, trail: string, rest: string)
    requires line + "\n" == reply + brk
    ensures echo + line + "\n" + lead + m + (trail + rest) == echo + reply + brk + lead + m + trail + rest
  {
    assert echo + line + "\n" == echo + (line + "\n") == echo + reply + brk;
  }

  /** What stands in front of the instruction of the first envelope. */
  function FirstHead(conv: Conversation, slot: string, briefing: string): string {
    briefing + "\n" + [LF] + BodyHead(conv.id, 1, conv.maxTurns, "seed", SeedFor(conv, slot))
  }

  lemma FirstBody(conv: Conversation, slot: string, briefing: string, m: string)
    ensures BuildEnvelopeTurn1(conv, slot, briefing, m).body
         == FirstHead(conv, slot, briefing) + INSTRUCTION + m + INSTRUCTION_END
  {
    hide BodyHead;
    var b := BodyHead(conv.id, 1, conv.maxTurns, "seed", SeedFor(conv, slot));
    assert briefing + "\n\n" == briefing + "\n" + [LF];
    FourParts(briefing + "\n\n", b, INSTRUCTION, m, INSTRUCTION_END);
  }

  lemma FourParts(a: string, b: string, c: string, d: string, e: string)
    ensures a + (b + c + d + e) == a + b + c + d + e
  {
  }

  lemma FirstHeadContainsNot(conv: Conversation, slot: string, briefing: string, m: string)
    requires IsMarker(m) && !Contains(conv.id, m) && !Contains(SeedFor(conv, slot), m)
    requires !Contains(briefing, m) && briefing != ""
    ensures !Contains(FirstHead(conv, slot, briefing), m)
    ensures FirstHead(conv, slot, briefing) != "" && FirstHead(conv, slot, briefing)[0] == briefing[0]
  {
    hide Contains, IsMarker, BodyHead, SeedFor;
    var seed := SeedFor(conv, slot);
    var body := BodyHead(conv.id, 1, conv.maxTurns, "seed", seed);
    MarkerLength(m);
    ShortContainsNot("seed", m);
    HeadContainsNot(conv.id, 1, conv.maxTurns, "seed", seed, m);
    MarkerFence(m);
    ShortContainsNot("", m);
    ContainsNeither(briefing, LF, "", m);
    NothingBehind(briefing);
    ContainsNeither(briefing + "\n", LF, body, m);
  }

  lemma NothingBehind(s: string)
    ensures s + [LF] + "" == s + "\n"
  {
  }

  /** The round trip of the first envelope, with a briefing in front (any text that has no marker and
      starts with a character no marker has). */
  lemma FirstEnvelopeRoundTrip(conv: Conversation, slot: string, briefing: string, m: string,
                               mode: EchoMode, reply: string, brk: string, lead: string, trail: string, events: seq<Event>)
    requires IsMarker(m) && !Contains(conv.id, m) && !Contains(SeedFor(conv, slot), m)
    requires !Contains(briefing, m) && briefing != "" && !MarkerChar(briefing[0]) && briefing[0] != LF
    requires !Contains(reply, m) && OnlyOutput(events)
    requires OwnLineParts(brk, lead, trail)
    requires Joined(events)
          == Echo(mode, BuildEnvelopeTurn1(conv, slot, briefing, m).body) + reply + brk + lead + m + trail + brk
    requires |Joined(events)| <= MAX_BUFFER_BYTES
    ensures Converse(Held("", 0, false), m, Signals(false, false), events) == (Held("", 0, false), Reply(Trim(reply)))
  {
    hide Contains, IsMarker, Joined, Fresh, Converse, FirstHead, BuildEnvelopeTurn1, SeedFor, Echo;
    FirstHeadContainsNot(conv, slot, briefing, m);
    FirstBody(conv, slot, briefing, m);
    RoundTripOf(mode, FirstHead(conv, slot, briefing), m, reply, brk, lead, trail, events);
  }

  /** Without an echo the answer is not trimmed: the line feed in front of the marker stays in it. */
  lemma WithoutEchoNothingIsTrimmed(reply: string, m: string, sig: Signals)
    requires IsMarker(m) && !Contains(reply, m)
    ensures Poll(Held(reply + [LF] + (m + [LF]), 0, false), m, sig) == (Held("", 0, false), Reply(reply + [LF]))
  {
    hide IsMarker, AloneAt, IndexFrom, FindMarker;
    var b, p := reply + [LF] + (m + [LF]), |reply| + 1;
    MarkerFence(m);
    forall q: nat | AloneAt(b, m, q) ensures q == p {
      AloneChars(b, m, q);
      NoStraddle(reply, LF, m + [LF], m, q);
      if q > |reply| {
        assert m + [LF] == m + [LF] + "";
        NoStraddle(m, LF, "", m, q - p);
      }
    }
    MarkerOnLastLine(reply, m);
    SearchIsExact(b, m);
    assert b[..p] == reply + [LF];
    MarkerLength(m);
    ShortContainsNot("", m);
    ContainsNeither(reply, LF, "", m);
    assert reply + [LF] + "" == reply + [LF];
    NoNeedle(reply + [LF], m);
  }

  lemma MarkerOnLastLine(reply: string, m: string)
    requires LF !in m
    ensures AloneAt(reply + [LF] + (m + [LF]), m, |reply| + 1)
  {
    var b, p := reply + [LF] + (m + [LF]), |reply| + 1;
    assert b == (reply + [LF]) + m + [LF];
    Pieces(b, reply + [LF], m, [LF]);
    assert b[p - 1] == LF && b[p + |m|] == LF;
  }

  lemma NoNeedle(s: string, m: string)
    requires !Contains(s, m)
    ensures IndexFrom(s, INSTRUCTION + m, 0) == -1
  {
    hide IndexFrom, OccursAt;
    var q := IndexFrom(s, INSTRUCTION + m, 0);
    if q >= 0 { NeedleHasMarker(s, m, q); }
  }
}
