/** Turns on terminals with and without echo, and what the wrapper answers in each. */
module SilentTurns {
  import opened Text
  import opened MarkerSearch
  import opened Envelope
  import opened PersistentProcess
  import opened TurnStream
  import opened TurnIsolation

  /** The terminal echoes the envelope in front of the reply, or it does not. */
  datatype PeerTurn =
    | Echoed(turn: Turn)
    | Silent(reply: string, lead: string, tail: string, marker: string)

  function MarkerOf(p: PeerTurn): string { if p.Echoed? then p.turn.marker else p.marker }

  function ReplyOf(p: PeerTurn): string { if p.Echoed? then p.turn.reply else p.reply }

  function TailOf(p: PeerTurn): string { if p.Echoed? then p.turn.tail else p.tail }

  /** What the terminal emits in this turn. */
  function Emitted(p: PeerTurn): string {
    match p
    case Echoed(t) => Segment(t)
    case Silent(reply, lead, tail, marker) => reply + "\n" + lead + marker + tail
  }

  /** The position just behind the peer's own marker. */
  function EndOfMarker(late: string, p: PeerTurn): (n: nat)
    ensures n == |late + Emitted(p)| - |TailOf(p)|
  {
    match p
    case Echoed(t) => StreamIs(late, t); StreamParts(late, t); MarkerPos(late, t) + |t.marker|
    case Silent(reply, lead, tail, marker) => |late + reply + "\n" + lead| + |marker|
  }

  /** What the wrapper answers when `late` is still in front of the turn. */
  function Answer(late: string, p: PeerTurn): string {
    match p
    case Echoed(t) => Trim(t.reply)
    case Silent(reply, lead, _, _) => late + reply + "\n" + lead
  }

  /** The marker is fresh: the peer puts it on a line of its own, the envelope has it in the instruction
      only, and neither the reply nor what may arrive in front of it has it. */
  ghost predicate FreshBehind(late: string, p: PeerTurn) {
    match p
    case Echoed(t) => Fresh(t) && !Contains(late, t.marker)
    case Silent(reply, lead, tail, marker) =>
      IsMarker(marker) && !Contains(late + reply, marker) &&
      AllHorizontal(lead) && AllHorizontal(tail[..LineEnd(tail, 0)])
  }

  lemma StreamIs(late: string, t: Turn)
    ensures Stream(late, t) == late + Segment(t)
  {
    assert late + t.head + INSTRUCTION == late + ("" + t.head + INSTRUCTION);
    SegmentByReply(t);
    var a := Before("", t);
    assert late + a + t.marker + Between(t) + t.marker + t.tail == late + (a + t.marker + Between(t) + t.marker + t.tail);
  }

  lemma TailEnds(p: PeerTurn)
    ensures var e, l := Emitted(p), TailOf(p); |l| <= |e| && e[|e| - |l|..] == l
  {
    hide Segment;
    match p
    case Echoed(t) =>
      SegmentByReply(t);
      EndOfText(t.head + INSTRUCTION + t.marker + t.ending + t.reply + "\n" + t.lead + t.marker, t.tail);
    case Silent(reply, lead, tail, marker) => EndOfText(reply + "\n" + lead + marker, tail);
  }

  lemma EndOfText(a: string, b: string)
    ensures (a + b)[|a + b| - |b|..] == b
  {
  }

  // ---------- without echo ----------

  /** The places of the parts of a text that ends in a line of its own. */
  lemma SilentParts(text: string, lead: string, m: string, tail: string)
    ensures var s, p := text + "\n" + lead + m + tail, |text| + 1 + |lead|;
      OccursAt(s, m, p) && s[..p] == text + "\n" + lead && s[p - |lead|..p] == lead && s[p - |lead| - 1] == LF &&
      s[p + |m|..] == tail && s == text + [LF] + (lead + (m + tail))
  {
    hide OccursAt;
    var s, front := text + "\n" + lead + m + tail, text + "\n";
    Pieces(s, front + lead, m, tail);
    LeadParts(front, lead, s);
    FourSeq(front, lead, m, tail);
    LastOfFront(text, lead + (m + tail));
  }

  lemma FourSeq(a: string, b: string, c: string, d: string)
    ensures a + b + c + d == a + (b + (c + d))
  {
  }

  lemma LeadParts(front: string, lead: string, s: string)
    requires |front| + |lead| <= |s| && s[..|front| + |lead|] == front + lead
    ensures s[|front|..|front| + |lead|] == lead
  {
    assert s[|front|..|front| + |lead|] == s[..|front| + |lead|][|front|..];
  }

  lemma LastOfFront(text: string, rest: string)
    ensures (text + "\n" + rest)[|text|] == LF && text + "\n" + rest == text + [LF] + rest
  {
  }

  lemma NotInLead(lead: string, rest: string, m: string, r: nat)
    requires m != "" && m[0] !in lead && r < |lead|
    ensures !OccursAt(lead + rest, m, r)
  {
    if OccursAt(lead + rest, m, r) { OccursChars(lead + rest, m, r, 0); }
  }

  /** The marker stands nowhere in front of its place. */
  lemma SilentOccurrence(text: string, lead: string, m: string, tail: string, q: nat)
    requires IsMarker(m) && !Contains(text, m) && AllHorizontal(lead)
    requires OccursAt(text + [LF] + (lead + (m + tail)), m, q)
    ensures q >= |text| + 1 + |lead|
  {
    hide OccursAt, IsMarker, Contains;
    NotStarted(text, m, q);
    MarkerFence(m);
    NoStraddle(text, LF, lead + (m + tail), m, q);
    assert m[0] in m;
    var r := q - |text| - 1;
    if 0 <= r < |lead| { NotInLead(lead, m + tail, m, r); }
  }

  lemma NotStarted(text: string, m: string, q: nat)
    requires !Contains(text, m)
    ensures !OccursAt(text, m, q)
  {
  }

  /** s has the marker at p, alone on its line, and nowhere before. */
  ghost predicate MarkerFirstAt(s: string, lead: string, m: string, p: nat) {
    && p + |m| <= |s| && 1 + |lead| <= p
    && OccursAt(s, m, p) && (forall q: nat :: OccursAt(s, m, q) ==> q >= p)
    && s[p - |lead|..p] == lead && s[p - |lead| - 1] == LF
    && AllHorizontal(lead) && AllHorizontal(s[p + |m|..LineEnd(s, p + |m|)])
  }

  lemma SilentMarker(text: string, lead: string, m: string, tail: string)
    requires IsMarker(m) && !Contains(text, m) && AllHorizontal(lead) && AllHorizontal(tail[..LineEnd(tail, 0)])
    ensures MarkerFirstAt(text + "\n" + lead + m + tail, lead, m, |text| + 1 + |lead|)
  {
    hide IsMarker, Contains, OccursAt, LineEnd, AllHorizontal, MarkerFirstAt;
    SilentParts(text, lead, m, tail);
    SilentMarkerAt(text, lead, m, tail, text + "\n" + lead + m + tail, |text| + 1 + |lead|);
  }

  lemma SilentMarkerAt(text: string, lead: string, m: string, tail: string, s: string, p: nat)
    requires IsMarker(m) && !Contains(text, m) && AllHorizontal(lead) && AllHorizontal(tail[..LineEnd(tail, 0)])
    requires p == |text| + 1 + |lead| && p + |m| <= |s| && OccursAt(s, m, p) && s == text + [LF] + (lead + (m + tail))
    requires s[p - |lead|..p] == lead && s[p - |lead| - 1] == LF && s[p + |m|..] == tail
    ensures MarkerFirstAt(s, lead, m, p)
  {
    hide IsMarker, Contains, OccursAt, LineEnd, AllHorizontal;
    NoMarkerBefore(text, lead, m, tail, s, p);
    RestOfLine(s, p + |m|, tail);
  }

  lemma NoMarkerBefore(text: string, lead: string, m: string, tail: string, s: string, p: nat)
    requires IsMarker(m) && !Contains(text, m) && AllHorizontal(lead)
    requires s == text + [LF] + (lead + (m + tail)) && p == |text| + 1 + |lead|
    ensures forall q: nat :: OccursAt(s, m, q) ==> q >= p
  {
    hide IsMarker, Contains, OccursAt, AllHorizontal;
    forall q: nat | OccursAt(s, m, q) ensures q >= p { SilentOccurrence(text, lead, m, tail, q); }
  }

  lemma RestOfLine(s: string, e: nat, tail: string)
    requires e <= |s| && s[e..] == tail && AllHorizontal(tail[..LineEnd(tail, 0)])
    ensures AllHorizontal(s[e..LineEnd(s, e)])
  {
    hide AllHorizontal, LineEnd;
    LineEndBehind(s, e);
  }

  lemma SearchFirst(s: string, lead: string, m: string, p: nat, n: nat)
    requires MarkerFirstAt(s, lead, m, p) && m != "" && LF !in m && n <= |s|
    ensures FindMarker(s[..n], m) == if n < p + |m| then -1 else p
  {
    hide AloneAt, FindMarker, OccursAt, LineEnd, AllHorizontal;
    SearchIsExact(s[..n], m);
    forall q: nat | AloneAt(s[..n], m, q) ensures q >= p && q + |m| <= n {
      AloneChars(s[..n], m, q);
      OccursInWhole(s, m, n, q);
    }
    if n >= p + |m| {
      OccursInPart(s, m, n, p);
      AloneInPart(s, m, n, p, |lead|, lead);
    }
  }

  lemma StripSilent(text: string, lead: string, m: string)
    requires IsMarker(m) && !Contains(text, m) && AllHorizontal(lead)
    ensures StripEcho(text + "\n" + lead, m) == text + "\n" + lead
  {
    hide Contains, IsMarker, IndexFrom;
    MarkerFence(m);
    OtherCharsContainNot(lead, m) by { assert m[0] in m; }
    ContainsNeither(text, LF, lead, m);
    assert text + [LF] + lead == text + "\n" + lead;
    NoNeedle(text + "\n" + lead, m);
  }

  /** One look at a part of s. */
  lemma PollPart(s: string, lead: string, m: string, p: nat, n: nat, exited: bool, sig: Signals)
    requires MarkerFirstAt(s, lead, m, p) && m != "" && LF !in m && n <= |s|
    requires StripEcho(s[..p], m) == s[..p]
    ensures var h := Held(s[..n], 0, exited);
      if n >= p + |m| then Poll(h, m, sig) == (Held("", 0, exited), Reply(s[..p]))
      else !Poll(h, m, sig).1.Reply? && Poll(h, m, sig).0 == h &&
           (n <= MAX_BUFFER_BYTES && !exited && sig == Signals(false, false) ==> Poll(h, m, sig).1 == Waiting)
  {
    hide FindMarker, StripEcho, MarkerFirstAt;
    SearchFirst(s, lead, m, p, n);
    FirstFits(s, lead, m, p);
    if n >= p + |m| { assert s[..n][..p] == s[..p]; }
  }

  lemma FirstFits(s: string, lead: string, m: string, p: nat)
    requires MarkerFirstAt(s, lead, m, p)
    ensures p + |m| <= |s|
  {
  }

  lemma SilentStream(late: string, p: PeerTurn, s: string, at: nat)
    requires p.Silent? && s == late + p.reply + "\n" + p.lead + p.marker + p.tail && at == |late + p.reply| + 1 + |p.lead|
    ensures late + Emitted(p) == s && EndOfMarker(late, p) == at + |p.marker| <= |s| && Answer(late, p) == s[..at]
  {
    hide OccursAt;
    SilentParts(late + p.reply, p.lead, p.marker, p.tail);
    LateFirst(late, p.reply, p.lead, p.marker, p.tail);
  }

  lemma LateFirst(late: string, reply: string, lead: string, marker: string, tail: string)
    ensures late + (reply + "\n" + lead + marker + tail) == late + reply + "\n" + lead + marker + tail
  {
  }

  lemma SilentFirst(late: string, p: PeerTurn, s: string, at: nat)
    requires p.Silent? && FreshBehind(late, p)
    requires s == late + p.reply + "\n" + p.lead + p.marker + p.tail && at == |late + p.reply| + 1 + |p.lead|
    ensures p.marker != "" && LF !in p.marker && at <= |s|
    ensures MarkerFirstAt(s, p.lead, p.marker, at) && StripEcho(s[..at], p.marker) == s[..at]
  {
    hide StripEcho, IsMarker, Contains, MarkerFirstAt, AllHorizontal, LineEnd, OccursAt;
    var text := late + p.reply;
    MarkerFence(p.marker);
    SilentMarker(text, p.lead, p.marker, p.tail);
    StripSilent(text, p.lead, p.marker);
    SilentParts(text, p.lead, p.marker, p.tail);
  }

  lemma LookAtSilent(late: string, p: PeerTurn, n: nat, exited: bool, sig: Signals)
    requires p.Silent? && FreshBehind(late, p) && n <= |late + Emitted(p)|
    ensures LooksExactly(late, p, n, exited, sig)
  {
    hide Poll, StripEcho, MarkerFirstAt, Emitted, EndOfMarker, Answer, FreshBehind;
    var s, at := late + p.reply + "\n" + p.lead + p.marker + p.tail, |late + p.reply| + 1 + |p.lead|;
    SilentStream(late, p, s, at);
    SilentFirst(late, p, s, at);
    PollPart(s, p.lead, p.marker, at, n, exited, sig);
  }

  // ---------- with or without echo ----------

  /** A look at the first n bytes behind the last reset: the answer, once the peer's marker is there whole;
      before that nothing happens to the buffer. */
  ghost predicate LooksExactly(late: string, p: PeerTurn, n: nat, exited: bool, sig: Signals)
    requires n <= |late + Emitted(p)|
  {
    var h := Held((late + Emitted(p))[..n], 0, exited);
    var r := Poll(h, MarkerOf(p), sig);
    if n >= EndOfMarker(late, p) then r == (Held("", 0, exited), Reply(Answer(late, p)))
    else !r.1.Reply? && r.0 == h && (n <= MAX_BUFFER_BYTES && !exited && sig == Signals(false, false) ==> r.1 == Waiting)
  }

  lemma LookAt(late: string, p: PeerTurn, n: nat, exited: bool, sig: Signals)
    requires FreshBehind(late, p) && n <= |late + Emitted(p)|
    ensures LooksExactly(late, p, n, exited, sig)
  {
    match p
    case Echoed(t) => LookAtEchoed(late, t, n, exited, sig);
    case Silent(_, _, _, _) => LookAtSilent(late, p, n, exited, sig);
  }

  lemma LookAtEchoed(late: string, t: Turn, n: nat, exited: bool, sig: Signals)
    requires Fresh(t) && !Contains(late, t.marker) && n <= |late + Segment(t)|
    ensures LooksExactly(late, Echoed(t), n, exited, sig)
  {
    hide Poll, Fresh, Contains, MarkerPos, Stream, Segment, Trim;
    StreamIs(late, t);
    LookAtPart(late, t, n, exited, sig);
  }

  /** A later leftover is no harder than the whole one. */
  lemma FreshBehindPart(late: string, p: PeerTurn, j: nat)
    requires FreshBehind(late, p) && j <= |late|
    ensures FreshBehind(late[j..], p)
  {
    hide Contains, Fresh, IsMarker;
    match p
    case Echoed(t) =>
      PartContainsNot(late, t.marker, j, |late|);
      assert late[j..|late|] == late[j..];
    case Silent(reply, lead, tail, marker) =>
      var text := late + reply;
      PartContainsNot(text, marker, j, |text|);
      assert text[j..|text|] == late[j..] + reply;
  }
}
