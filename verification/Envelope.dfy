/** Envelope bodies, from `internal/conversation/envelope.go` and the token shape of `marker.go`. */
module Envelope {
  import opened Text

  const MARKER_PREFIX := "TURN_END_"

  predicate HexDigit(c: char) { '0' <= c <= '9' || 'a' <= c <= 'f' }

  /** `TURN_END_` and twelve hex digits. */
  predicate IsMarker(m: string) {
    |m| == 21 && m[..9] == MARKER_PREFIX && forall k :: 9 <= k < 21 ==> HexDigit(m[k])
  }

  predicate MarkerChar(c: char) { HexDigit(c) || c in MARKER_PREFIX }

  lemma MarkerHasMarkerChars(m: string)
    requires IsMarker(m)
    ensures |m| == 21 && m[..9] == "TURN_END_" && forall k :: 9 <= k < 21 ==> '0' <= m[k] <= '9' || 'a' <= m[k] <= 'f'
    ensures forall c :: c in m ==> MarkerChar(c)
    ensures m[0] == 'T'
  {
    assert m == m[..9] + m[9..];
    forall k | 0 <= k < 21 ensures MarkerChar(m[k]) {
      if k < 9 { assert m[k] == MARKER_PREFIX[k]; }
    }
    assert m[..9][0] == m[0];
  }

  datatype Conversation = Conversation(id: string, maxTurns: int, seedA: string, seedB: string)

  datatype Envelope = Envelope(turnIndex: int, from: string, body: string, marker: string)

  function ShowNat(n: nat): (s: string)
    ensures forall c :: c in s ==> '0' <= c <= '9'
  {
    if n < 10 then ["0123456789"[n]] else ShowNat(n / 10) + ["0123456789"[n % 10]]
  }

  function ShowInt(i: int): (s: string)
    ensures forall c :: c in s ==> '0' <= c <= '9' || c == '-'
  {
    if i < 0 then "-" + ShowNat(-i) else ShowNat(i)
  }

  function HeaderLine(id: string, turnIndex: int, maxTurns: int, fromLabel: string): string {
    "[conversation: " + id + "  turn " + ShowInt(turnIndex) + " of " + ShowInt(maxTurns) + "  from: " + fromLabel + "]\n"
  }

  function EndWithNewline(content: string): string {
    if content != "" && content[|content| - 1] == LF then content else content + "\n"
  }

  const INSTRUCTION_START := "When you finish your reply, "
  const INSTRUCTION := "output the token "
  const INSTRUCTION_END := " on its own line.\n"

  /** Everything in front of the words "output the token". */
  function BodyHead(id: string, turnIndex: int, maxTurns: int, fromLabel: string, content: string): string {
    HeaderLine(id, turnIndex, maxTurns, fromLabel) + EndWithNewline(content) + "\n" + INSTRUCTION_START
  }

  function RenderBody(id: string, turnIndex: int, maxTurns: int, fromLabel: string, content: string, marker: string): string {
    BodyHead(id, turnIndex, maxTurns, fromLabel, content) + INSTRUCTION + marker + INSTRUCTION_END
  }

  function SeedFor(conv: Conversation, slot: string): string {
    if slot == "a" then conv.seedA else conv.seedB
  }

  function BuildEnvelopeTurn1(conv: Conversation, slot: string, briefing: string, marker: string): Envelope {
    Envelope(1, "seed",
             briefing + "\n\n" + RenderBody(conv.id, 1, conv.maxTurns, "seed", SeedFor(conv, slot), marker), marker)
  }

  function BuildEnvelopeTurnN(conv: Conversation, turnIndex: int, from: string, previous: string, marker: string): Envelope {
    Envelope(turnIndex, from, RenderBody(conv.id, turnIndex, conv.maxTurns, "peer-" + from, previous, marker), marker)
  }

  // ---------- the marker stands in an envelope only where the instruction puts it ----------

  lemma NumberContainsNot(i: int, m: string)
    requires IsMarker(m)
    ensures !Contains(ShowInt(i), m)
  {
    MarkerHasMarkerChars(m);
    OtherCharsContainNot(ShowInt(i), m);
  }

  function HeaderStart(id: string, turnIndex: int): string {
    "[conversation:" + [' '] + id + [' '] + " turn" + [' '] + ShowInt(turnIndex)
  }

  lemma HeaderStartContainsNot(id: string, turnIndex: int, m: string)
    requires IsMarker(m) && !Contains(id, m)
    ensures !Contains(HeaderStart(id, turnIndex), m)
  {
    hide Contains, ShowInt, IsMarker;
    MarkerHasMarkerChars(m);
    MarkerLength(m);
    NumberContainsNot(turnIndex, m);
    ShortContainsNot("[conversation:", m);
    ShortContainsNot(" turn", m);
    var a := "[conversation:" + [' '] + id;
    ContainsNeither("[conversation:", ' ', id, m);
    ContainsNeither(a, ' ', " turn", m);
    ContainsNeither(a + [' '] + " turn", ' ', ShowInt(turnIndex), m);
  }

  function HeaderRest(maxTurns: int, fromLabel: string): string {
    "of" + [' '] + ShowInt(maxTurns) + [' '] + " from:" + [' '] + fromLabel + [']'] + "\n"
  }

  lemma HeaderRestContainsNot(maxTurns: int, fromLabel: string, m: string)
    requires IsMarker(m) && !Contains(fromLabel, m)
    ensures !Contains(HeaderRest(maxTurns, fromLabel), m)
  {
    hide Contains, ShowInt, IsMarker;
    MarkerHasMarkerChars(m);
    MarkerLength(m);
    NumberContainsNot(maxTurns, m);
    ShortContainsNot("of", m);
    ShortContainsNot(" from:", m);
    ShortContainsNot("\n", m);
    var a := "of" + [' '] + ShowInt(maxTurns);
    ContainsNeither("of", ' ', ShowInt(maxTurns), m);
    ContainsNeither(a, ' ', " from:", m);
    var b := a + [' '] + " from:";
    ContainsNeither(b, ' ', fromLabel, m);
    ContainsNeither(b + [' '] + fromLabel, ']', "\n", m);
  }

  lemma HeaderContainsNot(id: string, turnIndex: int, maxTurns: int, fromLabel: string, m: string)
    requires IsMarker(m) && !Contains(id, m) && !Contains(fromLabel, m)
    ensures !Contains(HeaderLine(id, turnIndex, maxTurns, fromLabel), m)
  {
    hide Contains, ShowInt, IsMarker;
    MarkerHasMarkerChars(m);
    MarkerLength(m);
    HeaderStartContainsNot(id, turnIndex, m);
    HeaderRestContainsNot(maxTurns, fromLabel, m);
    ContainsNeither(HeaderStart(id, turnIndex), ' ', HeaderRest(maxTurns, fromLabel), m);
    HeaderIs(id, turnIndex, maxTurns, fromLabel);
  }

  lemma HeaderIs(id: string, turnIndex: int, maxTurns: int, fromLabel: string)
    ensures HeaderStart(id, turnIndex) + [' '] + HeaderRest(maxTurns, fromLabel) == HeaderLine(id, turnIndex, maxTurns, fromLabel)
  {
    hide ShowInt;
  }

  lemma MarkerLength(m: string)
    requires IsMarker(m)
    ensures |m| == 21
  {
  }

  lemma InstructionStartContainsNot(m: string)
    requires IsMarker(m)
    ensures !Contains(INSTRUCTION_START, m)
  {
    hide Contains, IsMarker;
    MarkerHasMarkerChars(m);
    MarkerLength(m);
    ShortContainsNot("When you finish", m);
    ShortContainsNot("your reply, ", m);
    ContainsNeither("When you finish", ' ', "your reply, ", m);
    assert "When you finish" + [' '] + "your reply, " == INSTRUCTION_START;
  }

  /** What stands behind the header, up to the instruction. */
  lemma MessageContainsNot(content: string, m: string)
    requires IsMarker(m) && !Contains(content, m)
    ensures !Contains(EndWithNewline(content) + [LF] + INSTRUCTION_START, m)
  {
    hide Contains, IsMarker;
    MarkerHasMarkerChars(m);
    MarkerLength(m);
    ShortContainsNot("", m);
    InstructionStartContainsNot(m);
    ContainsNeither(content, LF, "", m);
    assert content + [LF] + "" == content + "\n";
    ContainsNeither(EndWithNewline(content), LF, INSTRUCTION_START, m);
  }

  lemma LinesJoin(h: string, c: string, start: string)
    requires h != "" && h[|h| - 1] == LF
    ensures h[..|h| - 1] + [LF] + (c + [LF] + start) == h + c + "\n" + start
  {
    assert h[..|h| - 1] + [LF] == h;
  }

  lemma HeadContainsNot(id: string, turnIndex: int, maxTurns: int, fromLabel: string, content: string, m: string)
    requires IsMarker(m) && !Contains(id, m) && !Contains(fromLabel, m) && !Contains(content, m)
    ensures !Contains(BodyHead(id, turnIndex, maxTurns, fromLabel, content), m)
  {
    hide Contains, IsMarker, HeaderLine, EndWithNewline;
    MarkerHasMarkerChars(m);
    MarkerLength(m);
    HeaderContainsNot(id, turnIndex, maxTurns, fromLabel, m);
    MessageContainsNot(content, m);
    var h, c := HeaderLine(id, turnIndex, maxTurns, fromLabel), EndWithNewline(content);
    HeaderEnds(id, turnIndex, maxTurns, fromLabel);
    PartContainsNot(h, m, 0, |h| - 1);
    assert h[0..|h| - 1] == h[..|h| - 1];
    ContainsNeither(h[..|h| - 1], LF, c + [LF] + INSTRUCTION_START, m);
    LinesJoin(h, c, INSTRUCTION_START);
  }

  lemma HeaderEnds(id: string, turnIndex: int, maxTurns: int, fromLabel: string)
    ensures var h := HeaderLine(id, turnIndex, maxTurns, fromLabel); |h| > 1 && h[|h| - 1] == LF && h[0] == '['
  {
  }
}
