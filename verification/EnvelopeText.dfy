/** What an envelope says, letter by letter, and that a reader gets it back. */
module EnvelopeText {
  import opened Envelope
  import Text

  // ---------- the text ----------

  /** A later envelope: whose turn it is, the reply of the peer before on lines of its own, and the marker. */
  lemma LaterEnvelopeSays(conv: Conversation, turnIndex: int, from: string, previous: string, m: string)
    ensures var e := BuildEnvelopeTurnN(conv, turnIndex, from, previous, m);
      e.turnIndex == turnIndex && e.from == from && e.marker == m &&
      e.body ==
        "[conversation: " + conv.id + "  turn " + ShowInt(turnIndex) + " of " + ShowInt(conv.maxTurns) + "  from: peer-" + from + "]\n" +
        previous + (if previous != "" && previous[|previous| - 1] == '\n' then "" else "\n") +
        "\n" + "When you finish your reply, " + "output the token " + m + " on its own line.\n"
  {
    hide ShowInt;
    var line := HeaderLine(conv.id, turnIndex, conv.maxTurns, "peer-" + from);
    HeaderFromPeer(conv.id, turnIndex, conv.maxTurns, from);
    BodySays(line, previous, m);
  }

  lemma HeaderFromPeer(id: string, turnIndex: int, maxTurns: int, from: string)
    ensures HeaderLine(id, turnIndex, maxTurns, "peer-" + from)
         == "[conversation: " + id + "  turn " + ShowInt(turnIndex) + " of " + ShowInt(maxTurns) + "  from: peer-" + from + "]\n"
  {
    hide ShowInt;
    var a := "[conversation: " + id + "  turn " + ShowInt(turnIndex) + " of " + ShowInt(maxTurns);
    assert a + "  from: " + ("peer-" + from) == a + "  from: peer-" + from;
  }

  lemma BodySays(line: string, content: string, m: string)
    ensures line + EndWithNewline(content) + "\n" + INSTRUCTION_START + INSTRUCTION + m + INSTRUCTION_END
         == line + content + (if content != "" && content[|content| - 1] == '\n' then "" else "\n") +
            "\n" + "When you finish your reply, " + "output the token " + m + " on its own line.\n"
  {
    var end := if content != "" && content[|content| - 1] == '\n' then "" else "\n";
    assert EndWithNewline(content) == content + end;
    assert line + (content + end) == line + content + end;
  }

  /** The first envelope: the briefing, and the seed of the slot as the message. */
  lemma FirstEnvelopeSays(conv: Conversation, slot: string, briefing: string, m: string)
    ensures var e := BuildEnvelopeTurn1(conv, slot, briefing, m);
      var seed := if slot == "a" then conv.seedA else conv.seedB;
      e.turnIndex == 1 && e.from == "seed" && e.marker == m &&
      e.body == briefing + "\n\n" + (
        "[conversation: " + conv.id + "  turn 1 of " + ShowInt(conv.maxTurns) + "  from: seed]\n" +
        seed + (if seed != "" && seed[|seed| - 1] == '\n' then "" else "\n") +
        "\n" + "When you finish your reply, " + "output the token " + m + " on its own line.\n")
  {
    var seed := if slot == "a" then conv.seedA else conv.seedB;
    HeaderOfSeed(conv.id, conv.maxTurns);
    BodySays(HeaderLine(conv.id, 1, conv.maxTurns, "seed"), seed, m);
  }

  lemma HeaderOfSeed(id: string, maxTurns: int)
    ensures HeaderLine(id, 1, maxTurns, "seed") == "[conversation: " + id + "  turn 1 of " + ShowInt(maxTurns) + "  from: seed]\n"
  {
    var n := ShowInt(maxTurns);
    var a := "[conversation: " + id + "  turn ";
    assert ShowInt(1) == "1";
    assert a + "1" == "[conversation: " + id + "  turn 1";
    assert a + "1" + " of " == "[conversation: " + id + "  turn 1 of ";
    var b := "[conversation: " + id + "  turn 1 of " + n;
    assert b + "  from: " + "seed" + "]\n" == b + "  from: seed]\n";
  }

  // ---------- reading it ----------

  /** The value of a decimal numeral. */
  function ReadNat(s: string): int {
    if s == "" then 0 else 10 * ReadNat(s[..|s| - 1]) + (s[|s| - 1] as int - '0' as int)
  }

  function ReadInt(s: string): int { if s != "" && s[0] == '-' then -ReadNat(s[1..]) else ReadNat(s) }

  lemma {:induction false} ReadShownNat(n: nat)
    ensures ReadNat(ShowNat(n)) == n && ShowNat(n) != "" && ShowNat(n)[0] != '-'
  {
    var last: char := "0123456789"[n % 10];
    DigitIs(n % 10);
    if n >= 10 {
      ReadShownNat(n / 10);
      ReadMore(ShowNat(n / 10), last);
    } else {
      ReadMore("", last);
      assert "" + [last] == [last];
    }
  }

  lemma DigitIs(d: nat)
    requires d < 10
    ensures "0123456789"[d] as int - '0' as int == d && "0123456789"[d] != '-'
  {
  }

  lemma ReadMore(s: string, c: char)
    ensures ReadNat(s + [c]) == 10 * ReadNat(s) + (c as int - '0' as int)
    ensures s != "" ==> (s + [c])[0] == s[0]
  {
    assert (s + [c])[..|s|] == s;
  }

  /** The numbers of the header are decimal. */
  lemma NumbersAreRead(i: int)
    ensures ReadInt(ShowInt(i)) == i
    ensures ShowInt(0) == "0" && ShowInt(1024) == "1024" && ShowInt(-7) == "-7"
  {
    ReadShownNat(if i < 0 then -i else i);
    if i < 0 { assert ShowInt(i)[1..] == ShowNat(-i); }
    assert ShowNat(1) == "1" && ShowNat(10) == "10" && ShowNat(102) == "102";
  }

  /** What stands between the first line of a body and its last two. */
  function MessageIn(body: string, m: string): string {
    var from, end := Text.LineEnd(body, 0) + 1, |body| - |m| - 64;
    if from <= end then body[from..end] else ""
  }

  lemma {:induction false} FirstLineEnds(a: string, rest: string, i: nat)
    requires i <= |a| && '\n' !in a
    ensures Text.LineEnd(a + "\n" + rest, i) == |a|
    decreases |a| - i
  {
    assert (a + "\n" + rest)[|a|] == '\n';
    if i < |a| {
      assert (a + "\n" + rest)[i] == a[i] && a[i] in a;
      FirstLineEnds(a, rest, i + 1);
    }
  }

  lemma MessageOf(a: string, content: string, m: string, body: string)
    requires '\n' !in a
    requires body == a + "\n" + content + ("\n" + "When you finish your reply, " + "output the token " + m + " on its own line.\n")
    ensures MessageIn(body, m) == content
  {
    var end := "\n" + "When you finish your reply, " + "output the token " + m + " on its own line.\n";
    assert |end| == |m| + 64;
    assert body == a + "\n" + (content + end);
    FirstLineEnds(a, content + end, 0);
    assert body[|a| + 1..] == content + end;
    assert body[|a| + 1..|body| - |end|] == content;
  }

  /** Whoever gets the envelope can tell the message: it is the reply, with a line feed at its end. */
  lemma MessageIsRead(conv: Conversation, turnIndex: int, from: string, previous: string, m: string)
    requires '\n' !in conv.id && '\n' !in from
    ensures MessageIn(BuildEnvelopeTurnN(conv, turnIndex, from, previous, m).body, m)
         == previous + if previous != "" && previous[|previous| - 1] == '\n' then "" else "\n"
  {
    hide ShowInt, BuildEnvelopeTurnN, MessageIn;
    LaterEnvelopeSays(conv, turnIndex, from, previous, m);
    var n, max := ShowInt(turnIndex), ShowInt(conv.maxTurns);
    var h := "[conversation: " + conv.id + "  turn " + n + " of " + max + "  from: peer-" + from;
    HeaderIsOneLine(conv.id, n, max, from);
    MessageBehind(h, previous, if previous != "" && previous[|previous| - 1] == '\n' then "" else "\n", m);
  }

  lemma MessageBehind(h: string, previous: string, end: string, m: string)
    requires '\n' !in h
    ensures MessageIn(h + "]\n" + previous + end + "\n" + "When you finish your reply, " + "output the token " + m + " on its own line.\n", m)
         == previous + end
  {
    hide MessageIn;
    var front, start, words := h + "]", "When you finish your reply, ", "output the token ";
    Regrouped(h, previous, end, start, words, m, " on its own line.\n");
    assert '\n' !in front;
    MessageOf(front, previous + end, m, h + "]\n" + previous + end + "\n" + start + words + m + " on its own line.\n");
  }

  lemma Regrouped(h: string, previous: string, end: string, start: string, words: string, m: string, last: string)
    ensures h + "]\n" + previous + end + "\n" + start + words + m + last
         == h + "]" + "\n" + (previous + end) + ("\n" + start + words + m + last)
  {
    assert h + "]\n" == h + "]" + "\n";
    var a := h + "]" + "\n";
    assert a + previous + end == a + (previous + end);
    var b := a + (previous + end);
    assert b + "\n" + start + words + m + last == b + ("\n" + start + words + m + last);
  }

  lemma HeaderIsOneLine(id: string, n: string, max: string, from: string)
    requires '\n' !in id && '\n' !in n && '\n' !in max && '\n' !in from
    ensures '\n' !in "[conversation: " + id + "  turn " + n + " of " + max + "  from: peer-" + from
  {
  }
}
