/** What a peer's terminal emits during one turn, and what the wrapper reads out of any part of it. */
module TurnStream {
  import opened Text
  import opened MarkerSearch
  import opened Envelope

  /** The bytes of a turn: the echoed envelope (`head`, the instruction with the marker, `ending`), the
      reply, a line feed, the marker on its own line (`lead` in front of it), and what follows. */
  datatype Turn = Turn(head: string, ending: string, reply: string, lead: string, tail: string, marker: string)

  const ENDING_CRLF := " on its own line.\r\n"

  predicate Ending(s: string) { s == INSTRUCTION_END || s == ENDING_CRLF }

  function Before(late: string, t: Turn): string { late + t.head + INSTRUCTION }

  function Between(t: Turn): string { t.ending + t.reply + "\n" + t.lead }

  function Stream(late: string, t: Turn): string { Before(late, t) + t.marker + Between(t) + t.marker + t.tail }

  function Segment(t: Turn): string { Stream("", t) }

  /** The marker is fresh: it occurs in the envelope only inside the instruction, and not in the reply;
      and the peer puts it on a line of its own. */
  ghost predicate Fresh(t: Turn) {
    IsMarker(t.marker) && Ending(t.ending) &&
    !Contains(t.head, t.marker) && t.head != "" && !MarkerChar(t.head[0]) &&
    !Contains(t.reply, t.marker) &&
    AllHorizontal(t.lead) && AllHorizontal(t.tail[..LineEnd(t.tail, 0)])
  }

  // ---------- where the marker stands ----------

  /** Between two parts that do not contain the marker and are fenced off by other characters, the
      marker stands where it was put and nowhere else. */
  lemma OnlyWherePut(a: string, c: char, m: string, b: char, mid: string, e: char, rest: string, p: nat)
    requires m != "" && c !in m && b !in m && e !in m && !Contains(a, m) && !Contains(mid, m)
    requires OccursAt(a + [c] + (m + [b] + (mid + [e] + (m + rest))), m, p)
    ensures p == |a| + 1 || p >= |a| + 1 + |m| + 1 + |mid| + 1
  {
    hide OccursAt;
    var r2 := mid + [e] + (m + rest);
    var r1 := m + [b] + r2;
    NoStraddle(a, c, r1, m, p);
    var q := p - |a| - 1;
    if p > |a| {
      NoStraddle(m, b, r2, m, q);
      if q > |m| { NoStraddle(mid, e, m + rest, m, q - |m| - 1); }
    }
  }

  function ButLast(s: string): string
    requires s != ""
  {
    s[..|s| - 1]
  }

  function Last(s: string): char
    requires s != ""
  {
    s[|s| - 1]
  }

  /** Before and Between, each without the marker and fenced off by characters no marker has. */
  ghost predicate Fenced(a: string, m: string, b: string) {
    IsMarker(m) && |a| >= 1 && |b| >= 2 &&
    !MarkerChar(Last(a)) && !MarkerChar(b[0]) && !MarkerChar(Last(b)) &&
    !Contains(a, m) && !Contains(b, m)
  }

  lemma FencedOccurrence(a: string, m: string, b: string, rest: string, p: nat)
    requires Fenced(a, m, b) && OccursAt(a + m + b + m + rest, m, p)
    ensures p == |a| || p >= |a| + |m| + |b|
  {
    hide OccursAt, Contains, IsMarker;
    var a', mid := ButLast(a), b[1..|b| - 1];
    FencedSplit(a, m, b, rest);
    MarkerFence(m);
    PartContainsNot(a, m, 0, |a| - 1);
    PartContainsNot(b, m, 1, |b| - 1);
    OnlyWherePut(a', Last(a), m, b[0], mid, Last(b), rest, p);
  }

  lemma MarkerFence(m: string)
    requires IsMarker(m)
    ensures m != "" && forall c :: !MarkerChar(c) ==> c !in m
  {
    MarkerHasMarkerChars(m);
  }

  lemma FencedSplit(a: string, m: string, b: string, rest: string)
    requires |a| >= 1 && |b| >= 2
    ensures a + m + b + m + rest
         == ButLast(a) + [Last(a)] + (m + [b[0]] + (b[1..|b| - 1] + [Last(b)] + (m + rest)))
  {
    assert a == ButLast(a) + [Last(a)];
    assert b == [b[0]] + b[1..|b| - 1] + [Last(b)];
  }

  lemma BeforeIsFenced(late: string, t: Turn)
    requires Fresh(t) && !Contains(late, t.marker)
    ensures !Contains(Before(late, t), t.marker)
    ensures |Before(late, t)| >= 17 && Last(Before(late, t)) == ' '
    ensures Before(late, t)[|late| + |t.head|..] == INSTRUCTION
  {
    hide Contains;
    var m, h := t.marker, t.head;
    MarkerFence(m);
    LateHeadContainsNot(late, t);
    var rest := INSTRUCTION[1..];
    ShortContainsNot(rest, m);
    ContainsNeither(late + h, 'o', rest, m);
    assert late + h + ['o'] + rest == Before(late, t);
  }

  lemma LateHeadContainsNot(late: string, t: Turn)
    requires Fresh(t) && !Contains(late, t.marker)
    ensures !Contains(late + t.head, t.marker)
  {
    hide Contains;
    var m, h := t.marker, t.head;
    MarkerFence(m);
    PartContainsNot(h, m, 1, |h|);
    assert h[1..|h|] == h[1..];
    ContainsNeither(late, h[0], h[1..], m);
    assert late + [h[0]] + h[1..] == late + h;
  }

  lemma BetweenIsFenced(t: Turn)
    requires Fresh(t)
    ensures !Contains(Between(t), t.marker)
    ensures |Between(t)| >= 2 && Between(t)[0] == ' ' && Space(Last(Between(t)))
  {
    hide Contains;
    var m, n := t.marker, |t.ending| - 1;
    MarkerFence(m);
    ShortContainsNot(t.ending[..n], m);
    OtherCharsContainNot(t.lead, m) by { assert m[0] in m; }
    ContainsNeither(t.reply, LF, t.lead, m);
    ContainsNeither(t.ending[..n], LF, t.reply + [LF] + t.lead, m);
    assert t.ending == t.ending[..n] + [LF];
    assert t.ending[..n] + [LF] + (t.reply + [LF] + t.lead) == Between(t);
    if t.lead != "" { assert Last(Between(t)) == t.lead[|t.lead| - 1]; }
  }

  lemma TurnIsFenced(late: string, t: Turn)
    requires Fresh(t) && !Contains(late, t.marker)
    ensures Fenced(Before(late, t), t.marker, Between(t))
  {
    hide Contains, Fresh;
    BeforeIsFenced(late, t);
    BetweenIsFenced(t);
    FreshMarker(t);
  }

  lemma FreshMarker(t: Turn)
    requires Fresh(t)
    ensures IsMarker(t.marker) && |t.marker| == 21 && LF !in t.marker && t.marker != ""
  {
    MarkerFence(t.marker);
  }

  // ---------- what the wrapper reads in a part of the stream ----------

  /** Where the peer's own marker stands. */
  function MarkerPos(late: string, t: Turn): nat {
    |Before(late, t)| + |t.marker| + |Between(t)|
  }

  lemma FiveParts(a: string, m: string, b: string, tail: string)
    ensures var s, p := a + m + b + m + tail, |a| + |m| + |b|;
      |s| == p + |m| + |tail| && s[..p] == a + m + b && OccursAt(s, m, p) && OccursAt(s, m, |a|) && s[p + |m|..] == tail
  {
    hide OccursAt;
    Pieces(a + m + b + m + tail, a + m + b, m, tail);
    assert a + m + b + m + tail == a + m + (b + m + tail);
    Pieces(a + m + b + m + tail, a, m, b + m + tail);
  }

  lemma StreamParts(late: string, t: Turn)
    ensures |Stream(late, t)| == MarkerPos(late, t) + |t.marker| + |t.tail|
    ensures Stream(late, t)[..MarkerPos(late, t)] == Before(late, t) + t.marker + Between(t)
    ensures OccursAt(Stream(late, t), t.marker, MarkerPos(late, t))
    ensures OccursAt(Stream(late, t), t.marker, |Before(late, t)|)
    ensures Stream(late, t)[MarkerPos(late, t) + |t.marker|..] == t.tail
  {
    hide Before, Between, OccursAt;
    FiveParts(Before(late, t), t.marker, Between(t), t.tail);
  }

  /** In any initial part of the stream the marker can stand at two places only. */
  lemma OccurrenceInPart(late: string, t: Turn, n: nat, p: nat)
    requires Fresh(t) && !Contains(late, t.marker) && n <= |Stream(late, t)|
    requires OccursAt(Stream(late, t)[..n], t.marker, p)
    ensures p == |Before(late, t)| || p >= MarkerPos(late, t)
  {
    hide Before, Between, Fresh, Contains;
    var s := Stream(late, t);
    assert OccursAt(s, t.marker, p) by { OccursInWhole(s, t.marker, n, p); }
    TurnIsFenced(late, t);
    FencedOccurrence(Before(late, t), t.marker, Between(t), t.tail, p);
  }

  lemma OccursInWhole(s: string, m: string, n: nat, p: nat)
    requires n <= |s| && OccursAt(s[..n], m, p)
    ensures OccursAt(s, m, p) && p + |m| <= n
  {
    assert s[p..p + |m|] == s[..n][p..p + |m|];
  }

  lemma OccursInPart(s: string, m: string, n: nat, p: nat)
    requires n <= |s| && OccursAt(s, m, p) && p + |m| <= n
    ensures OccursAt(s[..n], m, p)
  {
    assert s[p..p + |m|] == s[..n][p..p + |m|];
  }

  /** The echoed marker is in mid-line: words precede it. */
  lemma EchoIsNotAlone(late: string, t: Turn, n: nat)
    requires Fresh(t) && !Contains(late, t.marker) && n <= |Stream(late, t)|
    ensures !AloneAt(Stream(late, t)[..n], t.marker, |Before(late, t)|)
  {
    hide Fresh, Contains;
    var s, p := Stream(late, t)[..n], |Before(late, t)|;
    BeforeIsFenced(late, t);
    StreamParts(late, t);
    if p + |t.marker| <= n {
      assert Before(late, t)[p - 17..] == INSTRUCTION by { assert p - 17 == |late| + |t.head|; }
      assert s[p - 1] == Before(late, t)[p - 1] == ' ';
      assert s[p - 2] == Before(late, t)[p - 2] == INSTRUCTION[15] == 'n';
      MidLine(s, t.marker, p);
    }
  }

  lemma MidLine(s: string, m: string, p: nat)
    requires 2 <= p && p + |m| <= |s| && s[p - 1] == ' ' && s[p - 2] == 'n'
    ensures !AloneAt(s, m, p)
  {
    var a := LineStart(s, p);
    assert a <= p - 2 by { LineStartAbove(s, p, p - 2); }
    assert s[a..p][p - 2 - a] == s[p - 2];
  }

  lemma {:induction false} LineStartAbove(s: string, p: nat, q: nat)
    requires q <= p <= |s| && forall k :: q <= k < p ==> s[k] != LF
    ensures LineStart(s, p) <= q
    decreases p
  {
    if q < p { LineStartAbove(s, p - 1, q); }
  }

  /** Once it has arrived whole, the peer's marker is alone on its line, however much follows it. */
  lemma PeerMarkerIsAlone(late: string, t: Turn, n: nat)
    requires Fresh(t) && MarkerPos(late, t) + |t.marker| <= n <= |Stream(late, t)|
    ensures AloneAt(Stream(late, t)[..n], t.marker, MarkerPos(late, t))
  {
    hide Stream, MarkerPos, OccursAt;
    var s, m, p := Stream(late, t), t.marker, MarkerPos(late, t);
    StreamParts(late, t);
    OccursInPart(s, m, n, p);
    LineBeforeMarker(late, t);
    LineBehindMarker(late, t);
    AloneInPart(s, m, n, p, |t.lead|, t.lead);
  }

  lemma AloneInPart(s: string, m: string, n: nat, p: nat, k: nat, lead: string)
    requires p + |m| <= n <= |s| && OccursAt(s[..n], m, p) && 1 + k <= p
    requires s[p - k..p] == lead && AllHorizontal(lead) && s[p - k - 1] == LF
    requires AllHorizontal(s[p + |m|..LineEnd(s, p + |m|)])
    ensures AloneAt(s[..n], m, p)
  {
    hide OccursAt, AloneAt;
    var c := s[..n];
    assert c[p - k..p] == s[p - k..p] == lead;
    LineStartIs(c, p, p - k);
    SliceHorizontal(c, p - k, p);
    LineEndInPart(s, n, p + |m|);
    SliceHorizontal(s, p + |m|, LineEnd(s, p + |m|));
    AloneByChars(c, m, p);
  }

  function Front(late: string, t: Turn): string {
    Before(late, t) + t.marker + t.ending + t.reply + "\n"
  }

  lemma StreamByFront(late: string, t: Turn)
    ensures Stream(late, t) == Front(late, t) + t.lead + (t.marker + t.tail)
    ensures |Front(late, t)| >= 1 && Last(Front(late, t)) == LF
    ensures MarkerPos(late, t) == |Front(late, t)| + |t.lead|
  {
    hide Before;
  }

  lemma LineBeforeMarker(late: string, t: Turn)
    ensures 1 + |t.lead| <= MarkerPos(late, t) <= |Stream(late, t)|
    ensures var s, p := Stream(late, t), MarkerPos(late, t);
      s[p - |t.lead|..p] == t.lead && s[p - |t.lead| - 1] == LF
  {
    hide Stream, Front, Before, MarkerPos;
    var s, f := Stream(late, t), Front(late, t);
    StreamByFront(late, t);
    Pieces(s, f, t.lead, t.marker + t.tail);
    assert s[|f| - 1] == s[..|f|][|f| - 1];
  }

  lemma LineBehindMarker(late: string, t: Turn)
    requires Fresh(t)
    ensures MarkerPos(late, t) + |t.marker| <= |Stream(late, t)|
    ensures var s, e := Stream(late, t), MarkerPos(late, t) + |t.marker|; AllHorizontal(s[e..LineEnd(s, e)])
  {
    hide Stream, MarkerPos, LineEnd, OccursAt;
    StreamParts(late, t);
    LineEndBehind(Stream(late, t), MarkerPos(late, t) + |t.marker|);
  }

  lemma LineEndBehind(s: string, e: nat)
    requires e <= |s|
    ensures LineEnd(s, e) == e + LineEnd(s[e..], 0)
    ensures s[e..LineEnd(s, e)] == s[e..][..LineEnd(s[e..], 0)]
  {
    LineEndShift(s, e, 0);
  }

  lemma {:induction false} LineEndShift(s: string, e: nat, i: nat)
    requires e + i <= |s|
    ensures LineEnd(s, e + i) == e + LineEnd(s[e..], i)
    decreases |s| - i
  {
    if e + i < |s| {
      assert s[e..][i] == s[e + i];
      LineEndShift(s, e, i + 1);
    }
  }

  lemma {:induction false} LineStartIs(s: string, p: nat, q: nat)
    requires 0 < q <= p <= |s| && s[q - 1] == LF && AllHorizontal(s[q..p])
    ensures LineStart(s, p) == q
    decreases p
  {
    if q < p {
      assert s[q..p][p - 1 - q] == s[p - 1];
      assert s[q..p - 1] == s[q..p][..p - 1 - q];
      LineStartIs(s, p - 1, q);
    }
  }

  lemma {:induction false} LineEndInPart(s: string, n: nat, i: nat)
    requires i <= n <= |s|
    ensures LineEnd(s[..n], i) <= LineEnd(s, i)
    decreases n - i
  {
    if i < n { LineEndInPart(s, n, i + 1); }
  }

  /** The search in any initial part of the stream: nothing until the peer's marker has arrived whole,
      the peer's marker from then on. */
  lemma SearchInPart(late: string, t: Turn, n: nat)
    requires Fresh(t) && !Contains(late, t.marker) && n <= |Stream(late, t)|
    ensures FindMarker(Stream(late, t)[..n], t.marker)
         == if n < MarkerPos(late, t) + |t.marker| then -1 else MarkerPos(late, t)
  {
    hide Fresh, Stream, MarkerPos, AloneAt, FindMarker, Contains;
    var c, m, p := Stream(late, t)[..n], t.marker, MarkerPos(late, t);
    FreshMarker(t);
    SearchIsExact(c, m);
    forall q: nat | AloneAt(c, m, q) ensures q >= p && q + |m| <= n {
      AloneChars(c, m, q);
      OccurrenceInPart(late, t, n, q);
      EchoIsNotAlone(late, t, n);
    }
    if n >= p + |m| { PeerMarkerIsAlone(late, t, n); }
  }

  /** What precedes the peer's marker, without the echo, is the reply, trimmed. */
  lemma StripInStream(late: string, t: Turn)
    requires Fresh(t) && !Contains(late, t.marker)
    ensures StripEcho(Stream(late, t)[..MarkerPos(late, t)], t.marker) == Trim(t.reply)
  {
    hide Fresh, Stream, Contains, OccursAt, IndexFrom, Trim;
    var s, m, p, a := Stream(late, t), t.marker, MarkerPos(late, t), Before(late, t);
    StreamParts(late, t);
    var captured := s[..p];
    NeedleIsFound(late, t);
    var needle := INSTRUCTION + m;
    var e := |a| + |m|;
    CapturedTail(late, t);
    TrimReply(t);
  }

  lemma NeedleHasMarker(c: string, m: string, q: nat)
    requires OccursAt(c, INSTRUCTION + m, q)
    ensures q + 17 + |m| <= |c| && OccursAt(c, m, q + 17)
  {
    var needle := INSTRUCTION + m;
    assert c[q + 17..q + 17 + |m|] == c[q..q + |needle|][17..] == m;
  }

  lemma NeedleInStream(late: string, t: Turn)
    ensures MarkerPos(late, t) <= |Stream(late, t)| && |Before(late, t)| >= 17
    ensures OccursAt(Stream(late, t)[..MarkerPos(late, t)], INSTRUCTION + t.marker, |Before(late, t)| - 17)
  {
    hide Between, OccursAt, Stream, MarkerPos;
    StreamParts(late, t);
    var c := Stream(late, t)[..MarkerPos(late, t)];
    assert c == (late + t.head) + (INSTRUCTION + t.marker) + Between(t);
    Pieces(c, late + t.head, INSTRUCTION + t.marker, Between(t));
  }

  lemma NeedleIsFound(late: string, t: Turn)
    requires Fresh(t) && !Contains(late, t.marker)
    ensures |Before(late, t)| >= 17 && MarkerPos(late, t) <= |Stream(late, t)|
    ensures IndexFrom(Stream(late, t)[..MarkerPos(late, t)], INSTRUCTION + t.marker, 0) == |Before(late, t)| - 17
  {
    hide Fresh, Contains, OccursAt, IndexFrom, Stream, Before, MarkerPos;
    NeedleInStream(late, t);
    var p, a := MarkerPos(late, t), Before(late, t);
    var captured, needle := Stream(late, t)[..p], INSTRUCTION + t.marker;
    FreshMarker(t);
    forall q: nat | OccursAt(captured, needle, q) ensures q == |a| - 17 {
      NeedleHasMarker(captured, t.marker, q);
      OccurrenceInPart(late, t, p, q + 17);
    }
  }

  lemma CapturedTail(late: string, t: Turn)
    requires Fresh(t)
    ensures MarkerPos(late, t) <= |Stream(late, t)|
    ensures var c, e := Stream(late, t)[..MarkerPos(late, t)], |Before(late, t)| + |t.marker|;
      |t.ending| >= 1 && e + |t.ending| <= |c| && LineEnd(c, e) == e + |t.ending| - 1 &&
      c[e + |t.ending|..] == t.reply + "\n" + t.lead
  {
    hide Before, OccursAt, Stream, MarkerPos;
    StreamParts(late, t);
    var c, front, rest := Stream(late, t)[..MarkerPos(late, t)], Before(late, t) + t.marker, t.reply + "\n" + t.lead;
    assert c == front + t.ending + rest;
    Pieces(c, front, t.ending, rest);
    EndingLine(c, |front|, t.ending);
  }

  lemma EndingLine(c: string, e: nat, ending: string)
    requires Ending(ending) && e + |ending| <= |c| && c[e..e + |ending|] == ending
    ensures LineEnd(c, e) == e + |ending| - 1
  {
    var n := |ending| - 1;
    forall k | e <= k <= e + n ensures c[k] == ending[k - e] { assert c[e..e + |ending|][k - e] == c[k]; }
    LineEndForward(c, e, e + n);
  }

  lemma TrimReply(t: Turn)
    requires Fresh(t)
    ensures Trim(t.reply + "\n" + t.lead) == Trim(t.reply)
  {
    hide Trim;
    assert t.reply + "\n" + t.lead == t.reply + ("\n" + t.lead);
    TrimBehind(t.reply, "\n" + t.lead);
  }
}
