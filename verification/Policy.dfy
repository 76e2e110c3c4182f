/** Who speaks next, from `internal/conversation/policy`. */
module Policy {
  import opened Wrappers
  import opened Text
  import opened Lines

  type PeerID = string

  predicate IdStart(c: char) { 'a' <= c <= 'z' }

  predicate IdChar(c: char) { 'a' <= c <= 'z' || '0' <= c <= '9' || c == '_' || c == '-' }

  /** The pattern [a-z][a-z0-9_-]{0,31}. */
  predicate ValidId(id: PeerID) {
    1 <= |id| <= 32 && IdStart(id[0]) && forall k :: 0 <= k < |id| ==> IdChar(id[k])
  }

  // ---------- the trailer ----------

  const NEXT_OPEN := "<<NEXT:"
  const NEXT_CLOSE := ">>"
  const END_TRAILER := "<<END>>"

  /** What \s matches in a regular expression. */
  predicate Blank(c: char) { c == '\t' || c == '\n' || c as int == 0x0c || c == '\r' || c == ' ' }

  predicate AllBlank(s: string) { forall k :: 0 <= k < |s| ==> Blank(s[k]) }

  function BlankEnd(s: string): (n: nat)
    ensures n <= |s| && (forall k :: 0 <= k < n ==> Blank(s[k])) && (n < |s| ==> !Blank(s[n]))
  {
    if s == "" || !Blank(s[0]) then 0 else 1 + BlankEnd(s[1..])
  }

  function IdEnd(s: string): (n: nat)
    ensures n <= |s| && (forall k :: 0 <= k < n ==> IdChar(s[k])) && (n < |s| ==> !IdChar(s[n]))
  {
    if s == "" || !IdChar(s[0]) then 0 else 1 + IdEnd(s[1..])
  }

  /** An id between blanks. */
  function IdBetweenBlanks(inner: string): Option<PeerID> {
    var rest := inner[BlankEnd(inner)..];
    var id := rest[..IdEnd(rest)];
    if ValidId(id) && AllBlank(rest[IdEnd(rest)..]) then Some(id) else None
  }

  /** The id in a line of the form <<NEXT: id>>. */
  function MatchNext(line: string): Option<PeerID> {
    if |line| >= 9 && line[..7] == NEXT_OPEN && line[|line| - 2..] == NEXT_CLOSE then IdBetweenBlanks(line[7..|line| - 2])
    else None
  }

  /** The line matches the regular expression with this id in its group. */
  ghost predicate MatchesRegex(line: string, id: PeerID) {
    ValidId(id) && exists a, b :: AllBlank(a) && AllBlank(b) && line == NEXT_OPEN + a + id + b + NEXT_CLOSE
  }

  lemma {:induction false} BlankEndIs(a: string, s: string)
    requires AllBlank(a) && (s != "" ==> !Blank(s[0]))
    ensures BlankEnd(a + s) == |a|
  {
    if a == "" {
      assert a + s == s;
    } else {
      assert (a + s)[0] == a[0] && (a + s)[1..] == a[1..] + s;
      BlankEndIs(a[1..], s);
    }
  }

  lemma {:induction false} IdEndIs(id: PeerID, b: string)
    requires (forall k :: 0 <= k < |id| ==> IdChar(id[k])) && AllBlank(b)
    ensures IdEnd(id + b) == |id|
  {
    if id == "" {
      assert id + b == b;
    } else {
      assert (id + b)[0] == id[0] && (id + b)[1..] == id[1..] + b;
      IdEndIs(id[1..], b);
    }
  }

  lemma TakeDrop(s: string, n: nat)
    requires n <= |s|
    ensures s == s[..n] + s[n..]
  {
  }

  lemma IdSound(inner: string, id: PeerID) returns (a: string, b: string)
    requires IdBetweenBlanks(inner) == Some(id)
    ensures ValidId(id) && AllBlank(a) && AllBlank(b) && inner == a + (id + b)
  {
    hide ValidId;
    var rest := inner[BlankEnd(inner)..];
    a, b := inner[..BlankEnd(inner)], rest[IdEnd(rest)..];
    TakeDrop(inner, BlankEnd(inner));
    TakeDrop(rest, IdEnd(rest));
  }

  lemma MatchSound(line: string, id: PeerID) returns (a: string, b: string)
    requires MatchNext(line) == Some(id)
    ensures ValidId(id) && AllBlank(a) && AllBlank(b) && line == NEXT_OPEN + (a + (id + b)) + NEXT_CLOSE
  {
    hide IdBetweenBlanks, ValidId, AllBlank;
    a, b := IdSound(line[7..|line| - 2], id);
    assert line == line[..7] + line[7..|line| - 2] + line[|line| - 2..];
  }

  lemma Regroup(line: string, a: string, id: string, b: string)
    requires line == NEXT_OPEN + (a + (id + b)) + NEXT_CLOSE
    ensures line == NEXT_OPEN + a + id + b + NEXT_CLOSE
  {
  }

  /** The parser accepts exactly what the regular expression matches, with the same id. */
  lemma MatchNextIsRegex(line: string, id: PeerID)
    ensures MatchNext(line) == Some(id) <==> MatchesRegex(line, id)
  {
    hide MatchNext, ValidId, AllBlank;
    if MatchNext(line) == Some(id) {
      var a, b := MatchSound(line, id);
      Regroup(line, a, id, b);
    }
    if MatchesRegex(line, id) {
      var a, b :| AllBlank(a) && AllBlank(b) && line == NEXT_OPEN + a + id + b + NEXT_CLOSE;
      MatchFound(a, id, b);
    }
  }

  lemma MatchFound(a: string, id: PeerID, b: string)
    requires ValidId(id) && AllBlank(a) && AllBlank(b)
    ensures MatchNext(NEXT_OPEN + a + id + b + NEXT_CLOSE) == Some(id)
  {
    var line := NEXT_OPEN + a + id + b + NEXT_CLOSE;
    assert line[..7] == NEXT_OPEN && line[|line| - 2..] == NEXT_CLOSE;
    assert line[7..|line| - 2] == a + (id + b);
    BlankEndIs(a, id + b);
    assert (a + (id + b))[|a|..] == id + b;
    IdEndIs(id, b);
    assert (id + b)[..|id|] == id && (id + b)[|id|..] == b;
  }

  /** The last line with text, without trailing blanks; empty if there is none. A line has no line feed,
      so trimming line feeds as well trims nothing more. */
  function LastText(lines: seq<string>): string {
    if lines == [] then ""
    else if TrimRight(lines[|lines| - 1]) != "" then TrimRight(lines[|lines| - 1])
    else LastText(lines[..|lines| - 1])
  }

  function Trailer(reply: string): Option<PeerID> {
    var last := LastText(Split(reply));
    if last == "" || last == END_TRAILER then None else MatchNext(last)
  }

  method ParseNextTrailer(reply: string) returns (r: Option<PeerID>)
    ensures r == Trailer(reply)
  {
    var lines := Split(reply);
    var last := "";
    var i := |lines| - 1;
    assert lines[..i + 1] == lines;
    while i >= 0
      invariant -1 <= i < |lines| && last == ""
      invariant LastText(lines[..i + 1]) == LastText(lines)
    {
      var trimmed := TrimRight(lines[i]);
      assert lines[..i + 1][..i] == lines[..i];
      if trimmed != "" {
        last := trimmed;
        break;
      }
      i := i - 1;
    }
    if last == "" {
      return None;
    }
    if last == END_TRAILER {
      return None;
    }
    return MatchNext(last);
  }

  // ---------- round robin ----------

  predicate Distinct(peers: seq<PeerID>) { forall j, k :: 0 <= j < k < |peers| ==> peers[j] != peers[k] }

  function IndexOf(peers: seq<PeerID>, id: PeerID): (n: nat)
    ensures n <= |peers| && (n < |peers| ==> peers[n] == id) && (n == |peers| <==> id !in peers)
    ensures forall k :: 0 <= k < n ==> peers[k] != id
  {
    if peers == [] || peers[0] == id then 0 else 1 + IndexOf(peers[1..], id)
  }

  /** The peer behind `current` in the declared order, the first one behind the last or an unknown one. */
  function RoundRobin(current: PeerID, peers: seq<PeerID>): PeerID
    requires peers != []
  {
    var i := IndexOf(peers, current);
    if i + 1 < |peers| then peers[i + 1] else peers[0]
  }

  method RoundRobinAfter(current: PeerID, peers: seq<PeerID>) returns (next: PeerID)
    requires peers != []
    ensures next == RoundRobin(current, peers)
  {
    for i := 0 to |peers|
      invariant i <= IndexOf(peers, current)
    {
      if peers[i] == current {
        WrapAround(i, |peers|);
        return peers[(i + 1) % |peers|];
      }
    }
    return peers[0];
  }

  lemma WrapAround(i: nat, n: nat)
    requires i < n
    ensures (i + 1) % n == if i + 1 < n then i + 1 else 0
  {
  }

  // ---------- the decision ----------

  datatype Decision = Decision(next: PeerID, parsed: Option<PeerID>, fallbackUsed: bool)

  function Next(current: PeerID, reply: string, peers: seq<PeerID>): Decision
    requires peers != []
  {
    var parsed := Trailer(reply);
    if parsed.Some? && parsed.value != current && parsed.value in peers then Decision(parsed.value, parsed, false)
    else Decision(RoundRobin(current, peers), parsed, true)
  }

  /** The next speaker is always a declared peer, and never the one that has just spoken. */
  lemma NextIsAnotherPeer(current: PeerID, reply: string, peers: seq<PeerID>)
    requires peers != []
    ensures Next(current, reply, peers).next in peers
    ensures Distinct(peers) && |peers| >= 2 ==> Next(current, reply, peers).next != current
  {
  }

  /** Whatever a reply says before it, a trailer on its last line reaches the peer it names. */
  lemma TrailerIsObeyed(current: PeerID, text: string, a: string, id: PeerID, b: string, peers: seq<PeerID>)
    requires ValidId(id) && id in peers && id != current && AllBlank(a) && AllBlank(b) && LF !in a && LF !in b
    ensures Next(current, text + "\n" + (NEXT_OPEN + a + id + b + NEXT_CLOSE), peers) == Decision(id, Some(id), false)
  {
    hide MatchNext, Trailer;
    MatchFound(a, id, b);
    TrailerLine(a, id, b);
    TrailerOfLine(text, NEXT_OPEN + a + id + b + NEXT_CLOSE);
  }

  lemma TrailerLine(a: string, id: PeerID, b: string)
    requires ValidId(id) && LF !in a && LF !in b
    ensures var line := NEXT_OPEN + a + id + b + NEXT_CLOSE;
      line != "" && line[|line| - 1] == '>' && line != END_TRAILER && LF !in line
  {
    var line := NEXT_OPEN + a + id + b + NEXT_CLOSE;
    assert forall k :: 0 <= k < |id| ==> id[k] != LF;
    assert LF !in id;
    assert line[2] == 'N' && END_TRAILER[2] == 'E';
  }

  lemma TrailerOfLine(text: string, line: string)
    requires LF !in line && line != "" && line[|line| - 1] == '>' && line != END_TRAILER
    ensures Trailer(text + "\n" + line) == MatchNext(line)
  {
    hide MatchNext, Split;
    LastLine(text, line);
    var l := Split(text + "\n" + line);
    assert TrimRight(line) == line;
  }

  lemma {:induction false} LastLine(text: string, line: string)
    requires LF !in line
    ensures var l := Split(text + "\n" + line); l[|l| - 1] == line
    decreases |text|
  {
    var e := LineEnd(text, 0);
    var a := text[..e];
    assert LF !in a;
    if e == |text| {
      SplitCons(a, line);
      SplitOne(line);
      assert a == text;
    } else {
      var b := text[e + 1..];
      assert text + "\n" + line == a + "\n" + (b + "\n" + line);
      SplitCons(a, b + "\n" + line);
      LastLine(b, line);
    }
  }
}
