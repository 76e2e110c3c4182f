/** Finding the peer's marker and dropping the echo, from `internal/peer/provider/persistent.go`. */
module MarkerSearch {
  import opened Text
  import opened Envelope

  /** The marker stands at p with nothing but horizontal whitespace around it on its line. */
  predicate AloneAt(buf: string, m: string, p: nat) {
    OccursAt(buf, m, p) &&
    AllHorizontal(buf[LineStart(buf, p)..p]) &&
    AllHorizontal(buf[p + |m|..LineEnd(buf, p + |m|)])
  }

  /** The search loop: test an occurrence, jump behind it when it is not alone. */
  function FindFrom(buf: string, m: string, offset: nat): (r: int)
    requires m != ""
    ensures r == -1 || (offset <= r && AloneAt(buf, m, r))
    decreases |buf| - offset
  {
    var p := IndexFrom(buf, m, offset);
    if p < 0 then -1 else if AloneAt(buf, m, p) then p else FindFrom(buf, m, p + |m|)
  }

  function FindMarker(buf: string, m: string): (r: int)
    ensures -1 <= r <= |buf|
  {
    if m == "" then -1 else FindFrom(buf, m, 0)
  }

  method IsHorizontalWhitespace(b: string) returns (r: bool)
    ensures r == AllHorizontal(b)
  {
    for k := 0 to |b|
      invariant AllHorizontal(b[..k])
    {
      if b[k] != ' ' && b[k] != '\t' && b[k] != '\r' {
        return false;
      }
    }
    assert b[..|b|] == b;
    return true;
  }

  /** The two walks to the ends of the line, and the tests of what they passed. */
  method IsAlone(buf: string, m: string, p: nat) returns (r: bool)
    requires OccursAt(buf, m, p)
    ensures r == AloneAt(buf, m, p)
  {
    var lineStart := p;
    while lineStart > 0 && buf[lineStart - 1] != LF
      invariant 0 <= lineStart <= p && LineStart(buf, lineStart) == LineStart(buf, p)
    {
      lineStart := lineStart - 1;
    }
    var lineEnd := p + |m|;
    while lineEnd < |buf| && buf[lineEnd] != LF
      invariant p + |m| <= lineEnd <= |buf| && LineEnd(buf, lineEnd) == LineEnd(buf, p + |m|)
    {
      lineEnd := lineEnd + 1;
    }
    var before := IsHorizontalWhitespace(buf[lineStart..p]);
    var behind := IsHorizontalWhitespace(buf[p + |m|..lineEnd]);
    return before && behind;
  }

  lemma FindStep(buf: string, m: string, offset: nat, p: int)
    requires m != "" && p == IndexFrom(buf, m, offset)
    ensures FindFrom(buf, m, offset) ==
            if p < 0 then -1 else if AloneAt(buf, m, p) then p else FindFrom(buf, m, p + |m|)
  {
    hide AloneAt, OccursAt, IndexFrom;
  }

  method FindLineAnchoredMarker(buf: string, m: string) returns (r: int)
    ensures r == FindMarker(buf, m)
  {
    hide FindFrom, AloneAt, OccursAt, IndexFrom;
    if |m| == 0 {
      return -1;
    }
    var offset: nat := 0;
    while true
      invariant FindFrom(buf, m, offset) == FindFrom(buf, m, 0)
      decreases |buf| - offset
    {
      var p := IndexFrom(buf, m, offset);
      FindStep(buf, m, offset, p);
      if p < 0 {
        return -1;
      }
      var alone := IsAlone(buf, m, p);
      if alone {
        return p;
      }
      FindFits(buf, m, p);
      offset := p + |m|;
    }
  }

  lemma FindFits(buf: string, m: string, p: nat)
    requires OccursAt(buf, m, p)
    ensures p + |m| <= |buf|
  {
  }

  // ---------- the search is exact ----------

  lemma SliceHorizontal(s: string, lo: nat, hi: nat)
    requires lo <= hi <= |s| && AllHorizontal(s[lo..hi])
    ensures forall k :: lo <= k < hi ==> Horizontal(s[k])
  {
    forall k | lo <= k < hi ensures Horizontal(s[k]) { assert s[lo..hi][k - lo] == s[k]; }
  }

  lemma AloneChars(buf: string, m: string, p: nat)
    requires AloneAt(buf, m, p)
    ensures OccursAt(buf, m, p) && p + |m| <= |buf|
    ensures forall k :: LineStart(buf, p) <= k < p ==> Horizontal(buf[k])
    ensures forall k :: p + |m| <= k < LineEnd(buf, p + |m|) ==> Horizontal(buf[k])
  {
    var a, b := LineStart(buf, p), LineEnd(buf, p + |m|);
    SliceHorizontal(buf, a, p);
    SliceHorizontal(buf, p + |m|, b);
  }

  lemma AloneByChars(buf: string, m: string, p: nat)
    requires OccursAt(buf, m, p) && p + |m| <= |buf|
    requires forall k :: LineStart(buf, p) <= k < p ==> Horizontal(buf[k])
    requires forall k :: p + |m| <= k < LineEnd(buf, p + |m|) ==> Horizontal(buf[k])
    ensures AloneAt(buf, m, p)
  {
  }

  lemma BothOccur(buf: string, m: string, p: nat, q: nat)
    requires OccursAt(buf, m, p) && OccursAt(buf, m, q)
    ensures p + |m| <= |buf| && q + |m| <= |buf|
    ensures forall k :: 0 <= k < |m| ==> buf[p + k] == m[k] && buf[q + k] == m[k]
  {
    forall k | 0 <= k < |m| ensures buf[p + k] == m[k] && buf[q + k] == m[k] {
      OccursChars(buf, m, p, k);
      OccursChars(buf, m, q, k);
    }
  }

  /** If an overlapping later occurrence is alone on its line, then so is the earlier one: the marker
      would consist of whitespace only. */
  lemma OverlapIsAlone(buf: string, m: string, p: nat, q: nat)
    requires LF !in m && OccursAt(buf, m, p) && AloneAt(buf, m, q) && p < q < p + |m|
    ensures AloneAt(buf, m, p)
  {
    hide AloneAt, OccursAt;
    AloneChars(buf, m, q);
    BothOccur(buf, m, p, q);
    var start := LineStart(buf, q);
    assert forall k :: p <= k < q ==> buf[k] == m[k - p];
    assert start <= p;
    LineStartBack(buf, p, q);
    AllMarkerHorizontal(buf, m, p, q, |m|);
    assert forall k :: p + |m| <= k < q + |m| ==> buf[k] == m[k - q];
    LineEndForward(buf, p + |m|, q + |m|);
    AloneByChars(buf, m, p);
  }

  lemma {:induction false} AllMarkerHorizontal(buf: string, m: string, p: nat, q: nat, n: nat)
    requires p < q < p + |m| && q + |m| <= |buf| && n <= |m|
    requires forall k :: 0 <= k < |m| ==> buf[p + k] == m[k] && buf[q + k] == m[k]
    requires forall k :: p <= k < q ==> Horizontal(buf[k])
    ensures forall k :: 0 <= k < n ==> Horizontal(m[k])
  {
    if n > 0 {
      AllMarkerHorizontal(buf, m, p, q, n - 1);
      var k := n - 1;
      if k < q - p {
        assert buf[p + k] == m[k];
      } else {
        assert m[k] == buf[p + k] == buf[q + (k - (q - p))] == m[k - (q - p)];
      }
    }
  }

  lemma {:induction false} LineStartBack(s: string, p: nat, q: nat)
    requires p <= q <= |s| && LineStart(s, q) <= p
    ensures LineStart(s, p) == LineStart(s, q)
    decreases q
  {
    if p < q { LineStartBack(s, p, q - 1); }
  }

  lemma {:induction false} LineEndForward(s: string, p: nat, q: nat)
    requires p <= q <= |s| && forall k :: p <= k < q ==> s[k] != LF
    ensures LineEnd(s, p) == LineEnd(s, q)
    decreases q - p
  {
    if p < q { LineEndForward(s, p + 1, q); }
  }

  // ---------- which markers are searched exactly ----------

  /** m overlaps with itself when moved by d, and a line breaks at j inside the move, with nothing but
      horizontal white space behind it. */
  predicate BreaksAt(m: string, d: nat, j: nat) {
    0 < d < |m| && m[d..] == m[..|m| - d] && j < d && m[j] == LF && AllHorizontal(m[j + 1..d])
  }

  ghost predicate Skippable(m: string) { exists d, j :: BreaksAt(m, d, j) }

  lemma NoLineFeedIsNotSkippable(m: string)
    requires LF !in m
    ensures !Skippable(m)
  {
  }

  lemma OverlapBreaks(buf: string, m: string, p: nat, q: nat)
    requires OccursAt(buf, m, p) && AloneAt(buf, m, q) && p < q < p + |m| && LineStart(buf, q) > p
    ensures BreaksAt(m, q - p, LineStart(buf, q) - 1 - p)
  {
    hide OccursAt, AloneAt;
    AloneChars(buf, m, q);
    BothOccur(buf, m, p, q);
    var d, ls := q - p, LineStart(buf, q);
    forall k | 0 <= k < |m| - d ensures m[d..][k] == m[..|m| - d][k] {
      assert buf[p + (d + k)] == m[d + k] && buf[q + k] == m[k];
    }
    forall k | ls - p <= k < d ensures Horizontal(m[k]) {
      assert buf[p + k] == m[k];
    }
    assert buf[p + (ls - 1 - p)] == m[ls - 1 - p];
  }

  /** If a later, overlapping occurrence is alone on its line, then so is the earlier one. */
  lemma OverlapIsAloneToo(buf: string, m: string, p: nat, q: nat)
    requires !Skippable(m) && OccursAt(buf, m, p) && AloneAt(buf, m, q) && p < q < p + |m|
    ensures AloneAt(buf, m, p)
  {
    hide OccursAt, AloneAt, Skippable, BreaksAt;
    AloneChars(buf, m, q);
    if LineStart(buf, q) > p {
      OverlapBreaks(buf, m, p, q);
      SkippableBy(m, q - p, LineStart(buf, q) - 1 - p);
    } else {
      BothOccur(buf, m, p, q);
      AllMarkerHorizontal(buf, m, p, q, |m|);
      OverlapIsAlone(buf, m, p, q);
    }
  }

  lemma SkippableBy(m: string, d: nat, j: nat)
    requires BreaksAt(m, d, j)
    ensures Skippable(m)
  {
  }

  lemma {:induction false} NothingSkipped(buf: string, m: string, offset: nat, q: nat)
    requires m != "" && !Skippable(m) && offset <= q && AloneAt(buf, m, q)
    ensures 0 <= FindFrom(buf, m, offset) <= q
    decreases |buf| - offset
  {
    hide FindFrom, AloneAt, OccursAt, IndexFrom, Skippable;
    AloneChars(buf, m, q);
    var p := IndexFrom(buf, m, offset);
    assert 0 <= p <= q;
    FindStep(buf, m, offset, p);
    if !AloneAt(buf, m, p) {
      FindFits(buf, m, p);
      if p < q < p + |m| { OverlapIsAloneToo(buf, m, p, q); }
      NothingSkipped(buf, m, p + |m|, q);
    }
  }

  /** The search returns the least position where the marker is alone on its line, and -1 exactly when there
      is none. */
  ghost predicate SearchedExactly(buf: string, m: string) {
    var r := FindMarker(buf, m);
    (r < 0 <==> forall q: nat :: !AloneAt(buf, m, q)) &&
    (r >= 0 ==> AloneAt(buf, m, r) && forall q: nat :: q < r ==> !AloneAt(buf, m, q))
  }

  /** For every buffer and every marker without line feed the search is exact. */
  lemma SearchIsExact(buf: string, m: string)
    requires m != "" && LF !in m
    ensures SearchedExactly(buf, m)
  {
    NoLineFeedIsNotSkippable(m);
    SearchIsExactUnless(buf, m);
  }

  lemma SearchIsExactUnless(buf: string, m: string)
    requires m != "" && !Skippable(m)
    ensures SearchedExactly(buf, m)
  {
    hide Skippable, AloneAt, FindFrom;
    forall q: nat | AloneAt(buf, m, q) ensures 0 <= FindMarker(buf, m) <= q { NothingSkipped(buf, m, 0, q); }
  }

  /** m stands at p, on the line from lo to hi, with nothing but blanks, tabs and returns beside it. */
  predicate OnItsLine(buf: string, m: string, p: nat, lo: nat, hi: nat) {
    lo <= p && p + |m| <= hi <= |buf| && buf[p..p + |m|] == m &&
    (lo == 0 || buf[lo - 1] == '\n') && (hi == |buf| || buf[hi] == '\n') &&
    forall k :: lo <= k < hi && !(p <= k < p + |m|) ==> buf[k] == ' ' || buf[k] == '\t' || buf[k] == '\r'
  }

  lemma AloneIsOnItsLine(buf: string, m: string, p: nat)
    requires AloneAt(buf, m, p)
    ensures OnItsLine(buf, m, p, LineStart(buf, p), LineEnd(buf, p + |m|))
  {
    hide AloneAt;
    AloneChars(buf, m, p);
  }

  lemma OnItsLineIsAlone(buf: string, m: string, p: nat, lo: nat, hi: nat)
    requires OnItsLine(buf, m, p, lo, hi)
    ensures AloneAt(buf, m, p)
  {
    hide AloneAt;
    var a, b := LineStart(buf, p), LineEnd(buf, p + |m|);
    assert lo <= a && b <= hi;
    AloneByChars(buf, m, p);
  }

  /** What is found is the first marker with nothing but blanks, tabs and returns beside it on its line; if
      nothing is found there is none. */
  lemma FindsTheFirstOnItsLine(buf: string, m: string)
    requires LF !in m
    ensures FindMarker(buf, "") == -1
    ensures m != "" ==> (FindMarker(buf, m) == -1 <==> forall p: nat, lo: nat, hi: nat :: !OnItsLine(buf, m, p, lo, hi))
    ensures m != "" && FindMarker(buf, m) >= 0 ==>
      (exists lo: nat, hi: nat :: OnItsLine(buf, m, FindMarker(buf, m), lo, hi)) &&
      forall p: nat, lo: nat, hi: nat :: OnItsLine(buf, m, p, lo, hi) ==> p >= FindMarker(buf, m)
  {
    hide AloneAt, OnItsLine, FindFrom;
    if m != "" {
      SearchIsExact(buf, m);
      forall p: nat, lo: nat, hi: nat | OnItsLine(buf, m, p, lo, hi) ensures AloneAt(buf, m, p) { OnItsLineIsAlone(buf, m, p, lo, hi); }
      var r := FindMarker(buf, m);
      if r >= 0 { AloneIsOnItsLine(buf, m, r); }
    }
  }

  /** A buffer in which the search skips m. */
  function SkippingBuffer(m: string, d: nat): string
    requires 0 < d < |m|
  {
    [if m[0] == 'x' then 'y' else 'x'] + (m[..d] + m)
  }

  lemma SkippingBufferChars(m: string, d: nat, j: nat)
    requires BreaksAt(m, d, j)
    ensures var b := SkippingBuffer(m, d);
      |b| == 1 + d + |m| && b[0] != m[0] && b[0] != LF && !Horizontal(b[0]) &&
      (forall k :: 0 <= k < |m| ==> b[1 + k] == m[k]) && (forall k :: 0 <= k < |m| ==> b[1 + d + k] == m[k])
  {
    var b := SkippingBuffer(m, d);
    forall k | 0 <= k < |m| ensures b[1 + k] == m[k] {
      if k >= d { assert m[d..][k - d] == m[..|m| - d][k - d]; }
    }
  }

  lemma SkippedIsAlone(m: string, d: nat, j: nat)
    requires BreaksAt(m, d, j)
    ensures AloneAt(SkippingBuffer(m, d), m, 1 + d)
  {
    hide SkippingBuffer, AloneAt, OccursAt;
    var b := SkippingBuffer(m, d);
    SkippingBufferChars(m, d, j);
    OccursByChars(b, m, 1 + d);
    assert b[1 + j] == LF;
    forall k | LineStart(b, 1 + d) <= k < 1 + d ensures Horizontal(b[k]) {
      assert k > 1 + j;
      assert m[j + 1..d][k - 1 - (j + 1)] == m[k - 1] == b[1 + (k - 1)];
    }
    AloneByChars(b, m, 1 + d);
  }

  lemma SearchFindsNothing(m: string, d: nat, j: nat)
    requires BreaksAt(m, d, j)
    ensures FindMarker(SkippingBuffer(m, d), m) == -1
  {
    hide SkippingBuffer, AloneAt, OccursAt, FindFrom, BreaksAt;
    BreaksBounds(m, d, j);
    var b := SkippingBuffer(m, d);
    SkippingBufferChars(m, d, j);
    OccursByChars(b, m, 1);
    NotAtStart(b, m);
    assert IndexFrom(b, m, 0) == 1;
    FindStep(b, m, 0, 1);
    NotBehindText(b, m);
    TooLate(b, m, 1 + |m|);
    FindStep(b, m, 1 + |m|, -1);
  }

  lemma BreaksBounds(m: string, d: nat, j: nat)
    requires BreaksAt(m, d, j)
    ensures 0 < d < |m|
  {
  }

  lemma NotAtStart(b: string, m: string)
    requires b != "" && m != "" && b[0] != m[0]
    ensures !OccursAt(b, m, 0)
  {
    assert |m| <= |b| ==> b[0..|m|][0] == b[0];
  }

  lemma NotBehindText(b: string, m: string)
    requires b != "" && b[0] != LF && !Horizontal(b[0])
    ensures !AloneAt(b, m, 1)
  {
    assert LineStart(b, 1) == 0;
    assert b[0..1][0] == b[0];
  }

  lemma TooLate(b: string, m: string, from: nat)
    requires from + |m| > |b|
    ensures IndexFrom(b, m, from) == -1
  {
  }

  /** The exact limit: every buffer is searched exactly for m unless m overlaps with itself across a line
      break that nothing but horizontal white space follows. */
  lemma SearchLimit(m: string)
    requires m != ""
    ensures (forall buf :: SearchedExactly(buf, m)) <==> !Skippable(m)
  {
    hide BreaksAt, AloneAt, FindMarker, SkippingBuffer;
    if Skippable(m) {
      var d, j :| BreaksAt(m, d, j);
      BreaksBounds(m, d, j);
      SkippedIsAlone(m, d, j);
      SearchFindsNothing(m, d, j);
      assert !SearchedExactly(SkippingBuffer(m, d), m);
    } else {
      forall buf ensures SearchedExactly(buf, m) { SearchIsExactUnless(buf, m); }
    }
  }

  /** With a line feed in the marker an overlapping valid occurrence can be skipped. */
  lemma LineFeedMarkerSkips()
    ensures FindMarker("x\n\n\n", "\n\n") == -1 && AloneAt("x\n\n\n", "\n\n", 2)
  {
    var b, m := "x\n\n\n", "\n\n";
    assert b[1..3] == m && b[2..4] == m;
    assert !OccursAt(b, m, 0) by { assert b[0..2][0] == 'x'; }
    assert IndexFrom(b, m, 0) == 1;
    assert !AloneAt(b, m, 1) by { assert b[LineStart(b, 1)..1] == "x"; }
    assert IndexFrom(b, m, 3) == -1;
    assert AloneAt(b, m, 2);
  }

  // ---------- stripping the echo ----------

  function StripEcho(captured: string, m: string): string {
    var needle := INSTRUCTION + m;
    var p := IndexFrom(captured, needle, 0);
    if p < 0 then captured
    else
      var e := LineEnd(captured, p + |needle|);
      Trim(captured[if e < |captured| then e + 1 else e..])
  }

  /** The two loops that trim the ends. */
  method TrimEnds(whole: string) returns (tail: string)
    ensures tail == Trim(whole)
  {
    tail := whole;
    while |tail| > 0 && Space(tail[0])
      invariant TrimLeft(tail) == TrimLeft(whole)
    {
      tail := tail[1..];
    }
    while |tail| > 0 && Space(tail[|tail| - 1])
      invariant TrimRight(tail) == Trim(whole)
    {
      tail := tail[..|tail| - 1];
    }
  }

  /** The walk to the end of a line. */
  method WalkToLineEnd(s: string, from: nat) returns (e: nat)
    requires from <= |s|
    ensures e == LineEnd(s, from)
  {
    e := from;
    while e < |s| && s[e] != LF
      invariant from <= e <= |s| && LineEnd(s, e) == LineEnd(s, from)
    {
      e := e + 1;
    }
  }

  method StripEnvelopeEcho(captured: string, m: string) returns (r: string)
    ensures r == StripEcho(captured, m)
  {
    hide Trim, LineEnd;
    var needle := INSTRUCTION + m;
    if |captured| == 0 {
      return captured;
    }
    var p := IndexFrom(captured, needle, 0);
    if p < 0 {
      return captured;
    }
    var e := WalkToLineEnd(captured, p + |needle|);
    if e < |captured| && captured[e] == LF {
      e := e + 1;
    }
    r := TrimEnds(captured[e..]);
  }
}
