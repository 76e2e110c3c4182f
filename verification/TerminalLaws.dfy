/** Laws of the pure terminal: writing in pieces, scrolling, and streams without signs. */
module TerminalLaws {
  import opened Utf8
  import opened Wrappers
  import opened ControlSequences
  import opened Terminal

  // ---------- streams without minus signs are safe ----------

  /** A condition on the bytes alone: no parameter string the scanner meets has a minus sign, which
      section 5.4 of ECMA-48 makes an intermediate byte and never part of a parameter. */
  ghost predicate Unsigned(d: seq<Byte>, i: nat) {
    forall j: nat :: Reaches(d, i, j) && j < |d| && Scan(d, j).0.Csi? ==> MINUS !in Scan(d, j).0.params
  }

  lemma {:induction false} UnsignedStreamIsSafe(t: Terminal, d: seq<Byte>, i: nat)
    requires Valid(t) && Unsigned(d, i)
    ensures Safe(t, d, i) && Valid(Feed(t, d, i))
    decreases |d| - i
  {
    hide Scan, Apply, SignSafe, InBounds;
    if i < |d| {
      var s := Scan(d, i);
      assert Reaches(d, i, i);
      if s.0.Csi? { UnsignedIsSafe(t, s.0.params, s.0.final); }
      forall j: nat | Reaches(d, s.1, j) ensures Reaches(d, i, j) {}
      StaysValid(t, s.0);
      UnsignedStreamIsSafe(Apply(t, s.0), d, s.1);
    }
  }

  /** The bytes of ESC [ - 1 B. */
  const UP_BY_SIGN: seq<Byte> := [ESC, '[' as int, MINUS, '1' as int, 'B' as int]

  /** The bytes of ESC [ K. */
  const ERASE_LINE: seq<Byte> := [ESC, '[' as int, 'K' as int]

  lemma ScanUpBySign()
    ensures Scan(UP_BY_SIGN, 0) == (Csi([MINUS, '1' as int], 'B' as int), 5)
    ensures ParseOne([MINUS, '1' as int], 1) == -1
  {
    var d := UP_BY_SIGN;
    var p: seq<Byte> := [MINUS, '1' as int];
    assert CsiEnd(d, 2) == 4 by { assert CsiEnd(d, 4) == 4; assert CsiEnd(d, 3) == 4; }
    assert d[2..4] == p;
    assert p[..FirstSemicolon(p)] == p by {
      assert p[1..][1..] == [];
      assert FirstSemicolon(p[1..]) == 1;
    }
    assert TrimQuestions(p) == p;
    assert p[1..] == ['1' as int];
    assert Decimal(['1' as int]) == 1 by { assert ['1' as int][..0] == []; }
    assert Atoi(p) == Some(-1);
  }

  lemma ScanEraseLine()
    ensures Scan(ERASE_LINE, 0) == (Csi([], 'K' as int), 3) && ParseOne([], 0) == 0
  {
    assert CsiEnd(ERASE_LINE, 2) == 2 && ERASE_LINE[2..2] == [];
    assert TrimQuestions([]) == [];
  }

  /** With a minus sign the cursor can leave the grid, ESC [ - 1 B on a fresh screen, and then a harmless
      sequence, ESC [ K, indexes row -1. */
  lemma SignedStreamLeavesTheGrid(t: Terminal)
    requires t == Initial(80, 24)
    ensures Safe(t, UP_BY_SIGN, 0) && Feed(t, UP_BY_SIGN, 0) == t.(row := -1)
    ensures !Safe(t.(row := -1), ERASE_LINE, 0)
  {
    hide Scan, ParseOne, Safe, Feed, Padded;
    ScanUpBySign();
    FeedOneControl(t, UP_BY_SIGN, [MINUS, '1' as int], 'B' as int);
    ScanEraseLine();
    FeedOneControl(t.(row := -1), ERASE_LINE, [], 'K' as int);
  }

  // ---------- writing in pieces ----------

  lemma {:induction false} FeedPrefix(t: Terminal, a: seq<Byte>, b: seq<Byte>, i: nat)
    requires Shaped(t) && i <= |a| && Reaches(a + b, i, |a|)
    ensures Safe(t, a + b, i) <==> Safe(t, a, i) && Safe(Feed(t, a, i), a + b, |a|)
    ensures Feed(t, a + b, i) == Feed(Feed(t, a, i), a + b, |a|)
    decreases |a| - i
  {
    hide Apply, TokenSafe;
    if i < |a| {
      var s := Scan(a + b, i);
      ReachesIsForward(a + b, s.1, |a|);
      ScanPrefix(a, b, i);
      FeedPrefix(Apply(t, s.0), a, b, s.1);
    }
  }

  lemma {:induction false} ReachesIsForward(d: seq<Byte>, i: nat, target: nat)
    requires Reaches(d, i, target)
    ensures i <= target
    decreases |d| - i
  {
    if i != target { ReachesIsForward(d, Scan(d, i).1, target); }
  }

  lemma {:induction false} FeedShift(t: Terminal, a: seq<Byte>, b: seq<Byte>, i: nat)
    requires Shaped(t)
    ensures Safe(t, a + b, |a| + i) <==> Safe(t, b, i)
    ensures Feed(t, a + b, |a| + i) == Feed(t, b, i)
    decreases |b| - i
  {
    hide Scan, Apply, TokenSafe, Shaped;
    if i < |b| {
      ScanShift(a, b, i);
      var s := Scan(b, i);
      FeedShift(Apply(t, s.0), a, b, s.1);
    }
  }

  /** Cutting a stream at any point between two tokens changes nothing. */
  lemma WritesCompose(t: Terminal, a: seq<Byte>, b: seq<Byte>)
    requires Shaped(t) && Reaches(a + b, 0, |a|)
    ensures Safe(t, a + b, 0) <==> Safe(t, a, 0) && Safe(Feed(t, a, 0), b, 0)
    ensures Feed(t, a + b, 0) == Feed(Feed(t, a, 0), b, 0)
  {
    hide Scan, Apply, Safe, Feed, Reaches;
    FeedPrefix(t, a, b, 0);
    FeedShift(Feed(t, a, 0), a, b, 0);
  }

  /** Inside a token it does: an escape byte at the end of a write is lost. */
  lemma CutInsideTokenDiffers(t: Terminal)
    requires t == Initial(80, 24)
    ensures var a: seq<Byte>, b: seq<Byte> := [ESC], ['=' as int];
      Safe(t, a + b, 0) && Safe(t, a, 0) && Safe(Feed(t, a, 0), b, 0) &&
      Feed(t, a + b, 0) != Feed(Feed(t, a, 0), b, 0)
  {
    var a: seq<Byte>, b: seq<Byte> := [ESC], ['=' as int];
    assert a + b == [ESC, '=' as int];
    assert Feed(t, a + b, 0) == t;
    assert Feed(t, a, 0) == t;
    assert Feed(t, b, 0) == PutRune(t, '=' as int);
  }

  // ---------- scrolling ----------

  /** Two scrolls add up. */
  lemma ScrolledUpTwice(t: Terminal, m: nat, n: nat, r: nat)
    requires Shaped(t) && m > 0 && t.height != 0
    ensures ScrolledUpRow(ScrollUp(t, m), n, r) == ScrolledUpRow(t, m + n, r)
  {
  }

  lemma ScrollUpAdds(t: Terminal, m: nat, n: nat)
    requires Shaped(t)
    ensures ScrollUp(ScrollUp(t, m), n) == ScrollUp(t, m + n)
  {
    if m > 0 && n > 0 && t.height != 0 {
      hide ScrolledUpRow;
      var p, q := ScrollUp(ScrollUp(t, m), n), ScrollUp(t, m + n);
      forall r: nat ensures p.grid[r] == q.grid[r] { ScrolledUpTwice(t, m, n, r); }
      assert p.grid == q.grid;
    }
  }

  lemma ScrolledDownTwice(t: Terminal, m: nat, n: nat, r: nat)
    requires Shaped(t) && m > 0 && t.height != 0
    ensures ScrolledDownRow(ScrollDown(t, m), n, r) == ScrolledDownRow(t, m + n, r)
  {
  }

  lemma ScrollDownAdds(t: Terminal, m: nat, n: nat)
    requires Shaped(t)
    ensures ScrollDown(ScrollDown(t, m), n) == ScrollDown(t, m + n)
  {
    if m > 0 && n > 0 && t.height != 0 {
      hide ScrolledDownRow;
      var p, q := ScrollDown(ScrollDown(t, m), n), ScrollDown(t, m + n);
      forall r: nat ensures p.grid[r] == q.grid[r] { ScrolledDownTwice(t, m, n, r); }
      assert p.grid == q.grid;
    }
  }

  ghost function SingleScrollsUp(t: Terminal, n: nat): (t': Terminal)
    requires Shaped(t)
    ensures Shaped(t')
    decreases n
  {
    if n == 0 then t else SingleScrollsUp(ScrollUp(t, 1), n - 1)
  }

  ghost function SingleScrollsDown(t: Terminal, n: nat): (t': Terminal)
    requires Shaped(t)
    ensures Shaped(t')
    decreases n
  {
    if n == 0 then t else SingleScrollsDown(ScrollDown(t, 1), n - 1)
  }

  lemma ScrollUpOnce(t: Terminal, u: Terminal, n: nat)
    requires Shaped(t) && u == ScrollUp(t, 1) && n > 0
    requires ScrollUp(u, n - 1) == SingleScrollsUp(u, n - 1)
    ensures ScrollUp(t, n) == SingleScrollsUp(t, n)
  {
    hide ScrollUp;
    ScrollUpAdds(t, 1, n - 1);
  }

  /** SU by n is n scrolls by one. */
  lemma {:induction false} ScrollUpIsRepeated(t: Terminal, n: nat)
    requires Shaped(t)
    ensures ScrollUp(t, n) == SingleScrollsUp(t, n)
    decreases n
  {
    if n > 0 {
      hide ScrollUp, SingleScrollsUp;
      ScrollUpIsRepeated(ScrollUp(t, 1), n - 1);
      ScrollUpOnce(t, ScrollUp(t, 1), n);
    }
  }

  lemma ScrollDownOnce(t: Terminal, u: Terminal, n: nat)
    requires Shaped(t) && u == ScrollDown(t, 1) && n > 0
    requires ScrollDown(u, n - 1) == SingleScrollsDown(u, n - 1)
    ensures ScrollDown(t, n) == SingleScrollsDown(t, n)
  {
    hide ScrollDown;
    ScrollDownAdds(t, 1, n - 1);
  }

  /** SD by n is n scrolls by one. */
  lemma {:induction false} ScrollDownIsRepeated(t: Terminal, n: nat)
    requires Shaped(t)
    ensures ScrollDown(t, n) == SingleScrollsDown(t, n)
    decreases n
  {
    if n > 0 {
      hide ScrollDown, SingleScrollsDown;
      ScrollDownIsRepeated(ScrollDown(t, 1), n - 1);
      ScrollDownOnce(t, ScrollDown(t, 1), n);
    }
  }

  /** Scrolling down undoes scrolling up but for the lines lost at the top, which come back blank. */
  lemma ScrollDownAfterUp(t: Terminal, n: nat)
    requires Shaped(t) && t.height > 0
    ensures SameSize(t, ScrollDown(ScrollUp(t, n), n))
    ensures forall r: nat ::
              ScrollDown(ScrollUp(t, n), n).grid[r] ==
              (if t.top <= r < t.top + n && r <= t.bot then Blank(t.cols) else t.grid[r])
  {
  }

  lemma FeedLineFeed(t: Terminal, d: seq<Byte>, i: nat)
    requires Shaped(t) && i < |d| && d[i] == LF
    ensures Safe(t, d, i) <==> Safe(LineFeedAt(t), d, i + 1)
    ensures Feed(t, d, i) == Feed(LineFeedAt(t), d, i + 1)
  {
    hide LineFeedAt;
    assert Scan(d, i) == (LineFeed, i + 1);
  }

  lemma {:induction false} FeedLineFeeds(t: Terminal, d: seq<Byte>, i: nat)
    requires Shaped(t) && t.height > 0 && t.row == t.bot && i <= |d|
    requires forall k :: i <= k < |d| ==> d[k] == LF
    ensures Safe(t, d, i) && Feed(t, d, i) == SingleScrollsUp(t, |d| - i)
    decreases |d| - i
  {
    if i < |d| {
      hide Feed, Safe, Shaped;
      FeedLineFeed(t, d, i);
      FeedLineFeeds(ScrollUp(t, 1), d, i + 1);
    } else {
      FeedNothing(t, d);
    }
  }

  lemma FeedNothing(t: Terminal, d: seq<Byte>)
    requires Shaped(t)
    ensures Safe(t, d, |d|) && Feed(t, d, |d|) == t
  {
  }

  /** The bytes of ESC [ n S. */
  function ScrollUpSequence(n: nat): seq<Byte> {
    [ESC, '[' as int] + Show(n) + ['S' as int]
  }

  lemma ScanScrollUpSequence(n: nat)
    ensures Scan(ScrollUpSequence(n), 0) == (Csi(Show(n), 'S' as int), |ScrollUpSequence(n)|)
  {
    var d, s := ScrollUpSequence(n), Show(n);
    assert d[2..2 + |s|] == s;
    forall k | 2 <= k < 2 + |s| ensures d[k] < 0x40 {
      assert d[k] == s[k - 2] && Digit(s[k - 2]);
    }
    assert d[2 + |s|] == 'S' as int;
    assert CsiEnd(d, 2) == 2 + |s|;
  }

  lemma FeedOneControl(t: Terminal, d: seq<Byte>, params: seq<Byte>, final: Byte)
    requires Shaped(t) && d != [] && Scan(d, 0) == (Csi(params, final), |d|)
    ensures Safe(t, d, 0) <==> InBounds(t, params, final)
    ensures Feed(t, d, 0) == Control(t, params, final)
  {
    hide Control, InBounds;
  }

  lemma FeedScrollUp(t: Terminal, n: nat, d: seq<Byte>)
    requires Shaped(t) && 1 <= n <= MAX_INT
    requires d != [] && Scan(d, 0) == (Csi(Show(n), 'S' as int), |d|)
    ensures Safe(t, d, 0) && Feed(t, d, 0) == ScrollUp(t, n)
  {
    ParseShow(n, 1);
    FeedOneControl(t, d, Show(n), 'S' as int);
  }

  lemma FeedScrollUpSequence(t: Terminal, n: nat, d: seq<Byte>)
    requires Shaped(t) && 1 <= n <= MAX_INT && d == ScrollUpSequence(n)
    ensures Safe(t, d, 0) && Feed(t, d, 0) == ScrollUp(t, n)
  {
    ScanScrollUpSequence(n);
    FeedScrollUp(t, n, d);
  }

  /** With the cursor on the bottom margin, n line feeds and one ESC [ n S leave the same screen. */
  lemma LineFeedsScroll(t: Terminal, d: seq<Byte>)
    requires Shaped(t) && t.height > 0 && t.row == t.bot
    requires 1 <= |d| <= MAX_INT && forall k :: 0 <= k < |d| ==> d[k] == LF
    ensures Safe(t, d, 0) && Safe(t, ScrollUpSequence(|d|), 0)
    ensures Feed(t, d, 0) == Feed(t, ScrollUpSequence(|d|), 0)
  {
    var n := |d|;
    hide Scan, Apply, ScrollUpSequence, Show, Safe, Feed, SingleScrollsUp, ScrollUp, Shaped;
    FeedLineFeeds(t, d, 0);
    ScrollUpIsRepeated(t, n);
    FeedScrollUpSequence(t, n, ScrollUpSequence(n));
  }

  // ---------- erasing in reading order ----------

  /** How many cells precede column k of row r when the page is read line by line. */
  function Offset(t: Terminal, r: nat, k: nat): nat { r * t.cols + k }

  lemma {:induction false} RowsApart(a: nat, b: nat, cols: nat)
    requires a < b
    ensures a * cols + cols <= b * cols
    decreases b
  {
    assert b * cols == (b - 1) * cols + cols;
    if a < b - 1 {
      RowsApart(a, b - 1, cols);
    }
  }

  lemma OffsetOrder(t: Terminal, r: nat, k: nat, q: nat, l: nat)
    requires k < t.cols && l < t.cols
    ensures Offset(t, r, k) < Offset(t, q, l) <==> r < q || (r == q && k < l)
  {
    if r < q {
      RowsApart(r, q, t.cols);
    } else if q < r {
      RowsApart(q, r, t.cols);
    }
  }

  /** ED blanks the cells from the cursor on (0), up to and with the cursor (1) or everywhere (2 and 3), in
      reading order and over the whole infinite page; EL does the same within the cursor's line, where 3
      has no meaning. Both blank the cursor's own cell, and nothing else changes. */
  lemma ErasesInReadingOrder(t: Terminal, mode: int, r: nat, k: nat)
    requires Valid(t) && k < t.cols
    ensures var here, cursor := Offset(t, r, k), Offset(t, t.row, t.col);
      var hit := (mode == 0 && here >= cursor) || (mode == 1 && here <= cursor) || mode == 2;
      (EraseDisplay(t, mode).grid[r][k] == (if hit || mode == 3 then SPACE else t.grid[r][k])) &&
      (EraseLine(t, mode).grid[r][k] == (if hit && r == t.row then SPACE else t.grid[r][k]))
  {
    OffsetOrder(t, r, k, t.row, t.col);
    OffsetOrder(t, t.row, t.col, r, k);
    assert |t.grid[r]| == t.cols;
  }

  // ---------- the cursor ----------

  /** No token met on the way through d from i saves the cursor. */
  ghost predicate SavesNothing(d: seq<Byte>, i: nat) {
    forall j :: i <= j < |d| && Reaches(d, i, j) && Scan(d, j).0.Csi? ==> Scan(d, j).0.final != 's' as int
  }

  lemma ApplyKeepsSaved(t: Terminal, token: Token)
    requires Shaped(t) && !(token.Csi? && token.final == 's' as int)
    ensures Apply(t, token).savedRow == t.savedRow && Apply(t, token).savedCol == t.savedCol
  {
    hide ParseOne, ParseTwo, ErasedRow, ScrolledUpRow, ScrolledDownRow;
  }

  lemma {:induction false} FeedKeepsSaved(t: Terminal, d: seq<Byte>, i: nat)
    requires Shaped(t) && SavesNothing(d, i)
    ensures Feed(t, d, i).savedRow == t.savedRow && Feed(t, d, i).savedCol == t.savedCol
    decreases |d| - i
  {
    hide Scan, Apply;
    if i < |d| {
      assert Reaches(d, i, i);
      ApplyKeepsSaved(t, Scan(d, i).0);
      assert forall j :: Reaches(d, Scan(d, i).1, j) && Scan(d, i).1 <= j ==> Reaches(d, i, j);
      FeedKeepsSaved(Apply(t, Scan(d, i).0), d, Scan(d, i).1);
    }
  }

  /** Moving down and up again, and right and left again where the line is long enough, comes back to the
      same cell; to the next and back to a preceding line comes back to the first cell of the line. */
  lemma MovesCancel(t: Terminal, params: seq<Byte>)
    requires Valid(t) && MINUS !in params
    ensures MoveCursor(MoveCursor(t, params, 'B' as int), params, 'A' as int) == t
    ensures t.col + ParseOne(params, 1) < t.cols ==>
      MoveCursor(MoveCursor(t, params, 'C' as int), params, 'D' as int) == t
    ensures MoveCursor(MoveCursor(t, params, 'E' as int), params, 'F' as int) == t.(col := 0)
  {
    hide ParseOne;
    assert ParseOne(params, 1) > 0;
  }
}
