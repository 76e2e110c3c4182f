/** On plain text the screen and the linear normaliser agree. */
module PlainText {
  import opened Utf8
  import opened ControlSequences
  import opened Terminal
  import T = Terminal
  import opened Normalizer
  import opened Sequences

  predicate Printable(s: seq<Byte>) { forall k :: 0 <= k < |s| ==> 0x20 <= s[k] < 0x7f }

  /** A line that fits and does not end in a space. */
  predicate PlainLine(l: seq<Byte>, cols: nat) {
    |l| < cols && Printable(l) && (l != [] ==> l[|l| - 1] != SPACE)
  }

  predicate PlainText(lines: seq<seq<Byte>>, cols: nat) {
    (forall k :: 0 <= k < |lines| ==> PlainLine(lines[k], cols)) && (lines != [] ==> lines[|lines| - 1] != [])
  }

  /** The lines joined by CR LF, as they travel over a PTY. */
  function Wire(lines: seq<seq<Byte>>): seq<Byte> { Join(lines, [CR, LF]) }

  /** The first line of a wired text and the text behind it. */
  lemma WireParts(d: seq<Byte>, i: nat, lines: seq<seq<Byte>>)
    requires i <= |d| && d[i..] == Wire(lines)
    ensures lines == [] ==> i == |d|
    ensures |lines| == 1 ==> i + |lines[0]| == |d| && d[i..i + |lines[0]|] == lines[0]
    ensures |lines| > 1 ==> i + |lines[0]| + 2 <= |d|
    ensures |lines| > 1 ==> d[i..i + |lines[0]| + 2] == lines[0] + [CR, LF]
    ensures |lines| > 1 ==> d[i + |lines[0]| + 2..] == Wire(lines[1..])
  {
    if |lines| == 1 {
      assert d[i..i + |lines[0]|] == d[i..];
    } else if lines != [] {
      var n := |lines[0]| + 2;
      assert d[i..i + n] == d[i..][..n] == lines[0] + [CR, LF];
      assert d[i + n..] == d[i..][n..];
    }
  }

  /** Row s with l written over it from column c. */
  function Overlay(s: Row, c: nat, l: seq<Byte>): Row
    requires c + |l| <= |s|
  {
    s[..c] + l + s[c + |l|..]
  }

  ghost function Typed(t: Terminal, l: seq<Byte>): (t': Terminal)
    requires T.Valid(t) && t.col + |l| < t.cols
    ensures T.Valid(t')
  {
    var grown := if l == [] then t else Grown(t, t.row);
    grown.(grid := t.grid[t.row as nat := Overlay(t.grid[t.row], t.col, l)], col := t.col + |l|)
  }

  lemma TypedStep(t: Terminal, l: seq<Byte>)
    requires T.Valid(t) && t.col + |l| < t.cols && l != []
    ensures PutRune(t, l[0]).col + |l[1..]| < t.cols
    ensures Typed(PutRune(t, l[0]), l[1..]) == Typed(t, l)
  {
    var s, c := t.grid[t.row], t.col;
    assert Overlay(s[c := l[0] as int], c + 1, l[1..]) == Overlay(s, c, l);
    assert Typed(PutRune(t, l[0]), l[1..]).grid == Typed(t, l).grid;
  }

  lemma ScanPlain(d: seq<Byte>, i: nat)
    requires i < |d| && (0x20 <= d[i] < 0x7f || d[i] == CR || d[i] == LF)
    ensures Scan(d, i) == (if d[i] == CR then Return else if d[i] == LF then LineFeed else Print(d[i]), i + 1)
  {
  }

  /** Going on from i in state t comes to the same as going on from j in state u. */
  ghost predicate SameFrom(d: seq<Byte>, t: Terminal, i: nat, u: Terminal, j: nat) {
    T.Valid(t) && T.Valid(u) &&
    (Safe(t, d, i) <==> Safe(u, d, j)) &&
    Feed(t, d, i) == Feed(u, d, j)
  }

  lemma FeedStep(t: Terminal, d: seq<Byte>, i: nat, token: Token)
    requires T.Valid(t) && i < |d| && Scan(d, i) == (token, i + 1) && !token.Csi?
    ensures SameFrom(d, t, i, Apply(t, token), i + 1)
  {
    hide Scan, Apply;
    StaysValid(t, token);
    ValidIsShaped(t);
  }

  lemma TypeNothing(t: Terminal, l: seq<Byte>)
    requires T.Valid(t) && l == []
    ensures Typed(t, l) == t
  {
    assert Overlay(t.grid[t.row], t.col, l) == t.grid[t.row];
    assert Typed(t, l).grid == t.grid;
  }

  /** Printable bytes that fit on the line are typed one behind the other. */
  lemma {:induction false} FeedTyped(t: Terminal, d: seq<Byte>, i: nat, l: seq<Byte>)
    requires T.Valid(t) && t.col + |l| < t.cols && Printable(l)
    requires i + |l| <= |d| && d[i..i + |l|] == l
    ensures SameFrom(d, t, i, Typed(t, l), i + |l|)
    decreases |l|
  {
    hide Scan, Typed, PutRune, Safe, Feed, Rectangular;
    if l == [] {
      TypeNothing(t, l);
    } else {
      assert d[i] == d[i..i + |l|][0] == l[0];
      ScanPlain(d, i);
      FeedStep(t, d, i, Print(l[0]));
      TypedStep(t, l);
      assert d[i + 1..i + 1 + |l[1..]|] == d[i..i + |l|][1..] == l[1..];
      FeedTyped(PutRune(t, l[0]), d, i + 1, l[1..]);
    }
  }

  /** The line as a full row. */
  function Filled(l: seq<Byte>, cols: nat): Row {
    l + Blank(if |l| < cols then cols - |l| else 0)
  }

  lemma {:induction false} TrimFilled(l: seq<Byte>, cols: nat)
    requires PlainLine(l, cols)
    ensures TrimSpaces(Filled(l, cols)) == l
  {
    var s := Filled(l, cols);
    var r := TrimSpaces(s);
    assert l != [] ==> s[|l| - 1] != SPACE;
    assert forall k :: |l| <= k < |s| ==> s[k] == SPACE;
    assert r == s[..|r|] && l == s[..|l|];
  }

  ghost predicate BlankFrom(t: Terminal) {
    forall r: nat :: r >= t.row ==> r in t.grid && t.grid[r] == Blank(t.cols)
  }

  /** The terminal at the start of the line below l. */
  ghost function NextLine(t: Terminal, l: seq<Byte>): (t': Terminal)
    requires T.Valid(t) && t.col + |l| < t.cols
    ensures T.Valid(t')
  {
    Typed(t, l).(col := 0, row := t.row + 1)
  }

  lemma FeedNextLine(t: Terminal, d: seq<Byte>, i: nat, l: seq<Byte>)
    requires T.Valid(t) && t.height == 0 && t.col + |l| < t.cols && Printable(l)
    requires i + |l| + 2 <= |d| && d[i..i + |l| + 2] == l + [CR, LF]
    ensures SameFrom(d, t, i, NextLine(t, l), i + |l| + 2)
  {
    hide Scan, Typed, Safe, Feed, Rectangular;
    var j := i + |l|;
    assert d[i..j] == d[i..j + 2][..|l|] == l;
    assert d[j] == d[i..j + 2][|l|] == CR;
    assert d[j + 1] == d[i..j + 2][|l| + 1] == LF;
    FeedTyped(t, d, i, l);
    TypedKeeps(t, l);
    ScanPlain(d, j);
    FeedStep(Typed(t, l), d, j, Return);
    ScanPlain(d, j + 1);
    FeedStep(Apply(Typed(t, l), Return), d, j + 1, LineFeed);
  }

  lemma TypedKeeps(t: Terminal, l: seq<Byte>)
    requires T.Valid(t) && t.col + |l| < t.cols
    ensures SameSize(t, Typed(t, l)) && Typed(t, l).row == t.row
  {
  }

  ghost predicate FilledFrom(t: Terminal, u: Terminal, lines: seq<seq<Byte>>) {
    forall r: nat :: r in u.grid && u.grid[r] == FilledRow(t, lines, r)
  }

  ghost function FilledRow(t: Terminal, lines: seq<seq<Byte>>, r: nat): Row {
    if t.row <= r < t.row + |lines| then Filled(lines[r - t.row], t.cols) else if r in t.grid then t.grid[r] else []
  }

  lemma FillFirst(t: Terminal, l: seq<Byte>)
    requires T.Valid(t) && t.col == 0 && BlankFrom(t) && |l| < t.cols
    ensures Typed(t, l).grid == t.grid[t.row as nat := Filled(l, t.cols)]
    ensures BlankFrom(NextLine(t, l)) && SameSize(t, NextLine(t, l))
  {
    assert Overlay(Blank(t.cols), 0, l) == Filled(l, t.cols);
  }

  lemma FillRest(t: Terminal, u: Terminal, lines: seq<seq<Byte>>)
    requires T.Valid(t) && t.col == 0 && BlankFrom(t)
    requires lines != [] && forall k :: 0 <= k < |lines| ==> |lines[k]| < t.cols
    requires SameSize(t, NextLine(t, lines[0]))
    requires FilledFrom(NextLine(t, lines[0]), u, lines[1..])
    ensures FilledFrom(t, u, lines)
  {
    hide Typed, Filled, BlankFrom;
    var l, n := lines[0], NextLine(t, lines[0]);
    FillFirst(t, l);
    forall r: nat ensures r in u.grid && u.grid[r] == FilledRow(t, lines, r) {
      assert FilledRow(n, lines[1..], r) == FilledRow(t, lines, r);
    }
  }

  /** Typing the lines of a plain text on blank rows fills one row after the other. */
  lemma {:induction false} FeedLines(t: Terminal, d: seq<Byte>, i: nat, lines: seq<seq<Byte>>)
    requires T.Valid(t) && t.height == 0 && t.col == 0 && BlankFrom(t)
    requires lines != [] && forall k :: 0 <= k < |lines| ==> PlainLine(lines[k], t.cols)
    requires i <= |d| && d[i..] == Wire(lines)
    ensures Safe(t, d, i) && FilledFrom(t, Feed(t, d, i), lines)
    decreases |lines|
  {
    hide Scan, Typed, Rectangular, BlankFrom, FilledFrom, Wire, Safe, Feed, InRange;
    var l := lines[0];
    ValidIsShaped(t);
    FillFirst(t, l);
    WireParts(d, i, lines);
    if |lines| == 1 {
      FeedTyped(t, d, i, l);
      FeedAtEnd(Typed(t, l), d);
      FillOne(t, l, lines);
    } else {
      FeedNextLine(t, d, i, l);
      FeedLines(NextLine(t, l), d, i + |l| + 2, lines[1..]);
      FillRest(t, Feed(t, d, i), lines);
    }
  }

  lemma ValidIsShaped(t: Terminal)
    requires T.Valid(t)
    ensures Shaped(t)
  {
  }

  lemma FillOne(t: Terminal, l: seq<Byte>, lines: seq<seq<Byte>>)
    requires T.Valid(t) && t.col == 0 && BlankFrom(t) && |l| < t.cols && lines == [l]
    ensures FilledFrom(t, Typed(t, l), lines)
  {
    FillFirst(t, l);
  }

  // ---------- the normaliser's side ----------

  lemma EmitPlain(d: seq<Byte>, i: nat)
    requires i < |d|
    ensures 0x20 <= d[i] < 0x7f ==> Emit(d, i) == ([d[i]], i + 1)
    ensures d[i] == CR && i + 1 < |d| && d[i + 1] == LF ==> Emit(d, i) == ([], i + 1)
    ensures d[i] == LF ==> Emit(d, i) == ([LF], i + 1)
  {
  }

  lemma {:induction false} StrippedLine(d: seq<Byte>, i: nat, l: seq<Byte>)
    requires Printable(l) && i + |l| <= |d| && d[i..i + |l|] == l
    ensures Stripped(d, i) == l + Stripped(d, i + |l|)
    decreases |l|
  {
    hide Emit;
    if l != [] {
      assert d[i] == d[i..i + |l|][0] == l[0];
      assert d[i + 1..i + 1 + |l[1..]|] == d[i..i + |l|][1..] == l[1..];
      EmitPlain(d, i);
      StrippedLine(d, i + 1, l[1..]);
      var rest := Stripped(d, i + |l|);
      assert [l[0]] + (l[1..] + rest) == ([l[0]] + l[1..]) + rest;
      assert l == [l[0]] + l[1..];
    }
  }

  lemma BreakParts(d: seq<Byte>, i: nat, l: seq<Byte>)
    requires i + |l| + 2 <= |d| && d[i..i + |l| + 2] == l + [CR, LF]
    ensures d[i..i + |l|] == l && d[i + |l|] == CR && d[i + |l| + 1] == LF
  {
    var j := i + |l|;
    assert d[i..j] == d[i..j + 2][..|l|];
    assert d[j] == d[i..j + 2][|l|] && d[j + 1] == d[i..j + 2][|l| + 1];
  }

  lemma StrippedBreak(d: seq<Byte>, i: nat, l: seq<Byte>)
    requires Printable(l) && i + |l| + 2 <= |d| && d[i..i + |l| + 2] == l + [CR, LF]
    ensures Stripped(d, i) == l + [LF] + Stripped(d, i + |l| + 2)
  {
    hide Emit, Stripped, Printable;
    BreakParts(d, i, l);
    StrippedLine(d, i, l);
    EmitPlain(d, i + |l|);
    EmitPlain(d, i + |l| + 1);
    StrippedTwo(d, i + |l|);
    Associate(l, [LF], Stripped(d, i + |l| + 2));
  }

  lemma Associate(a: seq<Byte>, b: seq<Byte>, c: seq<Byte>)
    ensures a + (b + c) == a + b + c
  {
  }

  lemma StrippedTwo(d: seq<Byte>, j: nat)
    requires j + 1 < |d| && Emit(d, j) == ([], j + 1) && Emit(d, j + 1) == ([LF], j + 2)
    ensures Stripped(d, j) == [LF] + Stripped(d, j + 2)
  {
    hide Emit;
    assert Stripped(d, j) == [] + Stripped(d, j + 1);
  }

  lemma StrippedAtEnd(d: seq<Byte>)
    ensures Stripped(d, |d|) == []
  {
  }

  lemma {:induction false} StrippedWire(d: seq<Byte>, i: nat, lines: seq<seq<Byte>>)
    requires forall k :: 0 <= k < |lines| ==> Printable(lines[k])
    requires i <= |d| && d[i..] == Wire(lines)
    ensures Stripped(d, i) == Join(lines, [LF])
    decreases |lines|
  {
    hide Stripped, Printable, Wire, Join;
    WireParts(d, i, lines);
    StrippedAtEnd(d);
    if lines == [] {
      JoinNothing<Byte>([LF]);
    } else if |lines| == 1 {
      StrippedLine(d, i, lines[0]);
      JoinSingle(lines);
    } else {
      StrippedBreak(d, i, lines[0]);
      StrippedWire(d, i + |lines[0]| + 2, lines[1..]);
      JoinRest(lines, [LF]);
    }
  }

  lemma JoinSingle(lines: seq<seq<Byte>>)
    requires |lines| == 1
    ensures lines[0] + [] == lines[0] == Join(lines, [LF])
  {
  }

  lemma JoinRest(lines: seq<seq<Byte>>, separator: seq<Byte>)
    requires |lines| > 1
    ensures Join(lines, separator) == lines[0] + separator + Join(lines[1..], separator)
  {
  }

  /** Runes of a plain text are its bytes. */
  lemma {:induction false} JoinIsJoin(lines: seq<seq<Byte>>)
    ensures Join<int>(lines, [LF]) == Join(lines, [LF])
  {
    if |lines| > 1 { JoinIsJoin(lines[1..]); }
  }

  lemma FeedAtEnd(t: Terminal, d: seq<Byte>)
    requires T.Valid(t)
    ensures Safe(t, d, |d|) && Feed(t, d, |d|) == t
  {
  }

  lemma TrimBlank(cols: nat)
    ensures TrimSpaces(Blank(cols)) == []
  {
  }

  lemma BlankShowsNothing(cols: int)
    ensures Shows([], Initial(cols, 0).grid)
  {
    TrimBlank(Initial(cols, 0).cols);
  }

  lemma FilledShowsLines(cols: int, u: Terminal, lines: seq<seq<Byte>>)
    requires PlainText(lines, Initial(cols, 0).cols) && FilledFrom(Initial(cols, 0), u, lines)
    ensures Shows(lines, u.grid)
  {
    hide TrimSpaces, Filled, FilledFrom, Initial, PlainLine;
    forall r: nat ensures r in u.grid && TrimSpaces(u.grid[r]) == if r < |lines| then lines[r] else [] {
      RowShown(cols, u, lines, r);
    }
  }

  lemma RowShown(cols: int, u: Terminal, lines: seq<seq<Byte>>, r: nat)
    requires PlainText(lines, Initial(cols, 0).cols) && FilledFrom(Initial(cols, 0), u, lines)
    ensures r in u.grid && TrimSpaces(u.grid[r]) == if r < |lines| then lines[r] else []
  {
    hide TrimSpaces, Filled, PlainLine;
    var t := Initial(cols, 0);
    assert u.grid[r] == FilledRow(t, lines, r);
    if r < |lines| {
      TrimFilled(lines[r], t.cols);
    } else {
      TrimBlank(t.cols);
    }
  }

  /** Plain text written to an unbounded screen shows exactly its lines, and what `Content` joins is what
      the normaliser makes of the same bytes. */
  lemma ScreenAgreesWithNormalizer(cols: int, lines: seq<seq<Byte>>)
    requires PlainText(lines, Initial(cols, 0).cols)
    ensures Safe(Initial(cols, 0), Wire(lines), 0)
    ensures Shows(lines, Feed(Initial(cols, 0), Wire(lines), 0).grid)
    ensures Join<int>(lines, [LF]) == Normalized(Wire(lines))
  {
    hide Scan, Emit, Feed, Safe, Normalized, TrimSpaces, Filled, Stripped, Printable, Shaped, Shows, FilledFrom;
    var t, d := Initial(cols, 0), Wire(lines);
    StrippedWire(d, 0, lines);
    NormalizedIsProjection(d);
    JoinIsJoin(lines);
    ValidIsShaped(t);
    if lines == [] {
      FeedAtEnd(t, d);
      BlankShowsNothing(cols);
    } else {
      FeedLines(t, d, 0, lines);
      FilledShowsLines(cols, Feed(t, d, 0), lines);
    }
  }
}
