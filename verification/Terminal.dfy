/** A terminal without storage: an infinite grid of rows, a cursor, a saved cursor and scroll
    margins. `Screen` is proved to behave like it. Operations follow ECMA-48 (CUU to CHA, ED, EL,
    DCH, SU, SD) and the DEC private DECSTBM; where the program differs from the standard the
    terminal follows the program and a lemma says exactly when the two agree. Parameters may be negative
    and may throw the cursor off the grid, as in the program; `Safe` says exactly when the program then
    gets away without indexing out of range. */
module Terminal {
  import opened Utf8
  import opened ControlSequences

  type Row = seq<int>
  type Grid = imap<nat, Row>

  /** `rowCount` tells how many rows the program has allocated. Nothing visible depends on it. */
  datatype Terminal = Terminal(
    cols: nat,
    height: int,
    rowCount: nat,
    grid: Grid,
    row: int,
    col: int,
    savedRow: int,
    savedCol: int,
    top: int,
    bot: int)

  // ---------- rows ----------

  function Blank(cols: nat): (s: Row)
    ensures |s| == cols && forall k :: 0 <= k < cols ==> s[k] == SPACE
  {
    seq(cols, _ => SPACE)
  }

  /** The cells lo..hi-1 of a row replaced by spaces. */
  function EraseCells(s: Row, lo: int, hi: int): (r: Row)
    ensures |r| == |s|
    ensures forall k :: 0 <= k < |s| ==> r[k] == if lo <= k < hi then SPACE else s[k]
  {
    seq(|s|, k requires 0 <= k < |s| => if lo <= k < hi then SPACE else s[k])
  }

  /** What the program's DCH does to a row: the cells from the cursor on move left by n (right, if n is
      negative), then the last n cells of the whole row are blanked. */
  function DeleteCells(s: Row, col: nat, n: int): (r: Row)
    requires col <= |s| && 0 <= col + n
    ensures |r| == |s|
    ensures forall k :: 0 <= k < |s| ==>
      r[k] == if k >= |s| - n then SPACE else if k < col then s[k] else s[k + n]
  {
    seq(|s|, k requires 0 <= k < |s| => if k >= |s| - n then SPACE else if k < col then s[k] else s[k + n])
  }

  /** DCH as section 8.3.26 of ECMA-48 has it: cells left of the cursor are not affected. */
  function DeleteCharacters(s: Row, col: nat, n: nat): (r: Row)
    requires col < |s|
    ensures |r| == |s|
  {
    var gone := if col + n < |s| then n else |s| - col;
    s[..col] + s[col + gone..] + Blank(gone)
  }

  /** The program's DCH meets the standard exactly when no cell left of the cursor that still has a
      character lies among the last n cells of the row. */
  lemma DeleteCellsMeetsStandard(s: Row, col: nat, n: nat)
    requires col < |s|
    ensures DeleteCells(s, col, n) == DeleteCharacters(s, col, n)
       <==> forall k :: |s| - n <= k < col && 0 <= k ==> s[k] == SPACE
    ensures n <= |s| - col ==> DeleteCells(s, col, n) == DeleteCharacters(s, col, n)
  {
    var p, q := DeleteCells(s, col, n), DeleteCharacters(s, col, n);
    var gone := if col + n < |s| then n else |s| - col;
    forall k | 0 <= k < |s|
      ensures p[k] == q[k] <==> !(|s| - n <= k < col && s[k] != SPACE)
    {
      if k < col {
        assert q[k] == s[k];
      } else if k < |s| - gone {
        assert q[k] == s[k + gone];
      } else {
        assert q[k] == SPACE;
      }
    }
    if forall k :: |s| - n <= k < col && 0 <= k ==> s[k] == SPACE {
      assert p == q;
    }
  }

  /** A count past the end of the line blanks characters in front of the cursor. */
  lemma DeletePastEndBlanksToTheLeft()
    ensures DeleteCells(['a' as int, 'b' as int, 'c' as int], 1, 3) == Blank(3)
    ensures DeleteCharacters(['a' as int, 'b' as int, 'c' as int], 1, 3)[0] == 'a' as int
  {
    assert DeleteCells(['a' as int, 'b' as int, 'c' as int], 1, 3) == Blank(3);
  }

  // ---------- the state ----------

  predicate Margins(t: Terminal) {
    0 < t.cols && if t.height > 0 then 0 <= t.top <= t.bot < t.height else t.top == t.bot == 0
  }

  /** The cursor and the saved cursor are on the grid. */
  predicate InRange(t: Terminal) {
    Margins(t) && 0 <= t.row && 0 <= t.col < t.cols && 0 <= t.savedRow && 0 <= t.savedCol < t.cols
  }

  /** Every row of the grid is `cols` wide. */
  ghost predicate Rectangular(t: Terminal) {
    forall r: nat :: r in t.grid && |t.grid[r]| == t.cols
  }

  /** What every byte keeps, wherever the cursor is. */
  ghost predicate Shaped(t: Terminal) {
    Margins(t) && Rectangular(t)
  }

  ghost predicate Valid(t: Terminal) {
    InRange(t) && Rectangular(t)
  }

  /** Row r of a page whose first rows are given and whose other rows are blank. */
  function PaddedRow(rows: seq<Row>, cols: nat, r: nat): Row {
    if r < |rows| then rows[r] else Blank(cols)
  }

  ghost function Padded(rows: seq<Row>, cols: nat): (g: Grid)
    ensures forall r: nat :: r in g && g[r] == PaddedRow(rows, cols, r)
  {
    imap r: nat | true :: PaddedRow(rows, cols, r)
  }

  ghost function Initial(cols: int, height: int): (t: Terminal)
    ensures Valid(t)
  {
    var width: nat := if cols <= 0 then 80 else cols;
    Terminal(width, height, 0, Padded([], width), 0, 0, 0, 0, 0, if height > 0 then height - 1 else 0)
  }

  predicate SameSize(t: Terminal, u: Terminal) {
    t.cols == u.cols && t.height == u.height
  }

  function Clamp(v: int, lo: int, hi: int): int {
    if v < lo then lo else if v > hi then hi else v
  }

  function Max(a: int, b: int): int { if a < b then b else a }

  function Min(a: int, b: int): int { if a < b then a else b }

  // ---------- operations ----------

  /** Rows exist at least up to and with row r. */
  function Grown(t: Terminal, r: int): Terminal { t.(rowCount := Max(t.rowCount, r + 1)) }

  ghost function PutRune(t: Terminal, r: int): (t': Terminal)
    requires Shaped(t)
    ensures Shaped(t') && SameSize(t, t')
  {
    var row: nat := Max(t.row, 0);
    var line := if 0 <= t.col < t.cols then t.grid[row][t.col := r] else t.grid[row];
    var written := Grown(t, row).(grid := t.grid[row := line]);
    if t.col + 1 >= t.cols then written.(col := 0, row := row + 1) else written.(col := t.col + 1, row := row)
  }

  /** Storing the rune and moving on. */
  lemma PutRuneIs(t: Terminal, r: int, u: Terminal)
    requires Shaped(t)
    requires var row: nat := Max(t.row, 0);
      u == Grown(t, row).(row := row, grid := t.grid[row :=
             if 0 <= t.col < |t.grid[row]| then t.grid[row][t.col := r] else t.grid[row]])
    ensures PutRune(t, r) == if u.col + 1 >= u.cols then u.(col := 0, row := u.row + 1) else u.(col := u.col + 1)
  {
  }

  /** Above the page, printing starts in the first row. */
  lemma PutRuneFromAbove(t: Terminal, r: int)
    requires Shaped(t)
    ensures t.row < 0 ==> PutRune(t, r) == PutRune(t.(row := 0), r)
  {
  }

  /** Row r after the region from `top` to `bot` has moved up by n. */
  ghost function ScrolledUpRow(t: Terminal, n: int, r: nat): Row
    requires Rectangular(t) && 0 <= n
  {
    if t.top <= r <= t.bot then (if r + n <= t.bot then t.grid[r + n] else Blank(t.cols)) else t.grid[r]
  }

  ghost function ScrolledDownRow(t: Terminal, n: int, r: nat): Row
    requires Rectangular(t) && 0 <= n && 0 <= t.top
  {
    if t.top <= r <= t.bot then (if r - n >= t.top then t.grid[r - n] else Blank(t.cols)) else t.grid[r]
  }

  ghost function ScrollUp(t: Terminal, n: int): (t': Terminal)
    requires Shaped(t)
    ensures Shaped(t') && SameSize(t, t')
  {
    if n <= 0 || t.height == 0 then t else Grown(t, t.bot).(grid := imap r: nat | true :: ScrolledUpRow(t, n, r))
  }

  ghost function ScrollDown(t: Terminal, n: int): (t': Terminal)
    requires Shaped(t)
    ensures Shaped(t') && SameSize(t, t')
  {
    if n <= 0 || t.height == 0 then t else Grown(t, t.bot).(grid := imap r: nat | true :: ScrolledDownRow(t, n, r))
  }

  lemma ScrollNothing(t: Terminal, n: int)
    requires Shaped(t) && (n <= 0 || t.height == 0)
    ensures ScrollUp(t, n) == t && ScrollDown(t, n) == t
  {
  }

  /** Scrolling makes the rows of the region first. */
  lemma ScrollGrows(t: Terminal, n: int)
    requires Shaped(t) && n > 0 && t.height != 0
    ensures ScrollUp(Grown(t, t.bot), n) == ScrollUp(t, n) && ScrollDown(Grown(t, t.bot), n) == ScrollDown(t, n)
  {
    assert ScrollUp(Grown(t, t.bot), n).grid == ScrollUp(t, n).grid;
    assert ScrollDown(Grown(t, t.bot), n).grid == ScrollDown(t, n).grid;
  }

  ghost function LineFeedAt(t: Terminal): (t': Terminal)
    requires Shaped(t)
    ensures Shaped(t') && SameSize(t, t')
  {
    if t.height > 0 && t.row == t.bot then ScrollUp(t, 1) else t.(row := t.row + 1)
  }

  /** Row r after an erasure in the page: 0 from the cursor on, 1 up to the cursor, 2 and 3 all. */
  ghost function ErasedRow(t: Terminal, mode: int, r: nat): Row
    requires Shaped(t)
  {
    if mode == 2 || mode == 3 || (mode == 0 && r > t.row) || (mode == 1 && r < t.row) then Blank(t.cols)
    else if r == t.row then ErasedLine(t.grid[r], mode, t.col) else t.grid[r]
  }

  function ErasedLine(s: Row, mode: int, col: int): (r: Row)
    ensures |r| == |s|
  {
    if mode == 0 then EraseCells(s, col, |s|)
    else if mode == 1 then EraseCells(s, 0, col + 1)
    else if mode == 2 then Blank(|s|)
    else s
  }

  ghost function EraseDisplay(t: Terminal, mode: int): (t': Terminal)
    requires Shaped(t)
    ensures Shaped(t') && SameSize(t, t')
  {
    t.(grid := imap r: nat | true :: ErasedRow(t, mode, r))
  }

  ghost function EraseLine(t: Terminal, mode: int): (t': Terminal)
    requires Shaped(t)
    ensures Shaped(t') && SameSize(t, t')
  {
    if t.row < 0 then t else t.(grid := t.grid[t.row as nat := ErasedLine(t.grid[t.row], mode, t.col)])
  }

  ghost function Delete(t: Terminal, n: int): (t': Terminal)
    requires Shaped(t)
    ensures Shaped(t') && SameSize(t, t')
  {
    if t.row < 0 || !(0 <= t.col <= t.cols) || t.col + n < 0 then t
    else t.(grid := t.grid[t.row as nat := DeleteCells(t.grid[t.row], t.col, n)])
  }

  function SetMargins(t: Terminal, top: int, bot: int): Terminal {
    var a, b := Clamp(top - 1, 0, t.height - 1), Clamp(bot - 1, 0, t.height - 1);
    if a >= b then t.(top := 0, bot := t.height - 1, row := 0, col := 0)
    else t.(top := a, bot := b, row := 0, col := 0)
  }

  /** The control functions that only move the cursor. */
  function MoveCursor(t: Terminal, params: seq<Byte>, final: Byte): (t': Terminal)
    ensures SameSize(t, t') && t'.grid == t.grid
  {
    var n := ParseOne(params, 1);
    match final as char
    case 'H' | 'f' =>
      var p := ParseTwo(params, 1, 1);
      t.(row := Clamp(p.0 - 1, 0, 65535), col := Clamp(p.1 - 1, 0, t.cols - 1))
    case 'A' => t.(row := Max(0, t.row - n))
    case 'B' => t.(row := t.row + n)
    case 'C' => t.(col := Min(t.cols - 1, t.col + n))
    case 'D' => t.(col := Max(0, t.col - n))
    case 'E' => t.(col := 0, row := t.row + n)
    case 'F' => t.(col := 0, row := Max(0, t.row - n))
    case 'G' => t.(col := Clamp(n - 1, 0, t.cols - 1))
    case 'd' => t.(row := Clamp(n - 1, 0, 65535))
    case 's' => t.(savedRow := t.row, savedCol := t.col)
    case 'u' => t.(row := t.savedRow, col := t.savedCol)
    case 'r' =>
      if t.height > 0 then
        var p := ParseTwo(params, 1, t.height);
        SetMargins(t, p.0, p.1)
      else t
    case _ => t
  }

  /** A parameter with a minus sign is harmless here: the cursor stays on the grid. */
  predicate SignSafe(t: Terminal, params: seq<Byte>, final: Byte) {
    var n := ParseOne(params, 1);
    match final as char
    case 'B' | 'E' => t.row + n >= 0
    case 'C' => t.col + n >= 0
    case 'D' => t.col - n < t.cols
    case _ => true
  }

  lemma MoveCursorStays(t: Terminal, params: seq<Byte>, final: Byte)
    requires Margins(t)
    ensures Margins(MoveCursor(t, params, final))
    ensures InRange(t) && SignSafe(t, params, final) ==> InRange(MoveCursor(t, params, final))
  {
    hide ParseOne, ParseTwo, SetMargins, MoveCursor, SignSafe;
    MarginsStay(t, params, final);
    if InRange(t) && SignSafe(t, params, final) { CursorStays(t, params, final); }
  }

  lemma MarginsStay(t: Terminal, params: seq<Byte>, final: Byte)
    requires Margins(t)
    ensures Margins(MoveCursor(t, params, final))
  {
    hide ParseOne, ParseTwo, SetMargins, Clamp, Min, Max;
    var p := ParseTwo(params, 1, t.height);
    SetMarginsStays(t, p.0, p.1);
  }

  lemma CursorStays(t: Terminal, params: seq<Byte>, final: Byte)
    requires InRange(t) && SignSafe(t, params, final)
    ensures InRange(MoveCursor(t, params, final))
  {
    hide ParseOne, ParseTwo, SetMargins;
    var p := ParseTwo(params, 1, t.height);
    SetMarginsStays(t, p.0, p.1);
  }

  lemma SetMarginsStays(t: Terminal, top: int, bot: int)
    ensures var t' := SetMargins(t, top, bot);
      SameSize(t, t') && t'.grid == t.grid && (Margins(t) && t.height > 0 ==> Margins(t') && (InRange(t) ==> InRange(t')))
  {
  }

  ghost function Control(t: Terminal, params: seq<Byte>, final: Byte): (t': Terminal)
    requires Shaped(t)
    ensures Shaped(t') && SameSize(t, t')
  {
    match final as char
    case 'J' => EraseDisplay(t, ParseOne(params, 0))
    case 'K' => EraseLine(t, ParseOne(params, 0))
    case 'P' => Delete(t, ParseOne(params, 1))
    case 'S' => ScrollUp(t, ParseOne(params, 1))
    case 'T' => ScrollDown(t, ParseOne(params, 1))
    case _ => MoveCursorStays(t, params, final); MoveCursor(t, params, final)
  }

  lemma SetMarginsIgnoresGrid(t: Terminal, g: Grid, top: int, bot: int)
    ensures SetMargins(t.(grid := g), top, bot) == SetMargins(t, top, bot).(grid := g)
  {
    hide Clamp;
  }

  /** Moving the cursor does not look at the grid. */
  lemma MoveCursorIgnoresGrid(t: Terminal, g: Grid, params: seq<Byte>, final: Byte)
    ensures MoveCursor(t.(grid := g), params, final) == MoveCursor(t, params, final).(grid := g)
  {
    hide ParseOne, ParseTwo, Clamp, Min, Max, SetMargins;
    var p := ParseTwo(params, 1, t.height);
    SetMarginsIgnoresGrid(t, g, p.0, p.1);
  }

  // ---------- indices ----------

  /** The cells from the cursor to the end of its row can be indexed, if there are any. */
  predicate RestInBounds(t: Terminal) { t.col < t.cols ==> 0 <= t.row && 0 <= t.col }

  /** The cells up to the cursor can be indexed, if there are any. */
  predicate StartInBounds(t: Terminal) { 0 <= t.col ==> 0 <= t.row }

  predicate DisplayInBounds(t: Terminal, mode: int) {
    if mode == 0 then -1 <= t.row && RestInBounds(t) else mode == 1 ==> StartInBounds(t)
  }

  predicate LineInBounds(t: Terminal, mode: int) {
    if mode == 0 then RestInBounds(t) else if mode == 1 then StartInBounds(t) else mode == 2 ==> 0 <= t.row
  }

  predicate DeleteInBounds(t: Terminal, n: int) { 0 <= t.row && 0 <= t.col <= t.cols && 0 <= t.col + n }

  /** Every index and every slice bound the program uses for this control function is in range. It indexes
      the cursor's row only if its number is below the number of rows. */
  predicate InBounds(t: Terminal, params: seq<Byte>, final: Byte) {
    t.row < t.rowCount ==>
      match final as char
      case 'J' => DisplayInBounds(t, ParseOne(params, 0))
      case 'K' => LineInBounds(t, ParseOne(params, 0))
      case 'P' => DeleteInBounds(t, ParseOne(params, 1))
      case _ => true
  }

  /** From a cursor on the grid only DCH can go wrong, by a count that reaches left of the row. */
  lemma OnlyDeleteGoesWrong(t: Terminal, params: seq<Byte>, final: Byte)
    requires InRange(t)
    ensures InBounds(t, params, final) <==> !(final == 'P' as int && t.row < t.rowCount && t.col + ParseOne(params, 1) < 0)
  {
  }

  /** SignSafe is exact: a control function keeps a cursor on the grid just when SignSafe holds. */
  lemma SignSafeIsExact(t: Terminal, params: seq<Byte>, final: Byte)
    requires Valid(t)
    ensures Valid(Control(t, params, final)) <==> SignSafe(t, params, final)
  {
    hide Control;
    if SignSafe(t, params, final) {
      StaysValid(t, Csi(params, final));
    } else {
      UnsafeLeaves(t, params, final);
    }
  }

  lemma UnsafeLeaves(t: Terminal, params: seq<Byte>, final: Byte)
    requires Shaped(t) && InRange(t) && !SignSafe(t, params, final)
    ensures !InRange(Control(t, params, final))
  {
    hide ParseOne, ParseTwo, EraseDisplay, EraseLine, Delete, ScrollUp, ScrollDown;
  }

  /** Without minus signs every control function keeps the cursor on the grid and every index in range. */
  lemma UnsignedIsSafe(t: Terminal, params: seq<Byte>, final: Byte)
    requires InRange(t) && MINUS !in params
    ensures SignSafe(t, params, final) && InBounds(t, params, final)
  {
    OnlyDeleteGoesWrong(t, params, final);
  }

  predicate TokenSafe(t: Terminal, token: Token) {
    token.Csi? ==> InBounds(t, token.params, token.final)
  }

  ghost function Apply(t: Terminal, token: Token): (t': Terminal)
    requires Shaped(t)
    ensures Shaped(t') && SameSize(t, t')
  {
    match token
    case Ignored => t
    case Return => t.(col := 0)
    case LineFeed => LineFeedAt(t)
    case Backspace => if t.col > 0 then t.(col := t.col - 1) else t
    case Print(r) => PutRune(t, r)
    case Csi(params, final) => Control(t, params, final)
  }

  /** What prints, moves or erases keeps a cursor on the grid there, if signs do not interfere. */
  lemma StaysValid(t: Terminal, token: Token)
    requires Valid(t) && (token.Csi? ==> SignSafe(t, token.params, token.final))
    ensures Valid(Apply(t, token))
  {
    hide ParseOne, ParseTwo, MoveCursor, SignSafe, ScrolledUpRow, ScrolledDownRow, ErasedRow, ErasedLine, DeleteCells;
    if token.Csi? { MoveCursorStays(t, token.params, token.final); }
  }

  // ---------- streams ----------

  /** On the way through d from i no index is out of range. */
  ghost predicate Safe(t: Terminal, d: seq<Byte>, i: nat)
    requires Shaped(t)
    decreases |d| - i
  {
    i < |d| ==> TokenSafe(t, Scan(d, i).0) && Safe(Apply(t, Scan(d, i).0), d, Scan(d, i).1)
  }

  ghost function Feed(t: Terminal, d: seq<Byte>, i: nat): (t': Terminal)
    requires Shaped(t)
    ensures Shaped(t') && SameSize(t, t')
    decreases |d| - i
  {
    if i < |d| then Feed(Apply(t, Scan(d, i).0), d, Scan(d, i).1) else t
  }

  // ---------- what is visible ----------

  function TrimSpaces(s: Row): (r: Row)
    ensures |r| <= |s| && r == s[..|r|]
    ensures forall k :: |r| <= k < |s| ==> s[k] == SPACE
    ensures r != [] ==> r[|r| - 1] != SPACE
  {
    if s != [] && s[|s| - 1] == SPACE then TrimSpaces(s[..|s| - 1]) else s
  }

  /** The lines a grid shows: every row without trailing spaces, up to the last row that has any text. */
  ghost predicate Shows(lines: seq<Row>, g: Grid) {
    && (forall r: nat :: r in g)
    && (forall r: nat :: r < |lines| ==> TrimSpaces(g[r]) == lines[r])
    && (forall r: nat :: r >= |lines| ==> TrimSpaces(g[r]) == [])
    && (lines != [] ==> lines[|lines| - 1] != [])
  }

  /** A grid shows one list of lines only. */
  lemma ShowsOneText(a: seq<Row>, b: seq<Row>, g: Grid)
    requires Shows(a, g) && Shows(b, g)
    ensures a == b
  {
    if a != [] {
      var last: nat := |a| - 1;
      assert TrimSpaces(g[last]) == a[last];
    }
    if b != [] {
      var last: nat := |b| - 1;
      assert TrimSpaces(g[last]) == b[last];
    }
  }
}
