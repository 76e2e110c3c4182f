/** The screen buffer of `internal/terminal/screen.go`: rows are separate arrays, allocated when the
    cursor first writes to them, and scrolling moves references to them. */
module Screen {
  import opened Utf8
  import opened ControlSequences
  import opened Sequences
  import opened Terminal

  /** Rows that do not exist yet read as blank. */
  ghost function RowOf(rows: seq<array<int>>, cols: nat, r: nat): Row
    reads rows
  {
    if r < |rows| then rows[r][..] else Blank(cols)
  }

  ghost function GridOf(rows: seq<array<int>>, cols: nat): (g: Grid)
    reads rows
    ensures forall r: nat :: r in g && g[r] == RowOf(rows, cols, r)
  {
    imap r: nat | true :: RowOf(rows, cols, r)
  }

  class Screen {
    const cols: nat
    const height: int
    var rows: seq<array<int>>
    var curRow: int
    var curCol: int
    var savedRow: int
    var savedCol: int
    var scrollTop: int
    var scrollBot: int

    /** Every row has its own backing array, `cols` wide, and the margins are in range. */
    ghost predicate Valid()
      reads this, rows
    {
      && (forall k :: 0 <= k < |rows| ==> rows[k].Length == cols)
      && (forall j, k :: 0 <= j < k < |rows| ==> rows[j] != rows[k])
      && Margins(WithGrid(imap[]))
    }

    ghost function RowAt(r: nat): Row
      reads this, rows
    {
      RowOf(rows, cols, r)
    }

    /** The terminal this buffer stands for. */
    ghost function Abs(): Terminal
      reads this, rows
    {
      WithGrid(GridOf(rows, cols))
    }

    ghost function WithGrid(g: Grid): Terminal
      reads this
    {
      Terminal(cols, height, |rows|, g, curRow, curCol, savedRow, savedCol, scrollTop, scrollBot)
    }

    constructor (cols: int, height: int)
      ensures Valid() && rows == []
      ensures Abs() == Initial(cols, height)
    {
      this.cols := if cols <= 0 then 80 else cols;
      this.height := height;
      rows := [];
      curRow, curCol, savedRow, savedCol, scrollTop := 0, 0, 0, 0, 0;
      scrollBot := if height > 0 then height - 1 else 0;
      new;
      assert Abs().grid == Initial(cols, height).grid;
    }

    lemma AbsIsShaped()
      requires Valid()
      ensures Shaped(Abs())
    {
    }

    // ---------- rows ----------

    method NewBlankRow() returns (line: array<int>)
      ensures fresh(line) && line.Length == cols && line[..] == Blank(cols)
    {
      line := new int[cols];
      for j := 0 to cols
        invariant forall k :: 0 <= k < j ==> line[k] == SPACE
      {
        line[j] := SPACE;
      }
    }

    method AddRow()
      requires Valid()
      modifies this`rows
      ensures Valid() && |rows| == |old(rows)| + 1 && rows[..|old(rows)|] == old(rows) && fresh(rows[|old(rows)|])
      ensures Abs() == old(Abs()).(rowCount := |rows|)
    {
      hide GridOf, Blank;
      var line := NewBlankRow();
      assert GridOf(rows, cols) == old(GridOf(rows, cols));
      BlankRowIsInvisible(rows, cols, line);
      rows := rows + [line];
    }

    static lemma BlankRowIsInvisible(rows: seq<array<int>>, cols: nat, line: array<int>)
      requires line[..] == Blank(cols)
      ensures GridOf(rows + [line], cols) == GridOf(rows, cols)
    {
    }

    /** Growing the buffer is invisible: only the number of rows changes. */
    method EnsureRow(row: int)
      requires Valid()
      modifies this`rows
      ensures Valid() && row < |rows| && old(rows) <= rows
      ensures forall k :: |old(rows)| <= k < |rows| ==> fresh(rows[k])
      ensures Abs() == Grown(old(Abs()), row)
    {
      hide GridOf;
      while |rows| <= row
        invariant Valid() && old(rows) <= rows && |rows| <= Max(|old(rows)|, row + 1)
        invariant forall k :: |old(rows)| <= k < |rows| ==> fresh(rows[k])
        invariant Abs() == old(Abs()).(rowCount := |rows|)
      {
        AddRow();
      }
    }

    /** After a change to one row the buffer stands for a terminal that differs in that row. */
    lemma OneRowChanged(t: Terminal, r: nat, line: Row)
      requires Abs().(grid := t.grid) == t
      requires forall k: nat :: k in t.grid && RowAt(k) == if k == r then line else t.grid[k]
      ensures Abs() == t.(grid := t.grid[r := line])
    {
      forall k: nat ensures Abs().grid[k] == t.grid[r := line][k] {
        assert RowAt(k) == RowOf(rows, cols, k);
      }
    }

    method SetCell(row: nat, col: nat, r: int)
      requires Valid() && row < |rows| && col < cols
      modifies rows[row]
      ensures Abs() == old(Abs().(grid := Abs().grid[row := Abs().grid[row][col := r]]))
    {
      ghost var t := Abs();
      var line := rows[row];
      line[col] := r;
      OneRowChanged(t, row, line[..]);
    }

    /** The cursor's row with r under the cursor, if it is within the row. */
    ghost function Stamped(r: int): Row
      requires 0 <= curRow
      reads this, rows
    {
      if 0 <= curCol < |RowAt(curRow)| then RowAt(curRow)[curCol := r] else RowAt(curRow)
    }

    /** Allocates the cursor's row if need be and stores r under the cursor. */
    method Place(r: int)
      requires Valid() && 0 <= curRow
      modifies this`rows, rows
      ensures Valid()
      ensures Abs() == old(Grown(Abs(), curRow).(grid := Abs().grid[curRow as nat := Stamped(r)]))
      ensures forall k :: 0 <= k < |rows| ==> rows[k] in old(rows) || fresh(rows[k])
    {
      EnsureRow(curRow);
      ghost var t := Abs();
      if 0 <= curCol < cols {
        SetCell(curRow, curCol, r);
      } else {
        OneRowChanged(t, curRow, RowAt(curRow));
      }
    }

    method WriteRune(r: int)
      requires Valid()
      modifies this, rows
      ensures Valid() && Abs() == PutRune(old(Abs()), r)
      ensures forall k :: 0 <= k < |rows| ==> rows[k] in old(rows) || fresh(rows[k])
    {
      hide RowOf, GridOf, PutRune, Shaped;
      AbsIsShaped();
      ghost var t := Abs();
      PutRuneFromAbove(t, r);
      if curRow < 0 {
        curRow := 0;
      }
      assert GridOf(rows, cols) == t.grid;
      PlaceAndAdvance(r);
    }

    method PlaceAndAdvance(r: int)
      requires Valid() && 0 <= curRow
      modifies this`curRow, this`curCol, this`rows, rows
      ensures Valid() && Shaped(old(Abs())) && Abs() == PutRune(old(Abs()), r)
      ensures forall k :: 0 <= k < |rows| ==> rows[k] in old(rows) || fresh(rows[k])
    {
      hide RowOf, GridOf, PutRune, Shaped;
      AbsIsShaped();
      ghost var t := Abs();
      Place(r);
      PutRuneIs(t, r, Abs());
      ghost var g := Abs().grid;
      Advance();
      assert GridOf(rows, cols) == g;
    }

    method Advance()
      modifies this`curRow, this`curCol
      ensures WithGrid(imap[]) ==
        old(if curCol + 1 >= cols then WithGrid(imap[]).(col := 0, row := curRow + 1) else WithGrid(imap[]).(col := curCol + 1))
    {
      curCol := curCol + 1;
      if curCol >= cols {
        curCol := 0;
        curRow := curRow + 1;
      }
    }

    // ---------- scrolling ----------

    /** Puts fresh blank rows in the places lo..hi-1. */
    method BlankOut(lo: nat, hi: nat)
      requires lo <= hi <= |rows|
      modifies this`rows
      ensures |rows| == |old(rows)|
      ensures forall k :: 0 <= k < |rows| && !(lo <= k < hi) ==> rows[k] == old(rows)[k]
      ensures forall k :: lo <= k < hi ==> fresh(rows[k]) && rows[k].Length == cols && rows[k][..] == Blank(cols)
      ensures forall j, k :: lo <= j < k < hi ==> rows[j] != rows[k]
    {
      var i := lo;
      while i < hi
        invariant lo <= i <= hi && |rows| == |old(rows)|
        invariant forall k :: 0 <= k < |rows| && !(lo <= k < i) ==> rows[k] == old(rows)[k]
        invariant forall k :: lo <= k < i ==> fresh(rows[k]) && rows[k].Length == cols && rows[k][..] == Blank(cols)
        invariant forall j, k :: lo <= j < k < i ==> rows[j] != rows[k]
      {
        var line := NewBlankRow();
        rows := rows[i := line];
        i := i + 1;
      }
    }

    ghost function MovedUp(n: nat, r: nat): Row
      requires 0 <= scrollTop
      reads this, rows
    {
      if scrollTop <= r <= scrollBot then (if r + n <= scrollBot then RowAt(r + n) else Blank(cols)) else RowAt(r)
    }

    ghost predicate VacatedUp(n: nat, k: int)
      reads this
    {
      scrollBot - n < k <= scrollBot
    }

    method MoveReferencesUp(n: nat)
      requires Valid() && 0 <= scrollTop <= scrollBot < |rows| && n <= scrollBot - scrollTop + 1
      modifies this`rows
      ensures |rows| == |old(rows)|
      ensures forall k {:trigger rows[k]} :: 0 <= k < |rows| ==>
        rows[k] == if scrollTop <= k <= scrollBot - n then old(rows)[k + n] else old(rows)[k]
      ensures forall j, k :: 0 <= j < k < |rows| && !VacatedUp(n, j) && !VacatedUp(n, k) ==> rows[j] != rows[k]
    {
      var i := 0;
      while i < scrollBot - scrollTop + 1 - n
        invariant 0 <= i <= scrollBot - scrollTop + 1 - n && |rows| == |old(rows)|
        invariant forall k {:trigger rows[k]} :: 0 <= k < |rows| ==>
          rows[k] == if scrollTop <= k < scrollTop + i then old(rows)[k + n] else old(rows)[k]
      {
        rows := rows[scrollTop + i := rows[scrollTop + i + n]];
        i := i + 1;
      }
    }

    /** The topmost n rows of the region are dropped, the others move up, fresh blank rows follow. */
    method MoveRegionUp(n: nat)
      requires Valid() && 0 <= scrollTop <= scrollBot < |rows| && n <= scrollBot - scrollTop + 1
      modifies this`rows
      ensures Valid()
      ensures forall k :: 0 <= k < |rows| ==> rows[k] in old(rows) || fresh(rows[k])
      ensures |rows| == |old(rows)| && forall r: nat :: RowAt(r) == old(MovedUp(n, r))
    {
      hide GridOf;
      MoveReferencesUp(n);
      BlankOut(scrollBot + 1 - n, scrollBot + 1);
    }

    method ScrollRegionUp(n: nat)
      requires Valid() && n > 0 && 0 <= scrollTop <= scrollBot < |rows| && height != 0
      modifies this`rows
      ensures Valid() && Abs() == ScrollUp(old(Abs()), n)
      ensures forall k :: 0 <= k < |rows| ==> rows[k] in old(rows) || fresh(rows[k])
    {
      hide RowOf, GridOf;
      AbsIsShaped();
      ghost var t := Abs();
      var regionSize := scrollBot - scrollTop + 1;
      MoveRegionUp(if n >= regionSize then regionSize else n);
      assert Abs().grid == ScrollUp(t, n).grid by {
        forall r: nat ensures RowAt(r) == ScrolledUpRow(t, n, r) {}
      }
    }

    method DoScrollUp(n: int)
      requires Valid()
      modifies this`rows
      ensures Valid() && Abs() == ScrollUp(old(Abs()), n)
      ensures forall k :: 0 <= k < |rows| ==> rows[k] in old(rows) || fresh(rows[k])
    {
      hide RowOf, GridOf, ScrollUp;
      AbsIsShaped();
      ghost var t := Abs();
      if n <= 0 || height == 0 {
        ScrollNothing(t, n);
        return;
      }
      ScrollGrows(t, n);
      EnsureRow(scrollBot);
      ScrollRegionUp(n);
    }

    ghost function MovedDown(n: nat, r: nat): Row
      requires 0 <= scrollTop
      reads this, rows
    {
      if scrollTop <= r <= scrollBot then (if r - n >= scrollTop then RowAt(r - n) else Blank(cols)) else RowAt(r)
    }

    ghost predicate VacatedDown(n: nat, k: int)
      reads this
    {
      scrollTop <= k < scrollTop + n
    }

    method MoveReferencesDown(n: nat)
      requires Valid() && 0 <= scrollTop <= scrollBot < |rows| && n <= scrollBot - scrollTop + 1
      modifies this`rows
      ensures |rows| == |old(rows)|
      ensures forall k {:trigger rows[k]} :: 0 <= k < |rows| ==>
        rows[k] == if scrollTop + n <= k <= scrollBot then old(rows)[k - n] else old(rows)[k]
      ensures forall j, k :: 0 <= j < k < |rows| && !VacatedDown(n, j) && !VacatedDown(n, k) ==> rows[j] != rows[k]
    {
      var i := scrollBot - scrollTop;
      while i >= n
        invariant n - 1 <= i <= scrollBot - scrollTop && |rows| == |old(rows)|
        invariant forall k {:trigger rows[k]} :: 0 <= k < |rows| ==>
          rows[k] == if scrollTop + i < k <= scrollBot then old(rows)[k - n] else old(rows)[k]
      {
        rows := rows[scrollTop + i := rows[scrollTop + i - n]];
        i := i - 1;
      }
    }

    /** The bottom n rows of the region are dropped, the others move down, fresh blank rows precede. */
    method MoveRegionDown(n: nat)
      requires Valid() && 0 <= scrollTop <= scrollBot < |rows| && n <= scrollBot - scrollTop + 1
      modifies this`rows
      ensures Valid()
      ensures forall k :: 0 <= k < |rows| ==> rows[k] in old(rows) || fresh(rows[k])
      ensures |rows| == |old(rows)| && forall r: nat :: RowAt(r) == old(MovedDown(n, r))
    {
      hide GridOf;
      MoveReferencesDown(n);
      BlankOut(scrollTop, scrollTop + n);
    }

    method ScrollRegionDown(n: nat)
      requires Valid() && n > 0 && 0 <= scrollTop <= scrollBot < |rows| && height != 0
      modifies this`rows
      ensures Valid() && Abs() == ScrollDown(old(Abs()), n)
      ensures forall k :: 0 <= k < |rows| ==> rows[k] in old(rows) || fresh(rows[k])
    {
      hide RowOf, GridOf;
      AbsIsShaped();
      ghost var t := Abs();
      var regionSize := scrollBot - scrollTop + 1;
      MoveRegionDown(if n >= regionSize then regionSize else n);
      assert Abs().grid == ScrollDown(t, n).grid by {
        forall r: nat ensures RowAt(r) == ScrolledDownRow(t, n, r) {}
      }
    }

    method DoScrollDown(n: int)
      requires Valid()
      modifies this`rows
      ensures Valid() && Abs() == ScrollDown(old(Abs()), n)
      ensures forall k :: 0 <= k < |rows| ==> rows[k] in old(rows) || fresh(rows[k])
    {
      hide RowOf, GridOf, ScrollDown;
      AbsIsShaped();
      ghost var t := Abs();
      if n <= 0 || height == 0 {
        ScrollNothing(t, n);
        return;
      }
      ScrollGrows(t, n);
      EnsureRow(scrollBot);
      ScrollRegionDown(n);
    }

    // ---------- erasing and deleting ----------

    static method BlankCells(line: array<int>, lo: int, hi: int)
      requires 0 <= lo && hi <= line.Length
      modifies line
      ensures line[..] == EraseCells(old(line[..]), lo, hi)
    {
      var j := lo;
      while j < hi
        invariant j == lo || lo <= j <= hi
        invariant forall k :: 0 <= k < line.Length ==> line[k] == if lo <= k < j then SPACE else old(line[k])
      {
        line[j] := SPACE;
        j := j + 1;
      }
    }

    /** The rows lo..hi-1 blanked, the others left alone. */
    method ClearRows(lo: nat, hi: int)
      requires Valid() && hi <= |rows|
      modifies rows
      ensures Valid()
      ensures forall r: nat :: RowAt(r) == if lo <= r < hi then Blank(cols) else old(RowAt(r))
    {
      hide GridOf;
      var row: nat := lo;
      while row < hi
        invariant row == lo || lo <= row <= hi
        invariant forall k :: 0 <= k < |rows| ==> rows[k][..] == if lo <= k < row then Blank(cols) else old(rows[k][..])
      {
        BlankCells(rows[row], 0, cols);
        row := row + 1;
      }
    }

    /** Blanks the cursor's row from the cursor on; a cursor behind the end of the row is harmless. */
    method BlankRest()
      requires Valid() && curRow < |rows| && RestInBounds(WithGrid(imap[]))
      modifies rows
      ensures Valid()
      ensures forall r: nat :: RowAt(r) == if r == curRow then EraseCells(old(RowAt(r)), curCol, cols) else old(RowAt(r))
    {
      hide GridOf;
      if curCol < cols {
        BlankCells(rows[curRow], curCol, cols);
      }
    }

    /** Blanks the cursor's row up to and with the cursor. */
    method BlankStart()
      requires Valid() && curRow < |rows| && StartInBounds(WithGrid(imap[]))
      modifies rows
      ensures Valid()
      ensures forall r: nat :: RowAt(r) == if r == curRow then EraseCells(old(RowAt(r)), 0, curCol + 1) else old(RowAt(r))
    {
      hide GridOf;
      if 0 <= curCol {
        BlankCells(rows[curRow], 0, if curCol + 1 < cols then curCol + 1 else cols);
      }
    }

    ghost function LineErased(mode: int, r: nat): Row
      reads this, rows
    {
      if r == curRow then ErasedLine(RowAt(r), mode, curCol) else RowAt(r)
    }

    method EraseCursorRow(mode: int)
      requires Valid() && (curRow < |rows| ==> LineInBounds(WithGrid(imap[]), mode))
      modifies rows
      ensures Valid()
      ensures forall r: nat :: RowAt(r) == old(LineErased(mode, r))
    {
      hide GridOf;
      if curRow < |rows| {
        match mode {
          case 0 => BlankRest();
          case 1 => BlankStart();
          case 2 => BlankCells(rows[curRow], 0, cols);
          case _ =>
        }
      }
    }

    /** Part of the cursor's line, if it exists. */
    method EraseInLine(mode: int)
      requires Valid() && (curRow < |rows| ==> LineInBounds(Abs(), mode))
      modifies rows
      ensures Valid() && Abs() == EraseLine(old(Abs()), mode)
    {
      hide GridOf, RowOf;
      AbsIsShaped();
      ghost var t := Abs();
      EraseCursorRow(mode);
      assert Abs().grid == EraseLine(t, mode).grid by {
        forall r: nat ensures RowAt(r) == EraseLine(t, mode).grid[r] {}
      }
    }

    method EraseBelow()
      requires Valid() && (curRow < |rows| ==> DisplayInBounds(WithGrid(imap[]), 0))
      modifies rows
      ensures Valid()
      ensures forall r: nat :: RowAt(r) == old(Erased(0, r))
    {
      hide GridOf;
      if curRow < |rows| {
        BlankRest();
        ClearRows(curRow + 1, |rows|);
      }
    }

    method EraseAbove()
      requires Valid() && (curRow < |rows| ==> DisplayInBounds(WithGrid(imap[]), 1))
      modifies rows
      ensures Valid()
      ensures forall r: nat :: RowAt(r) == old(Erased(1, r))
    {
      hide GridOf;
      ghost var t := Abs();
      ClearRows(0, if curRow < |rows| then curRow else |rows|);
      if curRow < |rows| {
        BlankStart();
      }
      forall r: nat ensures RowAt(r) == ErasedRow(t, 1, r) {
        assert t.grid[r] == old(RowAt(r));
        if r == curRow {
          assert ErasedLine(Blank(cols), 1, curCol) == Blank(cols);
        } else if r < curRow && r < |rows| {
          assert RowAt(r) == Blank(cols);
        }
      }
    }

    method EraseRows(mode: int)
      requires Valid() && (curRow < |rows| ==> DisplayInBounds(WithGrid(imap[]), mode))
      modifies rows
      ensures Valid()
      ensures forall r: nat :: RowAt(r) == old(Erased(mode, r))
    {
      hide GridOf;
      if mode == 0 {
        EraseBelow();
      } else if mode == 1 {
        EraseAbove();
      } else if mode == 2 || mode == 3 {
        ClearRows(0, |rows|);
      }
    }

    ghost function Erased(mode: int, r: nat): Row
      requires Valid()
      reads this, rows
    {
      AbsIsShaped();
      ErasedRow(Abs(), mode, r)
    }

    method EraseInDisplay(mode: int)
      requires Valid() && (curRow < |rows| ==> DisplayInBounds(Abs(), mode))
      modifies rows
      ensures Valid() && Abs() == EraseDisplay(old(Abs()), mode)
    {
      hide GridOf, RowOf;
      AbsIsShaped();
      ghost var t := Abs();
      EraseRows(mode);
      assert Abs().grid == EraseDisplay(t, mode).grid by {
        forall r: nat ensures RowAt(r) == ErasedRow(t, mode, r) {}
      }
    }

    /** The cells from `from` on copied to `to` and on, as far as both go; overlapping is no problem. */
    static method CopyCells(line: array<int>, to: nat, from: nat)
      requires to <= line.Length && from <= line.Length
      modifies line
      ensures forall k :: 0 <= k < line.Length ==>
        line[k] == if to <= k < to + line.Length - from then old(line[k + from - to]) else old(line[k])
    {
      var source := line[from..];
      var i := 0;
      while i < |source| && to + i < line.Length
        invariant 0 <= i <= |source| && to + i <= line.Length
        invariant forall k :: 0 <= k < line.Length ==> line[k] == if to <= k < to + i then source[k - to] else old(line[k])
      {
        line[to + i] := source[i];
        i := i + 1;
      }
    }

    /** The last n cells blanked, as many as there are. */
    static method BlankLast(line: array<int>, n: int)
      modifies line
      ensures forall k :: 0 <= k < line.Length ==> line[k] == if k >= line.Length - n then SPACE else old(line[k])
    {
      var j := line.Length - n;
      while j < line.Length
        invariant j == line.Length - n || line.Length - n <= j <= line.Length
        invariant forall k :: 0 <= k < line.Length ==> line[k] == if line.Length - n <= k < j then SPACE else old(line[k])
      {
        if j >= 0 {
          line[j] := SPACE;
        }
        j := j + 1;
      }
    }

    /** Deletes n cells, or for a negative n opens a gap. */
    method DeleteInLine(n: int)
      requires Valid() && (curRow < |rows| ==> DeleteInBounds(Abs(), n))
      modifies rows
      ensures Valid() && Abs() == Delete(old(Abs()), n)
    {
      AbsIsShaped();
      ghost var t := Abs();
      if curRow < |rows| {
        ghost var s := rows[curRow][..];
        CopyCells(rows[curRow], curCol, Min(curCol + n, cols));
        BlankLast(rows[curRow], n);
        assert rows[curRow][..] == DeleteCells(s, curCol, n);
        OneRowChanged(t, curRow, DeleteCells(s, curCol, n));
      } else if 0 <= curCol <= cols && 0 <= curCol + n {
        assert DeleteCells(Blank(cols), curCol, n) == Blank(cols);
        OneRowChanged(t, curRow, Blank(cols));
      }
    }

    // ---------- control sequences ----------

    method MoveTheCursor(params: seq<Byte>, final: Byte)
      requires Valid()
      modifies this`curRow, this`curCol, this`savedRow, this`savedCol, this`scrollTop, this`scrollBot
      ensures Valid() && Abs() == MoveCursor(old(Abs()), params, final)
    {
      hide RowOf, GridOf, ParseTwo, ParseOne, MoveCursor;
      ghost var t := Abs();
      MoveCursorIgnoresGrid(t, imap[], params, final);
      MoveCursorStays(WithGrid(imap[]), params, final);
      MoveCursorFields(params, final);
      assert GridOf(rows, cols) == t.grid;
    }

    method MoveCursorFields(params: seq<Byte>, final: Byte)
      modifies this`curRow, this`curCol, this`savedRow, this`savedCol, this`scrollTop, this`scrollBot
      ensures WithGrid(imap[]) == MoveCursor(old(WithGrid(imap[])), params, final)
    {
      hide ParseTwo, ParseOne;
      var n := ParseOne(params, 1);
      match final as char
      case 'H' | 'f' =>
        var p := ParseTwo(params, 1, 1);
        curRow := Clamp(p.0 - 1, 0, 65535);
        curCol := Clamp(p.1 - 1, 0, cols - 1);
      case 'A' => curRow := Max(0, curRow - n);
      case 'B' => curRow := curRow + n;
      case 'C' => curCol := Min(cols - 1, curCol + n);
      case 'D' => curCol := Max(0, curCol - n);
      case 'E' =>
        curCol := 0;
        curRow := curRow + n;
      case 'F' =>
        curCol := 0;
        curRow := Max(0, curRow - n);
      case 'G' => curCol := Clamp(n - 1, 0, cols - 1);
      case 'd' => curRow := Clamp(n - 1, 0, 65535);
      case 's' => savedRow, savedCol := curRow, curCol;
      case 'u' => curRow, curCol := savedRow, savedCol;
      case 'r' =>
        if height > 0 {
          var p := ParseTwo(params, 1, height);
          scrollTop := Clamp(p.0 - 1, 0, height - 1);
          scrollBot := Clamp(p.1 - 1, 0, height - 1);
          if scrollTop >= scrollBot {
            scrollTop := 0;
            scrollBot := height - 1;
          }
          curRow := 0;
          curCol := 0;
        }
      case _ =>
    }

    method HandleCSI(params: seq<Byte>, final: Byte)
      requires Valid() && InBounds(Abs(), params, final)
      modifies this, rows
      ensures Valid()
      ensures Shaped(old(Abs())) && Abs() == Control(old(Abs()), params, final)
      ensures forall k :: 0 <= k < |rows| ==> rows[k] in old(rows) || fresh(rows[k])
    {
      hide MoveCursor, EraseDisplay, EraseLine, Delete, ScrollUp, ScrollDown, RowOf, GridOf;
      AbsIsShaped();
      match final as char
      case 'J' => EraseInDisplay(ParseOne(params, 0));
      case 'K' => EraseInLine(ParseOne(params, 0));
      case 'P' => DeleteInLine(ParseOne(params, 1));
      case 'S' => DoScrollUp(ParseOne(params, 1));
      case 'T' => DoScrollDown(ParseOne(params, 1));
      case _ => MoveTheCursor(params, final);
    }

    method NewLine()
      requires Valid()
      modifies this`curRow, this`rows
      ensures Valid() && Shaped(old(Abs())) && Abs() == LineFeedAt(old(Abs()))
      ensures forall k :: 0 <= k < |rows| ==> rows[k] in old(rows) || fresh(rows[k])
    {
      hide ScrollUp, RowOf, GridOf;
      AbsIsShaped();
      if height > 0 && curRow == scrollBot {
        DoScrollUp(1);
      } else {
        curRow := curRow + 1;
      }
    }

    // ---------- the byte stream ----------

    static method SkipControl(data: seq<Byte>, start: nat) returns (i: nat)
      requires start <= |data|
      ensures i == CsiEnd(data, start)
    {
      i := start;
      while i < |data| && data[i] < 0x40
        invariant start <= i <= |data| && CsiEnd(data, i) == CsiEnd(data, start)
      {
        i := i + 1;
      }
    }

    static method SkipString(data: seq<Byte>, start: nat) returns (i: nat)
      requires start <= |data|
      ensures i == OscEnd(data, start)
    {
      i := start;
      while i < |data|
        invariant start <= i <= |data| && OscEnd(data, i) == OscEnd(data, start)
      {
        if data[i] == BEL {
          i := i + 1;
          return;
        }
        if data[i] == ESC && i + 1 < |data| && data[i + 1] == BACKSLASH {
          i := i + 2;
          return;
        }
        i := i + 1;
      }
    }

    /** One turn of the scanner's loop. */
    method Step(data: seq<Byte>, start: nat) returns (i: nat)
      requires Valid() && start < |data| && TokenSafe(Abs(), Scan(data, start).0)
      modifies this, rows
      ensures Valid() && i == Scan(data, start).1
      ensures Shaped(old(Abs())) && Abs() == Apply(old(Abs()), Scan(data, start).0)
      ensures forall k :: 0 <= k < |rows| ==> rows[k] in old(rows) || fresh(rows[k])
    {
      hide PutRune, Control, LineFeedAt, RowOf, GridOf, Decode;
      AbsIsShaped();
      var b := data[start];
      i := start;
      if b == ESC {
        if i + 1 >= |data| {
          i := i + 1;
        } else if data[i + 1] == '[' as int {
          i := SkipControl(data, i + 2);
          if i < |data| {
            var params, final := data[start + 2..i], data[i];
            i := i + 1;
            HandleCSI(params, final);
          }
        } else if data[i + 1] == ']' as int {
          i := SkipString(data, i + 2);
        } else if data[i + 1] == '(' as int || data[i + 1] == ')' as int {
          i := i + 3;
        } else {
          i := i + 2;
        }
      } else if b == CR {
        curCol := 0;
        i := i + 1;
      } else if b == LF {
        NewLine();
        i := i + 1;
      } else if b == BS {
        if curCol > 0 {
          curCol := curCol - 1;
        }
        i := i + 1;
      } else if b < 0x20 {
        i := i + 1;
      } else {
        var x := Decode(data, i);
        if x.Invalid() {
          i := i + 1;
        } else {
          WriteRune(x.rune);
          i := i + x.size;
        }
      }
    }

    /** No index is out of range on the way through the data; data without minus signs in its control
        sequences always qualifies (UnsignedStreamIsSafe). */
    ghost predicate CanWrite(data: seq<Byte>)
      reads this, rows
    {
      Valid() && (AbsIsShaped(); Safe(Abs(), data, 0))
    }

    /** Whatever bytes are written, the buffer goes on standing for the terminal that was fed the same bytes. */
    method Write(data: seq<Byte>)
      requires CanWrite(data)
      modifies this, rows
      ensures Valid()
      ensures old(CanWrite(data)) && Abs() == Feed(old(Abs()), data, 0)
      ensures forall k :: 0 <= k < |rows| ==> rows[k] in old(rows) || fresh(rows[k])
    {
      hide Scan, Apply, RowOf, GridOf;
      AbsIsShaped();
      ghost var t := Abs();
      var i: nat := 0;
      while i < |data|
        invariant Valid() && Shaped(Abs()) && Safe(Abs(), data, i)
        invariant Feed(Abs(), data, i) == Feed(t, data, 0)
        invariant forall k :: 0 <= k < |rows| ==> rows[k] in old(rows) || fresh(rows[k])
        decreases |data| - i
      {
        i := Step(data, i);
        AbsIsShaped();
      }
    }

    // ---------- reading ----------

    /** Every row without its trailing spaces. */
    method RowTexts() returns (lines: seq<Row>)
      requires Valid()
      ensures |lines| == |rows|
      ensures forall r: nat :: TrimSpaces(RowAt(r)) == if r < |lines| then lines[r] else []
    {
      hide GridOf;
      lines := [];
      for k := 0 to |rows|
        invariant |lines| == k
        invariant forall r :: 0 <= r < k ==> lines[r] == TrimSpaces(rows[r][..])
      {
        lines := lines + [TrimSpaces(rows[k][..])];
      }
      assert TrimSpaces(Blank(cols)) == [];
    }

    static method DropEmptyTail(all: seq<Row>) returns (lines: seq<Row>)
      ensures lines <= all && forall r :: |lines| <= r < |all| ==> all[r] == []
      ensures lines != [] ==> lines[|lines| - 1] != []
    {
      lines := all;
      while |lines| > 0 && lines[|lines| - 1] == []
        invariant lines <= all && forall r :: |lines| <= r < |all| ==> all[r] == []
      {
        lines := lines[..|lines| - 1];
      }
    }

    /** The visible text depends on the padded grid only, not on how many rows exist. */
    method Lines() returns (lines: seq<Row>)
      requires Valid()
      ensures Shows(lines, Abs().grid)
    {
      hide GridOf, RowOf, TrimSpaces;
      var all := RowTexts();
      lines := DropEmptyTail(all);
      ghost var g := Abs().grid;
      forall r: nat ensures TrimSpaces(g[r]) == if r < |all| then all[r] else [] {
        assert TrimSpaces(RowAt(r)) == if r < |all| then all[r] else [];
      }
    }

    method Content() returns (text: Row)
      requires Valid()
      ensures forall lines :: Shows(lines, Abs().grid) ==> text == Join<int>(lines, [LF])
    {
      var lines := Lines();
      text := Join<int>(lines, [LF]);
      forall ls | Shows(ls, Abs().grid) ensures ls == lines { ShowsOneText(ls, lines, Abs().grid); }
    }
  }
}
