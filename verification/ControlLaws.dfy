/** What the bytes of each control do to the cursor and to every cell. No law in this module names the
    function that carries its control out. */
module ControlLaws {
  import opened Utf8
  import opened Wrappers
  import opened ControlSequences
  import opened Terminal
  import opened TerminalLaws

  /** A new screen is blank, 80 columns wide unless it is told otherwise, with the cursor in the corner and the
      whole page for its region. */
  lemma NewScreenIsBlank(cols: int, height: int, r: nat, k: nat)
    ensures var t := Initial(cols, height);
      t.cols == (if cols <= 0 then 80 else cols) && t.height == height && t.row == t.col == t.top == 0 &&
      (height > 0 ==> t.bot == height - 1) && (k < t.cols ==> t.grid[r][k] == ' ' as int)
  {
  }

  // ---------- sequences and their numbers ----------

  /** ESC [, parameters and a final byte. */
  function Sequence(params: seq<Byte>, final: Byte): seq<Byte> { [0x1b, '[' as int] + params + [final] }

  predicate ParameterBytes(params: seq<Byte>) { forall k :: 0 <= k < |params| ==> params[k] < 0x40 }

  /** What is no number: nothing, a sign alone, text with anything but digits behind its sign, and a number that 64
      bits do not hold. */
  ghost predicate NotANumber(d: seq<Byte>) {
    d == [] || d == ['+' as int] || d == ['-' as int] ||
    (exists k :: 0 <= k < |d| && !('0' as int <= d[k] <= '9' as int) && !(k == 0 && (d[0] == '+' as int || d[0] == '-' as int))) ||
    exists m :: m > MAX_INT && d == Show(m)
  }

  /** A decimal number, or none. */
  ghost predicate Numeral(d: seq<Byte>, p: Option<nat>) {
    if p.Some? then p.value <= MAX_INT && d == Show(p.value) else NotANumber(d)
  }

  lemma NotANumberIsRefused(d: seq<Byte>)
    requires NotANumber(d)
    ensures Atoi(d) == None
  {
    hide Show, Decimal;
    if exists m :: m > MAX_INT && d == Show(m) {
      var m :| m > MAX_INT && d == Show(m);
      DecimalShow(m);
      ShownHasNoSign(m);
      assert d[0] in d;
    } else if exists k :: 0 <= k < |d| && !('0' as int <= d[k] <= '9' as int) && !(k == 0 && (d[0] == '+' as int || d[0] == '-' as int)) {
      var k :| 0 <= k < |d| && !('0' as int <= d[k] <= '9' as int) && !(k == 0 && (d[0] == '+' as int || d[0] == '-' as int));
      assert !Digit(d[k]);
      if k > 0 { assert d[1..][k - 1] == d[k]; }
    }
  }

  lemma NumeralIsRead(d: seq<Byte>, p: Option<nat>)
    requires Numeral(d, p)
    ensures Atoi(d) == if p.Some? then Some(p.value as int) else None
  {
    hide NotANumber, Show, Atoi;
    if p.Some? { AtoiShow(p.value); } else { NotANumberIsRefused(d); }
  }

  /** Question marks, a number or none, and possibly more behind a semicolon. */
  ghost predicate Spells(params: seq<Byte>, p: Option<nat>) {
    ParameterBytes(params) && exists q, digits, rest :: SpelledBy(params, p, q, digits, rest)
  }

  ghost predicate SpelledBy(params: seq<Byte>, p: Option<nat>, q: seq<Byte>, digits: seq<Byte>, rest: seq<Byte>) {
    params == q + (digits + rest) && (forall k :: 0 <= k < |q| ==> q[k] == '?' as int) &&
    (rest == [] || rest[0] == ';' as int) && ';' as int !in digits && (digits != [] ==> digits[0] != '?' as int) &&
    Numeral(digits, p)
  }

  /** A missing number counts as one, and so does zero. */
  function CountOf(p: Option<nat>): nat { if p == None || p == Some(0) then 1 else p.value }

  /** Where a missing number means zero. */
  function ModeOf(p: Option<nat>): nat { if p == None then 0 else p.value }

  lemma {:induction false} QuestionsAreTrimmed(q: seq<Byte>, s: seq<Byte>)
    requires (forall k :: 0 <= k < |q| ==> q[k] == '?' as int) && (s != [] ==> s[0] != '?' as int)
    ensures TrimQuestions(q + s) == s
  {
    if q == [] {
      assert q + s == s;
    } else {
      assert (q + s)[0] == q[0] && (q + s)[1..] == q[1..] + s;
      QuestionsAreTrimmed(q[1..], s);
    }
  }

  lemma CutAtSemicolon(digits: seq<Byte>, rest: seq<Byte>)
    requires SEMICOLON !in digits && (rest == [] || rest[0] == SEMICOLON)
    ensures var s := digits + rest; FirstSemicolon(s) == |digits| && s[..|digits|] == digits
  {
    var s := digits + rest;
    var j := FirstSemicolon(s);
    assert forall k :: 0 <= k < |digits| ==> s[k] == digits[k];
    assert rest != [] ==> s[|digits|] == rest[0];
  }

  lemma SpelledNumber(params: seq<Byte>, p: Option<nat>, def: int)
    requires Spells(params, p)
    ensures ParameterBytes(params)
    ensures ParseOne(params, def) == if p == None || p == Some(0) then def else p.value
  {
    hide Atoi, TrimQuestions, Numeral;
    var q, digits, rest :| SpelledBy(params, p, q, digits, rest);
    NumeralIsRead(digits, p);
    assert digits + rest != [] && digits == [] ==> (digits + rest)[0] == rest[0];
    QuestionsAreTrimmed(q, digits + rest);
    CutAtSemicolon(digits, rest);
  }

  lemma ScanSequence(params: seq<Byte>, final: Byte, rest: seq<Byte>)
    requires ParameterBytes(params) && final >= 0x40
    ensures Scan(Sequence(params, final) + rest, 0) == (Csi(params, final), |Sequence(params, final)|)
  {
    var d, n := Sequence(params, final) + rest, |params|;
    assert d[2..2 + n] == params;
    forall k | 2 <= k < 2 + n ensures d[k] < 0x40 { assert d[k] == params[k - 2]; }
    assert d[2 + n] == final;
    assert CsiEnd(d, 2) == 2 + n;
  }

  /** One token, and then the rest. */
  lemma FeedToken(t: Terminal, a: seq<Byte>, b: seq<Byte>, token: Token)
    requires Shaped(t) && a != [] && Scan(a + b, 0) == (token, |a|)
    ensures Feed(t, a + b, 0) == Feed(Apply(t, token), b, 0)
    ensures Safe(t, a + b, 0) <==> TokenSafe(t, token) && Safe(Apply(t, token), b, 0)
  {
    hide Scan, Apply, TokenSafe, Shaped;
    FeedShift(Apply(t, token), a, b, 0);
  }

  lemma FeedSequence(t: Terminal, params: seq<Byte>, final: Byte)
    requires Shaped(t) && ParameterBytes(params) && final >= 0x40
    ensures Feed(t, Sequence(params, final), 0) == Control(t, params, final)
    ensures Safe(t, Sequence(params, final), 0) <==> InBounds(t, params, final)
  {
    hide Scan, Control, InBounds, Shaped;
    ScanSequence(params, final, []);
    assert Sequence(params, final) + [] == Sequence(params, final);
    FeedOneControl(t, Sequence(params, final), params, final);
  }

  /** Everything but the text is as it was. */
  predicate OnlyTextDiffers(t: Terminal, u: Terminal) { u.(grid := t.grid, rowCount := t.rowCount) == t }

  // ---------- scrolling ----------

  /** ESC [ n S: the lines of the region move up by n, blank lines come in at its end, and everything else
      stays. Without a height it does nothing. */
  lemma ScrollsUp(t: Terminal, params: seq<Byte>, p: Option<nat>, r: nat, k: nat)
    requires Shaped(t) && Spells(params, p) && k < t.cols
    ensures var d := Sequence(params, 'S' as int); Safe(t, d, 0) && OnlyTextDiffers(t, Feed(t, d, 0))
    ensures var u, n := Feed(t, Sequence(params, 'S' as int), 0), CountOf(p);
      u.grid[r][k] ==
        if t.height == 0 || r < t.top || r > t.bot then t.grid[r][k]
        else if r + n <= t.bot then t.grid[r + n][k]
        else ' ' as int
  {
    hide Spells, ParseOne, Safe, Feed;
    SpelledNumber(params, p, 1);
    FeedSequence(t, params, 'S' as int);
  }

  /** ESC [ n T: the lines of the region move down by n, and blank lines come in at its start. */
  lemma ScrollsDown(t: Terminal, params: seq<Byte>, p: Option<nat>, r: nat, k: nat)
    requires Shaped(t) && Spells(params, p) && k < t.cols
    ensures var d := Sequence(params, 'T' as int); Safe(t, d, 0) && OnlyTextDiffers(t, Feed(t, d, 0))
    ensures var u, n := Feed(t, Sequence(params, 'T' as int), 0), CountOf(p);
      u.grid[r][k] ==
        if t.height == 0 || r < t.top || r > t.bot then t.grid[r][k]
        else if r - n >= t.top then t.grid[r - n][k]
        else ' ' as int
  {
    hide Spells, ParseOne, Safe, Feed;
    SpelledNumber(params, p, 1);
    FeedSequence(t, params, 'T' as int);
  }

  // ---------- erasing and deleting ----------

  /** ESC [ n J and ESC [ n K: 0 or no number blanks the cells from the cursor on, 1 those up to the cursor, 2
      all, in reading order; J does so on the page and knows 3 as well, K within the cursor's line. */
  lemma ErasesCells(t: Terminal, params: seq<Byte>, p: Option<nat>, r: nat, k: nat)
    requires Valid(t) && Spells(params, p) && k < t.cols
    ensures forall final: Byte :: final == 'J' as int || final == 'K' as int ==>
      Safe(t, Sequence(params, final), 0) && OnlyTextDiffers(t, Feed(t, Sequence(params, final), 0))
    ensures var n, here, cursor := ModeOf(p), r * t.cols + k, t.row * t.cols + t.col;
      var hit := (n == 0 && here >= cursor) || (n == 1 && here <= cursor) || n == 2;
      Feed(t, Sequence(params, 'J' as int), 0).grid[r][k] == (if hit || n == 3 then ' ' as int else t.grid[r][k]) &&
      Feed(t, Sequence(params, 'K' as int), 0).grid[r][k] == (if hit && r == t.row then ' ' as int else t.grid[r][k])
  {
    hide Spells, ParseOne, Safe, Feed, ErasedRow, ErasedLine;
    SpelledNumber(params, p, 0);
    FeedSequence(t, params, 'J' as int);
    FeedSequence(t, params, 'K' as int);
    OnlyDeleteGoesWrong(t, params, 'J' as int);
    OnlyDeleteGoesWrong(t, params, 'K' as int);
    ErasesInReadingOrder(t, ModeOf(p), r, k);
  }

  /** ESC [ n P: the cells behind the cursor move left by n, and the last n cells of the whole line become blank,
      in front of the cursor as well. */
  lemma DeletesCells(t: Terminal, params: seq<Byte>, p: Option<nat>, r: nat, k: nat)
    requires Valid(t) && Spells(params, p) && k < t.cols
    ensures var d := Sequence(params, 'P' as int); Safe(t, d, 0) && OnlyTextDiffers(t, Feed(t, d, 0))
    ensures var u, n := Feed(t, Sequence(params, 'P' as int), 0), CountOf(p);
      u.grid[r][k] ==
        if r != t.row then t.grid[r][k]
        else if k + n >= t.cols then ' ' as int
        else if k < t.col then t.grid[r][k]
        else t.grid[r][k + n]
  {
    hide Spells, ParseOne, Safe, Feed;
    SpelledNumber(params, p, 1);
    FeedSequence(t, params, 'P' as int);
    OnlyDeleteGoesWrong(t, params, 'P' as int);
  }

  // ---------- the cursor ----------

  /** The number of lines or columns to go, cut off at the edge. */
  function Less(a: int, b: int): int { if a <= b then a else b }

  lemma MovesByLines(t: Terminal, params: seq<Byte>, n: nat)
    requires Valid(t) && n > 0 && ParseOne(params, 1) == n
    ensures Control(t, params, 'A' as int) == t.(row := t.row - Less(n, t.row))
    ensures Control(t, params, 'B' as int) == t.(row := t.row + n)
    ensures Control(t, params, 'E' as int) == t.(row := t.row + n, col := 0)
    ensures Control(t, params, 'F' as int) == t.(row := t.row - Less(n, t.row), col := 0)
    ensures Control(t, params, 'd' as int) == t.(row := Less(n, 65536) - 1)
  {
    hide ParseOne, ParseTwo;
  }

  lemma MovesByColumns(t: Terminal, params: seq<Byte>, n: nat)
    requires Valid(t) && n > 0 && ParseOne(params, 1) == n
    ensures Control(t, params, 'C' as int) == t.(col := t.col + Less(n, t.cols - 1 - t.col))
    ensures Control(t, params, 'D' as int) == t.(col := t.col - Less(n, t.col))
    ensures Control(t, params, 'G' as int) == t.(col := Less(n, t.cols) - 1)
  {
    hide ParseOne, ParseTwo;
  }

  /** ESC [ n A to G and d: where the cursor is afterwards; nothing else changes. */
  lemma MovesCursor(t: Terminal, params: seq<Byte>, p: Option<nat>, final: Byte)
    requires Valid(t) && Spells(params, p) && (('A' as int <= final <= 'G' as int) || final == 'd' as int)
    ensures var d, n := Sequence(params, final), CountOf(p);
      var up, right, left := t.row - Less(n, t.row), t.col + Less(n, t.cols - 1 - t.col), t.col - Less(n, t.col);
      Safe(t, d, 0) &&
      Feed(t, d, 0) == match final as char
        case 'A' => t.(row := up)
        case 'B' => t.(row := t.row + n)
        case 'C' => t.(col := right)
        case 'D' => t.(col := left)
        case 'E' => t.(row := t.row + n, col := 0)
        case 'F' => t.(row := up, col := 0)
        case 'G' => t.(col := Less(n, t.cols) - 1)
        case _ => t.(row := Less(n, 65536) - 1)
  {
    hide Spells, ParseOne, Safe, Feed, Control, Less, Sequence, InBounds, Rectangular;
    SpelledNumber(params, p, 1);
    FeedSequence(t, params, final);
    MovesByLines(t, params, CountOf(p));
    MovesByColumns(t, params, CountOf(p));
    OnlyDeleteGoesWrong(t, params, final);
  }

  /** Two numbers with a semicolon between them, or one alone; each of them may be missing. */
  ghost predicate SpellsTwo(params: seq<Byte>, p: Option<nat>, q: Option<nat>) {
    ParameterBytes(params) &&
    ((exists a, b :: Numeral(a, p) && Numeral(b, q) && TwoOf(params, a, b)) ||
     (Numeral(params, p) && ';' as int !in params && q == None))
  }

  predicate TwoOf(params: seq<Byte>, a: seq<Byte>, b: seq<Byte>) {
    ';' as int !in a && params == a + [';' as int] + b
  }

  lemma SpelledPart(d: seq<Byte>, p: Option<nat>, def: int)
    requires Numeral(d, p)
    ensures PositiveOr(d, def) == if p == None || p == Some(0) then def else p.value
  {
    hide Atoi, Numeral;
    NumeralIsRead(d, p);
  }

  lemma SpelledTwo(params: seq<Byte>, p: Option<nat>, q: Option<nat>, defA: int, defB: int)
    requires SpellsTwo(params, p, q)
    ensures ParseTwo(params, defA, defB).0 == if p == None || p == Some(0) then defA else p.value
    ensures ParseTwo(params, defA, defB).1 == if q == None || q == Some(0) then defB else q.value
  {
    hide Numeral, PositiveOr;
    if exists a, b :: Numeral(a, p) && Numeral(b, q) && TwoOf(params, a, b) {
      var a, b :| Numeral(a, p) && Numeral(b, q) && TwoOf(params, a, b);
      SpelledPart(a, p, defA);
      SpelledPart(b, q, defB);
      TwoParts(a, b);
    } else {
      SpelledPart(params, p, defA);
      CutAtSemicolon(params, []);
      assert params + [] == params;
    }
  }

  lemma TwoParts(a: seq<Byte>, b: seq<Byte>)
    requires SEMICOLON !in a
    ensures var s, j := a + [SEMICOLON] + b, |a|; FirstSemicolon(s) == j && s[..j] == a && s[j + 1..] == b && j < |s|
  {
    var s := a + [SEMICOLON] + b;
    assert s == a + ([SEMICOLON] + b);
    CutAtSemicolon(a, [SEMICOLON] + b);
  }

  lemma AddressControl(t: Terminal, params: seq<Byte>, m: nat, n: nat)
    requires Shaped(t) && m > 0 && n > 0 && ParseTwo(params, 1, 1) == (m, n)
    ensures forall final: Byte :: final == 'H' as int || final == 'f' as int ==>
      Control(t, params, final) == t.(row := Less(m, 65536) - 1, col := Less(n, t.cols) - 1) && InBounds(t, params, final)
  {
    hide ParseOne, ParseTwo;
  }

  /** ESC [ m ; n H, or f, puts the cursor in line m and column n, counted from one; a missing number is one, and
      what is beyond the last column or line 65536 goes there. */
  lemma AddressesCell(t: Terminal, params: seq<Byte>, p: Option<nat>, q: Option<nat>, final: Byte)
    requires Shaped(t) && SpellsTwo(params, p, q) && (final == 'H' as int || final == 'f' as int)
    ensures Safe(t, Sequence(params, final), 0)
    ensures Feed(t, Sequence(params, final), 0) == t.(row := Less(CountOf(p), 65536) - 1, col := Less(CountOf(q), t.cols) - 1)
  {
    hide ParseTwo, Safe, Numeral, Feed, Control, Sequence, InBounds, Shaped;
    SpelledTwo(params, p, q, 1, 1);
    FeedSequence(t, params, final);
    AddressControl(t, params, CountOf(p), CountOf(q));
  }

  lemma MarginsControl(t: Terminal, params: seq<Byte>, m: nat, n: nat)
    requires Shaped(t) && t.height > 0 && m > 0 && n > 0 && ParseTwo(params, 1, t.height) == (m, n)
    ensures InBounds(t, params, 'r' as int)
    ensures var top, bot := Less(m, t.height), Less(n, t.height);
      Control(t, params, 'r' as int) ==
        if top < bot then t.(top := top - 1, bot := bot - 1, row := 0, col := 0)
        else t.(top := 0, bot := t.height - 1, row := 0, col := 0)
  {
    hide ParseOne, ParseTwo;
  }

  /** ESC [ m ; n r bounds the region by lines m and n, or by the first and the last line where a number is
      missing or beyond the last line; if that leaves no two lines, the region is the whole page. The cursor goes
      home. Without a height it does nothing. */
  lemma SetsRegion(t: Terminal, params: seq<Byte>, p: Option<nat>, q: Option<nat>)
    requires Shaped(t) && SpellsTwo(params, p, q) && t.height > 0
    ensures Safe(t, Sequence(params, 'r' as int), 0)
    ensures var top, bot := Less(CountOf(p), t.height), if q == None || q == Some(0) then t.height else Less(q.value, t.height);
      Feed(t, Sequence(params, 'r' as int), 0) ==
        if top < bot then t.(top := top - 1, bot := bot - 1, row := 0, col := 0)
        else t.(top := 0, bot := t.height - 1, row := 0, col := 0)
  {
    hide ParseTwo, Safe, Numeral, Feed, Control, Sequence, InBounds, Shaped;
    SpelledTwo(params, p, q, 1, t.height);
    FeedSequence(t, params, 'r' as int);
    MarginsControl(t, params, CountOf(p), if q == None || q == Some(0) then t.height else q.value);
  }

  lemma SaveControl(t: Terminal, params: seq<Byte>)
    requires Shaped(t)
    ensures Control(t, params, 's' as int) == t.(savedRow := t.row, savedCol := t.col) && InBounds(t, params, 's' as int)
    ensures Control(t, params, 'u' as int) == t.(row := t.savedRow, col := t.savedCol) && InBounds(t, params, 'u' as int)
  {
    hide ParseOne, ParseTwo;
  }

  /** ESC [ u brings the cursor back to where the last ESC [ s found it, whatever is written in between. */
  lemma RestoresCursor(t: Terminal, p: seq<Byte>, d: seq<Byte>, q: seq<Byte>)
    requires Shaped(t) && ParameterBytes(p) && ParameterBytes(q) && SavesNothing(d, 0)
    ensures var saved := Feed(t, Sequence(p, 's' as int), 0);
      var written := Feed(saved, d, 0);
      var restored := Feed(written, Sequence(q, 'u' as int), 0);
      saved == t.(savedRow := t.row, savedCol := t.col) &&
      restored == written.(row := t.row, col := t.col)
  {
    hide Feed, Control, Sequence, InBounds, Shaped, SavesNothing;
    FeedSequence(t, p, 's' as int);
    SaveControl(t, p);
    var saved := Feed(t, Sequence(p, 's' as int), 0);
    FeedKeepsSaved(saved, d, 0);
    FeedSequence(Feed(saved, d, 0), q, 'u' as int);
    SaveControl(Feed(saved, d, 0), q);
  }

  // ---------- control characters ----------

  lemma ScanControls()
    ensures Scan([0x0d], 0) == (Return, 1) && Scan([0x08], 0) == (Backspace, 1) && Scan([0x0a], 0) == (LineFeed, 1)
  {
  }

  lemma FeedOne(t: Terminal, b: Byte, token: Token)
    requires Shaped(t) && Scan([b], 0) == (token, 1) && !token.Csi?
    ensures Safe(t, [b], 0) && Feed(t, [b], 0) == Apply(t, token)
  {
    hide Scan, Apply;
  }

  /** Carriage return goes to the start of the line, backspace one column to the left, if there is one. */
  lemma ReturnsAndBacksUp(t: Terminal)
    requires Valid(t)
    ensures Safe(t, [0x0d], 0) && Feed(t, [0x0d], 0) == t.(col := 0)
    ensures Safe(t, [0x08], 0) && Feed(t, [0x08], 0) == t.(col := t.col - Less(1, t.col))
  {
    hide Feed, Safe, Scan, Rectangular;
    ScanControls();
    FeedOne(t, 0x0d, Return);
    FeedOne(t, 0x08, Backspace);
  }

  /** A line feed goes to the next line. On the bottom line of the region of a screen with a height, it moves the
      lines of the region up by one instead. The column stays. */
  lemma FeedsLine(t: Terminal, r: nat, k: nat)
    requires Valid(t) && k < t.cols
    ensures var u, bottom := Feed(t, [0x0a], 0), t.height > 0 && t.row == t.bot;
      Safe(t, [0x0a], 0) &&
      (!bottom ==> u == t.(row := t.row + 1)) &&
      (bottom ==> OnlyTextDiffers(t, u)) &&
      (bottom ==>
         u.grid[r][k] == (if r < t.top || r > t.bot then t.grid[r][k] else if r == t.bot then ' ' as int else t.grid[r + 1][k]))
  {
    hide Feed, Safe, Scan;
    ScanControls();
    FeedOne(t, 0x0a, LineFeed);
  }

  // ---------- what has no effect ----------

  /** The control functions of the program. */
  const FINALS := "HfABCDEFGdJKPsurST"

  /** An operating system command: ESC ], text, and BEL or ESC \\. */
  predicate IsCommand(s: seq<Byte>, body: seq<Byte>) {
    (s == [0x1b, ']' as int] + body + [0x07] || s == [0x1b, ']' as int] + body + [0x1b, 0x5c]) &&
    0x07 !in body && forall k :: 0 <= k && k + 1 < |body| ==> !(body[k] == 0x1b && body[k + 1] == 0x5c)
  }

  /** A sequence the program reads and drops: a control character, an escape sequence of two bytes, the
      designation of a character set, an operating system command, or a control sequence with another final byte. */
  ghost predicate Dropped(s: seq<Byte>) {
    || (|s| == 1 && s[0] < 0x20 && s[0] !in {0x08, 0x0a, 0x0d, 0x1b})
    || (|s| == 2 && s[0] == 0x1b && s[1] as char !in "[]()")
    || (|s| == 3 && s[0] == 0x1b && s[1] as char in "()")
    || (exists body :: IsCommand(s, body))
    || (exists params, final: Byte :: OtherControl(s, params, final))
  }

  predicate OtherControl(s: seq<Byte>, params: seq<Byte>, final: Byte) {
    ParameterBytes(params) && final >= 0x40 && final as char !in FINALS && s == Sequence(params, final)
  }

  lemma {:induction false} CommandEnd(d: seq<Byte>, i: nat, e: nat)
    requires i <= e < |d| && (forall k :: i <= k < e ==> d[k] != BEL && !StringTerminator(d, k))
    ensures d[e] == BEL ==> OscEnd(d, i) == e + 1
    ensures StringTerminator(d, e) ==> OscEnd(d, i) == e + 2
    decreases e - i
  {
    if i < e { CommandEnd(d, i + 1, e); }
  }

  lemma ScanCommand(s: seq<Byte>, body: seq<Byte>, rest: seq<Byte>)
    requires IsCommand(s, body)
    ensures Scan(s + rest, 0) == (Ignored, |s|)
  {
    var d, e := s + rest, 2 + |body|;
    assert forall k :: 0 <= k < |body| ==> d[2 + k] == s[2 + k] == body[k];
    assert d[e] == s[e];
    if |s| > e + 1 { assert d[e + 1] == s[e + 1]; }
    forall k | 2 <= k < e ensures d[k] != BEL && !StringTerminator(d, k) {
      assert d[k] == body[k - 2];
      if k + 1 < e { assert d[k + 1] == body[k - 1]; }
    }
    CommandEnd(d, 2, e);
  }

  lemma ScanShort(s: seq<Byte>, rest: seq<Byte>)
    requires 1 <= |s| <= 3 && (|s| == 1 ==> s[0] < 0x20 && s[0] !in {0x08, 0x0a, 0x0d, 0x1b})
    requires |s| == 2 ==> s[0] == 0x1b && s[1] as char !in "[]()"
    requires |s| == 3 ==> s[0] == 0x1b && s[1] as char in "()"
    ensures Scan(s + rest, 0) == (Ignored, |s|)
  {
    assert forall k :: 0 <= k < |s| ==> (s + rest)[k] == s[k];
  }

  lemma OtherControlIsNothing(t: Terminal, params: seq<Byte>, final: Byte)
    requires Shaped(t) && final >= 0x40 && final as char !in FINALS
    ensures Control(t, params, final) == t && InBounds(t, params, final)
  {
    hide ParseOne, ParseTwo;
    var c := final as char;
    assert FINALS == "HfABCD" + "EFGdJK" + "PsurST";
    assert c !in "HfABCD" && c !in "EFGdJK" && c !in "PsurST";
  }

  /** Such a sequence leaves everything as it is. */
  lemma DroppedHasNoEffect(t: Terminal, s: seq<Byte>, rest: seq<Byte>)
    requires Shaped(t) && Dropped(s)
    ensures Feed(t, s + rest, 0) == Feed(t, rest, 0)
    ensures Safe(t, s + rest, 0) <==> Safe(t, rest, 0)
  {
    hide Scan, Feed, Safe, Control, InBounds, Shaped, IsCommand, OtherControl;
    if exists params, final: Byte :: OtherControl(s, params, final) {
      var params, final: Byte :| OtherControl(s, params, final);
      DropControl(t, s, params, final, rest);
    } else {
      if exists body :: IsCommand(s, body) {
        var body :| IsCommand(s, body);
        ScanCommand(s, body, rest);
        CommandIsLong(s, body);
      } else {
        ScanShort(s, rest);
      }
      FeedToken(t, s, rest, Ignored);
    }
  }

  lemma CommandIsLong(s: seq<Byte>, body: seq<Byte>)
    requires IsCommand(s, body)
    ensures s != []
  {
  }

  lemma DropControl(t: Terminal, s: seq<Byte>, params: seq<Byte>, final: Byte, rest: seq<Byte>)
    requires Shaped(t) && OtherControl(s, params, final)
    ensures Feed(t, s + rest, 0) == Feed(t, rest, 0)
    ensures Safe(t, s + rest, 0) <==> Safe(t, rest, 0)
  {
    hide Scan, Feed, Safe, Control, InBounds, Shaped;
    ScanSequence(params, final, rest);
    OtherControlIsNothing(t, params, final);
    FeedToken(t, s, rest, Csi(params, final));
  }

  lemma NothingEncoded(d: seq<Byte>)
    requires d != [] && forall r :: Scalar(r) ==> !(Encode(r) <= d)
    ensures Decode(d, 0).Invalid()
  {
    hide Decode, Encode, Scalar;
    if !Decode(d, 0).Invalid() {
      DecodedIsEncoding(d, 0);
    }
  }

  /** A byte from 0x80 on that starts no encoding leaves everything as it is. */
  lemma BadByteHasNoEffect(t: Terminal, b: Byte, rest: seq<Byte>)
    requires Shaped(t) && b >= 0x80 && forall r :: Scalar(r) ==> !(Encode(r) <= [b] + rest)
    ensures Feed(t, [b] + rest, 0) == Feed(t, rest, 0)
    ensures Safe(t, [b] + rest, 0) <==> Safe(t, rest, 0)
  {
    hide Feed, Safe, Shaped, Decode, Encode, Scalar;
    var d := [b] + rest;
    NothingEncoded(d);
    FeedToken(t, [b], rest, Ignored);
  }

  // ---------- printing ----------

  predicate Printed(runes: seq<int>) { forall k :: 0 <= k < |runes| ==> Scalar(runes[k]) && runes[k] >= 0x20 }

  function Encoded(runes: seq<int>): seq<Byte>
    requires Printed(runes)
  {
    if runes == [] then [] else Encode(runes[0]) + Encoded(runes[1..])
  }

  lemma ScanRune(r: int, rest: seq<Byte>)
    requires Scalar(r) && r >= 0x20
    ensures Scan(Encode(r) + rest, 0) == (Print(r), |Encode(r)|)
  {
    hide Decode, Scalar;
    var e := Encode(r);
    var d := e + rest;
    assert d[0..0 + |e|] == e;
    DecodeEncoded(d, 0, r);
    FirstByte(r);
    assert d[0] == e[0];
  }

  lemma FirstByte(r: int)
    requires Scalar(r) && r >= 0x20
    ensures Encode(r)[0] >= 0x20
  {
  }

  /** Text fills the cells behind the cursor in reading order, from one line to the next, and leaves the cursor
      behind itself. */
  ghost predicate FilledInOrder(t: Terminal, u: Terminal, runes: seq<int>)
    requires Valid(t)
  {
    Valid(u) && u.(grid := t.grid, rowCount := t.rowCount, row := t.row, col := t.col) == t &&
    u.row * u.cols + u.col == t.row * t.cols + t.col + |runes| &&
    forall r: nat, k: nat :: k < t.cols ==>
      u.grid[r][k] == FilledCell(t, runes, r, k)
  }

  ghost function FilledCell(t: Terminal, runes: seq<int>, r: nat, k: nat): int
    requires Valid(t) && k < t.cols
  {
    var ahead := r * t.cols + k - (t.row * t.cols + t.col);
    if 0 <= ahead < |runes| then runes[ahead] else t.grid[r][k]
  }

  lemma NextRow(row: nat, cols: nat)
    ensures (row + 1) * cols == row * cols + cols
  {
  }

  lemma PrintsOne(t: Terminal, x: int)
    requires Valid(t)
    ensures FilledInOrder(t, PutRune(t, x), [x])
  {
    var u := PutRune(t, x);
    NextRow(t.row, t.cols);
    forall r: nat, k: nat | k < t.cols ensures u.grid[r][k] == FilledCell(t, [x], r, k) {
      OffsetOrder(t, r, k, t.row, t.col);
      OffsetOrder(t, t.row, t.col, r, k);
    }
  }

  lemma FillsOn(t: Terminal, u: Terminal, v: Terminal, x: int, rest: seq<int>)
    requires Valid(t) && FilledInOrder(t, u, [x]) && FilledInOrder(u, v, rest)
    ensures FilledInOrder(t, v, [x] + rest)
  {
    forall r: nat, k: nat | k < t.cols ensures v.grid[r][k] == FilledCell(t, [x] + rest, r, k) {
      assert u.grid[r][k] == FilledCell(t, [x], r, k);
    }
  }

  lemma NothingFilled(t: Terminal)
    requires Valid(t)
    ensures FilledInOrder(t, Feed(t, [], 0), []) && Safe(t, [], 0)
  {
  }

  /** Whatever is printed stands on the page in reading order. */
  lemma {:induction false} PrintsInReadingOrder(t: Terminal, runes: seq<int>)
    requires Valid(t) && Printed(runes)
    ensures Safe(t, Encoded(runes), 0) && FilledInOrder(t, Feed(t, Encoded(runes), 0), runes)
    decreases |runes|
  {
    hide Feed, Safe, Valid, Scan, PutRune, FilledInOrder, Encode, Scalar;
    ValidIsShaped(t);
    if runes == [] {
      NothingFilled(t);
    } else {
      var x, rest := runes[0], runes[1..];
      PrintsOne(t, x);
      FilledIsValid(t, PutRune(t, x), [x]);
      ScanRune(x, Encoded(rest));
      FeedToken(t, Encode(x), Encoded(rest), Print(x));
      PrintsInReadingOrder(PutRune(t, x), rest);
      FillsOn(t, PutRune(t, x), Feed(t, Encoded(runes), 0), x, rest);
      assert [x] + rest == runes;
    }
  }

  lemma ValidIsShaped(t: Terminal)
    requires Valid(t)
    ensures Shaped(t)
  {
  }

  lemma FilledIsValid(t: Terminal, u: Terminal, runes: seq<int>)
    requires Valid(t) && FilledInOrder(t, u, runes)
    ensures Valid(u)
  {
  }
}
