/** The byte language of a terminal: tokens and the numbers inside a control sequence. */
module ControlSequences {
  import opened Utf8
  import opened Wrappers

  const BEL: Byte := 0x07
  const BS: Byte := 0x08
  const LF: Byte := 0x0a
  const CR: Byte := 0x0d
  const ESC: Byte := 0x1b
  const SPACE: Byte := 0x20
  const PLUS: Byte := 0x2b
  const MINUS: Byte := 0x2d
  const SEMICOLON: Byte := 0x3b
  const QUESTION: Byte := 0x3f
  const BACKSLASH: Byte := 0x5c

  // ---------- tokens ----------

  datatype Token =
    | Ignored
    | Return
    | LineFeed
    | Backspace
    | Print(rune: int)
    | Csi(params: seq<Byte>, final: Byte)

  /** Where the final byte of a control sequence stands, or |d|. */
  function CsiEnd(d: seq<Byte>, i: nat): (j: nat)
    requires i <= |d|
    ensures i <= j <= |d|
    ensures forall k :: i <= k < j ==> d[k] < 0x40
    ensures j < |d| ==> d[j] >= 0x40
    decreases |d| - i
  {
    if i < |d| && d[i] < 0x40 then CsiEnd(d, i + 1) else i
  }

  predicate StringTerminator(d: seq<Byte>, i: nat) {
    i + 1 < |d| && d[i] == ESC && d[i + 1] == BACKSLASH
  }

  /** Just behind the BEL or ST that ends an operating system command, or |d|. */
  function OscEnd(d: seq<Byte>, i: nat): (j: nat)
    requires i <= |d|
    ensures i <= j <= |d|
    decreases |d| - i
  {
    if i == |d| then i
    else if d[i] == BEL then i + 1
    else if StringTerminator(d, i) then i + 2
    else OscEnd(d, i + 1)
  }

  /** The token at i and the position behind it. A character set designation cut short by the end
      of the data leaves the scanner beyond the end. */
  function Scan(d: seq<Byte>, i: nat): (r: (Token, nat))
    requires i < |d|
    ensures i < r.1
  {
    var b := d[i];
    if b == ESC then
      if i + 1 == |d| then (Ignored, i + 1)
      else if d[i + 1] == '[' as int then
        var j := CsiEnd(d, i + 2);
        if j == |d| then (Ignored, j) else (Csi(d[i + 2..j], d[j]), j + 1)
      else if d[i + 1] == ']' as int then (Ignored, OscEnd(d, i + 2))
      else if d[i + 1] == '(' as int || d[i + 1] == ')' as int then (Ignored, i + 3)
      else (Ignored, i + 2)
    else if b == CR then (Return, i + 1)
    else if b == LF then (LineFeed, i + 1)
    else if b == BS then (Backspace, i + 1)
    else if b < 0x20 then (Ignored, i + 1)
    else
      var x := Decode(d, i);
      if x.Invalid() then (Ignored, i + 1) else (Print(x.rune), i + x.size)
  }

  /** The positions the scanner reaches at the top of its loop, starting from i. */
  predicate Reaches(d: seq<Byte>, i: nat, target: nat)
    decreases |d| - i
  {
    i == target || (i < |d| && Reaches(d, Scan(d, i).1, target))
  }

  // ---------- scanning a prefix, scanning a suffix ----------

  lemma {:induction false} CsiEndPrefix(a: seq<Byte>, b: seq<Byte>, i: nat)
    requires i <= |a| && CsiEnd(a + b, i) < |a|
    ensures CsiEnd(a, i) == CsiEnd(a + b, i)
    decreases |a| - i
  {
    if i < |a| && a[i] < 0x40 {
      assert (a + b)[i] == a[i];
      CsiEndPrefix(a, b, i + 1);
    }
  }

  lemma {:induction false} OscEndPrefix(a: seq<Byte>, b: seq<Byte>, i: nat)
    requires i <= |a| && OscEnd(a + b, i) <= |a|
    ensures OscEnd(a, i) == OscEnd(a + b, i)
    decreases |a| - i
  {
    if i < |a| {
      assert (a + b)[i] == a[i];
      assert i + 1 < |a| ==> (a + b)[i + 1] == a[i + 1];
      if a[i] != BEL && !StringTerminator(a + b, i) {
        OscEndPrefix(a, b, i + 1);
      }
    }
  }

  /** A token that ends inside a is the same token whether or not more data follows a. */
  lemma ScanPrefix(a: seq<Byte>, b: seq<Byte>, i: nat)
    requires i < |a| && Scan(a + b, i).1 <= |a|
    ensures Scan(a, i) == Scan(a + b, i)
  {
    var d := a + b;
    assert d[i] == a[i];
    if a[i] == ESC && i + 1 < |a| {
      assert d[i + 1] == a[i + 1];
      if a[i + 1] == '[' as int {
        var j := CsiEnd(d, i + 2);
        if j < |d| {
          CsiEndPrefix(a, b, i + 2);
          assert d[i + 2..j] == a[i + 2..j];
        } else {
          assert d == a;
        }
      } else if a[i + 1] == ']' as int {
        OscEndPrefix(a, b, i + 2);
      }
    } else if a[i] >= 0x20 {
      DecodeLocal(a, b, i);
    }
  }

  lemma {:induction false} CsiEndShift(a: seq<Byte>, b: seq<Byte>, i: nat)
    requires i <= |b|
    ensures CsiEnd(a + b, |a| + i) == |a| + CsiEnd(b, i)
    decreases |b| - i
  {
    if i < |b| && b[i] < 0x40 {
      assert (a + b)[|a| + i] == b[i];
      CsiEndShift(a, b, i + 1);
    }
  }

  lemma {:induction false} OscEndShift(a: seq<Byte>, b: seq<Byte>, i: nat)
    requires i <= |b|
    ensures OscEnd(a + b, |a| + i) == |a| + OscEnd(b, i)
    decreases |b| - i
  {
    if i < |b| {
      assert (a + b)[|a| + i] == b[i];
      assert i + 1 < |b| ==> (a + b)[|a| + i + 1] == b[i + 1];
      if b[i] != BEL && !StringTerminator(b, i) {
        OscEndShift(a, b, i + 1);
      }
    }
  }

  lemma DecodeShift(a: seq<Byte>, b: seq<Byte>, i: nat)
    requires i < |b|
    ensures Decode(a + b, |a| + i) == Decode(b, i)
  {
    assert forall k :: 0 <= k < |b| ==> (a + b)[|a| + k] == b[k];
  }

  lemma ControlShift(a: seq<Byte>, b: seq<Byte>, i: nat)
    requires i + 1 < |b| && b[i] == ESC && b[i + 1] == '[' as int
    ensures Scan(a + b, |a| + i) == (Scan(b, i).0, |a| + Scan(b, i).1)
  {
    var d, j := a + b, CsiEnd(b, i + 2);
    assert d[|a| + i] == b[i] && d[|a| + i + 1] == b[i + 1];
    CsiEndShift(a, b, i + 2);
    assert d[|a| + i + 2..|a| + j] == b[i + 2..j];
  }

  lemma EscapeShift(a: seq<Byte>, b: seq<Byte>, i: nat)
    requires i < |b| && b[i] == ESC && !(i + 1 < |b| && b[i + 1] == '[' as int)
    ensures Scan(a + b, |a| + i) == (Scan(b, i).0, |a| + Scan(b, i).1)
  {
    var d := a + b;
    assert d[|a| + i] == b[i] && |d| == |a| + |b|;
    if i + 1 < |b| {
      assert d[|a| + i + 1] == b[i + 1];
      if b[i + 1] == ']' as int { OscEndShift(a, b, i + 2); }
    }
  }

  lemma OtherShift(a: seq<Byte>, b: seq<Byte>, i: nat)
    requires i < |b| && b[i] != ESC
    ensures Scan(a + b, |a| + i) == (Scan(b, i).0, |a| + Scan(b, i).1)
  {
    hide Decode;
    assert (a + b)[|a| + i] == b[i];
    DecodeShift(a, b, i);
  }

  /** The scanner never looks back. */
  lemma ScanShift(a: seq<Byte>, b: seq<Byte>, i: nat)
    requires i < |b|
    ensures Scan(a + b, |a| + i) == (Scan(b, i).0, |a| + Scan(b, i).1)
  {
    hide Scan;
    if b[i] != ESC {
      OtherShift(a, b, i);
    } else if i + 1 < |b| && b[i + 1] == '[' as int {
      ControlShift(a, b, i);
    } else {
      EscapeShift(a, b, i);
    }
  }

  // ---------- numbers ----------

  const MAX_INT := 0x7FFF_FFFF_FFFF_FFFF

  predicate Digit(b: Byte) { '0' as int <= b <= '9' as int }

  predicate AllDigits(s: seq<Byte>) { forall k :: 0 <= k < |s| ==> Digit(s[k]) }

  function Decimal(s: seq<Byte>): nat
    requires AllDigits(s)
  {
    if s == [] then 0 else 10 * Decimal(s[..|s| - 1]) + (s[|s| - 1] - '0' as int) as int
  }

  /** `strconv.Atoi` on a 64-bit platform: an optional sign, at least one digit, no overflow. */
  function Atoi(s: seq<Byte>): (r: Option<int>)
    ensures r.Some? ==> -MAX_INT - 1 <= r.value <= MAX_INT
    ensures r.Some? && MINUS !in s ==> 0 <= r.value
  {
    var signed := s != [] && (s[0] == PLUS || s[0] == MINUS);
    var digits := if signed then s[1..] else s;
    if digits == [] || !AllDigits(digits) then None
    else
      var n: int := Decimal(digits);
      var v := if signed && s[0] == MINUS then -n else n;
      if -MAX_INT - 1 <= v <= MAX_INT then Some(v) else None
  }

  function TrimQuestions(s: seq<Byte>): (r: seq<Byte>)
    ensures MINUS in r ==> MINUS in s
  {
    if s != [] && s[0] == QUESTION then TrimQuestions(s[1..]) else s
  }

  /** The position of the first semicolon, or |s|. */
  function FirstSemicolon(s: seq<Byte>): (j: nat)
    ensures j <= |s| && (forall k :: 0 <= k < j ==> s[k] != SEMICOLON)
    ensures j < |s| ==> s[j] == SEMICOLON
  {
    if s == [] || s[0] == SEMICOLON then 0 else 1 + FirstSemicolon(s[1..])
  }

  /** One number; empty, malformed, out of range and zero all mean the default. */
  function ParseOne(params: seq<Byte>, def: int): (n: int)
    ensures MINUS !in params ==> n == def || n > 0
    ensures n != 0 || def == 0
  {
    var p := TrimQuestions(params);
    var v := Atoi(p[..FirstSemicolon(p)]);
    if v.Some? && v.value != 0 then v.value else def
  }

  function PositiveOr(s: seq<Byte>, def: int): (n: int)
    ensures n > 0 || n == def
  {
    var v := Atoi(s);
    if v.Some? && v.value > 0 then v.value else def
  }

  /** Two numbers; the second is everything behind the first semicolon. */
  function ParseTwo(params: seq<Byte>, defA: int, defB: int): (r: (int, int))
    ensures r.0 > 0 || r.0 == defA
    ensures r.1 > 0 || r.1 == defB
  {
    var j := FirstSemicolon(params);
    (PositiveOr(params[..j], defA), if j < |params| then PositiveOr(params[j + 1..], defB) else defB)
  }

  /** The decimal digits of n. */
  function Show(n: nat): (s: seq<Byte>)
    ensures |s| >= 1 && AllDigits(s)
  {
    if n < 10 then ['0' as int + n] else Show(n / 10) + ['0' as int + n % 10]
  }

  lemma {:induction false} DecimalShow(n: nat)
    ensures Decimal(Show(n)) == n
  {
    var s := Show(n);
    if n >= 10 {
      assert s[..|s| - 1] == Show(n / 10);
      DecimalShow(n / 10);
    }
  }

  /** A printed number is read back, up to the largest 64-bit integer. */
  lemma ParseShow(n: nat, def: int)
    requires 0 < n <= MAX_INT
    ensures ParseOne(Show(n), def) == n
  {
    var s := Show(n);
    DecimalShow(n);
    assert Digit(s[0]);
    assert forall k :: 0 <= k < |s| ==> Digit(s[k]);
    assert s[..FirstSemicolon(s)] == s;
  }

  lemma ShownHasNoSign(n: nat)
    ensures MINUS !in Show(n) && SEMICOLON !in Show(n) && QUESTION !in Show(n) && PLUS !in Show(n)
  {
    var s := Show(n);
    assert forall k :: 0 <= k < |s| ==> Digit(s[k]);
  }

  lemma AtoiShow(n: nat)
    requires n <= MAX_INT
    ensures Atoi(Show(n)) == Some(n)
  {
    DecimalShow(n);
    ShownHasNoSign(n);
  }

  /** Digits are decimal, the first one the most significant. */
  lemma ShownDigits()
    ensures Show(0) == ['0' as int] && Show(1024) == ['1' as int, '0' as int, '2' as int, '4' as int]
    ensures Show(98) == ['9' as int, '8' as int] && Show(7653) == ['7' as int, '6' as int, '5' as int, '3' as int]
  {
    assert Show(1) == ['1' as int] && Show(10) == ['1' as int, '0' as int] && Show(102) == ['1' as int, '0' as int, '2' as int];
    assert Show(7) == ['7' as int] && Show(76) == ['7' as int, '6' as int] && Show(765) == ['7' as int, '6' as int, '5' as int];
  }
}
