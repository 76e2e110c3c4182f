/** What the normaliser makes of a text, piece by piece, for every text. */
module NormalizerLaws {
  import opened Utf8
  import opened ControlSequences
  import opened Normalizer

  /** The pieces of a text as it comes from a terminal. */
  datatype Piece =
    | Text(bytes: seq<Byte>)
    | Break
    | Return
    | Control(body: seq<Byte>, letter: Byte)
    | Command(body: seq<Byte>, bell: bool)
    | Escape(byte: Byte)
    | Other(byte: Byte)
    | Cut(bytes: seq<Byte>)

  function BytesOf(p: Piece): seq<Byte> {
    match p
    case Text(bytes) => bytes
    case Break => [0x0d, 0x0a]
    case Return => [0x0d]
    case Control(body, letter) => [0x1b, '[' as int] + body + [letter]
    case Command(body, bell) => [0x1b, ']' as int] + body + if bell then [0x07] else [0x1b, '\\' as int]
    case Escape(byte) => [0x1b, byte]
    case Other(byte) => [byte]
    case Cut(bytes) => bytes
  }

  /** What is left of a piece: text as it is, one line feed for the end of a line and for a lone return. */
  function Visible(p: Piece): seq<Byte> {
    match p
    case Text(bytes) => bytes
    case Break => [0x0a]
    case Return => [0x0a]
    case _ => []
  }

  predicate AsciiLetter(b: Byte) { 'a' as int <= b <= 'z' as int || 'A' as int <= b <= 'Z' as int }

  /** Tab, line feed, and everything from the space on but DEL. */
  predicate Shown(b: Byte) { b == 0x09 || b == 0x0a || (b >= 0x20 && b != 0x7f) }

  predicate NoLetter(s: seq<Byte>) { forall k :: 0 <= k < |s| ==> !AsciiLetter(s[k]) }

  /** Neither BEL nor ESC \ occurs. */
  predicate NoEnd(s: seq<Byte>) {
    forall k :: 0 <= k < |s| ==> s[k] != 0x07 && !(s[k] == 0x1b && k + 1 < |s| && s[k + 1] == '\\' as int)
  }

  /** The piece is one of its kind, with `rest` behind it. What is cut off stands at the very end. */
  predicate Proper(p: Piece, rest: seq<Byte>) {
    match p
    case Text(bytes) => forall k :: 0 <= k < |bytes| ==> Shown(bytes[k])
    case Break => true
    case Return => rest == [] || rest[0] != 0x0a
    case Control(body, letter) => NoLetter(body) && AsciiLetter(letter)
    case Command(body, bell) => NoEnd(body)
    case Escape(byte) => byte != '[' as int && byte != ']' as int
    case Other(byte) => !Shown(byte) && byte != 0x0d && byte != 0x1b
    case Cut(bytes) =>
      rest == [] &&
      (bytes == [0x1b] ||
       (|bytes| >= 2 && bytes[..2] == [0x1b, '[' as int] && NoLetter(bytes[2..])) ||
       (|bytes| >= 2 && bytes[..2] == [0x1b, ']' as int] && NoEnd(bytes[2..])))
  }

  function Whole(ps: seq<Piece>): seq<Byte> { if ps == [] then [] else BytesOf(ps[0]) + Whole(ps[1..]) }

  function WholeVisible(ps: seq<Piece>): seq<Byte> { if ps == [] then [] else Visible(ps[0]) + WholeVisible(ps[1..]) }

  predicate AllProper(ps: seq<Piece>) {
    ps != [] ==> Proper(ps[0], Whole(ps[1..])) && AllProper(ps[1..])
  }

  // ---------- one piece ----------

  /** The scanner at the start of s + rest writes `out` and goes on at rest. */
  predicate Passes(s: seq<Byte>, out: seq<Byte>, rest: seq<Byte>) {
    Stripped(s + rest, 0) == out + Stripped(rest, 0)
  }

  lemma {:induction false} LetterEndShift(a: seq<Byte>, b: seq<Byte>, i: nat)
    requires i <= |b|
    ensures LetterEnd(a + b, |a| + i) == |a| + LetterEnd(b, i)
    decreases |b| - i
  {
    if i < |b| && !Letter(b[i]) {
      assert (a + b)[|a| + i] == b[i];
      LetterEndShift(a, b, i + 1);
    }
  }

  lemma EmitShift(a: seq<Byte>, b: seq<Byte>, i: nat)
    requires i < |b|
    ensures Emit(a + b, |a| + i) == (Emit(b, i).0, |a| + Emit(b, i).1)
  {
    var d := a + b;
    assert d[|a| + i] == b[i] && (i + 1 < |b| ==> d[|a| + i + 1] == b[i + 1]);
    if b[i] == ESC && i + 1 < |b| {
      if b[i + 1] == '[' as int {
        LetterEndShift(a, b, i + 2);
      } else if b[i + 1] == ']' as int {
        OscEndShift(a, b, i + 2);
      }
    }
  }

  lemma {:induction false} StrippedShift(a: seq<Byte>, b: seq<Byte>, i: nat)
    ensures Stripped(a + b, |a| + i) == Stripped(b, i)
    decreases |b| - i
  {
    hide Emit;
    if i < |b| {
      EmitShift(a, b, i);
      StrippedShift(a, b, Emit(b, i).1);
    }
  }

  lemma PassesBy(s: seq<Byte>, out: seq<Byte>, rest: seq<Byte>)
    requires s != [] && Emit(s + rest, 0) == (out, |s|)
    ensures Passes(s, out, rest)
  {
    hide Emit;
    StrippedShift(s, rest, 0);
  }

  lemma PassesMore(a: seq<Byte>, b: seq<Byte>, x: seq<Byte>, y: seq<Byte>, rest: seq<Byte>)
    requires Passes(a, x, b + rest) && Passes(b, y, rest)
    ensures Passes(a + b, x + y, rest)
  {
    hide Stripped;
    assert a + b + rest == a + (b + rest);
    assert x + (y + Stripped(rest, 0)) == x + y + Stripped(rest, 0);
  }

  lemma PassesNothing(rest: seq<Byte>)
    ensures Passes([], [], rest)
  {
    hide Stripped;
    assert [] + rest == rest;
    assert [] + Stripped(rest, 0) == Stripped(rest, 0);
  }

  lemma ByteIsShown(b: Byte, rest: seq<Byte>)
    requires Shown(b)
    ensures Passes([b], [b], rest)
  {
    PassesBy([b], [b], rest);
  }

  lemma {:induction false} TextPasses(s: seq<Byte>, rest: seq<Byte>)
    requires forall k :: 0 <= k < |s| ==> Shown(s[k])
    ensures Passes(s, s, rest)
  {
    hide Passes;
    if s == [] {
      PassesNothing(rest);
    } else {
      ByteIsShown(s[0], s[1..] + rest);
      TextPasses(s[1..], rest);
      PassesMore([s[0]], s[1..], [s[0]], s[1..], rest);
      assert [s[0]] + s[1..] == s;
    }
  }

  lemma BreakPasses(rest: seq<Byte>)
    ensures Passes([0x0d, 0x0a], [0x0a], rest)
  {
    hide Passes;
    var d := [0x0a] + rest;
    assert Emit([0x0d] + d, 0) == ([], 1);
    PassesBy([0x0d], [], d);
    ByteIsShown(0x0a, rest);
    PassesMore([0x0d], [0x0a], [], [0x0a], rest);
    var cr: seq<Byte>, lf: seq<Byte>, none: seq<Byte> := [0x0d], [0x0a], [];
    assert cr + lf == [0x0d, 0x0a] && none + lf == lf;
  }

  lemma OneBytePasses(p: Piece, rest: seq<Byte>)
    requires (p.Return? || p.Other?) && Proper(p, rest)
    ensures Passes(BytesOf(p), Visible(p), rest)
  {
    hide Passes;
    assert rest != [] ==> (BytesOf(p) + rest)[1] == rest[0];
    PassesBy(BytesOf(p), Visible(p), rest);
  }

  lemma {:induction false} LetterEndIs(d: seq<Byte>, i: nat, e: nat)
    requires i <= e <= |d| && (forall k :: i <= k < e ==> !AsciiLetter(d[k])) && (e < |d| ==> AsciiLetter(d[e]))
    ensures LetterEnd(d, i) == e
    decreases e - i
  {
    if i < e { LetterEndIs(d, i + 1, e); }
  }

  lemma ControlPasses(body: seq<Byte>, letter: Byte, rest: seq<Byte>)
    requires NoLetter(body) && AsciiLetter(letter)
    ensures Passes([0x1b, '[' as int] + body + [letter], [], rest)
  {
    hide Passes, NoLetter;
    var s := [0x1b, '[' as int] + body + [letter];
    var d, e := s + rest, 2 + |body|;
    BodyAt(s, body, [letter], rest);
    NoLetterAt(body, d);
    LetterEndIs(d, 2, e);
    PassesBy(s, [], rest);
  }

  lemma BodyAt(s: seq<Byte>, body: seq<Byte>, end: seq<Byte>, rest: seq<Byte>)
    requires |s| == 2 + |body| + |end| && s[2..] == body + end
    ensures var d := s + rest;
      d[0] == s[0] && d[1] == s[1] && d[2..2 + |body|] == body && forall k :: 0 <= k < |end| ==> d[2 + |body| + k] == end[k]
  {
    var d := s + rest;
    forall k | 0 <= k < |end| ensures d[2 + |body| + k] == end[k] { assert s[2..][|body| + k] == end[k]; }
    assert d[2..2 + |body|] == s[2..][..|body|];
  }

  lemma NoLetterAt(body: seq<Byte>, d: seq<Byte>)
    requires NoLetter(body) && 2 + |body| <= |d| && d[2..2 + |body|] == body
    ensures forall k :: 2 <= k < 2 + |body| ==> !AsciiLetter(d[k])
  {
    forall k | 2 <= k < 2 + |body| ensures !AsciiLetter(d[k]) { assert d[2..2 + |body|][k - 2] == d[k]; }
  }

  lemma {:induction false} OscEndIs(d: seq<Byte>, i: nat, e: nat)
    requires i <= e <= |d| && (forall k :: i <= k < e ==> d[k] != BEL && !StringTerminator(d, k))
    ensures e == |d| ==> OscEnd(d, i) == e
    ensures e < |d| && d[e] == BEL ==> OscEnd(d, i) == e + 1
    ensures StringTerminator(d, e) ==> OscEnd(d, i) == e + 2
    decreases e - i
  {
    if i < e { OscEndIs(d, i + 1, e); }
  }

  lemma NoEndAt(body: seq<Byte>, d: seq<Byte>)
    requires NoEnd(body) && 2 + |body| <= |d| && d[2..2 + |body|] == body
    requires 2 + |body| < |d| ==> d[2 + |body|] != '\\' as int
    ensures forall k :: 2 <= k < 2 + |body| ==> d[k] != BEL && !StringTerminator(d, k)
  {
    forall k | 2 <= k < 2 + |body| ensures d[k] != BEL && !StringTerminator(d, k) {
      assert d[2..2 + |body|][k - 2] == d[k];
      if k + 1 < 2 + |body| { assert d[2..2 + |body|][k - 1] == d[k + 1]; }
    }
  }

  lemma CommandPasses(body: seq<Byte>, end: seq<Byte>, rest: seq<Byte>)
    requires NoEnd(body) && (end == [0x07] || end == [0x1b, '\\' as int])
    ensures Passes([0x1b, ']' as int] + body + end, [], rest)
  {
    hide Passes, NoEnd;
    var s := [0x1b, ']' as int] + body + end;
    var d, e := s + rest, 2 + |body|;
    assert s[2..] == body + end;
    BodyAt(s, body, end, rest);
    NoEndAt(body, d);
    OscEndIs(d, 2, e);
    PassesBy(s, [], rest);
  }

  lemma EscapePasses(byte: Byte, rest: seq<Byte>)
    requires byte != '[' as int && byte != ']' as int
    ensures Passes([0x1b, byte], [], rest)
  {
    hide Passes;
    PassesBy([0x1b, byte], [], rest);
  }

  lemma CutPasses(s: seq<Byte>)
    requires Proper(Cut(s), [])
    ensures Passes(s, [], [])
  {
    hide Passes;
    var d := s + [];
    assert d == s;
    if |s| >= 2 {
      assert s[..2][0] == s[0] && s[..2][1] == s[1];
      var body := s[2..];
      assert d[2..2 + |body|] == body;
      if s[1] == '[' as int {
        NoLetterAt(body, d);
        LetterEndIs(d, 2, |d|);
        CutBeyond(s);
      } else {
        NoEndAt(body, d);
        OscEndIs(d, 2, |d|);
        PassesBy(s, [], []);
      }
    } else {
      PassesBy(s, [], []);
    }
  }

  /** A control sequence without its letter: the scanner ends behind the text. */
  lemma CutBeyond(s: seq<Byte>)
    requires s != [] && Emit(s, 0) == ([], |s| + 1)
    ensures Passes(s, [], [])
  {
    hide Emit;
    assert s + [] == s;
    assert Stripped(s, 0) == [] + Stripped(s, |s| + 1) == [];
    assert Stripped([], 0) == [];
  }

  lemma PiecePasses(p: Piece, rest: seq<Byte>)
    requires Proper(p, rest)
    ensures Passes(BytesOf(p), Visible(p), rest)
  {
    hide Passes, NoEnd, NoLetter, AsciiLetter;
    match p {
      case Text(bytes) => TextPasses(bytes, rest);
      case Break => BreakPasses(rest);
      case Return => OneBytePasses(p, rest);
      case Control(body, letter) => ControlPasses(body, letter, rest);
      case Command(body, bell) => CommandPasses(body, if bell then [0x07] else [0x1b, '\\' as int], rest);
      case Escape(byte) => EscapePasses(byte, rest);
      case Other(byte) => OneBytePasses(p, rest);
      case Cut(bytes) => CutPasses(bytes);
    }
  }

  // ---------- the whole text ----------

  lemma {:induction false} PiecesPass(ps: seq<Piece>)
    requires AllProper(ps)
    ensures Stripped(Whole(ps), 0) == WholeVisible(ps)
    decreases |ps|
  {
    hide Proper, BytesOf, Visible;
    if ps != [] {
      PiecePasses(ps[0], Whole(ps[1..]));
      PiecesPass(ps[1..]);
    }
  }

  /** Whatever pieces a text is made of, its normal form is what is visible of them, and nothing else. */
  lemma NormalizedIsVisible(ps: seq<Piece>)
    requires AllProper(ps)
    ensures Normalized(Whole(ps)) == WholeVisible(ps)
  {
    hide Stripped, AllProper;
    PiecesPass(ps);
    NormalizedIsProjection(Whole(ps));
  }

  // ---------- every text has its pieces ----------

  lemma {:induction false} FindLetter(d: seq<Byte>, i: nat) returns (e: nat)
    requires i <= |d|
    ensures i <= e <= |d| && (forall k :: i <= k < e ==> !AsciiLetter(d[k])) && (e < |d| ==> AsciiLetter(d[e]))
    decreases |d| - i
  {
    e := i;
    if i < |d| && !AsciiLetter(d[i]) { e := FindLetter(d, i + 1); }
  }

  lemma {:induction false} FindEnd(d: seq<Byte>, i: nat) returns (e: nat)
    requires i <= |d|
    ensures i <= e <= |d| && (forall k :: i <= k < e ==> d[k] != BEL && !StringTerminator(d, k))
    ensures e < |d| ==> d[e] == BEL || StringTerminator(d, e)
    decreases |d| - i
  {
    e := i;
    if i < |d| && d[i] != BEL && !StringTerminator(d, i) { e := FindEnd(d, i + 1); }
  }

  lemma FirstControl(d: seq<Byte>) returns (p: Piece)
    requires |d| >= 2 && d[0] == 0x1b && d[1] == '[' as int
    ensures BytesOf(p) != [] && BytesOf(p) <= d && Proper(p, d[|BytesOf(p)|..])
  {
    var e := FindLetter(d, 2);
    if e == |d| {
      p := Cut(d);
      assert d[..2] == [0x1b, '[' as int];
    } else {
      p := Control(d[2..e], d[e]);
      assert BytesOf(p) == d[..e + 1];
    }
  }

  lemma FirstCommand(d: seq<Byte>) returns (p: Piece)
    requires |d| >= 2 && d[0] == 0x1b && d[1] == ']' as int
    ensures BytesOf(p) != [] && BytesOf(p) <= d && Proper(p, d[|BytesOf(p)|..])
  {
    var e := FindEnd(d, 2);
    NoEndIn(d, e);
    if e == |d| {
      p := Cut(d);
      assert d[..2] == [0x1b, ']' as int];
      assert d[2..e] == d[2..];
    } else {
      p := Command(d[2..e], d[e] == BEL);
      CommandBytes(d, e);
    }
  }

  lemma CommandBytes(d: seq<Byte>, e: nat)
    requires 2 <= e < |d| && d[0] == 0x1b && d[1] == ']' as int && (d[e] == BEL || StringTerminator(d, e))
    ensures BytesOf(Command(d[2..e], d[e] == BEL)) == if d[e] == BEL then d[..e + 1] else d[..e + 2]
  {
    var bell: seq<Byte>, st: seq<Byte> := [0x07], [0x1b, '\\' as int];
    assert d[..2] == [0x1b, ']' as int];
    assert d[..2] + d[2..e] == d[..e];
    if d[e] == BEL {
      assert d[..e] + bell == d[..e + 1];
    } else {
      assert d[..e] + st == d[..e + 2];
    }
  }

  lemma NoEndIn(d: seq<Byte>, e: nat)
    requires 2 <= e <= |d| && forall k :: 2 <= k < e ==> d[k] != BEL && !StringTerminator(d, k)
    ensures NoEnd(d[2..e])
  {
    var s := d[2..e];
    forall k | 0 <= k < |s| ensures s[k] != 0x07 && !(s[k] == 0x1b && k + 1 < |s| && s[k + 1] == '\\' as int) {
      assert s[k] == d[2 + k] && !StringTerminator(d, 2 + k);
    }
  }

  lemma FirstPiece(d: seq<Byte>) returns (p: Piece)
    requires d != []
    ensures BytesOf(p) != [] && BytesOf(p) <= d && Proper(p, d[|BytesOf(p)|..])
  {
    var b := d[0];
    if b == 0x1b && |d| >= 2 && d[1] == '[' as int {
      p := FirstControl(d);
    } else if b == 0x1b && |d| >= 2 && d[1] == ']' as int {
      p := FirstCommand(d);
    } else if b == 0x1b {
      p := if |d| == 1 then Cut(d) else Escape(d[1]);
    } else if b == 0x0d {
      p := if |d| > 1 && d[1] == 0x0a then Break else Piece.Return;
    } else {
      p := if Shown(b) then Text([b]) else Other(b);
    }
  }

  /** Every text can be cut into such pieces, so that the law above speaks about all of them. */
  lemma {:induction false} EveryTextHasPieces(d: seq<Byte>) returns (ps: seq<Piece>)
    ensures AllProper(ps) && Whole(ps) == d
    decreases |d|
  {
    hide BytesOf, Proper;
    if d == [] {
      ps := [];
    } else {
      var p := FirstPiece(d);
      var n := |BytesOf(p)|;
      var rest := EveryTextHasPieces(d[n..]);
      ps := [p] + rest;
      assert ps[1..] == rest;
      assert BytesOf(p) + d[n..] == d;
    }
  }
}
