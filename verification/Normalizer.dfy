/** `NormalizePTYText` of `internal/terminal/ansi.go`, the linear scanner of the same byte language. */
module Normalizer {
  import opened Utf8
  import opened ControlSequences
  import Scr = Screen

  const TAB: Byte := 0x09
  const DEL: Byte := 0x7f

  predicate Letter(b: Byte) {
    'A' as int <= b <= 'Z' as int || 'a' as int <= b <= 'z' as int
  }

  predicate Keep(b: Byte) {
    b == TAB || b == LF || (b >= 0x20 && b != DEL)
  }

  predicate Clean(s: seq<Byte>) { forall k :: 0 <= k < |s| ==> Keep(s[k]) }

  /** Where the letter that ends a control sequence stands, or |d|. */
  function LetterEnd(d: seq<Byte>, i: nat): (j: nat)
    requires i <= |d|
    ensures i <= j <= |d|
    decreases |d| - i
  {
    if i < |d| && !Letter(d[i]) then LetterEnd(d, i + 1) else i
  }

  /** The bytes one turn of the loop writes at i, and where it goes on. */
  function Emit(d: seq<Byte>, i: nat): (r: (seq<Byte>, nat))
    requires i < |d|
    ensures i < r.1 && Clean(r.0)
  {
    var b := d[i];
    if b == ESC then
      if i + 1 == |d| then ([], i + 1)
      else if d[i + 1] == '[' as int then ([], LetterEnd(d, i + 2) + 1)
      else if d[i + 1] == ']' as int then ([], OscEnd(d, i + 2))
      else ([], i + 2)
    else if b == CR then (if i + 1 < |d| && d[i + 1] == LF then [] else [LF], i + 1)
    else (if Keep(b) then [b] else [], i + 1)
  }

  function Stripped(d: seq<Byte>, i: nat): seq<Byte>
    decreases |d| - i
  {
    if i >= |d| then [] else Emit(d, i).0 + Stripped(d, Emit(d, i).1)
  }

  /** `strings.ReplaceAll(s, "\r\n", "\n")`. */
  function ReplaceCrLf(s: seq<Byte>): seq<Byte> {
    if s == [] then []
    else if |s| >= 2 && s[0] == CR && s[1] == LF then [LF] + ReplaceCrLf(s[2..])
    else [s[0]] + ReplaceCrLf(s[1..])
  }

  function Normalized(d: seq<Byte>): seq<Byte> { ReplaceCrLf(Stripped(d, 0)) }

  /** One turn of the loop. */
  method EmitAt(data: seq<Byte>, start: nat) returns (out: seq<Byte>, i: nat)
    requires start < |data|
    ensures (out, i) == Emit(data, start)
  {
    out := [];
    i := start;
    var b := data[i];
    if b == ESC {
      if i + 1 < |data| {
        if data[i + 1] == '[' as int {
          i := i + 2;
          while i < |data| && !Letter(data[i])
            invariant start + 2 <= i <= |data| && LetterEnd(data, i) == LetterEnd(data, start + 2)
          {
            i := i + 1;
          }
        } else if data[i + 1] == ']' as int {
          i := Scr.Screen.SkipString(data, i + 2);
          i := i - 1;
        } else {
          i := i + 1;
        }
      }
    } else if b == CR {
      if !(i + 1 < |data| && data[i + 1] == LF) {
        out := [LF];
      }
    } else if b != 0x00 {
      if b == TAB || b == LF || (b >= 0x20 && b != DEL) {
        out := [b];
      }
    }
    i := i + 1;
  }

  method NormalizePTYText(data: seq<Byte>) returns (text: seq<Byte>)
    ensures text == Normalized(data)
  {
    hide Emit;
    var out: seq<Byte> := [];
    var i: nat := 0;
    while i < |data|
      invariant out + Stripped(data, i) == Stripped(data, 0)
      decreases |data| - i
    {
      var piece, next := EmitAt(data, i);
      assert out + (piece + Stripped(data, next)) == (out + piece) + Stripped(data, next);
      out, i := out + piece, next;
    }
    assert out + [] == out;
    text := ReplaceCrLf(out);
  }

  // ---------- the normaliser is a projection ----------

  lemma {:induction false} StrippedIsClean(d: seq<Byte>, i: nat)
    ensures Clean(Stripped(d, i))
    decreases |d| - i
  {
    if i < |d| { StrippedIsClean(d, Emit(d, i).1); }
  }

  /** The last replacement finds nothing to replace. */
  lemma {:induction false} NothingToReplace(s: seq<Byte>)
    requires Clean(s)
    ensures ReplaceCrLf(s) == s
  {
    if s != [] {
      assert Keep(s[0]);
      NothingToReplace(s[1..]);
    }
  }

  lemma {:induction false} CleanIsKept(d: seq<Byte>, i: nat)
    requires Clean(d) && i <= |d|
    ensures Stripped(d, i) == d[i..]
    decreases |d| - i
  {
    if i < |d| {
      assert Keep(d[i]);
      CleanIsKept(d, i + 1);
    }
  }

  /** The output holds only tabs, line feeds and printable bytes; it is the scanner's output unchanged by
      the final replacement; normalising again changes nothing; and clean text is left as it is. */
  lemma NormalizedIsProjection(d: seq<Byte>)
    ensures Clean(Normalized(d))
    ensures Normalized(d) == Stripped(d, 0)
    ensures Normalized(Normalized(d)) == Normalized(d)
    ensures Clean(d) <==> Normalized(d) == d
  {
    StrippedIsClean(d, 0);
    NothingToReplace(Stripped(d, 0));
    var n := Normalized(d);
    CleanIsKept(n, 0);
    NothingToReplace(Stripped(n, 0));
    if Clean(d) { CleanIsKept(d, 0); }
  }
}
