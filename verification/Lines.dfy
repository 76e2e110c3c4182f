/** Splitting a text into lines and trimming them. A text is a sequence of bytes, one character for each. */
module Lines {
  import opened Sequences
  import opened Text
  import Utf8

  /** `strings.Split(s, "\n")`: always at least one line. */
  function Split(s: string): (lines: seq<string>)
    ensures lines != [] && forall k :: 0 <= k < |lines| ==> LF !in lines[k]
    decreases |s|
  {
    var e := LineEnd(s, 0);
    assert forall c :: c in s[..e] ==> c != LF;
    if e == |s| then [s[..e]] else [s[..e]] + Split(s[e + 1..])
  }

  /** Unicode's White_Space, as `strings.TrimSpace` has it. */
  predicate WhiteSpace(r: int) {
    0x09 <= r <= 0x0d || r == 0x20 || r == 0x85 || r == 0xA0 || r == 0x1680 || 0x2000 <= r <= 0x200a ||
    r == 0x2028 || r == 0x2029 || r == 0x202f || r == 0x205f || r == 0x3000
  }

  /** The 25 code points of the property. */
  lemma WhiteSpaceIsUnicode(r: int)
    ensures WhiteSpace(r) <==>
      r in {0x09, 0x0A, 0x0B, 0x0C, 0x0D, 0x20, 0x85, 0xA0, 0x1680, 0x2000, 0x2001, 0x2002, 0x2003, 0x2004, 0x2005, 0x2006,
            0x2007, 0x2008, 0x2009, 0x200A, 0x2028, 0x2029, 0x202F, 0x205F, 0x3000}
  {
  }

  predicate AsciiSpace(c: char) { 0x09 <= c as int <= 0x0d || c == ' ' }

  predicate TwoByteSpace(a: int, b: int) { a == 0xC2 && (b == 0x85 || b == 0xA0) }

  predicate ThreeByteSpace(a: int, b: int, c: int) {
    (a == 0xE1 && b == 0x9A && c == 0x80) ||
    (a == 0xE2 && b == 0x80 && (0x80 <= c <= 0x8A || c == 0xA8 || c == 0xA9 || c == 0xAF)) ||
    (a == 0xE2 && b == 0x81 && c == 0x9F) || (a == 0xE3 && b == 0x80 && c == 0x80)
  }

  /** These bytes are the encoding of one white space rune. */
  predicate OneSpace(s: string) {
    match |s|
    case 1 => AsciiSpace(s[0])
    case 2 => TwoByteSpace(s[0] as int, s[1] as int)
    case 3 => ThreeByteSpace(s[0] as int, s[1] as int, s[2] as int)
    case _ => false
  }

  /** The number of bytes of the white space rune s begins with, or 0. */
  function SpaceAtStart(s: string): (n: nat)
    ensures n <= |s|
  {
    if 1 <= |s| && AsciiSpace(s[0]) then 1
    else if 2 <= |s| && TwoByteSpace(s[0] as int, s[1] as int) then 2
    else if 3 <= |s| && ThreeByteSpace(s[0] as int, s[1] as int, s[2] as int) then 3
    else 0
  }

  /** The number of bytes of the white space rune s ends with, or 0. */
  function SpaceAtEnd(s: string): (k: nat)
    ensures k <= |s|
  {
    var n := |s|;
    if 1 <= n && AsciiSpace(s[n - 1]) then 1
    else if 2 <= n && TwoByteSpace(s[n - 2] as int, s[n - 1] as int) then 2
    else if 3 <= n && ThreeByteSpace(s[n - 3] as int, s[n - 2] as int, s[n - 1] as int) then 3
    else 0
  }

  lemma SpaceFoundAtStart(s: string)
    ensures SpaceAtStart(s) > 0 ==> OneSpace(s[..SpaceAtStart(s)])
  {
    hide TwoByteSpace, ThreeByteSpace, AsciiSpace;
  }

  lemma SpaceFoundAtEnd(s: string)
    ensures SpaceAtEnd(s) > 0 ==> OneSpace(s[|s| - SpaceAtEnd(s)..])
  {
    hide TwoByteSpace, ThreeByteSpace, AsciiSpace;
  }

  /** The bytes of a decoded white space rune, and back. */
  lemma DecodedSpace(d: seq<Utf8.Byte>, i: nat)
    requires i < |d|
    ensures var r := Utf8.Decode(d, i);
      WhiteSpace(r.rune) <==>
        (r.size == 1 && (0x09 <= d[i] <= 0x0d || d[i] == 0x20)) ||
        (r.size == 2 && i + 2 <= |d| && TwoByteSpace(d[i], d[i + 1])) ||
        (r.size == 3 && i + 3 <= |d| && ThreeByteSpace(d[i], d[i + 1], d[i + 2]))
    ensures 0x09 <= d[i] <= 0x0d || d[i] == 0x20 ==> Utf8.Decode(d, i).size == 1
    ensures i + 2 <= |d| && TwoByteSpace(d[i], d[i + 1]) ==> Utf8.Decode(d, i).size == 2
    ensures i + 3 <= |d| && ThreeByteSpace(d[i], d[i + 1], d[i + 2]) ==> Utf8.Decode(d, i).size == 3
  {
  }

  /** d holds the characters of s as bytes. */
  ghost predicate SameBytes(s: string, d: seq<Utf8.Byte>) {
    |d| == |s| && forall k :: 0 <= k < |s| ==> d[k] as int == s[k] as int
  }

  /** Decoding the first rune of a byte string gives a white space exactly when SpaceAtStart sees one, of the
      same length; a byte that starts no rune is none. */
  lemma SpaceIsDecoded(s: string, d: seq<Utf8.Byte>)
    requires s != "" && SameBytes(s, d)
    ensures d != []
    ensures SpaceAtStart(s) == if WhiteSpace(Utf8.Decode(d, 0).rune) then Utf8.Decode(d, 0).size else 0
  {
    hide WhiteSpace, Utf8.Decode;
    DecodedSpace(d, 0);
  }

  /** SpaceAtEnd, read off the bytes. */
  function EndSpace(d: seq<Utf8.Byte>): nat
    requires d != []
  {
    var n := |d|;
    if 0x09 <= d[n - 1] <= 0x0d || d[n - 1] == 0x20 then 1
    else if 2 <= n && TwoByteSpace(d[n - 2], d[n - 1]) then 2
    else if 3 <= n && ThreeByteSpace(d[n - 3], d[n - 2], d[n - 1]) then 3
    else 0
  }

  lemma EndSpaceIs(s: string, d: seq<Utf8.Byte>)
    requires s != "" && SameBytes(s, d)
    ensures d != [] && SpaceAtEnd(s) == EndSpace(d)
  {
    hide TwoByteSpace, ThreeByteSpace;
  }

  lemma EndSpaceIsDecoded(d: seq<Utf8.Byte>)
    requires d != []
    ensures EndSpace(d) == if WhiteSpace(Utf8.DecodeLast(d).rune) then Utf8.DecodeLast(d).size else 0
  {
    var i, n := Utf8.LastStart(d), |d|;
    if d[n - 1] >= 0x80 {
      hide WhiteSpace, Utf8.Decode;
      DecodedSpace(d, i);
      ErrorIsNoSpace();
    }
  }

  lemma ErrorIsNoSpace()
    ensures !WhiteSpace(Utf8.RUNE_ERROR)
  {
  }

  /** Decoding the last rune of a byte string gives a white space exactly when SpaceAtEnd sees one, of the same
      length. */
  lemma LastSpaceIsDecoded(s: string, d: seq<Utf8.Byte>)
    requires s != "" && SameBytes(s, d)
    ensures d != []
    ensures SpaceAtEnd(s) == if WhiteSpace(Utf8.DecodeLast(d).rune) then Utf8.DecodeLast(d).size else 0
  {
    hide WhiteSpace, Utf8.DecodeLast, EndSpace, SpaceAtEnd;
    EndSpaceIs(s, d);
    EndSpaceIsDecoded(d);
  }

  function TrimSpaceLeft(s: string): string
    decreases |s|
  {
    var n := SpaceAtStart(s);
    if n > 0 then TrimSpaceLeft(s[n..]) else s
  }

  function TrimSpaceRight(s: string): string
    decreases |s|
  {
    var n := SpaceAtEnd(s);
    if n > 0 then TrimSpaceRight(s[..|s| - n]) else s
  }

  function TrimSpace(s: string): string { TrimSpaceRight(TrimSpaceLeft(s)) }

  /** A white space character behind s does not turn the beginning of s into a white space rune. */
  lemma StartOfSnoc(s: string, c: char)
    requires s != "" && AsciiSpace(c)
    ensures SpaceAtStart(s + [c]) == SpaceAtStart(s)
  {
    var t := s + [c];
    assert t[0] == s[0] && t[|s|] == c;
    if |s| > 1 { assert t[1] == s[1]; }
    if |s| > 2 { assert t[2] == s[2]; }
  }

  lemma {:induction false} TrimSpaceSnoc(s: string, c: char)
    requires AsciiSpace(c)
    ensures TrimSpace(s + [c]) == TrimSpace(s)
    decreases |s|
  {
    hide SpaceAtStart, SpaceAtEnd;
    NoSpaceInNothing();
    if s == "" {
      assert s + [c] == [c];
      SpaceAlone(c);
    } else {
      StartOfSnoc(s, c);
      var n := SpaceAtStart(s);
      if n > 0 {
        assert (s + [c])[n..] == s[n..] + [c];
        TrimSpaceSnoc(s[n..], c);
      } else {
        EndOfSnoc(s, c);
        assert (s + [c])[..|s|] == s;
      }
    }
  }

  lemma NoSpaceInNothing()
    ensures SpaceAtStart("") == 0 == SpaceAtEnd("")
  {
  }

  lemma SpaceAlone(c: char)
    requires AsciiSpace(c)
    ensures TrimSpaceLeft([c]) == "" == TrimSpaceLeft("")
  {
    assert SpaceAtStart([c]) == 1 && [c][1..] == "";
  }

  lemma EndOfSnoc(s: string, c: char)
    requires AsciiSpace(c)
    ensures SpaceAtEnd(s + [c]) == 1
  {
    assert (s + [c])[|s|] == c;
  }

  lemma {:induction false} TrimSpaceLeftShape(s: string)
    ensures |TrimSpaceLeft(s)| <= |s| && TrimSpaceLeft(s) == s[|s| - |TrimSpaceLeft(s)|..]
    ensures SpaceAtStart(TrimSpaceLeft(s)) == 0
    decreases |s|
  {
    hide SpaceAtStart;
    var n := SpaceAtStart(s);
    if n > 0 { TrimSpaceLeftShape(s[n..]); }
  }

  lemma {:induction false} TrimSpaceRightShape(s: string)
    ensures TrimSpaceRight(s) <= s && SpaceAtEnd(TrimSpaceRight(s)) == 0
    decreases |s|
  {
    hide SpaceAtEnd;
    var n := SpaceAtEnd(s);
    if n > 0 { TrimSpaceRightShape(s[..|s| - n]); }
  }

  lemma StartOfPrefix(a: string, s: string)
    requires a <= s && SpaceAtStart(s) == 0
    ensures SpaceAtStart(a) == 0
  {
    hide TwoByteSpace, ThreeByteSpace, AsciiSpace;
  }

  /** One white space rune behind the other. */
  predicate AllWhite(s: string)
    decreases |s|
  {
    var n := SpaceAtStart(s);
    s == "" || (n > 0 && AllWhite(s[n..]))
  }

  lemma StartOfConcat(a: string, b: string)
    requires SpaceAtStart(a) > 0
    ensures SpaceAtStart(a + b) == SpaceAtStart(a)
  {
    var s := a + b;
    assert s[0] == a[0];
    if |a| >= 2 { assert s[1] == a[1]; }
    if |a| >= 3 { assert s[2] == a[2]; }
  }

  lemma {:induction false} AllWhiteConcat(a: string, b: string)
    requires AllWhite(a) && AllWhite(b)
    ensures AllWhite(a + b)
    decreases |a|
  {
    hide SpaceAtStart, AllWhite;
    WhiteStep(a);
    if a == "" {
      assert a + b == b;
    } else {
      var n := SpaceAtStart(a);
      StartOfConcat(a, b);
      AllWhiteConcat(a[n..], b);
      RestOfConcat(a, b, n);
      WhiteStep(a + b);
    }
  }

  lemma WhiteStep(s: string)
    ensures AllWhite(s) <==> s == "" || (SpaceAtStart(s) > 0 && AllWhite(s[SpaceAtStart(s)..]))
  {
    hide SpaceAtStart;
  }

  lemma RestOfConcat(a: string, b: string, n: nat)
    requires n <= |a|
    ensures (a + b)[n..] == a[n..] + b
  {
  }

  /** A white space rune at the end is one by itself. */
  lemma OneSpaceIsWhite(s: string)
    requires OneSpace(s)
    ensures AllWhite(s)
  {
    hide AllWhite;
    WhiteStep(s);
    WhiteStep("");
    assert SpaceAtStart(s) == |s| && s[|s|..] == "";
  }

  lemma SplitAt(s: string, n: nat, k: nat)
    requires n <= k <= |s|
    ensures s[n..][..k - n] == s[n..k] && s[n..][k - n..] == s[k..] && s[..k] == s[..n] + s[n..k]
    ensures s[..k][..n] == s[..n] && s[n..] == s[n..k] + s[k..] && s == s[..n] + s[n..]
  {
  }

  lemma {:induction false} TrimSpaceLeftRemoves(s: string)
    ensures var k := |s| - |TrimSpaceLeft(s)|; 0 <= k && TrimSpaceLeft(s) == s[k..] && AllWhite(s[..k])
    decreases |s|
  {
    hide SpaceAtStart, SpaceAtEnd, OneSpace, AllWhite;
    WhiteStep("");
    var n := SpaceAtStart(s);
    if n > 0 {
      TrimSpaceLeftRemoves(s[n..]);
      var k := |s| - |TrimSpaceLeft(s)|;
      SplitAt(s, n, k);
      SpaceFoundAtStart(s);
      OneSpaceIsWhite(s[..n]);
      AllWhiteConcat(s[..n], s[n..k]);
    } else {
      assert s[..0] == "";
    }
  }

  lemma {:induction false} TrimSpaceRightRemoves(s: string)
    ensures var k := |TrimSpaceRight(s)|; k <= |s| && TrimSpaceRight(s) == s[..k] && AllWhite(s[k..])
    decreases |s|
  {
    hide SpaceAtEnd, SpaceAtStart, OneSpace, AllWhite;
    WhiteStep("");
    var n := SpaceAtEnd(s);
    if n > 0 {
      var m := |s| - n;
      TrimSpaceRightRemoves(s[..m]);
      var k := |TrimSpaceRight(s)|;
      SplitAt(s, k, m);
      assert s[..m][k..] == s[k..m];
      SpaceFoundAtEnd(s);
      OneSpaceIsWhite(s[m..]);
      AllWhiteConcat(s[k..m], s[m..]);
    } else {
      assert s[|s|..] == "";
    }
  }

  lemma ThreeParts(s: string, i: nat, k: nat)
    requires i <= |s| && k <= |s[i..]|
    ensures s == s[..i] + s[i..][..k] + s[i..][k..]
  {
  }

  /** Trimming takes white space runes off both ends and nothing else, and leaves none there. */
  lemma TrimSpaceRemoves(s: string)
    ensures exists a, b :: AllWhite(a) && AllWhite(b) && s == a + TrimSpace(s) + b
    ensures SpaceAtStart(TrimSpace(s)) == 0 == SpaceAtEnd(TrimSpace(s))
    ensures TrimSpace(TrimSpace(s)) == TrimSpace(s)
  {
    hide SpaceAtStart, SpaceAtEnd, AllWhite, TrimSpaceLeft, TrimSpaceRight, TrimSpace;
    TrimSpaceShape(s);
    var a, b := TrimmedParts(s);
  }

  lemma TrimmedParts(s: string) returns (a: string, b: string)
    ensures AllWhite(a) && AllWhite(b) && s == a + TrimSpace(s) + b
  {
    hide SpaceAtStart, SpaceAtEnd, AllWhite, TrimSpaceLeft, TrimSpaceRight;
    var l := TrimSpaceLeft(s);
    TrimSpaceLeftRemoves(s);
    TrimSpaceRightRemoves(l);
    var i, k := |s| - |l|, |TrimSpaceRight(l)|;
    a, b := s[..i], l[k..];
    ThreeParts(s, i, k);
  }

  /** A text without white space at its ends is left as it is. */
  lemma TrimmedStays(s: string)
    requires SpaceAtStart(s) == 0 == SpaceAtEnd(s)
    ensures TrimSpace(s) == s
  {
    hide SpaceAtStart, SpaceAtEnd;
  }

  /** A trimmed text is part of the text, has no white space rune at either end, and stays as it is. */
  lemma TrimSpaceShape(s: string)
    ensures |TrimSpace(s)| <= |s| && (forall c :: c in TrimSpace(s) ==> c in s)
    ensures SpaceAtStart(TrimSpace(s)) == 0 == SpaceAtEnd(TrimSpace(s))
    ensures TrimSpace(TrimSpace(s)) == TrimSpace(s)
  {
    hide SpaceAtStart, SpaceAtEnd;
    TrimSpaceLeftShape(s);
    TrimSpaceRightShape(TrimSpaceLeft(s));
    StartOfPrefix(TrimSpace(s), TrimSpaceLeft(s));
  }

  lemma SplitOne(s: string)
    requires LF !in s
    ensures Split(s) == [s]
  {
    NoLineFeed(s, 0);
    assert s[..|s|] == s;
  }

  lemma {:induction false} NoLineFeed(s: string, p: nat)
    requires p <= |s| && forall k :: p <= k < |s| ==> s[k] != LF
    ensures LineEnd(s, p) == |s|
    decreases |s| - p
  {
    if p < |s| { NoLineFeed(s, p + 1); }
  }

  lemma SplitCons(a: string, b: string)
    requires LF !in a
    ensures Split(a + "\n" + b) == [a] + Split(b)
  {
    var s := a + "\n" + b;
    assert forall k :: 0 <= k < |a| ==> s[k] == a[k] && a[k] in a;
    assert s[|a|] == LF;
    LineEndAt(s, 0, |a|);
    assert s[..|a|] == a && s[|a| + 1..] == b;
  }

  lemma {:induction false} LineEndAt(s: string, p: nat, q: nat)
    requires p <= q < |s| && s[q] == LF && forall k :: p <= k < q ==> s[k] != LF
    ensures LineEnd(s, p) == q
    decreases q - p
  {
    if p < q { LineEndAt(s, p + 1, q); }
  }

  lemma {:induction false} SplitJoin(lines: seq<string>)
    requires lines != [] && forall k :: 0 <= k < |lines| ==> LF !in lines[k]
    ensures Split(Join(lines, "\n")) == lines
    decreases |lines|
  {
    hide Split;
    if |lines| == 1 {
      SplitOne(lines[0]);
    } else {
      SplitJoin(lines[1..]);
      SplitCons(lines[0], Join(lines[1..], "\n"));
      assert lines == [lines[0]] + lines[1..];
    }
  }

  lemma {:induction false} JoinSplit(s: string)
    ensures Join(Split(s), "\n") == s
    decreases |s|
  {
    var e := LineEnd(s, 0);
    if e < |s| {
      JoinSplit(s[e + 1..]);
      JoinCons(s[..e], Split(s[e + 1..]), "\n");
      assert s == s[..e] + "\n" + s[e + 1..];
    }
  }

  /** One more character is a new empty line or belongs to the last line. */
  function Snoc(l: seq<string>, c: char): seq<string>
    requires l != []
  {
    if c == LF then l + [""] else l[..|l| - 1] + [l[|l| - 1] + [c]]
  }

  lemma SnocCons(a: string, l: seq<string>, c: char)
    requires l != []
    ensures Snoc([a] + l, c) == [a] + Snoc(l, c)
  {
    assert ([a] + l)[..|l|] == [a] + l[..|l| - 1];
  }

  lemma SplitSnocOneLine(s: string, c: char)
    requires LF !in s
    ensures Split(s + [c]) == Snoc(Split(s), c)
  {
    hide Split;
    SplitOne(s);
    if c == LF {
      assert s + [c] == s + "\n" + "";
      SplitCons(s, "");
      SplitOne("");
    } else {
      SplitOne(s + [c]);
    }
  }

  lemma {:induction false} SplitSnoc(s: string, c: char)
    ensures Split(s + [c]) == Snoc(Split(s), c)
    decreases |s|
  {
    hide Split, Snoc;
    var e := LineEnd(s, 0);
    var a := s[..e];
    assert LF !in a;
    if e == |s| {
      assert a == s;
      SplitSnocOneLine(s, c);
    } else {
      var b := s[e + 1..];
      assert s == a + "\n" + b && s + [c] == a + "\n" + (b + [c]);
      SplitCons(a, b);
      SplitCons(a, b + [c]);
      SplitSnoc(b, c);
      SnocCons(a, Split(b), c);
    }
  }
}
