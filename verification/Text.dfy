/** Searching and trimming text. A Go byte string is a `string` here, one char for each byte. */
module Text {

  /** m stands in s at p. */
  predicate OccursAt(s: string, m: string, p: nat) {
    p + |m| <= |s| && s[p..p + |m|] == m
  }

  ghost predicate Contains(s: string, m: string) {
    exists p: nat :: OccursAt(s, m, p)
  }

  /** The first occurrence of m in s at or behind `from`, or -1. */
  function IndexFrom(s: string, m: string, from: nat): (r: int)
    ensures r == -1 || (from <= r && OccursAt(s, m, r))
    ensures forall q: nat :: from <= q && (r < 0 || q < r) ==> !OccursAt(s, m, q)
    decreases |s| - from
  {
    if from + |m| > |s| then -1
    else if OccursAt(s, m, from) then from
    else IndexFrom(s, m, from + 1)
  }

  lemma OccursChars(s: string, m: string, p: nat, k: nat)
    requires OccursAt(s, m, p) && k < |m|
    ensures s[p + k] == m[k]
  {
    assert s[p..p + |m|][k] == s[p + k];
  }

  lemma Covers(s: string, m: string, p: nat, i: nat)
    requires OccursAt(s, m, p) && p <= i < p + |m|
    ensures s[i] in m
  {
    OccursChars(s, m, p, i - p);
  }

  lemma OccursByChars(s: string, m: string, p: nat)
    requires p + |m| <= |s| && forall k :: 0 <= k < |m| ==> s[p + k] == m[k]
    ensures OccursAt(s, m, p)
  {
    assert s[p..p + |m|] == m;
  }

  /** A word lies wholly on one side of a character it does not have. */
  lemma NoStraddle(a: string, c: char, b: string, m: string, p: nat)
    requires m != "" && c !in m && OccursAt(a + [c] + b, m, p)
    ensures p + |m| <= |a| ==> OccursAt(a, m, p)
    ensures p + |m| <= |a| || (p > |a| && OccursAt(b, m, p - |a| - 1))
  {
    var s := a + [c] + b;
    assert s[|a|] == c;
    assert !(p <= |a| < p + |m|) by {
      if p <= |a| < p + |m| { Covers(s, m, p, |a|); }
    }
    if p + |m| <= |a| {
      assert s[p..p + |m|] == a[p..p + |m|];
    } else {
      var q := p - |a| - 1;
      assert s[p..p + |m|] == b[q..q + |m|];
    }
  }

  /** A word occurs in neither side and cannot straddle the character between them. */
  lemma ContainsNeither(a: string, c: char, b: string, m: string)
    requires m != "" && c !in m && !Contains(a, m) && !Contains(b, m)
    ensures !Contains(a + [c] + b, m)
  {
    forall p: nat ensures !OccursAt(a + [c] + b, m, p) {
      if OccursAt(a + [c] + b, m, p) { NoStraddle(a, c, b, m, p); }
    }
  }

  lemma ShortContainsNot(s: string, m: string)
    requires |s| < |m|
    ensures !Contains(s, m)
  {
  }

  lemma OtherCharsContainNot(s: string, m: string)
    requires m != "" && m[0] !in s
    ensures !Contains(s, m)
  {
    forall p: nat ensures !OccursAt(s, m, p) {
      if p + |m| <= |s| { assert s[p..p + |m|][0] == s[p]; }
    }
  }

  lemma PartContainsNot(s: string, m: string, lo: nat, hi: nat)
    requires lo <= hi <= |s| && !Contains(s, m)
    ensures !Contains(s[lo..hi], m)
  {
    forall p: nat ensures !OccursAt(s[lo..hi], m, p) {
      if OccursAt(s[lo..hi], m, p) {
        forall k | 0 <= k < |m| ensures s[lo + p + k] == m[k] { OccursChars(s[lo..hi], m, p, k); }
        OccursByChars(s, m, lo + p);
      }
    }
  }

  /** The three parts of a concatenation, found again by position. */
  lemma Pieces(s: string, a: string, b: string, c: string)
    requires s == a + b + c
    ensures |s| == |a| + |b| + |c|
    ensures s[..|a|] == a && s[|a|..|a| + |b|] == b && s[|a| + |b|..] == c
    ensures s[|a|..] == b + c && s[..|a| + |b|] == a + b
    ensures OccursAt(s, b, |a|)
  {
  }

  // ---------- lines ----------

  const LF := '\n'

  /** The whitespace that may surround a marker on its line. */
  predicate Horizontal(c: char) { c == ' ' || c == '\t' || c == '\r' }

  predicate AllHorizontal(s: string) { forall k :: 0 <= k < |s| ==> Horizontal(s[k]) }

  /** The first position of the line p lies on. */
  function LineStart(s: string, p: nat): (q: nat)
    requires p <= |s|
    ensures q <= p && (q == 0 || s[q - 1] == LF)
    ensures forall k :: q <= k < p ==> s[k] != LF
  {
    if p > 0 && s[p - 1] != LF then LineStart(s, p - 1) else p
  }

  /** The position of the first line feed at or behind p, or |s|. */
  function LineEnd(s: string, p: nat): (q: nat)
    requires p <= |s|
    ensures p <= q <= |s| && (q == |s| || s[q] == LF)
    ensures forall k :: p <= k < q ==> s[k] != LF
    decreases |s| - p
  {
    if p < |s| && s[p] != LF then LineEnd(s, p + 1) else p
  }

  // ---------- trimming ----------

  predicate Space(c: char) { c == '\n' || c == '\r' || c == ' ' || c == '\t' }

  predicate AllSpace(s: string) { forall k :: 0 <= k < |s| ==> Space(s[k]) }

  function TrimLeft(s: string): string {
    if s != "" && Space(s[0]) then TrimLeft(s[1..]) else s
  }

  function TrimRight(s: string): string {
    if s != "" && Space(s[|s| - 1]) then TrimRight(s[..|s| - 1]) else s
  }

  /** A text without the whitespace around it. */
  function Trim(s: string): string { TrimRight(TrimLeft(s)) }

  lemma {:induction false} TrimLeftSpace(a: string, s: string)
    requires AllSpace(a)
    ensures TrimLeft(a + s) == TrimLeft(s)
  {
    if a == "" {
      assert a + s == s;
    } else {
      assert (a + s)[0] == a[0] && (a + s)[1..] == a[1..] + s;
      TrimLeftSpace(a[1..], s);
    }
  }

  lemma {:induction false} TrimRightSpace(s: string, b: string)
    requires AllSpace(b)
    ensures TrimRight(s + b) == TrimRight(s)
  {
    if b == "" {
      assert s + b == s;
    } else {
      var l := |b| - 1;
      assert (s + b)[|s| + l] == b[l] && (s + b)[..|s| + l] == s + b[..l];
      TrimRightSpace(s, b[..l]);
    }
  }

  lemma {:induction false} TrimLeftShape(s: string)
    ensures |TrimLeft(s)| <= |s| && TrimLeft(s) == s[|s| - |TrimLeft(s)|..]
    ensures AllSpace(s[..|s| - |TrimLeft(s)|])
    ensures TrimLeft(s) != "" ==> !Space(TrimLeft(s)[0])
  {
    if s != "" && Space(s[0]) {
      TrimLeftShape(s[1..]);
      var n := |s| - |TrimLeft(s)|;
      assert s[..n] == [s[0]] + s[1..][..n - 1];
      assert s[n..] == s[1..][n - 1..];
    }
  }

  lemma {:induction false} TrimRightShape(s: string)
    ensures |TrimRight(s)| <= |s| && TrimRight(s) == s[..|TrimRight(s)|]
    ensures AllSpace(s[|TrimRight(s)|..])
    ensures TrimRight(s) != "" ==> !Space(TrimRight(s)[|TrimRight(s)| - 1])
  {
    if s != "" && Space(s[|s| - 1]) {
      var t := s[..|s| - 1];
      TrimRightShape(t);
      var n := |TrimRight(s)|;
      assert s[n..] == t[n..] + [s[|s| - 1]];
      assert s[..n] == t[..n];
    }
  }

  /** Whitespace behind a text does not survive trimming. */
  lemma TrimBehind(s: string, b: string)
    requires AllSpace(b)
    ensures Trim(s + b) == Trim(s)
  {
    TrimLeftShape(s);
    var n := |s| - |TrimLeft(s)|;
    assert s == s[..n] + TrimLeft(s);
    assert s + b == s[..n] + (TrimLeft(s) + b);
    TrimLeftSpace(s[..n], TrimLeft(s) + b);
    if TrimLeft(s) == "" {
      TrimLeftSpace(b, "");
      assert b + "" == b && TrimLeft(s) + b == b;
    } else {
      assert TrimLeft(TrimLeft(s) + b) == TrimLeft(s) + b;
      TrimRightSpace(TrimLeft(s), b);
    }
  }

  /** Trimming takes whitespace off both ends and nothing else. */
  lemma TrimShape(s: string)
    ensures exists a, b :: AllSpace(a) && AllSpace(b) && s == a + Trim(s) + b
    ensures Trim(s) != "" ==> !Space(Trim(s)[0]) && !Space(Trim(s)[|Trim(s)| - 1])
  {
    var l := TrimLeft(s);
    TrimLeftShape(s);
    TrimRightShape(l);
    var a, b := s[..|s| - |l|], l[|Trim(s)|..];
    assert s == a + Trim(s) + b;
  }

  lemma {:induction false} TrimRightNothing(s: string)
    requires s != "" ==> s[|s| - 1] !in {'\n', '\r', ' ', '\t'}
    ensures TrimRight(s) == s
  {
  }

  /** Line feeds, returns, blanks and tabs around a text that neither begins nor ends with one of them. */
  lemma TrimIs(a: string, s: string, b: string)
    requires forall c :: c in a || c in b ==> c in {'\n', '\r', ' ', '\t'}
    requires s != "" ==> s[0] !in {'\n', '\r', ' ', '\t'} && s[|s| - 1] !in {'\n', '\r', ' ', '\t'}
    ensures Trim(a + s + b) == s
  {
    hide Trim;
    assert (forall k :: 0 <= k < |a| ==> a[k] in a) && forall k :: 0 <= k < |b| ==> b[k] in b;
    TrimBehind(a + s, b);
    TrimLeftSpace(a, s);
    TrimIsTwice(a + s);
    assert TrimLeft(s) == s;
    TrimRightNothing(s);
  }

  lemma TrimIsTwice(s: string)
    ensures Trim(s) == TrimRight(TrimLeft(s))
  {
  }
}
