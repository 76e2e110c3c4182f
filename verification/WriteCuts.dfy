/** Where a stream may be cut into two writes: exactly where no continuation makes a token straddle the cut. */
module WriteCuts {
  import opened Utf8
  import opened ControlSequences
  import opened Terminal
  import opened TerminalLaws

  /** Two writes come to the same as one, in what they leave behind and in what they index. */
  ghost predicate Composes(t: Terminal, a: seq<Byte>, b: seq<Byte>)
    requires Shaped(t)
  {
    (Safe(t, a + b, 0) <==> Safe(t, a, 0) && Safe(Feed(t, a, 0), b, 0)) &&
    Feed(t, a + b, 0) == Feed(Feed(t, a, 0), b, 0)
  }

  /** With b behind it, a token of a + b starts in a at k and ends behind a. */
  predicate Straddles(a: seq<Byte>, b: seq<Byte>, k: nat) {
    k < |a| && Reaches(a + b, 0, k) && Scan(a + b, k).1 > |a|
  }

  lemma {:induction false} FindStraddling(a: seq<Byte>, b: seq<Byte>, i: nat) returns (k: nat)
    requires i <= |a| && Reaches(a + b, 0, i) && !Reaches(a + b, i, |a|)
    ensures Straddles(a, b, k)
    decreases |a| - i
  {
    hide Scan;
    var next := Scan(a + b, i).1;
    ReachesOn(a + b, 0, i);
    if next > |a| {
      k := i;
    } else {
      k := FindStraddling(a, b, next);
    }
  }

  lemma {:induction false} ReachesOn(d: seq<Byte>, i: nat, j: nat)
    requires Reaches(d, i, j) && j < |d|
    ensures Reaches(d, i, Scan(d, j).1)
    decreases |d| - i
  {
    hide Scan;
    if i == j {
      assert Reaches(d, Scan(d, j).1, Scan(d, j).1);
    } else {
      ReachesOn(d, Scan(d, i).1, j);
    }
  }

  // ---------- streams that begin with the same tokens ----------

  /** Up to k the scanner meets the same tokens in e as in d. */
  predicate SameTokens(d: seq<Byte>, e: seq<Byte>, k: nat) {
    k <= |d| && k <= |e| && forall j :: 0 <= j < k && Scan(d, j).1 <= k ==> Scan(e, j) == Scan(d, j)
  }

  /** The terminal behind the first k bytes. */
  lemma {:induction false} FeedSameTokens(t: Terminal, d: seq<Byte>, e: seq<Byte>, f: seq<Byte>, i: nat, k: nat) returns (u: Terminal)
    requires Shaped(t) && Reaches(d, i, k) && SameTokens(d, e, k) && SameTokens(d, f, k)
    ensures Shaped(u) && Feed(t, e, i) == Feed(u, e, k) && Feed(t, f, i) == Feed(u, f, k)
    decreases |d| - i
  {
    hide Scan, Apply, Shaped;
    if i == k {
      u := t;
    } else {
      var s := Scan(d, i);
      ReachesIsForward(d, s.1, k);
      u := FeedSameTokens(Apply(t, s.0), d, e, f, s.1, k);
    }
  }

  lemma {:induction false} CsiEndKept(a: seq<Byte>, b: seq<Byte>, i: nat)
    requires i <= |a| && CsiEnd(a, i) < |a|
    ensures CsiEnd(a + b, i) == CsiEnd(a, i)
    decreases |a| - i
  {
    assert (a + b)[i] == a[i];
    if a[i] < 0x40 { CsiEndKept(a, b, i + 1); }
  }

  lemma {:induction false} OscEndKept(a: seq<Byte>, b: seq<Byte>, i: nat)
    requires i <= |a| && OscEnd(a, i) < |a|
    ensures OscEnd(a + b, i) == OscEnd(a, i)
    decreases |a| - i
  {
    assert (a + b)[i] == a[i] && (a + b)[i + 1] == a[i + 1];
    if a[i] != BEL && !StringTerminator(a, i) { OscEndKept(a, b, i + 1); }
  }

  /** A rune that has an escape byte behind it, even if not directly, is the same whatever follows. */
  lemma DecodeKept(a: seq<Byte>, b: seq<Byte>, i: nat, k: nat)
    requires i < k < |a| && a[k] == ESC
    ensures Decode(a + b, i) == Decode(a, i)
  {
    assert forall j :: 0 <= j < |a| ==> (a + b)[j] == a[j];
  }

  lemma ScanKept(a: seq<Byte>, b: seq<Byte>, i: nat, k: nat)
    requires i < k < |a| && a[k] == ESC && Scan(a, i).1 <= k
    ensures Scan(a + b, i) == Scan(a, i)
  {
    hide Decode;
    var d := a + b;
    assert d[i] == a[i] && d[i + 1] == a[i + 1];
    if a[i] == ESC {
      if a[i + 1] == '[' as int {
        var j := CsiEnd(a, i + 2);
        CsiEndKept(a, b, i + 2);
        assert d[i + 2..j] == a[i + 2..j];
      } else if a[i + 1] == ']' as int {
        OscEndKept(a, b, i + 2);
      }
    } else if a[i] >= 0x20 {
      DecodeKept(a, b, i, k);
    }
  }

  // ---------- a straddling escape sequence ----------

  /** A letter that ends no control function the program knows. */
  const X: seq<Byte> := ['x' as int]

  lemma {:induction false} CsiEndOpen(a: seq<Byte>, b: seq<Byte>, i: nat)
    requires i <= |a| && CsiEnd(a + b, i) >= |a|
    ensures CsiEnd(a, i) == |a| && CsiEnd(a + X, i) == |a|
    decreases |a| - i
  {
    if i < |a| {
      assert (a + b)[i] == a[i] == (a + X)[i];
      CsiEndOpen(a, b, i + 1);
    } else {
      assert (a + X)[i] == 'x' as int;
    }
  }

  lemma {:induction false} OscEndOpen(a: seq<Byte>, b: seq<Byte>, i: nat)
    requires i <= |a| && OscEnd(a + b, i) > |a|
    ensures OscEnd(a, i) == |a| && OscEnd(a + X, i) == |a| + 1
    decreases |a| - i
  {
    var d := a + X;
    if i < |a| {
      assert (a + b)[i] == a[i] == d[i];
      assert i + 1 < |a| ==> (a + b)[i + 1] == a[i + 1] == d[i + 1];
      assert i + 1 == |a| ==> d[i + 1] == 'x' as int;
      OscEndOpen(a, b, i + 1);
    } else {
      assert d[i] == 'x' as int && OscEnd(d, i + 1) == i + 1;
    }
  }

  /** An open escape sequence is nothing by itself, and with an x behind it it is nothing either. */
  lemma OpenEscape(a: seq<Byte>, b: seq<Byte>, k: nat)
    requires k < |a| && a[k] == ESC && Scan(a + b, k).1 > |a|
    ensures Scan(a, k).0.Ignored? && Scan(a, k).1 >= |a|
    ensures Scan(a + X, k).1 == |a| + 1
    ensures Scan(a + X, k).0.Ignored? || (Scan(a + X, k).0.Csi? && Scan(a + X, k).0.final == 'x' as int)
  {
    var d := a + b;
    assert d[k] == a[k] == (a + X)[k];
    assert k + 1 < |a| ==> d[k + 1] == a[k + 1] == (a + X)[k + 1];
    assert (a + X)[|a|] == 'x' as int;
    if k + 1 < |a| {
      if a[k + 1] == '[' as int {
        CsiEndOpen(a, b, k + 2);
      } else if a[k + 1] == ']' as int {
        OscEndOpen(a, b, k + 2);
      }
    }
  }

  lemma PrintingMoves(t: Terminal, r: int)
    requires Shaped(t)
    ensures PutRune(t, r).row != t.row || PutRune(t, r).col != t.col
  {
  }

  lemma FeedX(t: Terminal)
    requires Shaped(t)
    ensures Feed(t, X, 0) == PutRune(t, 'x' as int)
  {
    hide PutRune;
    assert Scan(X, 0) == (Print('x' as int), 1);
    assert Feed(PutRune(t, 'x' as int), X, 1) == PutRune(t, 'x' as int);
  }

  lemma FeedLast(t: Terminal, d: seq<Byte>, k: nat)
    requires Shaped(t) && k < |d| && Scan(d, k).1 >= |d|
    ensures Feed(t, d, k) == Apply(t, Scan(d, k).0)
  {
    hide Scan, Apply, Shaped;
  }

  lemma UnknownIsIgnored(t: Terminal, token: Token)
    requires Shaped(t) && (token.Ignored? || (token.Csi? && token.final == 'x' as int))
    ensures Apply(t, token) == t
  {
  }

  /** Cutting an escape sequence open prints the x that it would have swallowed. */
  lemma EscapeDoesNotCompose(t: Terminal, a: seq<Byte>, b: seq<Byte>, k: nat)
    requires Shaped(t) && Straddles(a, b, k) && a[k] == ESC
    ensures !Composes(t, a, X)
  {
    hide Scan, Apply, Feed, Safe, Shaped, PutRune, Reaches;
    forall j | 0 <= j < k && Scan(a + b, j).1 <= k ensures Scan(a, j) == Scan(a + b, j) && Scan(a + X, j) == Scan(a + b, j) {
      ScanPrefix(a, b, j);
      ScanKept(a, X, j, k);
    }
    var u := FeedSameTokens(t, a + b, a, a + X, 0, k);
    OpenEscape(a, b, k);
    FeedLast(u, a, k);
    FeedLast(u, a + X, k);
    UnknownIsIgnored(u, Scan(a, k).0);
    UnknownIsIgnored(u, Scan(a + X, k).0);
    FeedX(u);
    PrintingMoves(u, 'x' as int);
  }

  // ---------- a straddling rune ----------

  predicate AllContinuation(d: seq<Byte>, i: nat) { forall k :: i <= k < |d| ==> 0x80 <= d[k] < 0xC0 }

  lemma {:induction false} FeedContinuations(t: Terminal, d: seq<Byte>, i: nat)
    requires Shaped(t) && AllContinuation(d, i)
    ensures Feed(t, d, i) == t
    decreases |d| - i
  {
    if i < |d| {
      assert Scan(d, i) == (Ignored, i + 1);
      FeedContinuations(t, d, i + 1);
    }
  }

  lemma OpenRune(a: seq<Byte>, b: seq<Byte>, k: nat)
    requires k < |a| && a[k] != ESC && Scan(a + b, k).1 > |a|
    ensures var d, e := a + b, Scan(a + b, k).1;
      e <= |d| && d[k] >= 0x80 && !Decode(d, k).Invalid() && Scan(d, k).0.Print? &&
      (forall j :: k < j < e ==> 0x80 <= d[j] < 0xC0) && Scan(a, k) == (Ignored, k + 1)
  {
    var d := a + b;
    assert forall j :: 0 <= j < |a| ==> d[j] == a[j];
  }

  /** Cutting a rune open loses it. */
  lemma RuneDoesNotCompose(t: Terminal, a: seq<Byte>, b: seq<Byte>, k: nat)
    requires Shaped(t) && Straddles(a, b, k) && a[k] != ESC
    ensures var e := Scan(a + b, k).1; |a| < e <= |a + b| && !Composes(t, a, (a + b)[|a|..e])
  {
    hide Scan, Decode, Apply, Feed, Safe, Shaped, PutRune, Reaches;
    OpenRune(a, b, k);
    var e := Scan(a + b, k).1;
    var c, rest := (a + b)[|a|..e], (a + b)[e..];
    var d := a + c;
    assert d == (a + b)[..e] && d + rest == a + b;
    forall j | 0 <= j <= k && Scan(a + b, j).1 <= e ensures Scan(d, j) == Scan(a + b, j) {
      ScanPrefix(d, rest, j);
    }
    forall j | 0 <= j < k && Scan(a + b, j).1 <= k ensures Scan(a, j) == Scan(a + b, j) {
      ScanPrefix(a, b, j);
    }
    var u := FeedSameTokens(t, a + b, a, d, 0, k);
    FeedLast(u, d, k);
    forall j | k < j < |a| ensures 0x80 <= a[j] < 0xC0 { assert a[j] == (a + b)[j]; }
    FeedOpenRune(u, a, k);
    forall j | 0 <= j < |c| ensures 0x80 <= c[j] < 0xC0 { assert c[j] == (a + b)[|a| + j]; }
    FeedContinuations(u, c, 0);
    ApplyPrint(u, Scan(d, k).0);
    PrintingMoves(u, Scan(d, k).0.rune);
  }

  lemma FeedOpenRune(u: Terminal, a: seq<Byte>, k: nat)
    requires Shaped(u) && k < |a| && Scan(a, k) == (Ignored, k + 1) && AllContinuation(a, k + 1)
    ensures Feed(u, a, k) == u
  {
    hide Scan, Shaped;
    FeedContinuations(u, a, k + 1);
  }

  lemma ApplyPrint(t: Terminal, token: Token)
    requires Shaped(t) && token.Print?
    ensures Apply(t, token) == PutRune(t, token.rune)
  {
  }

  // ---------- both directions ----------

  /** From any state, all continuations of a may be written separately if and only if none of them makes a
      token straddle the cut. */
  lemma CutIsExact(t: Terminal, a: seq<Byte>)
    requires Shaped(t)
    ensures (forall b: seq<Byte> :: Composes(t, a, b)) <==> (forall b: seq<Byte> :: Reaches(a + b, 0, |a|))
  {
    hide Reaches, Scan, Composes, Shaped;
    forall b: seq<Byte> | Reaches(a + b, 0, |a|) ensures Composes(t, a, b) { ComposesAtCut(t, a, b); }
    if b: seq<Byte> :| !Reaches(a + b, 0, |a|) {
      ReachesItself(a + b, 0);
      var k := FindStraddling(a, b, 0);
      if a[k] == ESC {
        EscapeDoesNotCompose(t, a, b, k);
      } else {
        RuneDoesNotCompose(t, a, b, k);
      }
    }
  }

  lemma ComposesAtCut(t: Terminal, a: seq<Byte>, b: seq<Byte>)
    requires Shaped(t) && Reaches(a + b, 0, |a|)
    ensures Composes(t, a, b)
  {
    hide Feed, Safe;
    WritesCompose(t, a, b);
  }

  lemma ReachesItself(d: seq<Byte>, i: nat)
    ensures Reaches(d, i, i)
  {
  }
}
