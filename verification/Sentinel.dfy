/** The sentinel token, from `internal/terminator/sentinel.go`. */
module Sentinel {
  import opened Text
  import opened Lines
  import opened Sequences

  const DEFAULT_SENTINEL := "<<END>>"

  /** `NewSentinel` and `StripSentinel` both replace an empty token by the default. */
  function TokenOr(token: string): string { if token == "" then DEFAULT_SENTINEL else token }

  /** The token fills a line but for white space around it. */
  predicate OnOwnLine(s: string, token: string) {
    token != "" && exists k :: 0 <= k < |Split(s)| && TrimSpace(Split(s)[k]) == token
  }

  method ContainsOnOwnLine(s: string, token: string) returns (r: bool)
    ensures r <==> OnOwnLine(s, token)
  {
    if token == "" {
      return false;
    }
    var lines := Split(s);
    for k := 0 to |lines|
      invariant forall j :: 0 <= j < k ==> TrimSpace(lines[j]) != token
    {
      if TrimSpace(lines[k]) == token {
        return true;
      }
    }
    return false;
  }

  /** The number of lines in front of the first one that is the token. */
  function LinesBefore(lines: seq<string>, token: string): (n: nat)
    ensures n <= |lines|
  {
    if lines == [] || TrimSpace(lines[0]) == token then 0 else 1 + LinesBefore(lines[1..], token)
  }

  lemma {:induction false} LinesBeforeShape(lines: seq<string>, token: string)
    ensures var n := LinesBefore(lines, token);
      (forall k :: 0 <= k < n ==> TrimSpace(lines[k]) != token) && (n < |lines| ==> TrimSpace(lines[n]) == token)
    decreases |lines|
  {
    hide TrimSpace;
    if lines != [] { LinesBeforeShape(lines[1..], token); }
  }

  function Stripped(response: string, token: string): string {
    var lines := Split(response);
    var n := LinesBefore(lines, TokenOr(token));
    if n == |lines| then response else TrimRight(Join(lines[..n], "\n"))
  }

  method StripSentinel(response: string, token: string) returns (r: string)
    ensures r == Stripped(response, token)
  {
    hide TrimSpace;
    var tok := TokenOr(token);
    var lines := Split(response);
    var out: seq<string> := [];
    var k := 0;
    while k < |lines|
      invariant 0 <= k <= |lines| && out == lines[..k]
      invariant LinesBefore(lines, tok) == k + LinesBefore(lines[k..], tok)
    {
      if TrimSpace(lines[k]) == tok {
        break;
      }
      out := out + [lines[k]];
      k := k + 1;
    }
    if |out| == |lines| {
      return response;
    }
    return TrimRight(Join(out, "\n"));
  }

  // ---------- nothing leaks ----------

  /** Dropping trailing white space does not bring up the token. */
  lemma {:induction false} TrimRightHides(s: string, token: string)
    requires token != "" && !OnOwnLine(s, token)
    ensures !OnOwnLine(TrimRight(s), token)
    decreases |s|
  {
    if s != "" && Space(s[|s| - 1]) {
      DropLastHides(s, token);
      TrimRightHides(s[..|s| - 1], token);
    }
  }

  lemma DropLastHides(s: string, token: string)
    requires token != "" && !OnOwnLine(s, token) && s != "" && Space(s[|s| - 1])
    ensures !OnOwnLine(s[..|s| - 1], token)
  {
    hide Split, TrimSpace;
    var t, c := s[..|s| - 1], s[|s| - 1];
    assert s == t + [c];
    SplitSnoc(t, c);
    var l, l' := Split(t), Split(s);
    TrimSpaceSnoc(l[|l| - 1], c);
    forall k | 0 <= k < |l| ensures TrimSpace(l[k]) != token {
      assert TrimSpace(l'[k]) == TrimSpace(l[k]);
    }
  }

  lemma PrefixHides(lines: seq<string>, token: string)
    requires token != "" && forall k :: 0 <= k < |lines| ==> TrimSpace(lines[k]) != token && LF !in lines[k]
    ensures !OnOwnLine(Join(lines, "\n"), token)
  {
    if lines == [] {
      SplitOne("");
    } else {
      SplitJoin(lines);
    }
  }

  /** The stripped text has no line that is the token; stripping again changes nothing; it changes the
      text exactly when the terminator would see the token; and it keeps an initial part of the text. */
  lemma SentinelNeverLeaks(response: string, token: string)
    requires token != ""
    ensures !OnOwnLine(Stripped(response, token), token)
    ensures Stripped(Stripped(response, token), token) == Stripped(response, token)
    ensures Stripped(response, token) != response <==> OnOwnLine(response, token)
    ensures Stripped(response, token) <= response
  {
    hide TrimSpace;
    var lines := Split(response);
    var n := LinesBefore(lines, token);
    LinesBeforeShape(lines, token);
    StripUnseen(Stripped(response, token), token);
    if n < |lines| {
      var kept := Join(lines[..n], "\n");
      PrefixHides(lines[..n], token);
      TrimRightHides(kept, token);
      JoinPrefix(lines, n, "\n");
      JoinSplit(response);
      TrimRightShape(kept);
      assert TrimRight(kept) <= kept <= response;
    }
  }

  lemma StripUnseen(s: string, token: string)
    requires token != ""
    ensures !OnOwnLine(s, token) ==> Stripped(s, token) == s
  {
    hide TrimSpace;
    LinesBeforeShape(Split(s), token);
  }

  // ---------- what is stripped ----------

  /** What the comment on StripSentinel promises: the first line that is the token is taken out, and white
      space left at the end is trimmed. */
  function WithoutFirst(response: string, token: string): string {
    var lines := Split(response);
    var n := LinesBefore(lines, TokenOr(token));
    if n == |lines| then response else TrimRight(Join(lines[..n] + lines[n + 1..], "\n"))
  }

  /** What stands behind the first line that is the token; nothing, if there is none. */
  function BehindToken(response: string, token: string): string {
    var lines := Split(response);
    var n := LinesBefore(lines, TokenOr(token));
    if n == |lines| then "" else Join(lines[n + 1..], "\n")
  }

  /** Text behind a text is trimmed away whole if it is white space, and else not. */
  lemma TrimRightKeeps(a: string, b: string)
    ensures AllSpace(b) ==> TrimRight(a + b) == TrimRight(a)
    ensures !AllSpace(b) ==> |TrimRight(a + b)| > |a|
  {
    hide TrimRight;
    if AllSpace(b) {
      TrimRightSpace(a, b);
    } else {
      var s := a + b;
      TrimRightShape(s);
      var k :| 0 <= k < |b| && !Space(b[k]);
      assert s[|a| + k] == b[k];
      if |TrimRight(s)| <= |a| + k { assert s[|TrimRight(s)|..][|a| + k - |TrimRight(s)|] == b[k]; }
    }
  }

  lemma TrimRightLength(s: string)
    ensures |TrimRight(s)| <= |s|
  {
    TrimRightShape(s);
  }

  lemma SpaceLineBehind(rest: string)
    ensures AllSpace("\n" + rest) <==> AllSpace(rest)
  {
    var s := "\n" + rest;
    assert s[0] == '\n' && forall k :: 0 <= k < |rest| ==> s[k + 1] == rest[k];
    forall k | 1 <= k < |s| ensures s[k] == rest[k - 1] {}
  }

  lemma LineBehind(front: string, rest: string)
    ensures TrimRight(front + "\n" + rest) == TrimRight(front) <==> AllSpace(rest)
  {
    hide TrimRight, AllSpace;
    assert front + "\n" + rest == front + ("\n" + rest);
    TrimRightKeeps(front, "\n" + rest);
    TrimRightLength(front);
    SpaceLineBehind(rest);
  }

  /** The token line is taken out as promised exactly when nothing but white space stands behind it: the
      code drops everything behind it as well. */
  lemma StripsFirstExactly(response: string, token: string)
    ensures Stripped(response, token) == WithoutFirst(response, token) <==> AllSpace(BehindToken(response, token))
  {
    hide TrimSpace, LinesBefore, Split, TrimRight, Join;
    var lines := Split(response);
    var n := LinesBefore(lines, TokenOr(token));
    if n < |lines| {
      var a, b := lines[..n], lines[n + 1..];
      if a == [] {
        assert a + b == b;
        JoinNothing<char>("\n");
        LineBehindNothing(Join(b, "\n"));
      } else if b == [] {
        assert a + b == a;
        JoinNothing<char>("\n");
      } else {
        JoinAppend(a, b, "\n");
        LineBehind(Join(a, "\n"), Join(b, "\n"));
      }
    }
  }

  lemma LineBehindNothing(rest: string)
    ensures TrimRight("") == "" && (TrimRight(rest) == "" <==> AllSpace(rest))
  {
    assert "" + rest == rest;
    TrimRightKeeps("", rest);
  }

  lemma ThreeLines(a: string, b: string, c: string)
    requires LF !in a && LF !in b && LF !in c
    ensures Split(a + "\n" + (b + "\n" + c)) == [a, b, c]
  {
    hide Split;
    SplitCons(a, b + "\n" + c);
    SplitCons(b, c);
    SplitOne(c);
  }

  lemma SecondOfThree(a: string, token: string, c: string)
    requires TrimSpace(a) != token && TrimSpace(token) == token
    ensures LinesBefore([a, token, c], token) == 1
  {
    hide TrimSpace;
    assert [a, token, c][1..][0] == token;
  }

  /** A response that goes on behind the token loses what follows it. */
  lemma StripDropsTheRest()
    ensures Stripped("a\n<<END>>\nb", "") == "a" && WithoutFirst("a\n<<END>>\nb", "") == "a\nb"
  {
    hide TrimSpace, LinesBefore, Split, TrimRight, Join;
    ThreeLines("a", "<<END>>", "b");
    assert "a" + "\n" + ("<<END>>" + "\n" + "b") == "a\n<<END>>\nb";
    Untrimmed("a");
    Untrimmed("<<END>>");
    SecondOfThree("a", "<<END>>", "b");
    var lines := ["a", "<<END>>", "b"];
    assert lines[..1] == ["a"] && lines[..1] + lines[2..] == ["a"] + ["b"];
    JoinOne("a", "\n");
    JoinOne("b", "\n");
    JoinCons("a", ["b"], "\n");
    assert "a" + "\n" + "b" == "a\nb";
    NothingToTrim("a");
    NothingToTrim("a\nb");
  }

  lemma Untrimmed(s: string)
    requires s != "" && '!' < s[0] < '\U{007F}' && '!' < s[|s| - 1] < '\U{007F}'
    ensures TrimSpace(s) == s
  {
    hide TrimSpace;
    TrimmedStays(s);
  }

  lemma NothingToTrim(s: string)
    requires s != "" && !Space(s[|s| - 1])
    ensures TrimRight(s) == s
  {
  }
}
