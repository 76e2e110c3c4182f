/** Which replies name the next speaker, said about the letters of the reply. */
module TrailerLaws {
  import opened Wrappers
  import opened Text
  import opened Lines
  import opened Policy

  /** A small letter and up to 31 small letters, digits, underscores and hyphens. */
  predicate IdText(id: string) {
    1 <= |id| <= 32 && 'a' <= id[0] <= 'z' &&
    forall k :: 0 <= k < |id| ==> 'a' <= id[k] <= 'z' || '0' <= id[k] <= '9' || id[k] == '_' || id[k] == '-'
  }

  /** The reply ends in a line <<NEXT: id>>, with blanks around the id, and nothing but white space follows. */
  predicate NamedBy(reply: string, id: string, text: string, a: string, b: string, ws: string) {
    reply == text + ("<<NEXT:" + a + id + b + ">>") + ws && IdText(id) && (text != "" ==> text[|text| - 1] == '\n') &&
    (forall c :: c in a || c in b ==> c in {' ', '\t', '\r', '\U{000C}'}) && forall c :: c in ws ==> c in {' ', '\t', '\r', '\n'}
  }

  ghost predicate Names(reply: string, id: string) {
    exists text, a, b, ws :: NamedBy(reply, id, text, a, b, ws)
  }

  // ---------- the last line with text ----------

  lemma LastTextSnoc(s: string, c: char)
    requires Space(c)
    ensures LastText(Split(s + [c])) == LastText(Split(s))
  {
    hide Split;
    SplitSnoc(s, c);
    var l := Split(s);
    var n := |l| - 1;
    if c == LF {
      assert (l + [""])[..|l|] == l;
    } else {
      TrimRightSpace(l[n], [c]);
      assert (l[..n] + [l[n] + [c]])[..n] == l[..n];
    }
  }

  lemma {:induction false} LastTextBehind(s: string, ws: string)
    requires AllSpace(ws)
    ensures LastText(Split(s + ws)) == LastText(Split(s))
    decreases |ws|
  {
    hide Split, LastText;
    if ws == "" {
      assert s + ws == s;
    } else {
      var n := |ws| - 1;
      assert s + ws == s + ws[..n] + [ws[n]];
      LastTextSnoc(s + ws[..n], ws[n]);
      LastTextBehind(s, ws[..n]);
    }
  }

  /** The last line of a text that does not end in white space. */
  lemma LastTextIs(text: string, line: string)
    requires LF !in line && line != "" && !Space(line[|line| - 1]) && (text != "" ==> text[|text| - 1] == LF)
    ensures LastText(Split(text + line)) == line
  {
    hide Split;
    if text == "" {
      assert text + line == line;
      SplitOne(line);
    } else {
      var front := text[..|text| - 1];
      assert text + line == front + "\n" + line;
      LastLine(front, line);
    }
    assert TrimRight(line) == line;
  }

  lemma LastLineParts(s: string) returns (text: string, line: string)
    ensures s == text + line && LF !in line && (text != "" ==> text[|text| - 1] == LF)
  {
    var p := LineStart(s, |s|);
    text, line := s[..p], s[p..];
  }

  // ---------- the trailer ----------

  lemma NamedIsTrailer(reply: string, id: string, text: string, a: string, b: string, ws: string)
    requires NamedBy(reply, id, text, a, b, ws)
    ensures Trailer(reply) == Some(id)
  {
    hide MatchNext, Split, LastText;
    Characters(a, b, ws);
    var line := NEXT_OPEN + a + id + b + NEXT_CLOSE;
    MatchFound(a, id, b);
    TrailerLine(a, id, b);
    LastTextIs(text, line);
    LastTextBehind(text + line, ws);
  }

  lemma Characters(a: string, b: string, ws: string)
    requires forall c :: c in a || c in b ==> c in {' ', '\t', '\r', '\U{000C}'}
    requires forall c :: c in ws ==> c in {' ', '\t', '\r', '\n'}
    ensures AllBlank(a) && AllBlank(b) && LF !in a && LF !in b && AllSpace(ws)
  {
    assert (forall k :: 0 <= k < |a| ==> a[k] in a) && (forall k :: 0 <= k < |b| ==> b[k] in b);
    assert forall k :: 0 <= k < |ws| ==> ws[k] in ws;
  }

  lemma TrailerIsNamed(reply: string, id: string) returns (text: string, a: string, b: string, ws: string)
    requires Trailer(reply) == Some(id)
    ensures NamedBy(reply, id, text, a, b, ws)
  {
    hide MatchNext, Split, LastText;
    var s := TrimRight(reply);
    TrimRightShape(reply);
    ws := reply[|s|..];
    assert reply == s + ws;
    LastTextBehind(s, ws);
    NotEmpty(s);
    var line;
    text, line := LastLineParts(s);
    assert line[|line| - 1] == s[|s| - 1];
    LastTextIs(text, line);
    a, b := MatchSound(line, id);
    Regroup(line, a, id, b);
    NoLineFeedIn(line, a, id, b);
  }

  lemma NotEmpty(s: string)
    ensures LastText(Split("")) == "" && ("" == s ==> LastText(Split(s)) == "")
  {
    SplitOne("");
    assert [""][..0] == [];
  }

  lemma NoLineFeedIn(line: string, a: string, id: string, b: string)
    requires LF !in line && line == NEXT_OPEN + a + id + b + NEXT_CLOSE && AllBlank(a) && AllBlank(b)
    ensures forall c :: c in a || c in b ==> c in {' ', '\t', '\r', '\U{000C}'}
  {
    forall k | 0 <= k < |a| ensures a[k] != LF { assert line[7 + k] == a[k]; }
    forall k | 0 <= k < |b| ensures b[k] != LF { assert line[7 + |a| + |id| + k] == b[k]; }
  }

  /** A reply has a trailer exactly when it names a peer in this way. */
  lemma TrailerIsExact(reply: string, id: string)
    ensures Trailer(reply) == Some(id) <==> Names(reply, id)
  {
    hide Trailer, NamedBy;
    if Trailer(reply) == Some(id) {
      var text, a, b, ws := TrailerIsNamed(reply, id);
    }
    if Names(reply, id) {
      var text, a, b, ws :| NamedBy(reply, id, text, a, b, ws);
      NamedIsTrailer(reply, id, text, a, b, ws);
    }
  }
}
