/** What the parser of a --peer value makes of lists, blanks and mistakes. */
module FlagLaws {
  import opened Wrappers
  import opened Lines
  import opened FlagParser
  import opened PeerConfig

  // ---------- lists ----------

  /** What is parsed behind printed pairs is put behind them, or refused as it would be alone. */
  ghost predicate PutBehind(pairs: seq<Pair>, r: Result<seq<Pair>, SyntaxError>, whole: Result<seq<Pair>, SyntaxError>) {
    if r.Ok? then whole == Ok(pairs + r.value) else whole == r
  }

  lemma ParseOneOf(r: string, pair: Pair, next: string)
    requires r != "" && SkipBlanks(r) == r && Element(r) == Ok((pair, next))
    ensures PutBehind([pair], Parse(next), Parse(r))
  {
    hide Element, Parse, SkipBlanks;
    ParseStep(r);
  }

  /** A list, a comma, and anything else: a comma at the very end is allowed, and a mistake is found where it is. */
  lemma {:induction false} ListGoesOn(items: seq<Item>, rest: string)
    requires items != [] && forall k :: 0 <= k < |items| ==> Printable(items[k])
    ensures PutBehind(Pairs(items), Parse(rest), Parse(Print(items) + "," + rest))
    decreases |items|
  {
    hide Element, Parse, SkipBlanks, PrintValue, Printable;
    var first := items[0].pair.key + "=" + PrintValue(items[0]);
    if |items| == 1 {
      ElementOfPrinted(items[0], "," + rest);
      assert first + "" + "," + rest == first + ("," + rest);
      assert ("," + rest)[1..] == rest;
      ParseOneOf(first + ("," + rest), items[0].pair, rest);
      assert items[1..] == [] && Pairs(items) == [items[0].pair];
    } else {
      var more := Print(items[1..]) + "," + rest;
      ElementOfPrinted(items[0], "," + more);
      assert first + ("," + Print(items[1..])) + "," + rest == first + ("," + more);
      assert ("," + more)[1..] == more;
      ParseOneOf(first + ("," + more), items[0].pair, more);
      ListGoesOn(items[1..], rest);
      if Parse(rest).Ok? { Associate(items[0].pair, Pairs(items[1..]), Parse(rest).value); }
    }
  }

  lemma Associate(p: Pair, a: seq<Pair>, b: seq<Pair>)
    ensures [p] + (a + b) == [p] + a + b
  {
  }

  // ---------- blanks ----------

  predicate Blanks(s: string) { forall k :: 0 <= k < |s| ==> s[k] == ' ' || s[k] == '\t' }

  lemma {:induction false} SkipThem(blanks: string, s: string)
    requires Blanks(blanks)
    ensures SkipBlanks(blanks + s) == SkipBlanks(s)
  {
    if blanks == "" {
      assert blanks + s == s;
    } else {
      assert (blanks + s)[0] == blanks[0] && (blanks + s)[1..] == blanks[1..] + s;
      SkipThem(blanks[1..], s);
    }
  }

  lemma {:induction false} BlanksBehind(s: string, blanks: string)
    requires Blanks(blanks)
    ensures TrimSpace(s + blanks) == TrimSpace(s)
    decreases |blanks|
  {
    hide TrimSpace;
    if blanks == "" {
      assert s + blanks == s;
    } else {
      var n := |blanks| - 1;
      assert s + blanks == s + blanks[..n] + [blanks[n]];
      TrimSpaceSnoc(s + blanks[..n], blanks[n]);
      BlanksBehind(s, blanks[..n]);
    }
  }

  lemma {:induction false} BlanksBefore(blanks: string, s: string)
    requires Blanks(blanks)
    ensures TrimSpaceLeft(blanks + s) == TrimSpaceLeft(s)
    decreases |blanks|
  {
    if blanks == "" {
      assert blanks + s == s;
    } else {
      assert (blanks + s)[0] == blanks[0] && (blanks + s)[1..] == blanks[1..] + s;
      BlanksBefore(blanks[1..], s);
    }
  }

  lemma TrimBlanks(a: string, s: string, b: string)
    requires Blanks(a) && Blanks(b)
    ensures TrimSpace(a + s + b) == TrimSpace(s)
  {
    hide TrimSpaceLeft, TrimSpaceRight;
    BlanksBehind(a + s, b);
    BlanksBefore(a, s);
  }

  /** Blanks and tabs around a key do not matter, nor those around a value without quotes; `rest` is what follows
      the '=' sign, and `more` what follows the value. */
  lemma BlanksAroundKey(before: string, key: string, after: string, rest: string)
    requires LegalKey(key) && Blanks(before) && Blanks(after)
    ensures Parse(before + (key + after + "=" + rest)) == Parse(key + "=" + rest)
  {
    hide Parse, TrimSpace, Element, SkipBlanks;
    var r, plain := key + after + "=" + rest, key + "=" + rest;
    SkipThem(before, r);
    LegalStart(key);
    assert r[0] == key[0] && plain[0] == key[0];
    SkipNoBlank(r);
    SkipNoBlank(plain);
    ElementWithBlanks(key, after, rest);
    assert key + "" == key;
    ElementWithBlanks(key, "", rest);
    ParseStep(before + r);
    ParseStep(plain);
  }

  lemma ElementWithBlanks(key: string, after: string, rest: string)
    requires LegalKey(key) && Blanks(after)
    ensures Element(key + after + "=" + rest) == Value(key, rest)
  {
    hide Value, TrimSpace, KeyLength;
    var k := key + after;
    assert '=' !in k && ',' !in k by {
      assert forall j :: 0 <= j < |after| ==> after[j] != '=' && after[j] != ',';
    }
    KeyLengthIs(k, rest);
    var r := k + "=" + rest;
    assert r[..|k|] == k && r[|k| + 1..] == rest;
    BlanksBehind(key, after);
  }

  lemma BlanksAroundValue(key: string, lead: string, value: string, trail: string, more: string)
    requires LegalKey(key) && BareValue(value) && Blanks(lead) && Blanks(trail) && (more == "" || more[0] == ',')
    ensures Parse(key + "=" + (lead + value + trail + more)) == Parse(key + "=" + (value + more))
  {
    hide Parse, TrimSpace, Element, SkipBlanks, Value;
    LegalStart(key);
    var r, plain := key + "=" + (lead + value + trail + more), key + "=" + (value + more);
    assert r[0] == key[0] && plain[0] == key[0];
    SkipNoBlank(r);
    SkipNoBlank(plain);
    PlainElement(key, lead + value + trail + more);
    PlainElement(key, value + more);
    ValueWithBlanks(key, lead, value, trail, more);
    BareValueIs(key, value, more);
    ParseStep(r);
    ParseStep(plain);
  }

  lemma PlainElement(key: string, rest: string)
    requires LegalKey(key)
    ensures Element(key + "=" + rest) == Value(key, rest)
  {
    hide Element, Value, TrimSpace;
    assert key + "" == key;
    ElementWithBlanks(key, "", rest);
  }

  lemma ValueWithBlanks(key: string, lead: string, value: string, trail: string, more: string)
    requires BareValue(value) && Blanks(lead) && Blanks(trail) && (more == "" || more[0] == ',')
    ensures Value(key, lead + value + trail + more) == AfterValue(Pair(key, value), more)
  {
    hide Quoted, BareLength, TrimSpace, AfterValue;
    var v := lead + value + trail;
    assert ',' !in v by {
      assert (forall j :: 0 <= j < |lead| ==> lead[j] != ',') && forall j :: 0 <= j < |trail| ==> trail[j] != ',';
    }
    BareLengthIs(v, more);
    BareParts(v, more);
    TrimBlanks(lead, value, trail);
    NoQuote(lead, value, trail, more);
  }

  lemma NoQuote(lead: string, value: string, trail: string, more: string)
    requires Blanks(lead) && Blanks(trail) && (value != "" ==> value[0] != '"') && (more == "" || more[0] == ',')
    ensures var r := lead + value + trail + more; r != "" ==> r[0] != '"'
  {
  }

  // ---------- mistakes ----------

  /** The four mistakes: text without '=', nothing in front of it, a quote that is not closed, and something other
      than a comma behind a closing quote. */
  lemma MistakesAreRefused(text: string, key: string, value: string, blanks: string, rest: string)
    requires LegalKey(key) && Blanks(blanks)
    ensures '=' !in text && text != "" && !Blanks(text) ==> Parse(text) == Err(MissingEquals)
    ensures Parse(blanks + ("=" + rest)) == Err(EmptyKey)
    ensures '"' !in value ==> Parse(key + "=" + ("\"" + value)) == Err(Unterminated)
    ensures rest != "" && rest[0] != ',' ==> Parse(key + "=" + ("\"" + Escape(value) + "\"" + rest)) == Err(MissingComma)
  {
    hide Parse, Value;
    NoEquals(text);
    NoKey(blanks, rest);
    StartsWithKey(key, "\"" + value);
    NotClosed(key, value);
    StartsWithKey(key, "\"" + Escape(value) + "\"" + rest);
    QuotedValueIs(key, value, rest);
  }

  lemma StartsWithKey(key: string, rest: string)
    requires LegalKey(key)
    ensures Value(key, rest).Err? ==> Parse(key + "=" + rest) == Err(Value(key, rest).error)
  {
    hide Parse, TrimSpace, Element, SkipBlanks, Value;
    LegalStart(key);
    var r := key + "=" + rest;
    assert r[0] == key[0];
    SkipNoBlank(r);
    PlainElement(key, rest);
    ParseStep(r);
  }

  lemma {:induction false} SkipsToText(text: string)
    ensures SkipBlanks(text) == "" <==> Blanks(text)
    ensures forall c :: c in SkipBlanks(text) ==> c in text
  {
    if text != "" && (text[0] == ' ' || text[0] == '\t') {
      SkipsToText(text[1..]);
      assert forall k :: 1 <= k < |text| ==> text[k] == text[1..][k - 1];
    } else if text != "" {
      assert !Blanks(text);
    }
  }

  lemma NoEquals(text: string)
    ensures '=' !in text && text != "" && !Blanks(text) ==> Parse(text) == Err(MissingEquals)
  {
    hide Parse, SkipBlanks, TrimSpace, Blanks;
    SkipsToText(text);
    ParseStep(text);
  }

  lemma NoKey(blanks: string, rest: string)
    requires Blanks(blanks)
    ensures Parse(blanks + ("=" + rest)) == Err(EmptyKey)
  {
    hide Parse, SkipBlanks, Value;
    SkipThem(blanks, "=" + rest);
    SkipNoBlank("=" + rest);
    ParseStep(blanks + ("=" + rest));
    var r := "=" + rest;
    assert KeyLength(r) == 0 && r[..0] == "";
  }

  lemma {:induction false} NoQuoteCloses(value: string)
    requires '"' !in value
    ensures Quoted(value) == None
    decreases |value|
  {
    hide Quoted;
    if value == "" {
      QuotedNothing();
    } else {
      QuotedStep(value);
      assert value[0] in value;
      assert forall c :: c in value[1..] ==> c in value;
      NoQuoteCloses(value[1..]);
      if |value| >= 2 {
        assert forall c :: c in value[2..] ==> c in value;
        NoQuoteCloses(value[2..]);
      }
    }
  }

  lemma NotClosed(key: string, value: string)
    ensures '"' !in value ==> Value(key, "\"" + value) == Err(Unterminated)
  {
    hide Quoted;
    assert ("\"" + value)[1..] == value;
    if '"' !in value { NoQuoteCloses(value); }
  }

  lemma OneItem(key: string, value: string)
    requires LegalKey(key)
    ensures Parse(key + "=" + ("\"" + Escape(value) + "\"")) == Ok([Pair(key, value)])
  {
    hide Parse, LegalKey, Escape;
    var items := [Item(Pair(key, value), false)];
    assert items[1..] == [] && Pairs(items) == [Pair(key, value)];
    assert Print(items) == key + "=" + ("\"" + Escape(value) + "\"") + "" == key + "=" + ("\"" + Escape(value) + "\"");
    ParsePrinted(items);
  }

  /** A value with a comma, a quote and a backslash, letter by letter. */
  lemma EscapesByLetter()
    ensures Parse("k" + "=" + ("\"" + "a,\\\"b\\\\" + "\"")) == Ok([Pair("k", "a,\"b\\")])
  {
    hide Parse, TrimSpace, Escape;
    LetterIsTrimmed("k");
    EscapedByLetter();
    OneItem("k", "a,\"b\\");
  }

  lemma LetterIsTrimmed(s: string)
    requires s != "" && 'a' <= s[0] <= 'z' && 'a' <= s[|s| - 1] <= 'z'
    ensures TrimSpace(s) == s
  {
    hide TrimSpace;
    TrimmedStays(s);
  }

  lemma EscapedByLetter()
    ensures Escape("a,\"b\\") == "a,\\\"b\\\\"
  {
    var v := "a,\"b\\";
    assert v[1..] == ",\"b\\" && v[1..][1..] == "\"b\\" && v[1..][1..][1..] == "b\\" && v[1..][1..][1..][1..] == "\\";
    assert Escape("\\") == "\\\\" && Escape("b\\") == "b\\\\" && Escape("\"b\\") == "\\\"b\\\\";
  }
}
