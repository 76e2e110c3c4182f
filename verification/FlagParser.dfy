/** The hand-written parser of a --peer flag value, from `internal/cli/converse_npeer.go`. */
module FlagParser {
  import opened Wrappers
  import opened Lines

  datatype Pair = Pair(key: string, value: string)

  datatype SyntaxError = MissingEquals | EmptyKey | Unterminated | MissingComma

  // ---------- the grammar, on what is left to read ----------

  function SkipBlanks(r: string): (s: string)
    ensures |s| <= |r|
  {
    if r != "" && (r[0] == ' ' || r[0] == '\t') then SkipBlanks(r[1..]) else r
  }

  /** The number of characters in front of the first '=' or ','. */
  function KeyLength(r: string): (n: nat)
    ensures n <= |r| && (n < |r| ==> r[n] == '=' || r[n] == ',')
    ensures forall k :: 0 <= k < n ==> r[k] != '=' && r[k] != ','
  {
    if r == "" || r[0] == '=' || r[0] == ',' then 0 else 1 + KeyLength(r[1..])
  }

  function BareLength(r: string): (n: nat)
    ensures n <= |r| && (n < |r| ==> r[n] == ',')
    ensures forall k :: 0 <= k < n ==> r[k] != ','
  {
    if r == "" || r[0] == ',' then 0 else 1 + BareLength(r[1..])
  }

  predicate Escaped(r: string) {
    |r| >= 2 && r[0] == '\\' && (r[1] == '"' || r[1] == '\\')
  }

  /** The value of a quoted string behind its opening quote, and what follows its closing quote. */
  function Quoted(r: string): (q: Option<(string, string)>)
    ensures q.Some? ==> |q.value.1| < |r|
  {
    if r == "" then None
    else if Escaped(r) then
      match Quoted(r[2..])
      case None => None
      case Some(p) => Some(([r[1]] + p.0, p.1))
    else if r[0] == '"' then Some(("", r[1..]))
    else
      match Quoted(r[1..])
      case None => None
      case Some(p) => Some(([r[0]] + p.0, p.1))
  }

  /** One pair, without blanks in front, and what follows it and its comma. */
  function Element(r: string): (e: Result<(Pair, string), SyntaxError>)
    ensures e.Ok? ==> |e.value.1| < |r|
  {
    var n := KeyLength(r);
    if n == |r| || r[n] != '=' then Err(MissingEquals)
    else
      var key := TrimSpace(r[..n]);
      if key == "" then Err(EmptyKey) else Value(key, r[n + 1..])
  }

  function Value(key: string, r: string): (e: Result<(Pair, string), SyntaxError>)
    ensures e.Ok? ==> |e.value.1| <= |r| && e.value.0.key == key
  {
    if r != "" && r[0] == '"' then
      match Quoted(r[1..])
      case None => Err(Unterminated)
      case Some(p) => AfterValue(Pair(key, p.0), p.1)
    else AfterValue(Pair(key, TrimSpace(r[..BareLength(r)])), r[BareLength(r)..])
  }

  function AfterValue(pair: Pair, r: string): (e: Result<(Pair, string), SyntaxError>)
    ensures e.Ok? ==> |e.value.1| <= |r| && e.value.0 == pair
  {
    if r == "" then Ok((pair, "")) else if r[0] == ',' then Ok((pair, r[1..])) else Err(MissingComma)
  }

  function Parse(raw: string): Result<seq<Pair>, SyntaxError>
    decreases |raw|
  {
    var r := SkipBlanks(raw);
    if r == "" then Ok([])
    else
      match Element(r)
      case Err(e) => Err(e)
      case Ok(p) =>
        match Parse(p.1)
        case Err(e) => Err(e)
        case Ok(rest) => Ok([p.0] + rest)
  }

  // ---------- the parser ----------

  function Prefixed(v: string, q: Option<(string, string)>): Option<(string, string)> {
    if q.Some? then Some((v + q.value.0, q.value.1)) else None
  }

  lemma PrefixedTwice(v: string, c: char, q: Option<(string, string)>)
    ensures Prefixed("", q) == q
    ensures Prefixed(v, Prefixed([c], q)) == Prefixed(v + [c], q)
  {
    if q.Some? {
      assert "" + q.value.0 == q.value.0;
      assert v + ([c] + q.value.0) == v + [c] + q.value.0;
    }
  }

  lemma QuotedStep(r: string)
    requires r != ""
    ensures Quoted(r) == if Escaped(r) then Prefixed([r[1]], Quoted(r[2..]))
                         else if r[0] == '"' then Some(("", r[1..]))
                         else Prefixed([r[0]], Quoted(r[1..]))
  {
  }

  /** The quoted branch of the loop; i stands behind the opening quote. */
  method ReadQuoted(raw: string, start: nat) returns (value: string, i: nat, closed: bool)
    requires start <= |raw|
    ensures start <= i <= |raw|
    ensures closed <==> Quoted(raw[start..]).Some?
    ensures closed ==> Quoted(raw[start..]) == Some((value, raw[i..]))
  {
    hide Quoted;
    i := start;
    value := "";
    PrefixedTwice("", ' ', Quoted(raw[start..]));
    while i < |raw|
      invariant start <= i <= |raw|
      invariant Quoted(raw[start..]) == Prefixed(value, Quoted(raw[i..]))
    {
      QuotedStep(raw[i..]);
      assert raw[i..][1..] == raw[i + 1..];
      if raw[i] == '\\' && i + 1 < |raw| && (raw[i + 1] == '"' || raw[i + 1] == '\\') {
        assert raw[i..][2..] == raw[i + 2..];
        PrefixedTwice(value, raw[i + 1], Quoted(raw[i + 2..]));
        value := value + [raw[i + 1]];
        i := i + 2;
      } else {
        if raw[i] == '"' {
          break;
        }
        PrefixedTwice(value, raw[i], Quoted(raw[i + 1..]));
        value := value + [raw[i]];
        i := i + 1;
      }
    }
    if i >= |raw| || raw[i] != '"' {
      closed := false;
      assert raw[i..] == "";
      QuotedNothing();
    } else {
      assert raw[i..][1..] == raw[i + 1..];
      QuotedStep(raw[i..]);
      assert value + "" == value;
      i := i + 1;
      closed := true;
    }
  }

  lemma QuotedNothing()
    ensures Quoted("") == None
  {
  }

  method ReadKey(raw: string, start: nat) returns (i: nat)
    requires start <= |raw|
    ensures i == start + KeyLength(raw[start..])
  {
    i := start;
    while i < |raw| && raw[i] != '=' && raw[i] != ','
      invariant start <= i <= |raw|
      invariant start + KeyLength(raw[start..]) == i + KeyLength(raw[i..])
    {
      assert raw[i..][1..] == raw[i + 1..];
      i := i + 1;
    }
  }

  method ReadBare(raw: string, start: nat) returns (i: nat)
    requires start <= |raw|
    ensures i == start + BareLength(raw[start..])
  {
    i := start;
    while i < |raw| && raw[i] != ','
      invariant start <= i <= |raw|
      invariant start + BareLength(raw[start..]) == i + BareLength(raw[i..])
    {
      assert raw[i..][1..] == raw[i + 1..];
      i := i + 1;
    }
  }

  method SkipLeadingBlanks(raw: string, start: nat) returns (i: nat)
    requires start <= |raw|
    ensures start <= i <= |raw| && raw[i..] == SkipBlanks(raw[start..])
  {
    i := start;
    while i < |raw| && (raw[i] == ' ' || raw[i] == '\t')
      invariant start <= i <= |raw| && SkipBlanks(raw[i..]) == SkipBlanks(raw[start..])
    {
      assert raw[i..][1..] == raw[i + 1..];
      i := i + 1;
    }
  }

  /** What a position inside raw means for what is left to read. */
  lemma Left(raw: string, start: nat, i: nat)
    requires start <= i <= |raw|
    ensures raw[start..][..i - start] == raw[start..i] && raw[start..][i - start..] == raw[i..]
    ensures i < |raw| ==> raw[i..] != "" && raw[i..][0] == raw[i] && raw[i..][1..] == raw[i + 1..]
    ensures i == |raw| ==> raw[i..] == ""
  {
  }

  /** The value without the comma behind it; i stands behind the '='. */
  method ReadBareOrQuoted(raw: string, start: nat, ghost key: string) returns (value: string, i: nat, closed: bool)
    requires start <= |raw|
    ensures start <= i <= |raw|
    ensures !closed ==> Value(key, raw[start..]) == Err(Unterminated)
    ensures closed ==> Value(key, raw[start..]) == AfterValue(Pair(key, value), raw[i..])
  {
    hide Quoted, BareLength, TrimSpace, AfterValue;
    i, closed := start, true;
    Left(raw, start, start);
    if i < |raw| && raw[i] == '"' {
      value, i, closed := ReadQuoted(raw, i + 1);
    } else {
      i := ReadBare(raw, i);
      value := TrimSpace(raw[start..i]);
      Left(raw, start, i);
    }
  }

  /** The value and the comma behind it; i stands behind the '='. */
  method ReadValue(raw: string, start: nat, key: string) returns (e: Result<Pair, SyntaxError>, i: nat)
    requires start <= |raw|
    ensures start <= i <= |raw|
    ensures e.Err? ==> Value(key, raw[start..]) == Err(e.error)
    ensures e.Ok? ==> Value(key, raw[start..]) == Ok((e.value, raw[i..]))
  {
    hide Value;
    var value, closed;
    value, i, closed := ReadBareOrQuoted(raw, start, key);
    if !closed {
      return Err(Unterminated), i;
    }
    Left(raw, i, i);
    if i < |raw| && raw[i] == ',' {
      i := i + 1;
    } else if i < |raw| {
      return Err(MissingComma), i;
    }
    return Ok(Pair(key, value)), i;
  }

  /** One pair and the comma behind it; i stands on the first character of the key. */
  method ReadElement(raw: string, start: nat) returns (e: Result<Pair, SyntaxError>, i: nat)
    requires start < |raw|
    ensures start <= i <= |raw|
    ensures e.Err? ==> Element(raw[start..]) == Err(e.error)
    ensures e.Ok? ==> Element(raw[start..]) == Ok((e.value, raw[i..]))
  {
    hide Value, KeyLength, TrimSpace;
    i := ReadKey(raw, start);
    if i >= |raw| || raw[i] != '=' {
      return Err(MissingEquals), i;
    }
    var key := TrimSpace(raw[start..i]);
    assert raw[start..][..i - start] == raw[start..i];
    if key == "" {
      return Err(EmptyKey), i;
    }
    i := i + 1;
    assert raw[start..][i - start..] == raw[i..];
    e, i := ReadValue(raw, i, key);
  }

  function Prepended(out: seq<Pair>, r: Result<seq<Pair>, SyntaxError>): Result<seq<Pair>, SyntaxError> {
    if r.Ok? then Ok(out + r.value) else r
  }

  lemma PrependedOne(out: seq<Pair>, p: Pair, r: Result<seq<Pair>, SyntaxError>)
    ensures Prepended([], r) == r
    ensures Prepended(out, Prepended([p], r)) == Prepended(out + [p], r)
  {
    if r.Ok? {
      assert [] + r.value == r.value;
      assert out + ([p] + r.value) == out + [p] + r.value;
    }
  }

  lemma ParseStep(raw: string)
    ensures var r := SkipBlanks(raw);
      if r == "" then Parse(raw) == Ok([])
      else match Element(r)
           case Err(e) => Parse(raw) == Err(e)
           case Ok(p) => Parse(raw) == Prepended([p.0], Parse(p.1))
  {
    hide Element;
  }

  method ParseKeyValueList(raw: string) returns (r: Result<seq<Pair>, SyntaxError>)
    ensures r == Parse(raw)
  {
    hide Element, Parse, SkipBlanks;
    var out: seq<Pair> := [];
    var i := 0;
    assert raw[0..] == raw;
    PrependedOne([], Pair("", ""), Parse(raw));
    while i < |raw|
      invariant 0 <= i <= |raw| && Prepended(out, Parse(raw[i..])) == Parse(raw)
      decreases |raw| - i
    {
      ParseStep(raw[i..]);
      i := SkipLeadingBlanks(raw, i);
      if i >= |raw| {
        break;
      }
      ghost var was := i;
      var e;
      e, i := ReadElement(raw, i);
      match e
      case Err(error) => return Err(error);
      case Ok(pair) =>
        PrependedOne(out, pair, Parse(raw[i..]));
        out := out + [pair];
    }
    ParseStep("");
    assert raw[i..] == "";
    assert out + [] == out;
    SkipNothing();
    return Ok(out);
  }

  lemma SkipNothing()
    ensures SkipBlanks("") == ""
  {
  }

  // ---------- printing ----------

  function Escape(v: string): string {
    if v == "" then "" else (if v[0] == '"' || v[0] == '\\' then ['\\', v[0]] else [v[0]]) + Escape(v[1..])
  }

  /** A key as the parser hands it out: not empty, trimmed, without '=' and ','. */
  predicate LegalKey(k: string) {
    k != "" && TrimSpace(k) == k && '=' !in k && ',' !in k
  }

  /** A value that may be printed without quotes. */
  predicate BareValue(v: string) {
    TrimSpace(v) == v && ',' !in v && (v != "" ==> v[0] != '"')
  }

  /** A pair and whether to print its value without quotes. */
  datatype Item = Item(pair: Pair, bare: bool)

  predicate Printable(item: Item) {
    LegalKey(item.pair.key) && (item.bare ==> BareValue(item.pair.value))
  }

  function PrintValue(item: Item): string {
    if item.bare then item.pair.value else "\"" + Escape(item.pair.value) + "\""
  }

  function Print(items: seq<Item>): string {
    if items == [] then ""
    else items[0].pair.key + "=" + PrintValue(items[0]) + (if |items| == 1 then "" else "," + Print(items[1..]))
  }

  function Pairs(items: seq<Item>): seq<Pair> {
    if items == [] then [] else [items[0].pair] + Pairs(items[1..])
  }

  lemma {:induction false} QuotedEscape(v: string, rest: string)
    ensures Quoted(Escape(v) + "\"" + rest) == Some((v, rest))
    decreases |v|
  {
    hide Quoted;
    var r := Escape(v) + "\"" + rest;
    QuotedStep(r);
    if v == "" {
      assert r == "\"" + rest && r[1..] == rest;
    } else {
      var tail := Escape(v[1..]) + "\"" + rest;
      QuotedEscape(v[1..], rest);
      if v[0] == '"' || v[0] == '\\' {
        assert r == ['\\', v[0]] + tail && r[2..] == tail;
      } else {
        assert r == [v[0]] + tail && r[1..] == tail;
      }
      assert [v[0]] + v[1..] == v;
    }
  }

  lemma {:induction false} KeyLengthIs(k: string, rest: string)
    requires '=' !in k && ',' !in k
    ensures KeyLength(k + "=" + rest) == |k|
  {
    var r := k + "=" + rest;
    if k == "" {
      assert r[0] == '=';
    } else {
      assert r[0] == k[0] && k[0] in k;
      assert r[1..] == k[1..] + "=" + rest;
      assert forall c :: c in k[1..] ==> c in k;
      KeyLengthIs(k[1..], rest);
    }
  }

  lemma {:induction false} BareLengthIs(v: string, rest: string)
    requires ',' !in v && (rest == "" || rest[0] == ',')
    ensures BareLength(v + rest) == |v|
  {
    if v == "" {
      assert v + rest == rest;
    } else {
      assert (v + rest)[0] == v[0] && v[0] in v && (v + rest)[1..] == v[1..] + rest;
      assert forall c :: c in v[1..] ==> c in v;
      BareLengthIs(v[1..], rest);
    }
  }

  /** A text in two parts, the second one empty or beginning with a comma. */
  lemma BareParts(v: string, rest: string)
    ensures (v + rest)[..|v|] == v && (v + rest)[|v|..] == rest
    ensures v != "" ==> v + rest != "" && (v + rest)[0] == v[0]
    ensures v == "" ==> v + rest == rest
  {
  }

  lemma BareValueIs(key: string, v: string, rest: string)
    requires BareValue(v) && (rest == "" || rest[0] == ',')
    ensures Value(key, v + rest) == AfterValue(Pair(key, v), rest)
  {
    hide Quoted, BareLength, TrimSpace, AfterValue;
    BareLengthIs(v, rest);
    BareParts(v, rest);
  }

  lemma QuotedParts(w: string, rest: string)
    ensures var r := "\"" + w + "\"" + rest; r != "" && r[0] == '"' && r[1..] == w + "\"" + rest
  {
  }

  lemma QuotedValueIs(key: string, v: string, rest: string)
    ensures Value(key, "\"" + Escape(v) + "\"" + rest) == AfterValue(Pair(key, v), rest)
  {
    hide Quoted, BareLength, TrimSpace, AfterValue, Escape;
    QuotedEscape(v, rest);
    QuotedParts(Escape(v), rest);
  }

  lemma ValueOfPrinted(item: Item, rest: string)
    requires item.bare ==> BareValue(item.pair.value)
    requires rest == "" || rest[0] == ','
    ensures Value(item.pair.key, PrintValue(item) + rest) == AfterValue(item.pair, rest)
  {
    hide Value, AfterValue, Escape, BareValue;
    if item.bare {
      BareValueIs(item.pair.key, item.pair.value, rest);
    } else {
      QuotedValueIs(item.pair.key, item.pair.value, rest);
    }
  }

  /** The parts of a printed pair. */
  lemma ElementParts(k: string, v: string, rest: string)
    requires k != ""
    ensures var r := k + "=" + v + rest;
      r == k + "=" + (v + rest) && r != "" && r[0] == k[0] && |k| < |r| &&
      r[|k|] == '=' && r[..|k|] == k && r[|k| + 1..] == v + rest
  {
  }

  lemma SkipNoBlank(r: string)
    requires r != "" ==> r[0] != ' ' && r[0] != '\t'
    ensures SkipBlanks(r) == r
  {
  }

  lemma ElementIs(k: string, v: string, rest: string)
    requires LegalKey(k)
    ensures Element(k + "=" + v + rest) == Value(k, v + rest)
  {
    hide Value, KeyLength, TrimSpace;
    ElementParts(k, v, rest);
    KeyLengthIs(k, v + rest);
  }

  lemma ElementOfPrinted(item: Item, rest: string)
    requires Printable(item) && (rest == "" || rest[0] == ',')
    ensures var r := item.pair.key + "=" + PrintValue(item) + rest;
      r != "" && SkipBlanks(r) == r && Element(r) == AfterValue(item.pair, rest)
  {
    hide Value, KeyLength, TrimSpace, PrintValue, BareValue, Element, SkipBlanks, AfterValue;
    var k := item.pair.key;
    ElementIs(k, PrintValue(item), rest);
    ElementParts(k, PrintValue(item), rest);
    ValueOfPrinted(item, rest);
    LegalStart(k);
    SkipNoBlank(k + "=" + PrintValue(item) + rest);
  }

  lemma LegalStart(k: string)
    requires LegalKey(k)
    ensures k[0] != ' ' && k[0] != '\t'
  {
    hide TrimSpace, SpaceAtStart;
    TrimSpaceShape(k);
    TrimmedStart(k);
  }

  lemma TrimmedStart(k: string)
    requires k != "" && SpaceAtStart(k) == 0
    ensures k[0] != ' ' && k[0] != '\t'
  {
  }

  /** Whatever a list of pairs holds, printing and parsing it gives the list back. */
  lemma {:induction false} ParsePrinted(items: seq<Item>)
    requires forall k :: 0 <= k < |items| ==> Printable(items[k])
    ensures Parse(Print(items)) == Ok(Pairs(items))
    decreases |items|
  {
    hide Element, Parse, SkipBlanks, PrintValue, Printable;
    ParseStep(Print(items));
    SkipNothing();
    if items != [] {
      var rest := if |items| == 1 then "" else "," + Print(items[1..]);
      ElementOfPrinted(items[0], rest);
      ParsePrinted(items[1..]);
      if |items| > 1 {
        assert rest[1..] == Print(items[1..]);
      } else {
        assert items[1..] == [];
        ParseStep("");
      }
    }
  }

  /** Every accepted input yields legal keys only. */
  lemma {:induction false} ParsedKeysAreLegal(raw: string)
    requires Parse(raw).Ok?
    ensures forall k :: 0 <= k < |Parse(raw).value| ==> LegalKey(Parse(raw).value[k].key)
    decreases |raw|
  {
    hide Element, Parse, SkipBlanks, LegalKey;
    var r := SkipBlanks(raw);
    ParseStep(raw);
    if r != "" {
      var p := Element(r).value;
      ElementKeyIsLegal(r);
      SkipShortens(raw);
      ParsedKeysAreLegal(p.1);
    }
  }

  lemma SkipShortens(raw: string)
    ensures |SkipBlanks(raw)| <= |raw|
  {
  }

  lemma ElementKeyIsLegal(r: string)
    requires Element(r).Ok?
    ensures LegalKey(Element(r).value.0.key) && |Element(r).value.1| < |r|
  {
    hide TrimSpace, Value, KeyLength, SpaceAtStart, SpaceAtEnd;
    var key := r[..KeyLength(r)];
    TrimSpaceShape(key);
    assert forall c :: c in key ==> c != '=' && c != ',';
  }

  function Quote(pairs: seq<Pair>): seq<Item> {
    if pairs == [] then [] else [Item(pairs[0], false)] + Quote(pairs[1..])
  }

  lemma {:induction false} QuoteShape(pairs: seq<Pair>)
    ensures |Quote(pairs)| == |pairs| && (forall k :: 0 <= k < |pairs| ==> Quote(pairs)[k] == Item(pairs[k], false))
    ensures Pairs(Quote(pairs)) == pairs
  {
    if pairs != [] { QuoteShape(pairs[1..]); }
  }

  /** Printing what was parsed is a normal form: parsing it again gives the same pairs. */
  lemma ParsedPrintsBack(raw: string)
    requires Parse(raw).Ok?
    ensures Parse(Print(Quote(Parse(raw).value))) == Parse(raw)
  {
    hide Parse, LegalKey;
    ParsedKeysAreLegal(raw);
    QuoteShape(Parse(raw).value);
    ParsePrinted(Quote(Parse(raw).value));
  }
}
