/** From --peer flags to the peers of a conversation, from `internal/cli/converse_npeer.go`. */
module PeerConfig {
  import opened Wrappers
  import opened FlagParser
  import Policy
  import opened Lines

  type PeerID = Policy.PeerID

  datatype PeerDecl = PeerDecl(id: PeerID, provider: string, seed: string, options: map<string, string>)

  datatype SpecError = Syntax(error: SyntaxError) | UnknownKey(key: string) | MissingId | InvalidId | MissingProvider

  const ALLOWED_KEYS := {"id", "provider", "seed", "model", "reasoning-effort", "cwd", "home"}

  function Assigned(pd: PeerDecl, p: Pair): PeerDecl {
    if p.key == "id" then pd.(id := p.value)
    else if p.key == "provider" then pd.(provider := p.value)
    else if p.key == "seed" then pd.(seed := p.value)
    else pd.(options := pd.options[p.key := p.value])
  }

  function Declared(pd: PeerDecl, pairs: seq<Pair>): Result<PeerDecl, SpecError>
    decreases |pairs|
  {
    if pairs == [] then Ok(pd)
    else if pairs[0].key !in ALLOWED_KEYS then Err(UnknownKey(pairs[0].key))
    else Declared(Assigned(pd, pairs[0]), pairs[1..])
  }

  const NO_DECL := PeerDecl("", "", "", map[])

  function Checked(pd: PeerDecl): Result<PeerDecl, SpecError> {
    if pd.id == "" then Err(MissingId)
    else if !Policy.ValidId(pd.id) then Err(InvalidId)
    else if pd.provider == "" then Err(MissingProvider)
    else Ok(pd)
  }

  function PeerSpec(raw: string): Result<PeerDecl, SpecError> {
    match Parse(raw)
    case Err(e) => Err(Syntax(e))
    case Ok(pairs) =>
      match Declared(NO_DECL, pairs)
      case Err(e) => Err(e)
      case Ok(pd) => Checked(pd)
  }

  method ParsePeerSpec(raw: string) returns (r: Result<PeerDecl, SpecError>)
    ensures r == PeerSpec(raw)
  {
    var parsed := ParseKeyValueList(raw);
    if parsed.Err? {
      return Err(Syntax(parsed.error));
    }
    var pairs := parsed.value;
    var pd := NO_DECL;
    var i := 0;
    assert pairs[0..] == pairs;
    while i < |pairs|
      invariant 0 <= i <= |pairs| && Declared(pd, pairs[i..]) == Declared(NO_DECL, pairs)
    {
      var kv := pairs[i];
      assert pairs[i..][1..] == pairs[i + 1..];
      if kv.key !in ALLOWED_KEYS {
        return Err(UnknownKey(kv.key));
      }
      match kv.key {
        case "id" => pd := pd.(id := kv.value);
        case "provider" => pd := pd.(provider := kv.value);
        case "seed" => pd := pd.(seed := kv.value);
        case _ => pd := pd.(options := pd.options[kv.key := kv.value]);
      }
      i := i + 1;
    }
    return Checked(pd);
  }

  // ---------- all flags together ----------

  const MAX_PEERS := 16

  datatype Config = Config(peers: seq<PeerDecl>, openerId: PeerID)

  datatype ConfigError =
    | TooFewPeers
    | TooManyPeers
    | BadPeer(error: SpecError)
    | DuplicateId(id: PeerID)
    | MissingSeed(id: PeerID)
    | UnknownOpener

  function Seeded(pd: PeerDecl, broadcast: string): PeerDecl {
    if pd.seed == "" then pd.(seed := broadcast) else pd
  }

  /** The legacy default "a" counts as no opener. */
  predicate DefaultOpener(opener: string) { opener == "" || opener == "a" }

  /** A flag that parses, names a new id, and has a seed of its own or the broadcast one. */
  predicate GoodFlag(raws: seq<string>, broadcast: string, k: nat)
    requires k < |raws|
  {
    var r := PeerSpec(raws[k]);
    r.Ok? && Seeded(r.value, broadcast).seed != "" &&
    forall j :: 0 <= j < k ==> PeerSpec(raws[j]).Ok? ==> PeerSpec(raws[j]).value.id != r.value.id
  }

  predicate GoodFlags(raws: seq<string>, broadcast: string, n: nat)
    requires n <= |raws|
  {
    forall k :: 0 <= k < n ==> GoodFlag(raws, broadcast, k)
  }

  /** The flags a run starts with: 2 to 16 of them, each good, and an opener that some flag declares. */
  predicate Accepts(raws: seq<string>, broadcast: string, opener: string) {
    2 <= |raws| <= MAX_PEERS && GoodFlags(raws, broadcast, |raws|) &&
    (DefaultOpener(opener) || exists k :: 0 <= k < |raws| && PeerSpec(raws[k]).Ok? && PeerSpec(raws[k]).value.id == opener)
  }

  /** The declarations are the flags', in order. */
  predicate Declares(peers: seq<PeerDecl>, raws: seq<string>, broadcast: string, n: nat)
    requires n <= |raws|
  {
    |peers| == n && forall k :: 0 <= k < n ==> PeerSpec(raws[k]).Ok? && peers[k] == Seeded(PeerSpec(raws[k]).value, broadcast)
  }

  /** The configuration the flags describe. */
  predicate Reads(cfg: Config, raws: seq<string>, broadcast: string, opener: string) {
    raws != [] && Declares(cfg.peers, raws, broadcast, |raws|) &&
    cfg.openerId == if DefaultOpener(opener) then cfg.peers[0].id else opener
  }

  // ---------- what is wrong with the flags ----------

  /** One of the first n flags parses and declares this id. */
  ghost predicate DeclaredBefore(raws: seq<string>, id: PeerID, n: nat)
    requires n <= |raws|
  {
    exists k :: 0 <= k < n && PeerSpec(raws[k]).Ok? && PeerSpec(raws[k]).value.id == id
  }

  /** What is wrong with flag k, if anything. */
  ghost function FlagError(raws: seq<string>, broadcast: string, k: nat): seq<ConfigError>
    requires k < |raws|
  {
    match PeerSpec(raws[k])
    case Err(e) => [BadPeer(e)]
    case Ok(pd) =>
      if DeclaredBefore(raws, pd.id, k) then [DuplicateId(pd.id)]
      else if Seeded(pd, broadcast).seed == "" then [MissingSeed(pd.id)]
      else []
  }

  ghost function FlagErrors(raws: seq<string>, broadcast: string, n: nat): seq<ConfigError>
    requires n <= |raws|
  {
    if n == 0 then [] else FlagErrors(raws, broadcast, n - 1) + FlagError(raws, broadcast, n - 1)
  }

  function CountErrors(n: nat): seq<ConfigError> {
    (if n < 2 then [TooFewPeers] else []) + (if n > MAX_PEERS then [TooManyPeers] else [])
  }

  ghost function OpenerErrors(raws: seq<string>, opener: string): seq<ConfigError> {
    if DefaultOpener(opener) || DeclaredBefore(raws, opener, |raws|) then [] else [UnknownOpener]
  }

  /** Everything that is wrong: their number, then flag by flag, then the opener. */
  ghost function Errors(raws: seq<string>, broadcast: string, opener: string): seq<ConfigError> {
    CountErrors(|raws|) + FlagErrors(raws, broadcast, |raws|) + OpenerErrors(raws, opener)
  }

  lemma {:induction false} NoFlagErrors(raws: seq<string>, broadcast: string, n: nat)
    requires n <= |raws|
    ensures FlagErrors(raws, broadcast, n) == [] <==> GoodFlags(raws, broadcast, n)
    decreases n
  {
    hide PeerSpec, GoodFlag, FlagError;
    if n > 0 {
      NoFlagErrors(raws, broadcast, n - 1);
      NoFlagError(raws, broadcast, n - 1);
    }
  }

  lemma NoFlagError(raws: seq<string>, broadcast: string, k: nat)
    requires k < |raws|
    ensures FlagError(raws, broadcast, k) == [] <==> GoodFlag(raws, broadcast, k)
  {
    hide PeerSpec;
  }

  /** There is something wrong exactly when the flags are not those a run starts with. */
  lemma ErrorsAreExact(raws: seq<string>, broadcast: string, opener: string)
    ensures Errors(raws, broadcast, opener) == [] <==> Accepts(raws, broadcast, opener)
  {
    hide PeerSpec, GoodFlag;
    NoFlagErrors(raws, broadcast, |raws|);
  }

  lemma FlagErrorsStepwise(raws: seq<string>, broadcast: string, n: nat)
    requires n < |raws|
    ensures var r := PeerSpec(raws[n]);
      FlagErrors(raws, broadcast, n + 1) == FlagErrors(raws, broadcast, n) +
        (if r.Err? then [BadPeer(r.error)]
         else if DeclaredBefore(raws, r.value.id, n) then [DuplicateId(r.value.id)]
         else if Seeded(r.value, broadcast).seed == "" then [MissingSeed(r.value.id)] else [])
  {
    hide PeerSpec, DeclaredBefore;
  }

  lemma NothingDeclared(raws: seq<string>, broadcast: string)
    ensures FlagErrors(raws, broadcast, 0) == []
    ensures Declares([], raws, broadcast, 0) && forall id :: !DeclaredBefore(raws, id, 0)
  {
  }

  lemma DeclaredStepwise(raws: seq<string>, n: nat)
    requires n < |raws|
    ensures var r := PeerSpec(raws[n]);
      forall id :: DeclaredBefore(raws, id, n + 1) <==> DeclaredBefore(raws, id, n) || (r.Ok? && r.value.id == id)
  {
    hide PeerSpec;
    var r := PeerSpec(raws[n]);
    if r.Ok? { assert DeclaredBefore(raws, r.value.id, n + 1); }
    forall id | DeclaredBefore(raws, id, n) ensures DeclaredBefore(raws, id, n + 1) {}
  }

  lemma DeclaresMore(peers: seq<PeerDecl>, raws: seq<string>, broadcast: string, n: nat)
    requires n < |raws| && Declares(peers, raws, broadcast, n) && PeerSpec(raws[n]).Ok?
    ensures Declares(peers + [Seeded(PeerSpec(raws[n]).value, broadcast)], raws, broadcast, n + 1)
  {
    hide PeerSpec;
  }

  lemma ReadsAll(peers: seq<PeerDecl>, raws: seq<string>, broadcast: string, opener: string)
    requires raws != [] && Declares(peers, raws, broadcast, |raws|)
    ensures |peers| == |raws|
    ensures Reads(Config(peers, if DefaultOpener(opener) then peers[0].id else opener), raws, broadcast, opener)
  {
    hide PeerSpec;
  }

  /** The loop over the flags: `errs` collects what is wrong, `peers` the declarations, `seen` their ids. */
  method ReadFlags(raws: seq<string>, broadcast: string) returns (errs: seq<ConfigError>, peers: seq<PeerDecl>, seen: set<PeerID>)
    ensures errs == FlagErrors(raws, broadcast, |raws|)
    ensures errs == [] ==> Declares(peers, raws, broadcast, |raws|)
    ensures forall id :: id in seen <==> DeclaredBefore(raws, id, |raws|)
  {
    hide PeerSpec, DeclaredBefore, Declares, FlagError, FlagErrors;
    NothingDeclared(raws, broadcast);
    errs, peers, seen := [], [], {};
    for i := 0 to |raws|
      invariant errs == FlagErrors(raws, broadcast, i)
      invariant errs == [] ==> Declares(peers, raws, broadcast, i)
      invariant forall id :: id in seen <==> DeclaredBefore(raws, id, i)
    {
      var pr := ParsePeerSpec(raws[i]);
      FlagErrorsStepwise(raws, broadcast, i);
      DeclaredStepwise(raws, i);
      if errs == [] && pr.Ok? { DeclaresMore(peers, raws, broadcast, i); }
      if pr.Err? {
        errs := errs + [BadPeer(pr.error)];
      } else if pr.value.id in seen {
        errs := errs + [DuplicateId(pr.value.id)];
      } else {
        var pd := pr.value;
        seen := seen + {pd.id};
        if pd.seed == "" {
          pd := pd.(seed := broadcast);
        }
        if pd.seed == "" {
          errs := errs + [MissingSeed(pd.id)];
        }
        peers := peers + [pd];
      }
    }
  }

  /** Refused with everything that is wrong, in order; accepted if nothing is. */
  method ParseNPeerSpecs(raws: seq<string>, broadcast: string, opener: string)
    returns (r: Result<Config, seq<ConfigError>>)
    ensures r.Ok? <==> Accepts(raws, broadcast, opener)
    ensures r.Err? ==> r.error == Errors(raws, broadcast, opener)
    ensures r.Ok? ==> Reads(r.value, raws, broadcast, opener)
  {
    hide PeerSpec, Accepts, DeclaredBefore, Declares, Reads, FlagErrors;
    var errs: seq<ConfigError> := [];
    if |raws| < 2 {
      errs := errs + [TooFewPeers];
    }
    if |raws| > MAX_PEERS {
      errs := errs + [TooManyPeers];
    }
    var flagErrs, peers, seen := ReadFlags(raws, broadcast);
    errs := errs + flagErrs;
    var openerId := "";
    if opener == "" || opener == "a" {
      if |peers| > 0 {
        openerId := peers[0].id;
      }
    } else {
      openerId := opener;
      if opener !in seen {
        errs := errs + [UnknownOpener];
      }
    }
    ErrorsAreExact(raws, broadcast, opener);
    if |errs| > 0 {
      return Err(errs);
    }
    ReadsAll(peers, raws, broadcast, opener);
    return Ok(Config(peers, openerId));
  }

  /** The opener that was asked for opens, unless it is "a": that one stands for the default, and opens only
      if it is declared first. */
  lemma OpenerIsKept(raws: seq<string>, broadcast: string, opener: string, cfg: Config)
    requires Accepts(raws, broadcast, opener) && Reads(cfg, raws, broadcast, opener) && opener != ""
    ensures cfg.openerId == opener <==> opener != "a" || cfg.peers[0].id == "a"
  {
  }

  // ---------- what a run may rely on ----------

  /** The declared order, as the broker gets it. */
  function Order(peers: seq<PeerDecl>): (ids: seq<PeerID>)
    ensures |ids| == |peers| && forall k :: 0 <= k < |peers| ==> ids[k] == peers[k].id
  {
    seq(|peers|, k requires 0 <= k < |peers| => peers[k].id)
  }

  datatype Participant = Participant(id: PeerID, uri: string, options: map<string, string>)

  /** The participants in declared order, and one seed for every id. */
  method ToV2Conversation(peers: seq<PeerDecl>) returns (participants: seq<Participant>, seeds: map<PeerID, string>)
    ensures |participants| == |peers|
    ensures forall k :: 0 <= k < |peers| ==>
      participants[k] == Participant(peers[k].id, "provider:" + peers[k].provider, peers[k].options)
    ensures Policy.Distinct(Order(peers)) ==> forall k :: 0 <= k < |peers| ==> peers[k].id in seeds && seeds[peers[k].id] == peers[k].seed
    ensures seeds.Keys == set id | id in Order(peers)
  {
    participants := [];
    seeds := map[];
    for i := 0 to |peers|
      invariant |participants| == i
      invariant forall k :: 0 <= k < i ==>
        participants[k] == Participant(peers[k].id, "provider:" + peers[k].provider, peers[k].options)
      invariant forall k :: 0 <= k < i ==> peers[k].id in seeds
      invariant forall id :: id in seeds ==> id in Order(peers)
      invariant Policy.Distinct(Order(peers)) ==> forall k :: 0 <= k < i ==> seeds[peers[k].id] == peers[k].seed
    {
      participants := participants + [Participant(peers[i].id, "provider:" + peers[i].provider, peers[i].options)];
      assert forall k :: 0 <= k < i ==> Order(peers)[k] == peers[k].id;
      assert Order(peers)[i] == peers[i].id;
      seeds := seeds[peers[i].id := peers[i].seed];
    }
  }

  /** Accepted flags give the broker what it relies on: at least two peers, ids valid and distinct, every
      peer with provider and seed, and an opener among them. */
  lemma AcceptedConfigIsUsable(raws: seq<string>, broadcast: string, opener: string, cfg: Config)
    requires Accepts(raws, broadcast, opener) && Reads(cfg, raws, broadcast, opener)
    ensures 2 <= |Order(cfg.peers)| <= 16 && Policy.Distinct(Order(cfg.peers))
    ensures cfg.openerId in Order(cfg.peers)
    ensures forall k :: 0 <= k < |cfg.peers| ==>
      Policy.ValidId(cfg.peers[k].id) && cfg.peers[k].seed != "" && cfg.peers[k].provider != ""
  {
    hide PeerSpec;
    var ids := Order(cfg.peers);
    forall k | 0 <= k < |raws| ensures Policy.ValidId(cfg.peers[k].id) && cfg.peers[k].seed != "" && cfg.peers[k].provider != "" {
      assert GoodFlag(raws, broadcast, k);
      CheckedIsValid(raws[k]);
    }
    forall j, k | 0 <= j < k < |ids| ensures ids[j] != ids[k] {
      assert GoodFlag(raws, broadcast, k);
    }
    if DefaultOpener(opener) {
      assert ids[0] == cfg.openerId;
    } else {
      var k :| 0 <= k < |raws| && PeerSpec(raws[k]).Ok? && PeerSpec(raws[k]).value.id == opener;
      assert ids[k] == opener;
    }
  }

  lemma CheckedIsValid(raw: string)
    requires PeerSpec(raw).Ok?
    ensures Policy.ValidId(PeerSpec(raw).value.id) && PeerSpec(raw).value.provider != ""
  {
  }

  // ---------- writing flags ----------

  const OPTION_KEYS: seq<string> := ["model", "reasoning-effort", "cwd", "home"]

  /** The options with these names, in this order. */
  function OptionPairs(names: seq<string>, options: map<string, string>): seq<Pair> {
    if names == [] then []
    else (if names[0] in options then [Pair(names[0], options[names[0]])] else []) + OptionPairs(names[1..], options)
  }

  /** What a --peer flag has to say for this declaration. */
  function DeclPairs(pd: PeerDecl): seq<Pair> {
    [Pair("id", pd.id), Pair("provider", pd.provider), Pair("seed", pd.seed)] + OptionPairs(OPTION_KEYS, pd.options)
  }

  function Flag(pd: PeerDecl): string { Print(Quote(DeclPairs(pd))) }

  /** A declaration that some flag can make. */
  predicate Expressible(pd: PeerDecl) {
    Policy.ValidId(pd.id) && pd.provider != "" && forall key :: key in pd.options ==> key in OPTION_KEYS
  }

  predicate OptionName(key: string) { key in ALLOWED_KEYS && key != "id" && key != "provider" && key != "seed" }

  lemma {:induction false} OptionPairsKeys(names: seq<string>, options: map<string, string>)
    ensures forall k :: 0 <= k < |OptionPairs(names, options)| ==> OptionPairs(names, options)[k].key in names
  {
    if names != [] { OptionPairsKeys(names[1..], options); }
  }

  lemma DeclaredStep(pd: PeerDecl, p: Pair, rest: seq<Pair>)
    requires p.key in ALLOWED_KEYS
    ensures Declared(pd, [p] + rest) == Declared(Assigned(pd, p), rest)
  {
    assert ([p] + rest)[1..] == rest;
  }

  lemma AssignedOption(pd: PeerDecl, p: Pair)
    requires OptionName(p.key)
    ensures Assigned(pd, p) == pd.(options := pd.options[p.key := p.value])
  {
  }

  /** The options with these names. */
  function Named(names: seq<string>, options: map<string, string>): map<string, string> {
    map key | key in names && key in options :: options[key]
  }

  lemma NamedStep(first: map<string, string>, names: seq<string>, options: map<string, string>)
    requires names != []
    ensures first + Named(names, options)
         == (if names[0] in options then first[names[0] := options[names[0]]] else first) + Named(names[1..], options)
  {
  }

  /** Reading the options again adds just those that were named. */
  lemma {:induction false} DeclaredOptions(pd: PeerDecl, names: seq<string>, options: map<string, string>)
    requires forall key :: key in names ==> OptionName(key)
    ensures Declared(pd, OptionPairs(names, options)) == Ok(pd.(options := pd.options + Named(names, options)))
    decreases |names|
  {
    hide OptionName, Assigned, Named;
    if names == [] {
      NamedNothing(pd.options, options);
    } else {
      var rest := OptionPairs(names[1..], options);
      NamedStep(pd.options, names, options);
      if names[0] in options {
        var p := Pair(names[0], options[names[0]]);
        AssignedOption(pd, p);
        OptionIsAllowed(names[0]);
        DeclaredStep(pd, p, rest);
        DeclaredOptions(Assigned(pd, p), names[1..], options);
      } else {
        assert [] + rest == rest;
        DeclaredOptions(pd, names[1..], options);
      }
    }
  }

  lemma NamedNothing(first: map<string, string>, options: map<string, string>)
    ensures first + Named([], options) == first
  {
    assert Named([], options) == map[];
  }

  lemma OptionIsAllowed(key: string)
    ensures OptionName(key) ==> key in ALLOWED_KEYS
  {
  }

  predicate KeyChar(c: char) { 'a' <= c <= 'z' || c == '-' }

  lemma NoSpaceAtEnds(key: string)
    requires key != "" && forall k :: 0 <= k < |key| ==> KeyChar(key[k])
    ensures SpaceAtStart(key) == 0 && SpaceAtEnd(key) == 0
  {
  }

  lemma PlainKeyIsLegal(key: string)
    requires key != "" && forall k :: 0 <= k < |key| ==> KeyChar(key[k])
    ensures LegalKey(key)
  {
    NoSpaceAtEnds(key);
    TrimmedStays(key);
  }

  lemma AllowedKeysAreLegal(key: string)
    requires key in ALLOWED_KEYS
    ensures LegalKey(key)
  {
    hide LegalKey;
    PlainKeyIsLegal(key);
  }

  lemma OptionKeysAreNames()
    ensures forall key :: key in OPTION_KEYS ==> OptionName(key)
  {
  }

  lemma NamedAll(options: map<string, string>)
    requires forall key :: key in options ==> key in OPTION_KEYS
    ensures map[] + Named(OPTION_KEYS, options) == options
  {
    hide Named;
    NamedIs(OPTION_KEYS, options);
  }

  lemma NamedIs(names: seq<string>, options: map<string, string>)
    requires forall key :: key in options ==> key in names
    ensures Named(names, options) == options
  {
  }

  lemma DeclaredPairs(pd: PeerDecl)
    requires Expressible(pd)
    ensures Declared(NO_DECL, DeclPairs(pd)) == Ok(pd)
  {
    hide Declared, Named, OptionPairs, OptionName, Policy.ValidId;
    var opts := OptionPairs(OPTION_KEYS, pd.options);
    var a, b, c := Pair("id", pd.id), Pair("provider", pd.provider), Pair("seed", pd.seed);
    assert DeclPairs(pd) == [a] + ([b] + ([c] + opts));
    DeclaredStep(NO_DECL, a, [b] + ([c] + opts));
    DeclaredStep(PeerDecl(pd.id, "", "", map[]), b, [c] + opts);
    DeclaredStep(PeerDecl(pd.id, pd.provider, "", map[]), c, opts);
    OptionKeysAreNames();
    DeclaredOptions(PeerDecl(pd.id, pd.provider, pd.seed, map[]), OPTION_KEYS, pd.options);
    NamedAll(pd.options);
  }

  /** Every declaration with a valid id and a provider, whatever characters its texts have, can be written
      as a flag that declares just that. */
  lemma FlagDeclares(pd: PeerDecl)
    requires Expressible(pd)
    ensures PeerSpec(Flag(pd)) == Ok(pd)
  {
    var pairs := DeclPairs(pd);
    QuoteShape(pairs);
    OptionPairsKeys(OPTION_KEYS, pd.options);
    forall k | 0 <= k < |pairs| ensures Printable(Quote(pairs)[k]) {
      AllowedKeysAreLegal(pairs[k].key);
    }
    ParsePrinted(Quote(pairs));
    DeclaredPairs(pd);
  }

  function Flags(peers: seq<PeerDecl>): (raws: seq<string>)
    ensures |raws| == |peers| && forall k :: 0 <= k < |peers| ==> raws[k] == Flag(peers[k])
  {
    seq(|peers|, k requires 0 <= k < |peers| => Flag(peers[k]))
  }

  /** The round trip of a whole configuration: 2 to 16 declarations with distinct ids and a seed each,
      written as flags, are accepted with any of them as opener, and come back as they were, together with
      that opener unless it is the default one. */
  lemma WrittenFlagsAreAccepted(peers: seq<PeerDecl>, broadcast: string, opener: string)
    requires 2 <= |peers| <= 16 && Policy.Distinct(Order(peers))
    requires forall k :: 0 <= k < |peers| ==> Expressible(peers[k]) && peers[k].seed != ""
    requires DefaultOpener(opener) || opener in Order(peers)
    ensures Accepts(Flags(peers), broadcast, opener)
    ensures forall cfg :: Reads(cfg, Flags(peers), broadcast, opener) <==>
      cfg == Config(peers, if DefaultOpener(opener) then peers[0].id else opener)
  {
    hide PeerSpec, Flag;
    var raws, ids := Flags(peers), Order(peers);
    forall k | 0 <= k < |peers| ensures PeerSpec(raws[k]) == Ok(peers[k]) {
      FlagDeclares(peers[k]);
    }
    forall k | 0 <= k < |raws| ensures GoodFlag(raws, broadcast, k) {
      assert forall j :: 0 <= j < k ==> ids[j] != ids[k];
    }
    if !DefaultOpener(opener) {
      var k :| 0 <= k < |ids| && ids[k] == opener;
      assert PeerSpec(raws[k]).value.id == opener;
    }
  }

  /** Two peers, bob and a, with a as the opener that was asked for: bob opens. */
  lemma OpenerAIsReplaced(broadcast: string)
    ensures var flags := Flags([PeerDecl("bob", "p", "s", map[]), PeerDecl("a", "p", "s", map[])]);
      Accepts(flags, broadcast, "a") && forall cfg :: Reads(cfg, flags, broadcast, "a") ==> cfg.openerId == "bob"
  {
    hide Flag, PeerSpec, Reads, Accepts;
    var peers := [PeerDecl("bob", "p", "s", map[]), PeerDecl("a", "p", "s", map[])];
    assert Policy.ValidId("bob") && Policy.ValidId("a");
    assert Order(peers)[0] == "bob" && Order(peers)[1] == "a";
    WrittenFlagsAreAccepted(peers, broadcast, "a");
  }
}
