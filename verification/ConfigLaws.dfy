/** What a --peer flag declares, and what is said about flags that are refused. */
module ConfigLaws {
  import opened Wrappers
  import opened FlagParser
  import opened PeerConfig
  import Policy

  // ---------- one flag ----------

  /** The keys a flag may have. */
  predicate KnownKey(key: string) {
    key == "id" || key == "provider" || key == "seed" || OptionKey(key)
  }

  predicate OptionKey(key: string) {
    key == "model" || key == "reasoning-effort" || key == "cwd" || key == "home"
  }

  /** The last value given for a key, or the default. */
  function LastValue(pairs: seq<Pair>, key: string, default: string): string {
    if pairs == [] then default
    else if pairs[|pairs| - 1].key == key then pairs[|pairs| - 1].value
    else LastValue(pairs[..|pairs| - 1], key, default)
  }

  lemma {:induction false} LastValueCons(p: Pair, rest: seq<Pair>, key: string, default: string)
    ensures LastValue([p] + rest, key, default) == LastValue(rest, key, if p.key == key then p.value else default)
    decreases |rest|
  {
    var all := [p] + rest;
    if rest == [] {
      assert all[..0] == [];
    } else {
      assert all[..|all| - 1] == [p] + rest[..|rest| - 1];
      LastValueCons(p, rest[..|rest| - 1], key, default);
    }
  }

  /** Some pair has this key. */
  ghost predicate Given(pairs: seq<Pair>, key: string) { exists k :: 0 <= k < |pairs| && pairs[k].key == key }

  /** The declaration holds the last value of every key, and no other options. */
  ghost predicate Holds(pd: PeerDecl, pairs: seq<Pair>, before: PeerDecl) {
    pd.id == LastValue(pairs, "id", before.id) && pd.provider == LastValue(pairs, "provider", before.provider) &&
    pd.seed == LastValue(pairs, "seed", before.seed) &&
    (forall key :: key in pd.options <==> key in before.options || (OptionKey(key) && Given(pairs, key))) &&
    forall key :: key in pd.options ==>
      pd.options[key] == LastValue(pairs, key, if key in before.options then before.options[key] else "")
  }

  lemma AllowedIsKnown(key: string)
    ensures key in ALLOWED_KEYS <==> KnownKey(key)
  {
  }

  lemma HoldsFirst(pd: PeerDecl, p: Pair, rest: seq<Pair>, result: PeerDecl)
    requires KnownKey(p.key) && Holds(result, rest, Assigned(pd, p))
    requires forall key :: key in pd.options ==> OptionKey(key)
    ensures Holds(result, [p] + rest, pd)
  {
    hide LastValue, Given;
    var all := [p] + rest;
    forall key, default ensures LastValue(all, key, default) == LastValue(rest, key, if p.key == key then p.value else default) {
      LastValueCons(p, rest, key, default);
    }
    forall key ensures Given(all, key) <==> p.key == key || Given(rest, key) {
      GivenCons(p, rest, key);
    }
  }

  lemma GivenCons(p: Pair, rest: seq<Pair>, key: string)
    ensures Given([p] + rest, key) <==> p.key == key || Given(rest, key)
  {
    var all := [p] + rest;
    assert all[0] == p;
    forall k | 0 <= k < |rest| ensures all[k + 1] == rest[k] {}
  }

  lemma {:induction false} DeclaredHolds(pd: PeerDecl, pairs: seq<Pair>)
    requires forall k :: 0 <= k < |pairs| ==> KnownKey(pairs[k].key)
    requires forall key :: key in pd.options ==> OptionKey(key)
    ensures Declared(pd, pairs).Ok? && Holds(Declared(pd, pairs).value, pairs, pd)
    decreases |pairs|
  {
    hide KnownKey, Holds;
    if pairs == [] {
      HoldsNothing(pd);
    } else {
      AllowedIsKnown(pairs[0].key);
      AssignedKeeps(pd, pairs[0]);
      DeclaredHolds(Assigned(pd, pairs[0]), pairs[1..]);
      HoldsFirst(pd, pairs[0], pairs[1..], Declared(pd, pairs).value);
      assert [pairs[0]] + pairs[1..] == pairs;
    }
  }

  lemma HoldsNothing(pd: PeerDecl)
    ensures Holds(pd, [], pd)
  {
  }

  lemma AssignedKeeps(pd: PeerDecl, p: Pair)
    requires KnownKey(p.key) && forall key :: key in pd.options ==> OptionKey(key)
    ensures forall key :: key in Assigned(pd, p).options ==> OptionKey(key)
  {
  }

  lemma {:induction false} UnknownStops(pd: PeerDecl, pairs: seq<Pair>, n: nat)
    requires n < |pairs| && (forall k :: 0 <= k < n ==> KnownKey(pairs[k].key)) && !KnownKey(pairs[n].key)
    ensures Declared(pd, pairs) == Err(UnknownKey(pairs[n].key))
    decreases n
  {
    hide KnownKey, Assigned;
    AllowedIsKnown(pairs[0].key);
    if n > 0 { UnknownStops(Assigned(pd, pairs[0]), pairs[1..], n - 1); }
  }

  /** What a flag with these pairs declares: the last value of each key, and a valid id and a provider are a must.
      A key that is not known is refused, the first one first. */
  lemma FlagMeans(raw: string, pairs: seq<Pair>)
    requires Parse(raw) == Ok(pairs)
    ensures forall n :: 0 <= n < |pairs| && (forall k :: 0 <= k < n ==> KnownKey(pairs[k].key)) && !KnownKey(pairs[n].key) ==>
      PeerSpec(raw) == Err(UnknownKey(pairs[n].key))
    ensures (forall k :: 0 <= k < |pairs| ==> KnownKey(pairs[k].key)) ==>
      var id, provider := LastValue(pairs, "id", ""), LastValue(pairs, "provider", "");
      if id == "" then PeerSpec(raw) == Err(MissingId)
      else if !Policy.ValidId(id) then PeerSpec(raw) == Err(InvalidId)
      else if provider == "" then PeerSpec(raw) == Err(MissingProvider)
      else PeerSpec(raw).Ok? && Holds(PeerSpec(raw).value, pairs, PeerDecl("", "", "", map[]))
  {
    hide Parse, KnownKey, Declared, LastValue, Policy.ValidId;
    forall n: nat | n < |pairs| && (forall k :: 0 <= k < n ==> KnownKey(pairs[k].key)) && !KnownKey(pairs[n].key)
      ensures PeerSpec(raw) == Err(UnknownKey(pairs[n].key))
    {
      UnknownStops(NO_DECL, pairs, n);
    }
    if forall k :: 0 <= k < |pairs| ==> KnownKey(pairs[k].key) {
      DeclaredHolds(NO_DECL, pairs);
    }
  }

  // ---------- all flags ----------

  /** Every peer of an accepted run has the seed of its flag, or the broadcast one if the flag has none; and the
      rest of its declaration. */
  lemma SeedsAreBroadcast(raws: seq<string>, broadcast: string, opener: string, cfg: Config, k: nat)
    requires Accepts(raws, broadcast, opener) && Reads(cfg, raws, broadcast, opener) && k < |raws|
    ensures k < |cfg.peers| && PeerSpec(raws[k]).Ok?
    ensures var own := PeerSpec(raws[k]).value;
      cfg.peers[k].seed == (if own.seed != "" then own.seed else broadcast) &&
      cfg.peers[k].id == own.id && cfg.peers[k].provider == own.provider && cfg.peers[k].options == own.options
  {
    hide PeerSpec, Accepts;
  }

  /** Flag k parses and declares this id. */
  ghost predicate DeclaresId(raws: seq<string>, k: nat, id: PeerID)
    requires k < |raws|
  {
    PeerSpec(raws[k]).Ok? && PeerSpec(raws[k]).value.id == id
  }

  /** Another flag in front of k declares the same id. */
  ghost predicate Repeats(raws: seq<string>, k: nat, id: PeerID)
    requires k < |raws|
  {
    DeclaresId(raws, k, id) && exists j :: 0 <= j < k && DeclaresId(raws, j, id)
  }

  /** Flag k is the first to declare its id, and there is no seed for it. */
  ghost predicate Seedless(raws: seq<string>, broadcast: string, k: nat, id: PeerID)
    requires k < |raws|
  {
    DeclaresId(raws, k, id) && !Repeats(raws, k, id) && PeerSpec(raws[k]).value.seed == "" && broadcast == ""
  }

  /** The error is about flag k, and flag k has it. */
  ghost predicate WrongWith(raws: seq<string>, broadcast: string, k: nat, e: ConfigError)
    requires k < |raws|
  {
    (e.BadPeer? && PeerSpec(raws[k]) == Err(e.error)) ||
    (e.DuplicateId? && Repeats(raws, k, e.id)) ||
    (e.MissingSeed? && Seedless(raws, broadcast, k, e.id))
  }

  lemma DeclaredBeforeIs(raws: seq<string>, id: PeerID, n: nat)
    requires n <= |raws|
    ensures DeclaredBefore(raws, id, n) <==> exists j :: 0 <= j < n && DeclaresId(raws, j, id)
  {
    hide PeerSpec;
    if DeclaredBefore(raws, id, n) {
      var j :| 0 <= j < n && PeerSpec(raws[j]).Ok? && PeerSpec(raws[j]).value.id == id;
      assert DeclaresId(raws, j, id);
    }
    if exists j :: 0 <= j < n && DeclaresId(raws, j, id) {
      var j :| 0 <= j < n && DeclaresId(raws, j, id);
      assert PeerSpec(raws[j]).Ok?;
    }
  }

  lemma FlagErrorIs(raws: seq<string>, broadcast: string, k: nat, e: ConfigError)
    requires k < |raws|
    ensures e in FlagError(raws, broadcast, k) <==> WrongWith(raws, broadcast, k, e)
  {
    hide PeerSpec, DeclaredBefore;
    if PeerSpec(raws[k]).Ok? { DeclaredBeforeIs(raws, PeerSpec(raws[k]).value.id, k); }
  }

  lemma {:induction false} ErrorOfSome(raws: seq<string>, broadcast: string, n: nat, e: ConfigError)
    requires n <= |raws|
    ensures e in FlagErrors(raws, broadcast, n) <==> exists k :: 0 <= k < n && WrongWith(raws, broadcast, k, e)
    decreases n
  {
    hide FlagError, WrongWith;
    if n > 0 {
      ErrorOfSome(raws, broadcast, n - 1, e);
      FlagErrorIs(raws, broadcast, n - 1, e);
    }
  }

  /** What a refusal says is what is wrong: an error is reported exactly if it is there. */
  lemma ErrorsSayWhatIsWrong(raws: seq<string>, broadcast: string, opener: string, e: ConfigError)
    ensures e in Errors(raws, broadcast, opener) <==>
      (e.TooFewPeers? && |raws| < 2) || (e.TooManyPeers? && |raws| > 16) ||
      (exists k :: 0 <= k < |raws| && WrongWith(raws, broadcast, k, e)) ||
      (e.UnknownOpener? && opener != "" && opener != "a" && forall k :: 0 <= k < |raws| ==> !DeclaresId(raws, k, opener))
  {
    hide PeerSpec, WrongWith, FlagErrors, DeclaredBefore, DeclaresId;
    ErrorOfSome(raws, broadcast, |raws|, e);
    DeclaredBeforeIs(raws, opener, |raws|);
  }
}
