/** Every run of a conversation with one peer: envelopes are written, the terminal emits bytes in pieces
    of any size whenever it likes, the waiter looks whenever it likes. */
module PeerRuns {
  import opened Text
  import opened MarkerSearch
  import opened PersistentProcess
  import opened TurnIsolation
  import opened SilentTurns

  /** What the terminal emits up to the end of turn k: a banner, then one turn after the other. */
  function Out(banner: string, turns: seq<PeerTurn>, k: nat): (s: string)
    requires k <= |turns|
  {
    if k == 0 then banner else Out(banner, turns, k - 1) + Emitted(turns[k - 1])
  }

  /** What may still arrive behind the marker of the turn before turn k. */
  function Leftover(banner: string, turns: seq<PeerTurn>, k: nat): string
    requires k <= |turns|
  {
    if k == 0 then banner else TailOf(turns[k - 1])
  }

  /** Markers are fresh: none occurs in its own envelope (outside the instruction) or reply, nor in what
      the terminal still emits from the turn before. */
  ghost predicate Fair(banner: string, turns: seq<PeerTurn>) {
    forall k :: 0 <= k < |turns| ==> FreshBehind(Leftover(banner, turns, k), turns[k])
  }

  /** `base` counts the emitted bytes that no longer are in the buffer, that is, those emitted before the
      last reset; `bases` holds what it was in each answered turn. */
  datatype State = State(
    held: Held,
    waiting: bool,
    failed: bool,
    sent: nat,
    emitted: nat,
    base: nat,
    replies: seq<string>,
    bases: seq<nat>)

  const START := State(Held("", 0, false), false, false, 0, 0, 0, [], [])

  datatype Step =
    | WriteEnvelope
    | Emit(count: nat)
    | Exit
    | Look(sig: Signals)

  predicate Enabled(banner: string, turns: seq<PeerTurn>, s: State, step: Step)
    requires s.sent <= |turns|
  {
    match step
    case WriteEnvelope => !s.waiting && !s.failed && s.sent < |turns|
    case Emit(count) => !s.held.exited && s.emitted + count <= |Out(banner, turns, s.sent)|
    case Exit => true
    case Look(_) => s.waiting && s.sent > 0
  }

  function Next(banner: string, turns: seq<PeerTurn>, s: State, step: Step): (s': State)
    requires s.sent <= |turns| && Enabled(banner, turns, s, step)
    ensures s'.sent <= |turns|
  {
    match step
    case WriteEnvelope => s.(waiting := true, sent := s.sent + 1)
    case Emit(count) =>
      var chunk := Out(banner, turns, s.sent)[s.emitted..s.emitted + count];
      s.(held := Pumped(s.held, Output(chunk)), emitted := s.emitted + count)
    case Exit => s.(held := Pumped(s.held, ProcessEnd))
    case Look(sig) =>
      var r := Poll(s.held, MarkerOf(turns[s.sent - 1]), sig);
      match r.1
      case Waiting => s
      case Reply(text) => s.(held := r.0, waiting := false, base := s.emitted, replies := s.replies + [text], bases := s.bases + [s.base])
      case _ => s.(held := r.0, waiting := false, failed := true)
  }

  /** Some run of these steps leads from s to s'. */
  predicate Run(banner: string, turns: seq<PeerTurn>, s: State, steps: seq<Step>, s': State)
    requires s.sent <= |turns|
    decreases |steps|
  {
    if steps == [] then s == s'
    else Enabled(banner, turns, s, steps[0]) && Run(banner, turns, Next(banner, turns, s, steps[0]), steps[1..], s')
  }

  // ---------- what every run keeps ----------

  /** What of the turns before was emitted behind the reset, and so arrived in turn k. */
  function Late(banner: string, turns: seq<PeerTurn>, base: nat, k: nat): string
    requires k <= |turns| && base <= |Out(banner, turns, k)|
  {
    Out(banner, turns, k)[base..]
  }

  /** `base` lies behind the marker of the turn before turn k, within what follows it. */
  predicate BaseExact(banner: string, turns: seq<PeerTurn>, base: nat, k: nat)
    requires k <= |turns|
  {
    |Leftover(banner, turns, k)| <= |Out(banner, turns, k)| &&
    |Out(banner, turns, k)| - |Leftover(banner, turns, k)| <= base <= |Out(banner, turns, k)|
  }

  /** The replies read so far are the answers of the turns so far. */
  predicate RepliesExact(banner: string, turns: seq<PeerTurn>, s: State) {
    |s.replies| == |s.bases| <= |turns| &&
    forall k :: 0 <= k < |s.replies| ==>
      BaseExact(banner, turns, s.bases[k], k) && s.replies[k] == Answer(Late(banner, turns, s.bases[k], k), turns[k])
  }

  /** The buffer holds the emitted bytes from `base` on. */
  predicate BufferExact(banner: string, turns: seq<PeerTurn>, s: State)
    requires s.sent <= |turns|
  {
    var n := |s.replies|;
    s.sent == (if s.waiting then n + 1 else n) && n <= |turns| && s.held.cursor == 0 &&
    BaseExact(banner, turns, s.base, n) &&
    s.base <= s.emitted <= |Out(banner, turns, s.sent)| &&
    s.held.buffer == Out(banner, turns, s.sent)[s.base..s.emitted]
  }

  predicate Inv(banner: string, turns: seq<PeerTurn>, s: State) {
    s.sent <= |turns| && RepliesExact(banner, turns, s) && (s.failed ==> !s.waiting) &&
    (!s.failed ==> BufferExact(banner, turns, s))
  }

  lemma OutGrows(banner: string, turns: seq<PeerTurn>, k: nat)
    requires k < |turns|
    ensures Out(banner, turns, k + 1) == Out(banner, turns, k) + Emitted(turns[k])
    ensures |TailOf(turns[k])| <= |Emitted(turns[k])|
  {
    if turns[k].Echoed? { SegmentByReply(turns[k].turn); }
  }

  lemma WriteKeeps(banner: string, turns: seq<PeerTurn>, s: State)
    requires Inv(banner, turns, s) && Enabled(banner, turns, s, WriteEnvelope)
    ensures Inv(banner, turns, Next(banner, turns, s, WriteEnvelope))
  {
    hide Out, Leftover;
    OutGrows(banner, turns, s.sent);
    var a, b := Out(banner, turns, s.sent), Out(banner, turns, s.sent + 1);
    assert b[s.base..s.emitted] == a[s.base..s.emitted];
  }

  lemma EmitKeeps(banner: string, turns: seq<PeerTurn>, s: State, count: nat)
    requires Inv(banner, turns, s) && Enabled(banner, turns, s, Emit(count))
    ensures Inv(banner, turns, Next(banner, turns, s, Emit(count)))
  {
    hide Out, Leftover;
    var a := Out(banner, turns, s.sent);
    if !s.failed {
      assert a[s.base..s.emitted] + a[s.emitted..s.emitted + count] == a[s.base..s.emitted + count];
    }
  }

  /** The buffer of a waiting turn is an initial part of that turn's bytes behind the late ones. */
  lemma WaitingBuffer(banner: string, turns: seq<PeerTurn>, s: State) returns (late: string, n: nat)
    requires Fair(banner, turns) && Inv(banner, turns, s) && s.waiting
    ensures |s.replies| < |turns| && s.sent == |s.replies| + 1 && s.base <= |Out(banner, turns, |s.replies|)|
    ensures var p := turns[|s.replies|];
      FreshBehind(late, p) && n <= |late + Emitted(p)| &&
      s.held == Held((late + Emitted(p))[..n], 0, s.held.exited) &&
      n == s.emitted - s.base && late == Late(banner, turns, s.base, |s.replies|)
  {
    hide Out, FreshBehind, Leftover, Emitted;
    var k := |s.replies|;
    var a := Out(banner, turns, k);
    OutGrows(banner, turns, k);
    late, n := a[s.base..], s.emitted - s.base;
    LateIsFresh(banner, turns, k, s.base);
    PartOf(a, Emitted(turns[k]), s.base, s.emitted);
  }

  lemma PartOf(a: string, b: string, lo: nat, hi: nat)
    requires lo <= |a| && lo <= hi <= |a + b|
    ensures (a + b)[lo..hi] == (a[lo..] + b)[..hi - lo]
  {
  }

  lemma LateIsFresh(banner: string, turns: seq<PeerTurn>, k: nat, base: nat)
    requires Fair(banner, turns) && k < |turns| && BaseExact(banner, turns, base, k)
    ensures FreshBehind(Late(banner, turns, base, k), turns[k])
  {
    hide Out, FreshBehind, Leftover;
    var a, l := Out(banner, turns, k), Leftover(banner, turns, k);
    LeftoverEnds(banner, turns, k);
    var j := base - (|a| - |l|);
    assert a[base..] == a[|a| - |l|..][j..] == l[j..];
    FreshBehindPart(l, turns[k], j);
  }

  lemma LeftoverEnds(banner: string, turns: seq<PeerTurn>, k: nat)
    requires k <= |turns|
    ensures var a, l := Out(banner, turns, k), Leftover(banner, turns, k); |l| <= |a| && a[|a| - |l|..] == l
  {
    hide Emitted, TailOf;
    if k > 0 {
      TailEnds(turns[k - 1]);
      EndOfBoth(Out(banner, turns, k - 1), Emitted(turns[k - 1]), TailOf(turns[k - 1]));
    }
  }

  lemma EndOfBoth(a: string, e: string, l: string)
    requires |l| <= |e| && e[|e| - |l|..] == l
    ensures (a + e)[|a + e| - |l|..] == l
  {
  }

  /** A look that brings the answer. */
  lemma AnswerKeeps(banner: string, turns: seq<PeerTurn>, s: State, s': State, late: string)
    requires Inv(banner, turns, s) && s.waiting && |s.replies| < |turns|
    requires s.base <= |Out(banner, turns, |s.replies|)| && late == Late(banner, turns, s.base, |s.replies|)
    requires s.emitted >= |Out(banner, turns, s.sent)| - |TailOf(turns[|s.replies|])|
    requires s' == s.(held := Held("", 0, s.held.exited), waiting := false, base := s.emitted,
                      replies := s.replies + [Answer(late, turns[|s.replies|])], bases := s.bases + [s.base])
    ensures Inv(banner, turns, s')
  {
    hide Out, Answer, Emitted, TailOf;
    AnswerIsExact(banner, turns, s, s');
    AnswerEmpties(banner, turns, s, s');
  }

  lemma AnswerIsExact(banner: string, turns: seq<PeerTurn>, s: State, s': State)
    requires RepliesExact(banner, turns, s) && |s.replies| < |turns| && BaseExact(banner, turns, s.base, |s.replies|)
    requires s'.replies == s.replies + [Answer(Late(banner, turns, s.base, |s.replies|), turns[|s.replies|])]
    requires s'.bases == s.bases + [s.base]
    ensures RepliesExact(banner, turns, s')
  {
    hide Out, Answer, Leftover, Late;
  }

  lemma AnswerEmpties(banner: string, turns: seq<PeerTurn>, s: State, s': State)
    requires s.sent <= |turns| && BufferExact(banner, turns, s) && s.waiting && |s.replies| < |turns|
    requires s.emitted >= |Out(banner, turns, s.sent)| - |TailOf(turns[|s.replies|])|
    requires s'.held == Held("", 0, s.held.exited) && !s'.waiting && s'.base == s'.emitted == s.emitted
    requires s'.sent == s.sent && |s'.replies| == |s.replies| + 1
    ensures BufferExact(banner, turns, s')
  {
    hide Out, TailOf, Emitted;
    var k := |s.replies|;
    OutGrows(banner, turns, k);
    assert Leftover(banner, turns, k + 1) == TailOf(turns[k]);
    assert Out(banner, turns, k + 1)[s'.base..s'.emitted] == "";
  }

  lemma LookKeeps(banner: string, turns: seq<PeerTurn>, s: State, sig: Signals)
    requires Fair(banner, turns) && Inv(banner, turns, s) && Enabled(banner, turns, s, Look(sig))
    ensures Inv(banner, turns, Next(banner, turns, s, Look(sig)))
  {
    hide Out, FreshBehind, Poll, Emitted, EndOfMarker, Answer, Fair, RepliesExact, Leftover, Late;
    var late, n := WaitingBuffer(banner, turns, s);
    var k := |s.replies|;
    LookAt(late, turns[k], n, s.held.exited, sig);
    OutGrows(banner, turns, k);
    LateLength(banner, turns, s.base, k);
    if n >= EndOfMarker(late, turns[k]) {
      AnswerKeeps(banner, turns, s, Next(banner, turns, s, Look(sig)), late);
    } else {
      NoAnswerKeeps(banner, turns, s, Next(banner, turns, s, Look(sig)));
    }
  }

  lemma LateLength(banner: string, turns: seq<PeerTurn>, base: nat, k: nat)
    requires k <= |turns| && base <= |Out(banner, turns, k)|
    ensures |Late(banner, turns, base, k)| == |Out(banner, turns, k)| - base
  {
  }

  lemma NoAnswerKeeps(banner: string, turns: seq<PeerTurn>, s: State, s': State)
    requires Inv(banner, turns, s)
    requires s' == s || s' == s.(waiting := false, failed := true)
    ensures Inv(banner, turns, s')
  {
    hide BufferExact;
  }

  lemma StepKeeps(banner: string, turns: seq<PeerTurn>, s: State, step: Step)
    requires Fair(banner, turns) && Inv(banner, turns, s) && Enabled(banner, turns, s, step)
    ensures Inv(banner, turns, Next(banner, turns, s, step))
  {
    hide Out, Leftover, Fair, Poll;
    match step
    case WriteEnvelope => WriteKeeps(banner, turns, s);
    case Emit(count) => EmitKeeps(banner, turns, s, count);
    case Exit =>
    case Look(sig) => LookKeeps(banner, turns, s, sig);
  }

  lemma {:induction false} RunKeeps(banner: string, turns: seq<PeerTurn>, s: State, steps: seq<Step>, s': State)
    requires Fair(banner, turns) && Inv(banner, turns, s) && Run(banner, turns, s, steps, s')
    ensures Inv(banner, turns, s')
    decreases |steps|
  {
    hide Next, Enabled, Inv, Fair;
    InvSent(banner, turns, s);
    if steps != [] {
      StepKeeps(banner, turns, s, steps[0]);
      RunKeeps(banner, turns, Next(banner, turns, s, steps[0]), steps[1..], s');
    }
  }

  lemma InvSent(banner: string, turns: seq<PeerTurn>, s: State)
    requires Inv(banner, turns, s)
    ensures s.sent <= |turns|
  {
  }

  lemma StartIsGood(banner: string, turns: seq<PeerTurn>)
    ensures Inv(banner, turns, START)
  {
    assert Out(banner, turns, 0)[0..0] == "";
  }

  /** In every run of every conversation with fresh markers the answer of a turn that the terminal echoes is
      exactly the trimmed reply of that turn: no echo, nothing of the turn before, however the bytes are cut
      and whenever they arrive. */
  lemma TurnsAreIsolated(banner: string, turns: seq<PeerTurn>, steps: seq<Step>, s: State, k: nat)
    requires Fair(banner, turns) && Run(banner, turns, START, steps, s) && k < |s.replies|
    ensures k < |turns| && (turns[k].Echoed? ==> s.replies[k] == Trim(ReplyOf(turns[k])))
  {
    hide Run, Fair, Trim, Out;
    StartIsGood(banner, turns);
    RunKeeps(banner, turns, START, steps, s);
  }

  /** Without echo nothing marks the start of the reply: the answer is whatever was emitted behind the last
      reset, up to the marker. What is left of the turn before is in it if and only if not all of that turn
      (or of the banner, for the first turn) had been emitted when the buffer was reset. */
  lemma SilentTurnsTakeTheLateRest(banner: string, turns: seq<PeerTurn>, steps: seq<Step>, s: State, k: nat)
    requires Fair(banner, turns) && Run(banner, turns, START, steps, s) && k < |s.replies|
    ensures k < |turns| && k < |s.bases| && s.bases[k] <= |Out(banner, turns, k)|
    ensures turns[k].Silent? ==>
      s.replies[k] == Late(banner, turns, s.bases[k], k) + turns[k].reply + "\n" + turns[k].lead &&
      (s.replies[k] == turns[k].reply + "\n" + turns[k].lead <==> s.bases[k] == |Out(banner, turns, k)|)
    ensures |Late(banner, turns, s.bases[k], k)| <= |Leftover(banner, turns, k)|
  {
    hide Run, Fair, Out;
    StartIsGood(banner, turns);
    RunKeeps(banner, turns, START, steps, s);
    var late := Late(banner, turns, s.bases[k], k);
    if turns[k].Silent? && late == "" {
      assert "" + turns[k].reply == turns[k].reply;
    }
  }

  /** And no answer is missed: once the marker of the turn has been emitted, the next look returns it,
      whatever the signals say; before, no look returns anything. */
  lemma LookAnswersExactly(banner: string, turns: seq<PeerTurn>, steps: seq<Step>, s: State, sig: Signals)
    requires Fair(banner, turns) && Run(banner, turns, START, steps, s) && s.waiting
    ensures |s.replies| < |turns| && s.sent == |s.replies| + 1
    ensures Poll(s.held, MarkerOf(turns[|s.replies|]), sig).1.Reply? <==>
            s.emitted >= |Out(banner, turns, s.sent)| - |TailOf(turns[|s.replies|])|
  {
    hide Run, Fair, Out, FreshBehind, Poll, Emitted, EndOfMarker, Answer;
    StartIsGood(banner, turns);
    RunKeeps(banner, turns, START, steps, s);
    var late, n := WaitingBuffer(banner, turns, s);
    LookAt(late, turns[|s.replies|], n, s.held.exited, sig);
    OutGrows(banner, turns, |s.replies|);
  }

  // ---------- every conversation can be completed ----------

  /** All of the first k turns are emitted and answered. */
  predicate Answered(banner: string, turns: seq<PeerTurn>, s: State, k: nat) {
    k <= |turns| && |s.replies| == k && !s.waiting && !s.failed && !s.held.exited && s.sent == k &&
    s.emitted == |Out(banner, turns, k)| && Inv(banner, turns, s)
  }

  lemma {:induction false} RunsJoin(banner: string, turns: seq<PeerTurn>, a: State, p: seq<Step>, b: State, q: seq<Step>, c: State)
    requires a.sent <= |turns| && b.sent <= |turns| && Run(banner, turns, a, p, b) && Run(banner, turns, b, q, c)
    ensures Run(banner, turns, a, p + q, c)
    decreases |p|
  {
    hide Next, Enabled;
    if p == [] {
      assert p + q == q;
    } else {
      assert (p + q)[1..] == p[1..] + q;
      RunsJoin(banner, turns, Next(banner, turns, a, p[0]), p[1..], b, q, c);
    }
  }

  /** The envelope of turn k is written and all of the turn emitted. */
  predicate Ready(banner: string, turns: seq<PeerTurn>, s: State, k: nat) {
    k < |turns| && |s.replies| == k && s.waiting && !s.failed && !s.held.exited && s.sent == k + 1 &&
    s.emitted == |Out(banner, turns, k + 1)| && Inv(banner, turns, s)
  }

  lemma WriteAndEmit(banner: string, turns: seq<PeerTurn>, s: State, k: nat) returns (steps: seq<Step>, b: State)
    requires Fair(banner, turns) && k < |turns| && Answered(banner, turns, s, k)
    ensures Run(banner, turns, s, steps, b) && Ready(banner, turns, b, k)
  {
    hide Out, Emitted, Fair, Run, Inv;
    OutGrows(banner, turns, k);
    var emit := Emit(|Emitted(turns[k])|);
    var a := Next(banner, turns, s, WriteEnvelope);
    StepKeeps(banner, turns, s, WriteEnvelope);
    b := Next(banner, turns, a, emit);
    StepKeeps(banner, turns, a, emit);
    RunNothing(banner, turns, b);
    RunBefore(banner, turns, a, emit, [], b);
    RunBefore(banner, turns, s, WriteEnvelope, [emit] + [], b);
    steps := [WriteEnvelope] + ([emit] + []);
  }

  lemma LookAnswers(banner: string, turns: seq<PeerTurn>, s: State, k: nat) returns (s': State)
    requires Fair(banner, turns) && Ready(banner, turns, s, k)
    ensures var look := Look(Signals(false, false));
      Enabled(banner, turns, s, look) && s' == Next(banner, turns, s, look) && Answered(banner, turns, s', k + 1)
  {
    hide Out, FreshBehind, Poll, Emitted, EndOfMarker, Answer, Fair, Inv, Leftover, Late;
    var sig := Signals(false, false);
    var late, n := WaitingBuffer(banner, turns, s);
    OutGrows(banner, turns, k);
    LateLength(banner, turns, s.base, k);
    LookAt(late, turns[k], n, false, sig);
    LookKeeps(banner, turns, s, sig);
    s' := Next(banner, turns, s, Look(sig));
  }

  /** Write, emit, look: one more answer. */
  lemma OneMoreAnswer(banner: string, turns: seq<PeerTurn>, s: State, k: nat) returns (steps: seq<Step>, s': State)
    requires Fair(banner, turns) && k < |turns| && Answered(banner, turns, s, k)
    ensures Run(banner, turns, s, steps, s') && Answered(banner, turns, s', k + 1)
  {
    hide Out, Fair, Run, Inv, Next;
    var p, b := WriteAndEmit(banner, turns, s, k);
    s' := LookAnswers(banner, turns, b, k);
    RunNothing(banner, turns, s');
    RunBefore(banner, turns, b, Look(Signals(false, false)), [], s');
    steps := p + ([Look(Signals(false, false))] + []);
    RunsJoin(banner, turns, s, p, b, [Look(Signals(false, false))] + [], s');
  }

  lemma RunNothing(banner: string, turns: seq<PeerTurn>, s: State)
    requires s.sent <= |turns|
    ensures Run(banner, turns, s, [], s)
  {
  }

  /** Every conversation with fresh markers has a run that answers every turn. */
  lemma {:induction false} EveryTurnCanBeAnswered(banner: string, turns: seq<PeerTurn>, k: nat) returns (steps: seq<Step>, s: State)
    requires Fair(banner, turns) && k <= |turns|
    ensures Run(banner, turns, START, steps, s) && Answered(banner, turns, s, k)
    decreases k
  {
    hide Out, Fair, Enabled, Next, Leftover;
    if k == 0 {
      FirstEmission(banner, turns);
      steps, s := [Emit(|Out(banner, turns, 0)|)], Next(banner, turns, START, Emit(|Out(banner, turns, 0)|));
      RunNothing(banner, turns, s);
      RunBefore(banner, turns, START, Emit(|Out(banner, turns, 0)|), [], s);
      assert steps == [Emit(|Out(banner, turns, 0)|)] + [];
    } else {
      var p, a := EveryTurnCanBeAnswered(banner, turns, k - 1);
      var q, b := OneMoreAnswer(banner, turns, a, k - 1);
      steps, s := p + q, b;
      RunsJoin(banner, turns, START, p, a, q, b);
    }
  }

  lemma FirstEmission(banner: string, turns: seq<PeerTurn>)
    requires Fair(banner, turns)
    ensures var e := Emit(|Out(banner, turns, 0)|);
      Enabled(banner, turns, START, e) && Answered(banner, turns, Next(banner, turns, START, e), 0)
  {
    StartIsGood(banner, turns);
    EmitKeeps(banner, turns, START, |Out(banner, turns, 0)|);
  }

  // ---------- the waiting loop is such a run ----------

  /** The output events bring the emitted bytes in order, and nothing comes behind the end. */
  predicate Follows(banner: string, turns: seq<PeerTurn>, s: State, events: seq<Event>)
    requires s.sent <= |turns|
    decreases |events|
  {
    events == [] ||
    match events[0]
    case Output(data) =>
      !s.held.exited && s.emitted + |data| <= |Out(banner, turns, s.sent)| &&
      data == Out(banner, turns, s.sent)[s.emitted..s.emitted + |data|] &&
      Follows(banner, turns, s.(held := Pumped(s.held, events[0]), emitted := s.emitted + |data|), events[1..])
    case _ => Follows(banner, turns, s.(held := Pumped(s.held, events[0])), events[1..])
  }

  /** The step that brings the event, if it is one for the pump. */
  function StepOf(e: Event): seq<Step> {
    match e
    case Output(data) => [Emit(|data|)]
    case ProcessEnd => [Exit]
    case _ => []
  }

  /** What the turn's outcome means for the conversation. */
  predicate EndsAs(s: State, outcome: Outcome, s': State) {
    match outcome
    case Reply(text) => !s'.waiting && s'.failed == s.failed && s'.replies == s.replies + [text]
    case Waiting => s'.waiting && s'.failed == s.failed && s'.replies == s.replies
    case _ => !s'.waiting && s'.failed && s'.replies == s.replies
  }

  /** Every turn of the wrapper, with whatever events and signals, is a run of looks and arrivals. */
  lemma {:induction false} ConverseIsRun(banner: string, turns: seq<PeerTurn>, s: State, sig: Signals, events: seq<Event>)
    returns (steps: seq<Step>, s': State)
    requires 0 < s.sent <= |turns| && s.waiting && Follows(banner, turns, s, events)
    ensures Run(banner, turns, s, steps, s')
    ensures var r := Converse(s.held, MarkerOf(turns[s.sent - 1]), sig, events);
      s'.held == r.0 && EndsAs(s, r.1, s')
    decreases |events|
  {
    hide Poll, Out, Next, Enabled, Run, EndsAs, Follows, MarkerOf;
    var m := MarkerOf(turns[s.sent - 1]);
    var r := Poll(s.held, m, sig);
    var looked := LookIsRun(banner, turns, s, sig);
    if !r.1.Waiting? || events == [] {
      steps, s' := [Look(sig)], looked;
    } else {
      var e := events[0];
      var arrived := Arrived(s, e);
      FollowsOn(banner, turns, s, events);
      var rest, last := ConverseIsRun(banner, turns, arrived, Signalled(sig, e), events[1..]);
      ArrivalIsRun(banner, turns, s, e, rest, last);
      RunBefore(banner, turns, s, Look(sig), StepOf(e) + rest, last);
      steps, s' := [Look(sig)] + (StepOf(e) + rest), last;
      EndsAlike(s, arrived, Converse(arrived.held, m, Signalled(sig, e), events[1..]).1, last);
    }
  }

  /** The event has arrived, as far as the pump takes part in it. */
  function Arrived(s: State, e: Event): State {
    s.(held := Pumped(s.held, e), emitted := s.emitted + if e.Output? then |e.data| else 0)
  }

  lemma EndsAlike(s: State, arrived: State, outcome: Outcome, last: State)
    requires arrived.failed == s.failed && arrived.replies == s.replies && EndsAs(arrived, outcome, last)
    ensures EndsAs(s, outcome, last)
  {
  }

  lemma FollowsOn(banner: string, turns: seq<PeerTurn>, s: State, events: seq<Event>)
    requires s.sent <= |turns| && events != [] && Follows(banner, turns, s, events)
    ensures Follows(banner, turns, s, [events[0]]) && Follows(banner, turns, Arrived(s, events[0]), events[1..])
  {
    hide Out;
  }

  /** One look, by itself. */
  lemma LookIsRun(banner: string, turns: seq<PeerTurn>, s: State, sig: Signals) returns (looked: State)
    requires 0 < s.sent <= |turns| && s.waiting
    ensures Enabled(banner, turns, s, Look(sig)) && looked == Next(banner, turns, s, Look(sig))
    ensures Run(banner, turns, s, [Look(sig)], looked)
    ensures var r := Poll(s.held, MarkerOf(turns[s.sent - 1]), sig);
      looked.held == r.0 && EndsAs(s, r.1, looked) && (r.1.Waiting? ==> looked == s)
  {
    hide Poll, MarkerOf, Run;
    PollOutcome(s.held, MarkerOf(turns[s.sent - 1]), sig);
    looked := Next(banner, turns, s, Look(sig));
    RunNothing(banner, turns, looked);
    RunBefore(banner, turns, s, Look(sig), [], looked);
    assert [Look(sig)] + [] == [Look(sig)];
  }

  lemma PollOutcome(h: Held, m: string, sig: Signals)
    ensures var r := Poll(h, m, sig); (r.1.Waiting? ==> r.0 == h) && !r.1.EmptyMarker? && !r.1.WriteFailed?
  {
    hide FindMarker, StripEcho;
  }

  lemma ArrivalIsRun(banner: string, turns: seq<PeerTurn>, s: State, e: Event, rest: seq<Step>, last: State)
    requires s.sent <= |turns| && Follows(banner, turns, s, [e])
    requires Run(banner, turns, Arrived(s, e), rest, last)
    ensures Run(banner, turns, s, StepOf(e) + rest, last)
  {
    hide Out, Run;
    match e
    case Output(data) => RunBefore(banner, turns, s, Emit(|data|), rest, last);
    case ProcessEnd => RunBefore(banner, turns, s, Exit, rest, last);
    case _ => assert StepOf(e) + rest == rest;
  }

  lemma RunBefore(banner: string, turns: seq<PeerTurn>, s: State, step: Step, rest: seq<Step>, last: State)
    requires s.sent <= |turns| && Enabled(banner, turns, s, step) && Run(banner, turns, Next(banner, turns, s, step), rest, last)
    ensures Run(banner, turns, s, [step] + rest, last)
  {
    hide Enabled, Next;
    assert ([step] + rest)[1..] == rest;
  }
}
