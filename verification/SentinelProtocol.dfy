/** Broker, sentinel goroutine and bus, interleaved in every possible way: `internal/terminator/sentinel.go`
    and the publishing and draining of `internal/conversation/broker.go`, over the bus of BusModel. */
module SentinelProtocol {
  import opened Wrappers
  import opened BusModel
  import BusRuns
  import Broker
  import Sentinel

  datatype Payload = TurnMsg(index: nat, response: string) | CtlMsg(ctl: Broker.Control)

  const TURN: Topic := "turn"
  const CONTROL: Topic := "control"

  /** The sentinel subscribes first, then the broker. */
  const SENTINEL: nat := 0
  const BROKER: nat := 1

  const VERDICT := CtlMsg(Broker.Verdict(true, Broker.CompletedSentinel))

  /** Where the broker is: at the top of its loop, behind publishing a turn, before draining, draining, done. */
  datatype BrokerAt =
    | Top
    | Published(response: string)
    | Draining
    | Collecting(drained: seq<Broker.Control>)
    | Done(status: Broker.Status)

  /** Where the sentinel is: waiting, about to publish a verdict, or gone. */
  datatype SentinelAt = Idle | Holding | Gone

  /** `heard` collects the numbers of the turns the sentinel has received. */
  datatype System = System(
    bus: BusModel.State<Payload>,
    turns: seq<string>,
    broker: BrokerAt,
    sentinel: SentinelAt,
    heard: set<nat>)

  datatype Step =
    | Deliver(response: string)
    | DeliverFails(cancelled: bool)
    | Record
    | CancelRun
    | TimeOut
    | Take
    | EndDrain
    | SentinelTake
    | SentinelPublish
    | SentinelStops
    | Outside(event: Event<Payload>)

  datatype Setup = Setup(token: string, maxTurns: int, capacity: nat)

  function Start(c: Setup): System {
    System(BusModel.State.State(false, c.capacity, [Subscriber(TURN, [], false), Subscriber(CONTROL, [], false)],
                         map[TURN := [SENTINEL], CONTROL := [BROKER]]), [], Top, Idle, {})
  }

  function Queue(s: System, id: nat): seq<Payload> {
    if id < |s.bus.subs| then s.bus.subs[id].queue else []
  }

  /** Others may use the bus, but only the broker publishes turns, only the sentinel says that the sentinel
      was seen, nobody touches the two subscriptions, and the bus stays open during the run. */
  predicate Allowed(e: Event<Payload>) {
    match e
    case Publish(topic, msg) => topic != TURN && (topic == CONTROL ==> msg != VERDICT)
    case Subscribe(_) => true
    case Cancel(id) => id > BROKER
    case Close => false
    case Receive(id) => id > BROKER
  }

  predicate HasToken(c: Setup, response: string) { Sentinel.OnOwnLine(response, Sentinel.TokenOr(c.token)) }

  ghost predicate StepEnabled(c: Setup, s: System, step: Step) {
    BusModel.Valid(s.bus) && |s.bus.subs| > BROKER &&
    match step
    case Deliver(_) => s.broker == Top
    case DeliverFails(_) => s.broker == Top
    case Record => s.broker.Published?
    case CancelRun => s.broker == Top || s.broker == Draining
    case TimeOut => s.broker == Draining
    case Take => (s.broker == Draining || s.broker.Collecting?) && Queue(s, BROKER) != []
    case EndDrain => s.broker.Collecting? && Queue(s, BROKER) == []
    case SentinelTake => s.sentinel == Idle && Queue(s, SENTINEL) != []
    case SentinelPublish => s.sentinel == Holding
    case SentinelStops => true
    case Outside(e) => Enabled(s.bus, e) && Allowed(e)
  }

  ghost function After(c: Setup, s: System, step: Step): System
    requires StepEnabled(c, s, step)
  {
    match step
    case Deliver(response) =>
      s.(bus := Next(s.bus, Publish(TURN, TurnMsg(|s.turns| + 1, response))), broker := Published(response))
    case DeliverFails(cancelled) => s.(broker := Done(if cancelled then Broker.Interrupted else Broker.Errored))
    case Record =>
      s.(turns := s.turns + [s.broker.response],
         broker := if |s.turns| + 1 >= c.maxTurns then Done(Broker.MaxTurnsHit) else Draining)
    case CancelRun => s.(broker := Done(Broker.Interrupted))
    case TimeOut => s.(broker := Top)
    case Take =>
      var sofar := if s.broker.Collecting? then s.broker.drained else [];
      var msg := Queue(s, BROKER)[0];
      s.(bus := Next(s.bus, Receive(BROKER)), broker := Collecting(if msg.CtlMsg? then sofar + [msg.ctl] else sofar))
    case EndDrain =>
      (match Broker.Ending(s.broker.drained)
       case Some(status) => s.(broker := Done(status))
       case None => s.(broker := Top))
    case SentinelTake =>
      var msg := Queue(s, SENTINEL)[0];
      s.(bus := Next(s.bus, Receive(SENTINEL)),
         heard := if msg.TurnMsg? then s.heard + {msg.index} else s.heard,
         sentinel := if msg.TurnMsg? && HasToken(c, msg.response) then Holding else Idle)
    case SentinelPublish => s.(bus := Next(s.bus, Publish(CONTROL, VERDICT)), sentinel := Idle)
    case SentinelStops => s.(sentinel := Gone)
    case Outside(e) => s.(bus := Next(s.bus, e))
  }

  ghost predicate Run(c: Setup, s: System, steps: seq<Step>, s': System)
    decreases |steps|
  {
    if steps == [] then s == s'
    else StepEnabled(c, s, steps[0]) && Run(c, After(c, s, steps[0]), steps[1..], s')
  }

  // ---------- the bus under the protocol ----------

  /** The bus is open and both subscriptions stand. */
  ghost predicate BusGood(s: System) {
    BusModel.Valid(s.bus) && !s.bus.closed && |s.bus.subs| > BROKER &&
    s.bus.subs[SENTINEL].topic == TURN && !s.bus.subs[SENTINEL].closed &&
    s.bus.subs[BROKER].topic == CONTROL && !s.bus.subs[BROKER].closed
  }

  /** The queue with the message at its end, if there is room. */
  function Pushed(q: seq<Payload>, capacity: nat, msg: Payload): seq<Payload> {
    if |q| < capacity then q + [msg] else q
  }

  lemma BusStep(s: System, e: Event<Payload>, s': System)
    requires BusGood(s) && Enabled(s.bus, e) && s'.bus == Next(s.bus, e)
    requires e != Close && e != Cancel(SENTINEL) && e != Cancel(BROKER)
    ensures BusGood(s') && s'.bus.capacity == s.bus.capacity
    ensures var q, q' := Queue(s, SENTINEL), Queue(s', SENTINEL);
      q' == if e.Publish? && e.topic == TURN then Pushed(q, s.bus.capacity, e.msg)
            else if e == Receive(SENTINEL) && q != [] then q[1..] else q
    ensures var q, q' := Queue(s, BROKER), Queue(s', BROKER);
      q' == if e.Publish? && e.topic == CONTROL then Pushed(q, s.bus.capacity, e.msg)
            else if e == Receive(BROKER) && q != [] then q[1..] else q
  {
    hide Next, BusModel.Valid;
    BusModel.StepKeeps(s.bus, e);
    BusRuns.StepOfState(s.bus, e);
    BusRuns.StepOfQueue(s.bus, e, SENTINEL);
    BusRuns.StepOfQueue(s.bus, e, BROKER);
    CapacityStays(s.bus, e);
  }

  lemma SameQueues(s: System, s': System)
    ensures s'.bus == s.bus ==> Queue(s', SENTINEL) == Queue(s, SENTINEL) && Queue(s', BROKER) == Queue(s, BROKER)
  {
  }

  lemma CapacityStays(s: BusModel.State<Payload>, e: Event<Payload>)
    requires BusModel.Valid(s) && Enabled(s, e)
    ensures Next(s, e).capacity == s.capacity
  {
  }

  // ---------- a sentinel ending has a reason ----------

  /** Response r is the published one or in the log under number i. */
  predicate IsTurn(s: System, i: nat, r: string) {
    1 <= i && ((i <= |s.turns| && s.turns[i - 1] == r) || (i == |s.turns| + 1 && s.broker == Published(r)))
  }

  /** Some turn up to now has the token on a line of its own. */
  ghost predicate TokenSeen(c: Setup, s: System) {
    (exists k :: 0 <= k < |s.turns| && HasToken(c, s.turns[k])) || (s.broker.Published? && HasToken(c, s.broker.response))
  }

  ghost predicate TurnsQueued(s: System, q: seq<Payload>) {
    forall k :: 0 <= k < |q| ==> q[k].TurnMsg? && IsTurn(s, q[k].index, q[k].response)
  }

  predicate HasVerdict(drained: seq<Broker.Control>) { VERDICT.ctl in drained }

  /** The sentinel's verdict is about to be published, queued, drained or obeyed. */
  predicate Raised(s: System) {
    s.sentinel == Holding || VERDICT in Queue(s, BROKER) || (s.broker.Collecting? && HasVerdict(s.broker.drained)) ||
    s.broker == Done(Broker.CompletedSentinel)
  }

  ghost predicate Honest(c: Setup, s: System) {
    BusGood(s) && TurnsQueued(s, Queue(s, SENTINEL)) &&
    (Raised(s) ==> TokenSeen(c, s))
  }

  lemma StartIsHonest(c: Setup)
    ensures Honest(c, Start(c))
  {
    var b := Start(c).bus;
    assert b.live[TURN] == [SENTINEL] && b.live[CONTROL] == [BROKER];
    assert b.subs[SENTINEL].topic == TURN && b.subs[BROKER].topic == CONTROL;
    assert |b.subs| == 2;
  }

  /** An ending by verdict comes from a verdict that was drained. */
  lemma {:induction false} EndingIsDrained(drained: seq<Broker.Control>)
    ensures Broker.Ending(drained) == Some(Broker.CompletedSentinel) ==> HasVerdict(drained)
    decreases |drained|
  {
    if drained != [] { EndingIsDrained(drained[1..]); }
  }

  lemma RecordIsHonest(c: Setup, s: System)
    requires Honest(c, s) && StepEnabled(c, s, Record)
    ensures Honest(c, After(c, s, Record))
  {
    hide BusModel.Valid, HasToken;
    var s', n := After(c, s, Record), |s.turns|;
    assert s'.turns[n] == s.broker.response && forall k :: 0 <= k < n ==> s'.turns[k] == s.turns[k];
    assert TokenSeen(c, s) ==> TokenSeen(c, s');
  }

  lemma SeenStays(c: Setup, s: System, s': System)
    requires s'.turns == s.turns && (s.broker.Published? ==> s'.broker == s.broker)
    ensures TokenSeen(c, s) ==> TokenSeen(c, s')
  {
  }

  lemma TurnIsSeen(c: Setup, s: System, i: nat, r: string)
    requires IsTurn(s, i, r)
    ensures HasToken(c, r) ==> TokenSeen(c, s)
  {
  }

  lemma DeliverIsHonest(c: Setup, s: System, response: string)
    requires Honest(c, s) && StepEnabled(c, s, Deliver(response))
    ensures Honest(c, After(c, s, Deliver(response)))
  {
    hide Next, BusModel.Valid, HasToken, TokenSeen, Queue;
    var s' := After(c, s, Deliver(response));
    SeenStays(c, s, s');
    BusStep(s, Publish(TURN, TurnMsg(|s.turns| + 1, response)), s');
  }

  /** Steps that use the bus but leave the log and the published turn as they are. */
  lemma BusUseIsHonest(c: Setup, s: System, step: Step, e: Event<Payload>)
    requires Honest(c, s) && StepEnabled(c, s, step)
    requires (step == SentinelPublish && e == Publish(CONTROL, VERDICT)) || step == Outside(e)
    ensures Honest(c, After(c, s, step))
  {
    hide Next, BusModel.Valid, HasToken, TokenSeen, Queue, IsTurn, TurnsQueued;
    var s' := After(c, s, step);
    SeenStays(c, s, s');
    BusStep(s, e, s');
    OtherTurns(s, s');
  }

  lemma TakeIsHonest(c: Setup, s: System)
    requires Honest(c, s) && StepEnabled(c, s, Take)
    ensures Honest(c, After(c, s, Take))
  {
    hide Next, BusModel.Valid, HasToken, TokenSeen, Queue, IsTurn, TurnsQueued;
    var s', q := After(c, s, Take), Queue(s, BROKER);
    SeenStays(c, s, s');
    BusStep(s, Receive(BROKER), s');
    assert q[0] in q && forall m :: m in q[1..] ==> m in q;
    SameTurns(c, s, s');
  }

  lemma HearIsHonest(c: Setup, s: System)
    requires Honest(c, s) && StepEnabled(c, s, SentinelTake)
    ensures Honest(c, After(c, s, SentinelTake))
  {
    hide Next, BusModel.Valid, HasToken, TokenSeen, Queue, IsTurn;
    var s', q := After(c, s, SentinelTake), Queue(s, SENTINEL);
    SeenStays(c, s, s');
    TurnIsSeen(c, s, q[0].index, q[0].response);
    BusStep(s, Receive(SENTINEL), s');
    OtherTurns(s, s');
  }

  /** Steps in which nothing is published, taken or recorded. */
  lemma QuietIsHonest(c: Setup, s: System, step: Step)
    requires Honest(c, s) && StepEnabled(c, s, step)
    requires step.DeliverFails? || step == CancelRun || step == TimeOut || step == EndDrain || step == SentinelStops
    ensures Honest(c, After(c, s, step))
  {
    hide Next, BusModel.Valid, HasToken, Broker.Ending, TokenSeen, Queue, IsTurn, TurnsQueued;
    var s' := After(c, s, step);
    SameQueues(s, s');
    SeenStays(c, s, s');
    if step == SentinelStops { OtherTurns(s, s'); } else { SameTurns(c, s, s'); }
    if step == EndDrain { EndingIsDrained(s.broker.drained); }
  }

  lemma StepIsHonest(c: Setup, s: System, step: Step)
    requires Honest(c, s) && StepEnabled(c, s, step)
    ensures Honest(c, After(c, s, step))
  {
    hide After, Honest, StepEnabled;
    match step
    case Deliver(response) => DeliverIsHonest(c, s, response);
    case Record => RecordIsHonest(c, s);
    case Take => TakeIsHonest(c, s);
    case SentinelTake => HearIsHonest(c, s);
    case SentinelPublish => BusUseIsHonest(c, s, step, Publish(CONTROL, VERDICT));
    case Outside(e) => BusUseIsHonest(c, s, step, e);
    case _ => QuietIsHonest(c, s, step);
  }

  lemma {:induction false} RunIsHonest(c: Setup, s: System, steps: seq<Step>, s': System)
    requires Honest(c, s) && Run(c, s, steps, s')
    ensures Honest(c, s')
    decreases |steps|
  {
    hide Honest, After, StepEnabled;
    if steps != [] {
      StepIsHonest(c, s, steps[0]);
      RunIsHonest(c, After(c, s, steps[0]), steps[1..], s');
    }
  }

  /** Under every interleaving, a run that ends with the sentinel's status has a turn in its log in which
      the token stands on a line of its own. */
  lemma SentinelEndingHasToken(c: Setup, steps: seq<Step>, s: System)
    requires Run(c, Start(c), steps, s) && s.broker == Done(Broker.CompletedSentinel)
    ensures exists k :: 0 <= k < |s.turns| && HasToken(c, s.turns[k])
  {
    hide Run, Start;
    StartIsHonest(c);
    RunIsHonest(c, Start(c), steps, s);
  }

  // ---------- a verdict in time ends the run at its turn ----------

  /** Nobody cancels, the sentinel is not stopped, it alone sends control messages, and the broker's timer
      fires only while its queue is empty. */
  predicate Calm(s: System, step: Step) {
    match step
    case CancelRun => false
    case SentinelStops => false
    case TimeOut => Queue(s, BROKER) == []
    case Outside(e) => !(e.Publish? && e.topic == CONTROL)
    case _ => true
  }

  ghost predicate CalmRun(c: Setup, s: System, steps: seq<Step>, s': System)
    decreases |steps|
  {
    if steps == [] then s == s'
    else StepEnabled(c, s, steps[0]) && Calm(s, steps[0]) && CalmRun(c, After(c, s, steps[0]), steps[1..], s')
  }

  /** The sentinel has received a turn with the token. */
  ghost predicate Alerted(c: Setup, s: System) {
    exists i, r :: i in s.heard && IsTurn(s, i, r) && HasToken(c, r)
  }

  predicate OnlyVerdicts(s: System) {
    (forall m :: m in Queue(s, BROKER) ==> m == VERDICT) &&
    (s.broker.Collecting? ==> forall m :: m in s.broker.drained ==> m == VERDICT.ctl)
  }

  /** The verdict is on its way: still with the sentinel, in the broker's queue, among what it drained, or
      the run is over. */
  predicate Underway(s: System) {
    s.sentinel == Holding || Queue(s, BROKER) != [] || (s.broker.Collecting? && s.broker.drained != []) || s.broker.Done?
  }

  ghost predicate Alert(c: Setup, s: System) {
    && BusGood(s) && 1 <= s.bus.capacity == c.capacity && s.sentinel != Gone
    && TurnsQueued(s, Queue(s, SENTINEL)) && OnlyVerdicts(s)
    && (forall i :: i in s.heard ==> i <= |s.turns| + if s.broker.Published? then 1 else 0)
    && (Alerted(c, s) ==> Underway(s))
  }

  /** Drained verdicts end the run with the sentinel's status. */
  lemma VerdictsEnd(drained: seq<Broker.Control>)
    requires forall m :: m in drained ==> m == VERDICT.ctl
    ensures Broker.Ending(drained) == if drained == [] then None else Some(Broker.CompletedSentinel)
  {
    if drained != [] { assert drained[0] in drained; }
  }

  lemma StartIsAlert(c: Setup)
    requires c.capacity >= 1
    ensures Alert(c, Start(c))
  {
    StartIsHonest(c);
  }

  lemma TakeIsAlert(c: Setup, s: System)
    requires Alert(c, s) && StepEnabled(c, s, Take)
    ensures Alert(c, After(c, s, Take))
  {
    hide Next, BusModel.Valid, HasToken, Queue, IsTurn, TurnsQueued, Alerted;
    var s', q := After(c, s, Take), Queue(s, BROKER);
    BusStep(s, Receive(BROKER), s');
    assert q[0] in q;
    assert forall m :: m in q[1..] ==> m in q;
    SameTurns(c, s, s');
  }

  /** Between publishing and publishing, the turns that count are those in the log. */
  lemma SameTurns(c: Setup, s: System, s': System)
    requires s'.turns == s.turns && s'.heard == s.heard && !s.broker.Published? && !s'.broker.Published?
    ensures (Alerted(c, s') <==> Alerted(c, s)) && forall q :: TurnsQueued(s, q) ==> TurnsQueued(s', q)
  {
    hide HasToken;
    assert forall i, r :: IsTurn(s', i, r) <==> IsTurn(s, i, r);
  }

  lemma HearIsAlert(c: Setup, s: System)
    requires Alert(c, s) && StepEnabled(c, s, SentinelTake)
    ensures Alert(c, After(c, s, SentinelTake))
  {
    hide Next, BusModel.Valid, HasToken, Queue, IsTurn, Alerted;
    var s', q := After(c, s, SentinelTake), Queue(s, SENTINEL);
    SameQueues(s, s');
    BusStep(s, Receive(SENTINEL), s');
    OtherTurns(s, s');
    TurnNumber(s, q[0].index, q[0].response);
    HeardAlerts(c, s, s', q[0].index, q[0].response);
  }

  lemma TurnNumber(s: System, i: nat, r: string)
    requires IsTurn(s, i, r)
    ensures i <= |s.turns| + if s.broker.Published? then 1 else 0
  {
  }

  /** One more turn heard alerts only if it has the token. */
  lemma HeardAlerts(c: Setup, s: System, s': System, i: nat, r: string)
    requires s'.turns == s.turns && s'.broker == s.broker && s'.heard == s.heard + {i} && IsTurn(s, i, r)
    ensures Alerted(c, s') ==> Alerted(c, s) || HasToken(c, r)
  {
    hide HasToken;
    OtherTurns(s, s');
  }

  /** A new turn has not been heard. */
  lemma DeliverIsAlert(c: Setup, s: System, response: string)
    requires Alert(c, s) && StepEnabled(c, s, Deliver(response))
    ensures Alert(c, After(c, s, Deliver(response)))
  {
    hide Next, BusModel.Valid, HasToken, Queue;
    var s' := After(c, s, Deliver(response));
    BusStep(s, Publish(TURN, TurnMsg(|s.turns| + 1, response)), s');
    assert forall i, r :: i in s.heard && IsTurn(s', i, r) ==> IsTurn(s, i, r);
  }

  lemma RecordIsAlert(c: Setup, s: System)
    requires Alert(c, s) && StepEnabled(c, s, Record)
    ensures Alert(c, After(c, s, Record))
  {
    hide Next, BusModel.Valid, HasToken, Queue;
    var s' := After(c, s, Record);
    SameQueues(s, s');
    assert forall i, r :: i in s.heard && IsTurn(s', i, r) ==> IsTurn(s, i, r);
  }

  lemma PublishIsAlert(c: Setup, s: System)
    requires Alert(c, s) && StepEnabled(c, s, SentinelPublish)
    ensures Alert(c, After(c, s, SentinelPublish))
  {
    hide Next, BusModel.Valid, HasToken, Queue, IsTurn, TurnsQueued;
    var s' := After(c, s, SentinelPublish);
    BusStep(s, Publish(CONTROL, VERDICT), s');
    OtherTurns(s, s');
  }

  lemma OutsideIsAlert(c: Setup, s: System, e: Event<Payload>)
    requires Alert(c, s) && StepEnabled(c, s, Outside(e)) && Calm(s, Outside(e))
    ensures Alert(c, After(c, s, Outside(e)))
  {
    hide Next, BusModel.Valid, HasToken, Queue, IsTurn, TurnsQueued, Alerted;
    var s' := After(c, s, Outside(e));
    BusStep(s, e, s');
    OtherTurns(s, s');
    OtherAlerts(c, s, s');
  }

  /** Steps in which nothing is published, taken or recorded. */
  lemma QuietIsAlert(c: Setup, s: System, step: Step)
    requires Alert(c, s) && StepEnabled(c, s, step) && Calm(s, step)
    requires step.DeliverFails? || step == TimeOut || step == EndDrain
    ensures Alert(c, After(c, s, step))
  {
    hide Next, BusModel.Valid, HasToken, Queue, IsTurn, TurnsQueued, Alerted, Broker.Ending;
    var s' := After(c, s, step);
    SameQueues(s, s');
    SameTurns(c, s, s');
    if step == EndDrain { VerdictsEnd(s.broker.drained); }
  }

  /** Nothing but the log and a published turn matters to what counts as a turn. */
  lemma OtherTurns(s: System, s': System)
    requires s'.turns == s.turns && s'.broker == s.broker
    ensures forall q :: TurnsQueued(s, q) ==> TurnsQueued(s', q)
    ensures forall i, r :: IsTurn(s', i, r) <==> IsTurn(s, i, r)
  {
  }

  lemma OtherAlerts(c: Setup, s: System, s': System)
    requires s'.turns == s.turns && s'.broker == s.broker && s'.heard == s.heard
    ensures Alerted(c, s') <==> Alerted(c, s)
  {
    hide HasToken;
    OtherTurns(s, s');
  }

  lemma StepIsAlert(c: Setup, s: System, step: Step)
    requires Alert(c, s) && StepEnabled(c, s, step) && Calm(s, step)
    ensures Alert(c, After(c, s, step))
  {
    hide After, Alert, StepEnabled;
    match step
    case Deliver(response) => DeliverIsAlert(c, s, response);
    case Take => TakeIsAlert(c, s);
    case SentinelTake => HearIsAlert(c, s);
    case SentinelPublish => PublishIsAlert(c, s);
    case Outside(e) => OutsideIsAlert(c, s, e);
    case Record => RecordIsAlert(c, s);
    case DeliverFails(_) => QuietIsAlert(c, s, step);
    case TimeOut => QuietIsAlert(c, s, step);
    case EndDrain => QuietIsAlert(c, s, step);
    case _ =>
  }

  /** The run is bound to end now, k turns long, with the sentinel's status. */
  ghost predicate Committed(c: Setup, s: System, k: nat) {
    Alert(c, s) && |s.turns| == k &&
    match s.broker
    case Draining => Queue(s, BROKER) != []
    case Collecting(drained) => drained != []
    case Done(status) => status == Broker.CompletedSentinel
    case _ => false
  }

  /** What is left to do for the sentinel and a committed broker. */
  function Work(s: System): nat {
    3 * |Queue(s, SENTINEL)| + (if s.sentinel == Holding then 2 else 0) + |Queue(s, BROKER)| +
    match s.broker case Draining => 2 case Collecting(_) => 1 case _ => 0
  }

  function OwnSteps(steps: seq<Step>): nat {
    if steps == [] then 0 else (if steps[0].Outside? then 0 else 1) + OwnSteps(steps[1..])
  }

  lemma CommittedStep(c: Setup, s: System, k: nat, step: Step)
    requires Committed(c, s, k) && StepEnabled(c, s, step) && Calm(s, step)
    ensures Committed(c, After(c, s, step), k)
    ensures Work(After(c, s, step)) + OwnSteps([step]) <= Work(s)
  {
    hide Next, BusModel.Valid, HasToken, Broker.Ending, Queue;
    var s' := After(c, s, step);
    SameQueues(s, s');
    StepIsAlert(c, s, step);
    assert OwnSteps([step]) == if step.Outside? then 0 else 1;
    match step
    case Take =>
      assert Queue(s, BROKER)[0] in Queue(s, BROKER);
      BusStep(s, Receive(BROKER), s');
    case SentinelTake => BusStep(s, Receive(SENTINEL), s');
    case SentinelPublish => BusStep(s, Publish(CONTROL, VERDICT), s');
    case Outside(e) => BusStep(s, e, s');
    case EndDrain => VerdictsEnd(s.broker.drained);
    case _ =>
  }

  lemma {:induction false} CommittedRun(c: Setup, s: System, k: nat, steps: seq<Step>, s': System)
    requires Committed(c, s, k) && CalmRun(c, s, steps, s')
    ensures Committed(c, s', k) && Work(s') + OwnSteps(steps) <= Work(s)
    decreases |steps|
  {
    hide Committed, After, StepEnabled, Calm, Work;
    if steps != [] {
      CommittedStep(c, s, k, steps[0]);
      CommittedRun(c, After(c, s, steps[0]), k, steps[1..], s');
    }
  }

  lemma {:induction false} RunIsAlert(c: Setup, s: System, steps: seq<Step>, s': System)
    requires Alert(c, s) && CalmRun(c, s, steps, s')
    ensures Alert(c, s')
    decreases |steps|
  {
    hide Alert, After, StepEnabled, Calm;
    if steps != [] {
      StepIsAlert(c, s, steps[0]);
      RunIsAlert(c, After(c, s, steps[0]), steps[1..], s');
    }
  }

  /** If the sentinel has dealt with a turn that holds the token before the broker drains behind turn k, then
      however the run goes on, it stays k turns long, can end only with the sentinel's status, is never
      stuck before that, and has only so many steps of its own left. */
  lemma SentinelInTimeEndsTheRun(c: Setup, before: seq<Step>, s: System, i: nat, after: seq<Step>, s': System)
    requires c.capacity >= 1 && CalmRun(c, Start(c), before, s)
    requires s.broker == Draining && s.sentinel == Idle
    requires 1 <= i <= |s.turns| && i in s.heard && HasToken(c, s.turns[i - 1])
    requires CalmRun(c, s, after, s')
    ensures |s'.turns| == |s.turns| && OwnSteps(after) <= Work(s) && !DrainTimesOut(after)
    ensures (s'.broker == Done(Broker.CompletedSentinel)) || StepEnabled(c, s', Take) || StepEnabled(c, s', EndDrain)
  {
    hide CalmRun, Start, HasToken, OwnSteps, BusModel.Valid;
    StartIsAlert(c);
    RunIsAlert(c, Start(c), before, s);
    assert IsTurn(s, i, s.turns[i - 1]);
    CommittedRun(c, s, |s.turns|, after, s');
    CommittedEnds(c, s', |s.turns|);
    DrainDecidesFrom(c, s, after, s');
  }

  // ---------- a drain left without a verdict makes the run longer ----------

  /** The broker's next step out of its drain is that its timer fires. */
  predicate DrainTimesOut(steps: seq<Step>) {
    steps != [] && (steps[0] == TimeOut || (steps[0] != Take && steps[0] != CancelRun && DrainTimesOut(steps[1..])))
  }

  /** The run has gone past turn k, or is about to take another turn, or has ended in another way. */
  predicate Past(s: System, k: nat) {
    |s.turns| > k || (|s.turns| == k && (s.broker == Top || s.broker.Published? ||
                                         (s.broker.Done? && s.broker != Done(Broker.CompletedSentinel))))
  }

  lemma {:induction false} RunStaysPast(c: Setup, s: System, k: nat, steps: seq<Step>, s': System)
    requires Past(s, k) && Run(c, s, steps, s')
    ensures Past(s', k)
    decreases |steps|
  {
    hide StepEnabled, After, Past;
    if steps != [] {
      StepStaysPast(c, s, k, steps[0]);
      RunStaysPast(c, After(c, s, steps[0]), k, steps[1..], s');
    }
  }

  lemma StepStaysPast(c: Setup, s: System, k: nat, step: Step)
    requires Past(s, k) && StepEnabled(c, s, step)
    ensures Past(After(c, s, step), k)
  {
    hide Next, BusModel.Valid, HasToken, Broker.Ending, Queue;
  }

  /** In every run, calm or not: once the broker has stopped waiting behind turn k, the sentinel can end the
      run only with more than k turns. */
  lemma TimeOutMakesTheRunLonger(c: Setup, s: System, steps: seq<Step>, s': System)
    requires s.broker == Draining && StepEnabled(c, s, TimeOut) && Run(c, After(c, s, TimeOut), steps, s')
    ensures s'.broker == Done(Broker.CompletedSentinel) ==> |s'.turns| > |s.turns|
  {
    RunStaysPast(c, After(c, s, TimeOut), |s.turns|, steps, s');
  }

  lemma {:induction false} CalmRunIsRun(c: Setup, s: System, steps: seq<Step>, s': System)
    requires CalmRun(c, s, steps, s')
    ensures Run(c, s, steps, s')
    decreases |steps|
  {
    hide StepEnabled, After, Calm;
    if steps != [] { CalmRunIsRun(c, After(c, s, steps[0]), steps[1..], s'); }
  }

  /** Other steps leave a draining broker where it is. */
  lemma DrainGoesOn(c: Setup, s: System, step: Step)
    requires s.broker == Draining && StepEnabled(c, s, step) && step != TimeOut && step != CancelRun && step != Take
    ensures After(c, s, step).broker == Draining && After(c, s, step).turns == s.turns
  {
    hide Next, BusModel.Valid, HasToken, Broker.Ending, Queue;
  }

  lemma TakeCommits(c: Setup, s: System)
    requires Alert(c, s) && s.broker == Draining && StepEnabled(c, s, Take)
    ensures Committed(c, After(c, s, Take), |s.turns|)
  {
    hide Next, BusModel.Valid, HasToken, Alert;
    CommittedStep(c, s, |s.turns|, Take);
  }

  /** What the steps behind turn k come to: by the timer past it, or else with the sentinel's verdict, if the
      run has ended. */
  lemma {:induction false} DrainDecidesFrom(c: Setup, s: System, steps: seq<Step>, s': System)
    requires Alert(c, s) && s.broker == Draining && CalmRun(c, s, steps, s')
    ensures DrainTimesOut(steps) ==> Past(s', |s.turns|)
    ensures !DrainTimesOut(steps) ==> |s'.turns| == |s.turns| && (s'.broker.Done? ==> s'.broker == Done(Broker.CompletedSentinel))
    decreases |steps|
  {
    hide StepEnabled, After, Alert, Committed, Past, Queue;
    if steps != [] {
      var next := After(c, s, steps[0]);
      if steps[0] == TimeOut {
        CalmRunIsRun(c, next, steps[1..], s');
        TimeOutIsPast(c, s);
        RunStaysPast(c, next, |s.turns|, steps[1..], s');
      } else if steps[0] == Take {
        TakeCommits(c, s);
        CommittedRun(c, next, |s.turns|, steps[1..], s');
        CommittedEnds(c, s', |s.turns|);
      } else if steps[0] != CancelRun {
        StepIsAlert(c, s, steps[0]);
        DrainGoesOn(c, s, steps[0]);
        DrainDecidesFrom(c, next, steps[1..], s');
      }
    }
  }

  lemma TimeOutIsPast(c: Setup, s: System)
    requires StepEnabled(c, s, TimeOut)
    ensures Past(After(c, s, TimeOut), |s.turns|)
  {
  }

  lemma CommittedEnds(c: Setup, s: System, k: nat)
    requires Committed(c, s, k)
    ensures |s.turns| == k && (s.broker.Done? ==> s.broker == Done(Broker.CompletedSentinel)) && !Past(s, k)
  {
  }

  /** The exact condition. In a calm run that has ended, the drain behind turn k was not left by the timer if
      and only if the run has exactly k turns and the sentinel's status. */
  lemma DrainDecides(c: Setup, before: seq<Step>, s: System, after: seq<Step>, s': System)
    requires c.capacity >= 1 && CalmRun(c, Start(c), before, s) && s.broker == Draining
    requires CalmRun(c, s, after, s') && s'.broker.Done?
    ensures !DrainTimesOut(after) <==> |s'.turns| == |s.turns| && s'.broker == Done(Broker.CompletedSentinel)
  {
    hide CalmRun, Start, Alert;
    StartIsAlert(c);
    RunIsAlert(c, Start(c), before, s);
    DrainDecidesFrom(c, s, after, s');
  }

  lemma {:induction false} CalmRunExtends(c: Setup, a: System, steps: seq<Step>, b: System, last: Step)
    requires CalmRun(c, a, steps, b) && StepEnabled(c, b, last) && Calm(b, last)
    ensures CalmRun(c, a, steps + [last], After(c, b, last))
    decreases |steps|
  {
    hide StepEnabled, Calm, After;
    if steps == [] {
      assert CalmRun(c, After(c, b, last), [], After(c, b, last));
    } else {
      CalmRunExtends(c, After(c, a, steps[0]), steps[1..], b, last);
      assert (steps + [last])[1..] == steps[1..] + [last];
    }
  }

  /** Turn 1 is published and recorded, and the broker gives up waiting before the sentinel has looked. */
  lemma LateStart(c: Setup, r: string) returns (steps: seq<Step>, s: System)
    requires c.capacity >= 1 && c.maxTurns > 1
    ensures CalmRun(c, Start(c), steps, s) && BusGood(s) && s.bus.capacity == c.capacity
    ensures s.turns == [r] && s.broker == Top && s.sentinel == Idle
    ensures Queue(s, SENTINEL) == [TurnMsg(1, r)] && Queue(s, BROKER) == []
  {
    hide Next, BusModel.Valid, HasToken;
    StartIsAlert(c);
    var s0 := Start(c);
    var s1 := After(c, s0, Deliver(r));
    BusStep(s0, Publish(TURN, TurnMsg(1, r)), s1);
    CalmRunExtends(c, s0, [], s0, Deliver(r));
    var s2 := After(c, s1, Record);
    CalmRunExtends(c, s0, [] + [Deliver(r)], s1, Record);
    s, steps := After(c, s2, TimeOut), [] + [Deliver(r)] + [Record] + [TimeOut];
    CalmRunExtends(c, s0, [] + [Deliver(r)] + [Record], s2, TimeOut);
    RunIsAlert(c, s0, steps, s);
  }

  /** There is such a run for every turn with the token: the sentinel is done before the broker drains. */
  lemma InTimeRun(c: Setup, withToken: string) returns (steps: seq<Step>, s: System)
    requires c.capacity >= 1 && c.maxTurns > 1 && HasToken(c, withToken)
    ensures CalmRun(c, Start(c), steps, s) && s.broker == Draining && s.sentinel == Idle
    ensures s.turns == [withToken] && 1 in s.heard
  {
    hide Next, BusModel.Valid, HasToken, CalmRun;
    StartIsAlert(c);
    var a := Start(c);
    RunOfNothing(c, a);
    var s1 := After(c, a, Deliver(withToken));
    BusStep(a, Publish(TURN, TurnMsg(1, withToken)), s1);
    CalmRunExtends(c, a, [], a, Deliver(withToken));
    var s2 := After(c, s1, SentinelTake);
    BusStep(s1, Receive(SENTINEL), s2);
    CalmRunExtends(c, a, [] + [Deliver(withToken)], s1, SentinelTake);
    var s3 := After(c, s2, SentinelPublish);
    BusStep(s2, Publish(CONTROL, VERDICT), s3);
    CalmRunExtends(c, a, [] + [Deliver(withToken)] + [SentinelTake], s2, SentinelPublish);
    steps, s := [] + [Deliver(withToken)] + [SentinelTake] + [SentinelPublish] + [Record], After(c, s3, Record);
    CalmRunExtends(c, a, [] + [Deliver(withToken)] + [SentinelTake] + [SentinelPublish], s3, Record);
  }

  lemma RunOfNothing(c: Setup, s: System)
    ensures CalmRun(c, s, [], s)
  {
  }

  /** ... then turn 2 is published, and only now the sentinel looks at turn 1 and publishes its verdict. */
  lemma LateMiddle(c: Setup, withToken: string, other: string) returns (steps: seq<Step>, s: System)
    requires c.capacity >= 1 && c.maxTurns > 2 && HasToken(c, withToken)
    ensures CalmRun(c, Start(c), steps, s) && BusGood(s)
    ensures s.turns == [withToken] && s.broker == Published(other) && Queue(s, BROKER) == [VERDICT]
  {
    hide Next, BusModel.Valid, HasToken, CalmRun;
    var late, s0 := LateStart(c, withToken);
    var a := Start(c);
    var s1 := After(c, s0, Deliver(other));
    BusStep(s0, Publish(TURN, TurnMsg(2, other)), s1);
    CalmRunExtends(c, a, late, s0, Deliver(other));
    var s2 := After(c, s1, SentinelTake);
    BusStep(s1, Receive(SENTINEL), s2);
    CalmRunExtends(c, a, late + [Deliver(other)], s1, SentinelTake);
    s, steps := After(c, s2, SentinelPublish), late + [Deliver(other)] + [SentinelTake] + [SentinelPublish];
    BusStep(s2, Publish(CONTROL, VERDICT), s);
    CalmRunExtends(c, a, late + [Deliver(other)] + [SentinelTake], s2, SentinelPublish);
  }

  /** Being in time is needed. With any turn that holds the token, any turn behind it and room for one more,
      the verdict that arrives after the first drain ends the run one turn late. */
  lemma LateVerdictEndsOneTurnLater(c: Setup, withToken: string, other: string) returns (steps: seq<Step>, s: System)
    requires c.capacity >= 1 && c.maxTurns > 2 && HasToken(c, withToken)
    ensures CalmRun(c, Start(c), steps, s)
    ensures s.turns == [withToken, other] && s.broker == Done(Broker.CompletedSentinel)
  {
    hide Next, BusModel.Valid, HasToken, CalmRun, Broker.Ending;
    var sofar, s3 := LateMiddle(c, withToken, other);
    var a := Start(c);
    var s4 := After(c, s3, Record);
    CalmRunExtends(c, a, sofar, s3, Record);
    var s5 := After(c, s4, Take);
    BusStep(s4, Receive(BROKER), s5);
    CalmRunExtends(c, a, sofar + [Record], s4, Take);
    s, steps := After(c, s5, EndDrain), sofar + [Record] + [Take] + [EndDrain];
    CalmRunExtends(c, a, sofar + [Record] + [Take], s5, EndDrain);
    VerdictsEnd(s5.broker.drained);
  }
}
