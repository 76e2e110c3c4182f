/** Every run of broker, sentinel and bus is a run of the broker's loop: the interleaving decides what the
    environment of the loop does in each round, and nothing else. */
module ProtocolRuns {
  import opened Wrappers
  import Policy
  import BusModel
  import opened Broker
  import opened SentinelProtocol

  /** The environment that plays these rounds and then cancels. */
  function EnvOf(rounds: seq<Round>): nat -> Round {
    (k: nat) => if k < |rounds| then rounds[k] else Round(true, Failed(true), false, [])
  }

  predicate AllGoOn(conv: Conversation, rounds: seq<Round>, n: nat) {
    forall k :: 0 <= k < n && k < |rounds| ==> EndOf(conv, k, rounds[k]) == GoOn
  }

  /** These rounds bring these responses. */
  predicate Brings(rounds: seq<Round>, turns: seq<string>) {
    forall k :: 0 <= k < |rounds| && k < |turns| ==> rounds[k].delivery == Reply(turns[k], k + 1)
  }

  /** The rounds so far account for the log, and for the ending if there is one. */
  predicate Accounts(conv: Conversation, s: System, rounds: seq<Round>) {
    var n := |s.turns|;
    Brings(rounds, s.turns) &&
    match s.broker
    case Top => |rounds| == n && AllGoOn(conv, rounds, n)
    case Published(_) => |rounds| == n && AllGoOn(conv, rounds, n)
    case Draining => |rounds| + 1 == n < conv.header.maxTurns && AllGoOn(conv, rounds, n)
    case Collecting(_) => |rounds| + 1 == n < conv.header.maxTurns && AllGoOn(conv, rounds, n)
    case Done(status) =>
      (|rounds| == n + 1 && AllGoOn(conv, rounds, n) && EndOf(conv, n, rounds[n]) == Before(status)) ||
      (|rounds| == n > 0 && AllGoOn(conv, rounds, n - 1) && EndOf(conv, n - 1, rounds[n - 1]) == RoundEnd.After(status))
  }

  /** The round that a step completes, if it does. */
  ghost function RoundOf(c: Setup, s: System, step: Step): seq<Round>
    requires StepEnabled(c, s, step)
  {
    var n := |s.turns|;
    var last := Reply(if n > 0 then s.turns[n - 1] else "", n);
    match step
    case DeliverFails(cancelled) => [Round(false, Failed(cancelled), false, [])]
    case Record => if n + 1 >= c.maxTurns then [Round(false, Reply(s.broker.response, n + 1), false, [])] else []
    case CancelRun => [if s.broker == Top then Round(true, Failed(true), false, []) else Round(false, last, true, [])]
    case TimeOut => [Round(false, last, false, [])]
    case EndDrain => [Round(false, last, false, s.broker.drained)]
    case _ => []
  }

  lemma StepAccounts(c: Setup, conv: Conversation, s: System, rounds: seq<Round>, step: Step)
    requires conv.header.maxTurns == c.maxTurns && Accounts(conv, s, rounds) && StepEnabled(c, s, step)
    ensures Accounts(conv, SentinelProtocol.After(c, s, step), rounds + RoundOf(c, s, step))
  {
    hide BusModel.Next, BusModel.Valid, HasToken, Ending, Queue;
    NothingDrained();
  }

  lemma NothingDrained()
    ensures Ending([]) == None
  {
  }

  lemma {:induction false} RunAccounts(c: Setup, conv: Conversation, s: System, rounds: seq<Round>, steps: seq<Step>, s': System)
    returns (all: seq<Round>)
    requires conv.header.maxTurns == c.maxTurns && Accounts(conv, s, rounds) && SentinelProtocol.Run(c, s, steps, s')
    ensures Accounts(conv, s', all)
    decreases |steps|
  {
    hide Accounts, StepEnabled, SentinelProtocol.After, RoundOf;
    if steps == [] {
      all := rounds;
    } else {
      StepAccounts(c, conv, s, rounds, steps[0]);
      all := RunAccounts(c, conv, SentinelProtocol.After(c, s, steps[0]), rounds + RoundOf(c, s, steps[0]), steps[1..], s');
    }
  }

  /** For every finished run of the step system there are rounds in which the loop ends the same way with the
      same responses, for every set of peers. */
  lemma ProtocolRunIsBrokerRun(c: Setup, steps: seq<Step>, s: System, conv: Conversation, surface: Surface)
    returns (env: nat -> Round, r: FinalResult)
    requires SentinelProtocol.Run(c, Start(c), steps, s) && s.broker.Done? && conv.header.maxTurns == c.maxTurns
    ensures EndedBy(conv, surface, env, r) && r.status == s.broker.status
    ensures |r.turns| == |s.turns| && forall k :: 0 <= k < |r.turns| ==> r.turns[k].response == s.turns[k]
  {
    hide SentinelProtocol.Run, Ending, Recorded, Speaker;
    var rounds := RunAccounts(c, conv, Start(c), [], steps, s);
    var n := |s.turns|;
    env := EnvOf(rounds);
    r := FinalResult(s.broker.status, seq(n, k requires 0 <= k < n => TurnAt(conv, surface, env, k)), n);
    forall k | 0 <= k < n ensures r.turns[k].response == s.turns[k] {
      RecordedResponse(conv, surface, k, Speaker(conv, surface, env, k), TextOf(env(k).delivery), NumberOf(env(k).delivery));
    }
  }

  lemma RecordedResponse(conv: Conversation, s: Surface, k: nat, from: Policy.PeerID, response: string, index: int)
    ensures Recorded(conv, s, k, from, response, index).response == response
  {
  }
}
