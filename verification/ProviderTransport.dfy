/** The transport of a provider's agent, from `internal/peer/provider/provider.go`: one turn of the wrapper
    around its terminal, for one envelope. */
module ProviderTransport {
  import opened Broker
  import E = Envelope
  import MessageLaws
  import Normalizer
  import NormalizerLaws
  import PersistentProcess
  import Policy
  import Utf8

  function Bytes(s: string): seq<Utf8.Byte> { seq(|s|, k requires 0 <= k < |s| => s[k] as int % 256) }

  function Characters(d: seq<Utf8.Byte>): string { seq(|d|, k requires 0 <= k < |d| => d[k] as char) }

  /** The text without control sequences. */
  function Cleaned(s: string): string { Characters(Normalizer.Normalized(Bytes(s))) }

  /** Only tabs, line feeds and printable bytes. */
  predicate CleanText(s: string) { forall k :: 0 <= k < |s| ==> Normalizer.Keep(s[k] as int % 256) }

  /** What a peer answers to an envelope when its terminal's turn comes out like this. A cancelled or expired
      context is passed on as it is; every other failure is an error of the peer. */
  function Deliver(e: E.Envelope, outcome: PersistentProcess.Outcome): Delivery
    requires outcome != PersistentProcess.Waiting
  {
    match outcome
    case Reply(text) => Delivery.Reply(Cleaned(text), e.turnIndex)
    case Cancelled => Failed(true)
    case _ => Failed(false)
  }

  /** Every peer that is asked is such a transport. */
  ghost predicate ByTransport(conv: Conversation, s: Surface, env: nat -> Round, w: Wording, out: nat -> PersistentProcess.Outcome) {
    forall k: nat :: out(k) != PersistentProcess.Waiting && env(k).delivery == Deliver(EnvelopeAt(conv, s, env, w, k), out(k))
  }

  lemma CleanedIsClean(s: string)
    ensures CleanText(Cleaned(s))
  {
    hide Normalizer.Normalized;
    Normalizer.NormalizedIsProjection(Bytes(s));
  }

  /** With such peers the turns of every run are numbered 1 to n, and the text of each is the answer its
      terminal gave, without control sequences. */
  lemma TurnsAreNumbered(conv: Conversation, s: Surface, env: nat -> Round, w: Wording, out: nat -> PersistentProcess.Outcome, r: FinalResult)
    requires EndedBy(conv, s, env, r) && ByTransport(conv, s, env, w, out)
    ensures forall k :: 0 <= k < |r.turns| ==>
      r.turns[k].index == k + 1 && out(k).Reply? && r.turns[k].response == Cleaned(out(k).text) && CleanText(r.turns[k].response)
  {
    hide Ending, Policy.Next, NextResponse, Speaker, Cleaned, CleanText, EnvelopeAt;
    forall k: nat | k < |r.turns|
      ensures r.turns[k].index == k + 1 && out(k).Reply? && r.turns[k].response == Cleaned(out(k).text) && CleanText(r.turns[k].response)
    {
      assert r.turns[k] == TurnAt(conv, s, env, k);
      LoggedIsReply(conv, s, env, r, k);
      CleanedIsClean(out(k).text);
    }
  }

  /** Every logged turn was answered. */
  lemma LoggedIsReply(conv: Conversation, s: Surface, env: nat -> Round, r: FinalResult, k: nat)
    requires EndedBy(conv, s, env, r) && k < |r.turns|
    ensures env(k).delivery.Reply?
  {
    hide Ending, TurnAt;
    assert EndOf(conv, k, env(k)) == GoOn || EndOf(conv, k, env(k)) == After(r.status);
  }

  /** The answer is the visible text of the pieces the terminal emitted. */
  lemma CleanedIsVisible(text: string, ps: seq<NormalizerLaws.Piece>)
    requires NormalizerLaws.AllProper(ps) && text == Characters(NormalizerLaws.Whole(ps))
    ensures Cleaned(text) == Characters(NormalizerLaws.WholeVisible(ps))
  {
    hide Normalizer.Normalized, NormalizerLaws.AllProper, NormalizerLaws.Whole, NormalizerLaws.WholeVisible;
    var d := NormalizerLaws.Whole(ps);
    assert Bytes(Characters(d)) == d;
    NormalizerLaws.NormalizedIsVisible(ps);
  }

  /** If a run ends because such a peer did not answer, the outcome of its terminal's turn says how: a cancelled
      context interrupts the run, and a process that exits, a deadline, an overflow or a failed write is an error. */
  lemma FailureEndsTheRun(conv: Conversation, s: Surface, env: nat -> Round, w: Wording, out: nat -> PersistentProcess.Outcome, r: FinalResult)
    requires EndedBy(conv, s, env, r) && ByTransport(conv, s, env, w, out)
    requires var n := |r.turns|; !env(n).cancelledBefore && (n > 0 ==> MessageLaws.NothingEnds(conv, n - 1, env(n - 1)))
    ensures var outcome := out(|r.turns|);
      !outcome.Reply? && r.status == if outcome == PersistentProcess.Cancelled then Interrupted else Errored
  {
    hide EndedBy, Normalizer.Normalized, EnvelopeAt;
    var n := |r.turns|;
    MessageLaws.RunEndsForItsReason(conv, s, env, r);
    assert env(n).delivery == Deliver(EnvelopeAt(conv, s, env, w, n), out(n));
  }
}
