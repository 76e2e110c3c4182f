/** How a turn ends that gets no answer. */
module TurnOutcomes {
  import opened MarkerSearch
  import opened PersistentProcess

  /** All the output of these events. */
  function Received(events: seq<Event>): string {
    if events == [] then ""
    else Received(events[..|events| - 1]) + if events[|events| - 1].Output? then events[|events| - 1].data else ""
  }

  /** The process, the context or the deadline ends. */
  predicate Final(e: Event) { e.ProcessEnd? || e.ContextDone? || e.DeadlinePassed? }

  /** Up to n events the marker is never on a line of its own. */
  ghost predicate NeverAnswered(h: Held, m: string, events: seq<Event>, n: nat)
    requires n <= |events|
  {
    forall j :: 0 <= j <= n ==> FindMarker(h.buffer + Received(events[..j]), m) == -1
  }

  /** Up to n events not more than 64 MiB have arrived. */
  ghost predicate NeverTooMuch(h: Held, events: seq<Event>, n: nat)
    requires n <= |events|
  {
    forall j :: 0 <= j <= n ==> |h.buffer + Received(events[..j])| <= 67108864
  }

  lemma {:induction false} ReceivedCons(e: Event, events: seq<Event>)
    ensures Received([e] + events) == (if e.Output? then e.data else "") + Received(events)
    decreases |events|
  {
    var all := [e] + events;
    if events == [] {
      assert all[..0] == [];
    } else {
      assert all[..|all| - 1] == [e] + events[..|events| - 1];
      ReceivedCons(e, events[..|events| - 1]);
    }
  }

  /** Received behind the first event. */
  lemma Later(h: Held, events: seq<Event>, j: nat)
    requires j < |events|
    ensures Pumped(h, events[0]).buffer + Received(events[1..][..j]) == h.buffer + Received(events[..j + 1])
  {
    var e := events[0];
    assert events[..j + 1] == [e] + events[1..][..j];
    ReceivedCons(e, events[1..][..j]);
  }

  lemma LaterNeverAnswered(h: Held, m: string, events: seq<Event>, n: nat)
    requires 0 < n <= |events| && NeverAnswered(h, m, events, n)
    ensures NeverAnswered(Pumped(h, events[0]), m, events[1..], n - 1)
  {
    hide FindMarker;
    forall j | 0 <= j <= n - 1 ensures FindMarker(Pumped(h, events[0]).buffer + Received(events[1..][..j]), m) == -1 {
      Later(h, events, j);
    }
  }

  lemma LaterNeverTooMuch(h: Held, events: seq<Event>, n: nat)
    requires 0 < n <= |events| && NeverTooMuch(h, events, n)
    ensures NeverTooMuch(Pumped(h, events[0]), events[1..], n - 1)
  {
    forall j | 0 <= j <= n - 1 ensures |Pumped(h, events[0]).buffer + Received(events[1..][..j])| <= 67108864 {
      Later(h, events, j);
    }
  }

  /** A look at a buffer without the marker. */
  lemma LookInVain(h: Held, m: string, sig: Signals)
    requires h.cursor == 0 && FindMarker(h.buffer, m) == -1
    ensures Poll(h, m, sig) ==
      (h, if |h.buffer| > 67108864 then Overflow
          else if h.exited then Exited
          else if sig.cancelled then Cancelled
          else if sig.expired then TimedOut
          else Waiting)
  {
    hide FindMarker, StripEcho;
    assert h.buffer[0..] == h.buffer;
  }

  lemma NowNeverAnswered(h: Held, m: string, events: seq<Event>, n: nat)
    requires n <= |events| && NeverAnswered(h, m, events, n)
    ensures FindMarker(h.buffer, m) == -1
  {
    assert events[..0] == [] && h.buffer + "" == h.buffer;
  }

  lemma NowNotTooMuch(h: Held, events: seq<Event>, n: nat)
    requires n <= |events| && NeverTooMuch(h, events, n)
    ensures |h.buffer| <= 67108864
  {
    assert events[..0] == [] && |h.buffer + ""| == |h.buffer|;
  }

  /** The first n events bring no answer, not too much output, and no end: the turn goes on behind them. */
  lemma {:induction false} WaitsThrough(h: Held, m: string, events: seq<Event>, n: nat)
    requires n <= |events| && h.cursor == 0 && !h.exited && NeverAnswered(h, m, events, n) && (n > 0 ==> NeverTooMuch(h, events, n - 1))
    requires forall j :: 0 <= j < n ==> !Final(events[j])
    ensures Converse(h, m, Signals(false, false), events)
         == Converse(Held(h.buffer + Received(events[..n]), 0, false), m, Signals(false, false), events[n..])
    decreases n
  {
    hide Poll, FindMarker, NeverAnswered, NeverTooMuch;
    if n == 0 {
      assert events[..0] == [] && events[0..] == events && h.buffer + "" == h.buffer;
    } else {
      NowNeverAnswered(h, m, events, n);
      NowNotTooMuch(h, events, n - 1);
      LookInVain(h, m, Signals(false, false));
      LaterNeverAnswered(h, m, events, n);
      if n > 1 { LaterNeverTooMuch(h, events, n - 1); }
      var next := Pumped(h, events[0]);
      assert !Final(events[0]);
      WaitsThrough(next, m, events[1..], n - 1);
      Later(h, events, n - 1);
      assert events[1..][n - 1..] == events[n..];
    }
  }

  /** The outcome an event brings. */
  function OutcomeOf(e: Event): Outcome
    requires Final(e)
  {
    if e.ProcessEnd? then Exited else if e.ContextDone? then Cancelled else TimedOut
  }

  lemma NeverAnsweredFrom(h: Held, m: string, events: seq<Event>, n: nat)
    requires n <= |events| && NeverAnswered(h, m, events, n)
    ensures FindMarker(h.buffer + Received(events[..n]), m) == -1
  {
  }

  /** Without an answer the first of these events decides, and the buffer keeps what has arrived: the end of the
      process, of the context, or of the time. Without such an event the turn waits on. */
  lemma FirstEndDecides(h: Held, m: string, events: seq<Event>, n: nat)
    requires n <= |events| && h.cursor == 0 && !h.exited && NeverAnswered(h, m, events, n) && NeverTooMuch(h, events, n)
    requires (forall j :: 0 <= j < n ==> !Final(events[j])) && (n < |events| ==> Final(events[n]))
    ensures var r := Converse(h, m, Signals(false, false), events);
      r.0.buffer == h.buffer + Received(events[..n]) && r.0.cursor == 0 &&
      r.1 == if n < |events| then OutcomeOf(events[n]) else Waiting
  {
    hide Poll, FindMarker, NeverAnswered, NeverTooMuch, Received;
    if n > 0 { FewerIsNotTooMuch(h, events, n); }
    WaitsThrough(h, m, events, n);
    var now := Held(h.buffer + Received(events[..n]), 0, false);
    NeverAnsweredFrom(h, m, events, n);
    AtMost(h, events, n);
    LookInVain(now, m, Signals(false, false));
    if n < |events| {
      var next, sig := Pumped(now, events[n]), Signalled(Signals(false, false), events[n]);
      assert events[n..][0] == events[n];
      LookInVain(next, m, sig);
    }
  }

  lemma FewerIsNotTooMuch(h: Held, events: seq<Event>, n: nat)
    requires 0 < n <= |events| && NeverTooMuch(h, events, n)
    ensures NeverTooMuch(h, events, n - 1)
  {
  }

  lemma AtMost(h: Held, events: seq<Event>, n: nat)
    requires n <= |events| && NeverTooMuch(h, events, n)
    ensures |h.buffer + Received(events[..n])| <= 67108864
  {
  }

  /** As soon as more than 64 MiB have arrived without an answer the turn ends, whatever would come next. */
  lemma TooMuchOverflows(h: Held, m: string, events: seq<Event>, n: nat)
    requires n <= |events| && h.cursor == 0 && !h.exited && NeverAnswered(h, m, events, n) && (n > 0 ==> NeverTooMuch(h, events, n - 1))
    requires (forall j :: 0 <= j < n ==> !Final(events[j])) && |h.buffer + Received(events[..n])| > 67108864
    ensures Converse(h, m, Signals(false, false), events).1 == Overflow
  {
    hide Poll, FindMarker, NeverAnswered, NeverTooMuch, Received;
    WaitsThrough(h, m, events, n);
    NeverAnsweredFrom(h, m, events, n);
    LookInVain(Held(h.buffer + Received(events[..n]), 0, false), m, Signals(false, false));
  }
}
