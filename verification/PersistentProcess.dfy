/** The turn-driven wrapper around a peer's terminal, from `internal/peer/provider/persistent.go`. */
module PersistentProcess {
  import opened MarkerSearch

  const MAX_BUFFER_BYTES: nat := 67108864

  datatype Outcome =
    | Waiting
    | Reply(text: string)
    | EmptyMarker
    | WriteFailed
    | Overflow
    | Exited
    | Cancelled
    | TimedOut

  /** What the wrapper keeps under its lock. */
  datatype Held = Held(buffer: string, cursor: nat, exited: bool)

  /** What can happen while a turn waits: output arrives, the output channel or the process ends, the
      context is cancelled, the deadline passes, or the waiter wakes up for nothing. */
  datatype Event = Output(data: string) | ProcessEnd | ContextDone | DeadlinePassed | Wakeup

  /** What the waiter sees of the outside besides the buffer. */
  datatype Signals = Signals(cancelled: bool, expired: bool)

  function Unread(h: Held): string {
    if h.cursor < |h.buffer| then h.buffer[h.cursor..] else ""
  }

  /** One look at the buffer: the order of the tests is the order of the code. */
  function Poll(h: Held, m: string, sig: Signals): (Held, Outcome) {
    var tail := Unread(h);
    var p := if tail == "" then -1 else FindMarker(tail, m);
    if p >= 0 then (Held("", 0, h.exited), Reply(StripEcho(tail[..p], m)))
    else if |tail| > MAX_BUFFER_BYTES then (h, Overflow)
    else if h.exited then (h, Exited)
    else if sig.cancelled then (h, Cancelled)
    else if sig.expired then (h, TimedOut)
    else (h, Waiting)
  }

  function Pumped(h: Held, e: Event): Held {
    match e
    case Output(data) => h.(buffer := h.buffer + data)
    case ProcessEnd => h.(exited := true)
    case _ => h
  }

  function Signalled(sig: Signals, e: Event): Signals {
    match e
    case ContextDone => sig.(cancelled := true)
    case DeadlinePassed => sig.(expired := true)
    case _ => sig
  }

  /** Look, wait for the next event, look again; Waiting when the events run out. */
  function Converse(h: Held, m: string, sig: Signals, events: seq<Event>): (Held, Outcome)
    decreases |events|
  {
    var r := Poll(h, m, sig);
    if !r.1.Waiting? || events == [] then r
    else Converse(Pumped(h, events[0]), m, Signalled(sig, events[0]), events[1..])
  }

  class PersistentProcess {
    var buffer: string
    var cursor: nat
    var exited: bool

    ghost function Abs(): Held
      reads this
    {
      Held(buffer, cursor, exited)
    }

    constructor ()
      ensures Abs() == Held("", 0, false)
    {
      buffer, cursor, exited := "", 0, false;
    }

    /** One turn of the pump goroutine. */
    method Pump(e: Event)
      modifies this
      ensures Abs() == Pumped(old(Abs()), e)
    {
      match e
      case Output(data) => buffer := buffer + data;
      case ProcessEnd => exited := true;
      case _ =>
    }

    /** Reads what is buffered without waiting. */
    method DrainAvailable() returns (out: string)
      modifies this
      ensures out == Unread(old(Abs()))
      ensures buffer == old(buffer) && exited == old(exited)
      ensures cursor == if old(cursor) < |buffer| then |buffer| else old(cursor)
    {
      if cursor >= |buffer| {
        return "";
      }
      out := buffer[cursor..];
      cursor := |buffer|;
    }

    /** One pass of the waiting loop: the marker, the cap, the end of the process, the signals. */
    method Look(m: string, sig: Signals) returns (r: Outcome)
      modifies this
      ensures (Abs(), r) == Poll(old(Abs()), m, sig)
    {
      hide FindMarker, StripEcho;
      if cursor < |buffer| {
        var tail := buffer[cursor..];
        var p := FindLineAnchoredMarker(tail, m);
        if p >= 0 {
          var resp := StripEnvelopeEcho(tail[..p], m);
          buffer := "";
          cursor := 0;
          return Reply(resp);
        }
        if |tail| > MAX_BUFFER_BYTES {
          return Overflow;
        }
      }
      if exited {
        return Exited;
      }
      if sig.cancelled {
        return Cancelled;
      }
      if sig.expired {
        return TimedOut;
      }
      return Waiting;
    }

    /** `written` tells whether the write to the terminal succeeded. */
    method ConverseTurn(m: string, written: bool, events: seq<Event>) returns (r: Outcome)
      modifies this
      ensures m == "" ==> r == EmptyMarker && Abs() == old(Abs())
      ensures m != "" && !written ==> r == WriteFailed && Abs() == old(Abs())
      ensures m != "" && written ==> (Abs(), r) == Converse(old(Abs()), m, Signals(false, false), events)
    {
      if m == "" {
        return EmptyMarker;
      }
      if !written {
        return WriteFailed;
      }
      hide Converse, Poll;
      assert events[0..] == events;
      var sig := Signals(false, false);
      var i := 0;
      while true
        invariant 0 <= i <= |events|
        invariant Converse(Abs(), m, sig, events[i..]) == Converse(old(Abs()), m, Signals(false, false), events)
        decreases |events| - i
      {
        ghost var h := Abs();
        r := Look(m, sig);
        ConverseStep(h, m, sig, events, i);
        if r != Waiting || i == |events| {
          return r;
        }
        sig := Signalled(sig, events[i]);
        Pump(events[i]);
        i := i + 1;
      }
    }

    static lemma ConverseStep(h: Held, m: string, sig: Signals, events: seq<Event>, i: nat)
      requires i <= |events|
      ensures var r := Poll(h, m, sig);
        Converse(h, m, sig, events[i..]) ==
        if !r.1.Waiting? || i == |events| then r
        else Converse(Pumped(r.0, events[i]), m, Signalled(sig, events[i]), events[i + 1..])
    {
      hide FindMarker, StripEcho, Pumped, Signalled;
      if i < |events| {
        assert events[i..][0] == events[i] && events[i..][1..] == events[i + 1..];
      }
    }
  }
}
