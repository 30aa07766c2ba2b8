// app/app.go: runHTTPServer. The serving goroutine and the caller share a channel of one slot; their
// steps, the cancellation and the answers of the server interleave freely.
module Shutdown {
  import opened Wrappers

  // An error, and whether errors.Is finds http.ErrServerClosed in it.
  datatype Error = Error(isServerClosed: bool, text: string)

  datatype Goroutine = Serving | Stopped(err: Option<Error>) | Exited
  datatype Caller = Selecting | ShuttingDown | Awaiting | Returned(result: Option<Error>)

  // `served`, `shutdown` and `sent` record what ListenAndServe and Shutdown answered and what went
  // into the channel.
  datatype State = State(
    goroutine: Goroutine, slot: Option<Option<Error>>, cancelled: bool, caller: Caller,
    served: Option<Option<Error>>, shutdown: Option<Option<Error>>, sent: seq<Option<Error>>)

  const START := State(Serving, None, false, Selecting, None, None, [])

  datatype Event =
    | ListenAndServeReturns(err: Option<Error>)
    | Send
    | Cancel
    | SelectResult
    | SelectDone
    | ShutdownReturns(err: Option<Error>)
    | AwaitResult

  // A send blocks while the slot is full, a receive while it is empty; select takes any ready branch.
  predicate Enabled(s: State, e: Event) {
    match e
    case ListenAndServeReturns(_) => s.goroutine.Serving?
    case Send => s.goroutine.Stopped? && s.slot.None?
    case Cancel => !s.cancelled
    case SelectResult => s.caller.Selecting? && s.slot.Some?
    case SelectDone => s.caller.Selecting? && s.cancelled
    case ShutdownReturns(_) => s.caller.ShuttingDown?
    case AwaitResult => s.caller.Awaiting? && s.slot.Some?
  }

  function ValueSent(err: Option<Error>): Option<Error> {
    if err.Some? && !err.value.isServerClosed then err else None
  }

  function Do(s: State, e: Event): State
    requires Enabled(s, e)
  {
    match e
    case ListenAndServeReturns(err) => s.(goroutine := Stopped(err), served := Some(err))
    case Send =>
      var value := ValueSent(s.goroutine.err);
      s.(goroutine := Exited, slot := Some(value), sent := s.sent + [value])
    case Cancel => s.(cancelled := true)
    case SelectResult => s.(caller := Returned(s.slot.value), slot := None)
    case SelectDone => s.(caller := ShuttingDown)
    case ShutdownReturns(err) => s.(caller := if err.Some? then Returned(err) else Awaiting, shutdown := Some(err))
    case AwaitResult => s.(caller := Returned(s.slot.value), slot := None)
  }

  // The variables the two threads share, changed step by step.
  class HTTPServerRun {
    var goroutine: Goroutine
    var slot: Option<Option<Error>>
    var cancelled: bool
    var caller: Caller
    ghost var served: Option<Option<Error>>
    ghost var shutdown: Option<Option<Error>>
    ghost var sent: seq<Option<Error>>

    ghost function Contents(): State reads this {
      State(goroutine, slot, cancelled, caller, served, shutdown, sent)
    }

    constructor ()
      ensures Contents() == START
    {
      goroutine, slot, cancelled, caller := Serving, None, false, Selecting;
      served, shutdown, sent := None, None, [];
    }

    method StepGoroutine(answer: Option<Error>)
      requires Enabled(Contents(), if goroutine.Serving? then ListenAndServeReturns(answer) else Send)
      modifies this
      ensures Contents() ==
              Do(old(Contents()), if old(goroutine).Serving? then ListenAndServeReturns(answer) else Send)
    {
      if goroutine.Serving? {
        goroutine := Stopped(answer);
        served := Some(answer);
        return;
      }
      var err := goroutine.err;
      if err.Some? && !err.value.isServerClosed {
        slot := Some(err);
      } else {
        slot := Some(None);
      }
      goroutine := Exited;
      sent := sent + [slot.value];
    }

    method Cancelled()
      modifies this
      ensures Contents() == if old(cancelled) then old(Contents()) else Do(old(Contents()), Cancel)
    {
      cancelled := true;
    }

    // `done` is the branch select takes when both are ready; `answer` is what Shutdown returns.
    method StepCaller(done: bool, answer: Option<Error>)
      requires Enabled(Contents(), CallerEvent(caller, done, answer))
      modifies this
      ensures Contents() == Do(old(Contents()), CallerEvent(old(caller), done, answer))
    {
      if caller.ShuttingDown? {
        caller := if answer.Some? then Returned(answer) else Awaiting;
        shutdown := Some(answer);
      } else if caller.Selecting? && done {
        caller := ShuttingDown;
      } else {
        caller := Returned(slot.value);
        slot := None;
      }
    }
  }

  function CallerEvent(caller: Caller, done: bool, answer: Option<Error>): Event {
    if caller.ShuttingDown? then ShutdownReturns(answer)
    else if caller.Selecting? then (if done then SelectDone else SelectResult)
    else AwaitResult
  }

  predicate Reaches(s: State, es: seq<Event>, s': State)
    decreases |es|
  {
    if es == [] then s == s' else Enabled(s, es[0]) && Reaches(Do(s, es[0]), es[1..], s')
  }

  // ----- what every reachable state keeps -----

  predicate ChannelRight(s: State) {
    && (s.served.None? <==> s.goroutine.Serving?)
    && (s.goroutine.Stopped? ==> s.served == Some(s.goroutine.err))
    && (if s.goroutine.Exited? then s.served.Some? && s.sent == [ValueSent(s.served.value)] else s.sent == [])
    && (s.slot.Some? ==> s.sent == [s.slot.value])
  }

  // Shutdown answered with an error, which hides however serving ended.
  predicate ShutdownFailed(s: State) { s.shutdown.Some? && s.shutdown.value.Some? }

  predicate CallerRight(s: State) {
    && (s.caller.Selecting? || s.caller.ShuttingDown? ==> s.shutdown.None?)
    && (s.caller.Awaiting? ==> s.shutdown == Some(None))
    && (!s.caller.Returned? || ShutdownFailed(s) ==> (s.slot.Some? <==> s.goroutine.Exited?))
    && (s.caller.Returned? ==>
      if ShutdownFailed(s) then s.caller.result == s.shutdown.value
      else s.slot.None? && s.sent == [s.caller.result])
    && (s.shutdown.Some? || s.caller.ShuttingDown? ==> s.cancelled)
  }

  predicate Invariant(s: State) { ChannelRight(s) && CallerRight(s) }

  lemma EventKeepsInvariant(s: State, e: Event)
    requires Invariant(s) && Enabled(s, e)
    ensures Invariant(Do(s, e))
  {}

  lemma {:induction false} EventsKeepInvariant(s: State, es: seq<Event>, s': State)
    requires Invariant(s) && Reaches(s, es, s')
    ensures Invariant(s')
    decreases |es|
  {
    if es != [] {
      EventKeepsInvariant(s, es[0]);
      EventsKeepInvariant(Do(s, es[0]), es[1..], s');
    }
  }

  // The goroutine never blocks on its send, whatever the caller did, and sends exactly one value, after
  // serving ended: the error of ListenAndServe, or nil for a clean end and for http.ErrServerClosed.
  lemma ExactlyOneSend(es: seq<Event>, s: State)
    requires Reaches(START, es, s)
    ensures s.goroutine.Stopped? ==> Enabled(s, Send)
    ensures |s.sent| == if s.goroutine.Exited? then 1 else 0
    ensures s.goroutine.Exited? ==>
              && s.served.Some?
              && s.sent ==
                 [if s.served.value.Some? && s.served.value.value.isServerClosed then None else s.served.value]
  {
    EventsKeepInvariant(START, es, s);
  }

  // The caller's result, exactly. In particular nil means that serving had ended, cleanly or with
  // http.ErrServerClosed, and that no Shutdown failed.
  lemma ResultExactly(es: seq<Event>, s: State)
    requires Reaches(START, es, s) && s.caller.Returned?
    ensures ShutdownFailed(s) ==> s.cancelled && s.caller.result == s.shutdown.value
    ensures !ShutdownFailed(s) ==>
              && s.served.Some?
              && s.caller.result ==
                 if s.served.value.Some? && s.served.value.value.isServerClosed then None else s.served.value
    ensures s.caller.result.None? <==>
            !ShutdownFailed(s) && s.served.Some? && (s.served.value.Some? ==> s.served.value.value.isServerClosed)
  {
    EventsKeepInvariant(START, es, s);
  }

  // ----- every run ends -----

  function StepsLeft(s: State): nat {
    (if s.cancelled then 0 else 1)
    + (match s.goroutine case Serving => 2 case Stopped(_) => 1 case Exited => 0)
    + (match s.caller case Selecting => 3 case ShuttingDown => 2 case Awaiting => 1 case Returned(_) => 0)
  }

  lemma {:induction false} RunsAreShort(s: State, es: seq<Event>, s': State)
    requires Reaches(s, es, s')
    ensures |es| + StepsLeft(s') <= StepsLeft(s)
    decreases |es|
  {
    if es != [] { RunsAreShort(Do(s, es[0]), es[1..], s'); }
  }

  // No run has more than six steps, and one that cannot go on (cancelled or not) has returned to the caller,
  // has ended the goroutine and has sent one value: nothing waits for ever for the other.
  lemma NoDeadlock(es: seq<Event>, s: State)
    requires Reaches(START, es, s)
    ensures |es| <= 6
    ensures (forall e: Event | !e.Cancel? :: !Enabled(s, e)) <==> s.caller.Returned? && s.goroutine.Exited?
    ensures s.caller.Returned? && s.goroutine.Exited? ==> |s.sent| == 1 && s.served.Some?
  {
    EventsKeepInvariant(START, es, s);
    RunsAreShort(START, es, s);
    if forall e: Event | !e.Cancel? :: !Enabled(s, e) {
      assert !Enabled(s, ListenAndServeReturns(None)) && !Enabled(s, Send);
      assert !Enabled(s, SelectResult) && !Enabled(s, ShutdownReturns(None)) && !Enabled(s, AwaitResult);
    }
  }
}
