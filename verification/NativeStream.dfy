/** The callback stream's settlement fence (internal/runtime/native_stream.go).  Progress callbacks,
    cancellation, the callback's return and the settlement run concurrently; each holds the locks
    for its whole effect, so an interleaving is a sequence of these steps. */
module NativeStream {
  import opened Wrappers

  datatype Message = Message(role: string, stopReason: string, body: string)

  datatype Event =
    | Start(partial: Message)
    | Progress(body: string)
    | Done(message: Option<Message>)
    | Failed(error: Option<Message>)

  predicate IsTerminal(e: Event) { e.Done? || e.Failed? }

  /** The message a terminal event carries. */
  function Carried(e: Event): Option<Message> {
    match e case Done(m) => m case Failed(m) => m case _ => None
  }

  datatype RequestError = CallbackFailed | NotAnAssistant | Undecodable | Unfinished

  /** What invokeNativeCallback hands over: an error (cancellation included), an answer that is no
      assistant message, one that does not decode, or a message. */
  datatype Answer = CallFailed | NoAssistant | BadMessage | Reply(message: Message)

  datatype State = State(
    cancelled: bool,
    returned: Option<Answer>,   // the callback's outcome, once it has returned
    started: bool,
    settled: bool,
    terminal: Option<Message>,
    events: seq<Event>,
    result: Option<Result<Message, RequestError>>)

  const FRESH := State(false, None, false, false, None, [], None)

  // ---------- the steps ----------

  function Forward(s: State, e: Event): State {
    if s.terminal.Some? then s
    else s.(started := true, terminal := Carried(e), events := s.events + [e])
  }

  /** A progress callback: raw is None when its JSON does not decode. */
  function Emit(s: State, raw: Option<Event>): State {
    if s.returned.Some? || s.settled || s.cancelled || raw.None? then s else Forward(s, raw.value)
  }

  function Ending(m: Message): Event {
    if m.stopReason == "error" || m.stopReason == "aborted" then Failed(Some(m)) else Done(Some(m))
  }

  function Check(m: Message): Result<Message, RequestError> {
    if m.role != "assistant" then Failure(NotAnAssistant)
    else if m.stopReason == "pending" then Failure(Unfinished)
    else Success(m)
  }

  /** The message the request ends with, before its checks. */
  function FinalMessage(s: State, a: Answer): Result<Message, RequestError> {
    if a.CallFailed? then Failure(CallbackFailed)
    else if s.terminal.Some? then Success(s.terminal.value)
    else match a
      case NoAssistant => Failure(NotAnAssistant)
      case BadMessage => Failure(Undecodable)
      case Reply(m) => Success(m)
  }

  function Settle(s: State, a: Answer): State {
    var fenced := s.(settled := true);
    var message := FinalMessage(s, a);
    var checked := if message.Success? then Check(message.value) else message;
    if checked.Failure? then fenced.(result := Some(checked))
    else
      var begun := if s.terminal.None? && !s.started then Forward(fenced, Start(checked.value)) else fenced;
      var closed := if s.terminal.None? then Forward(begun, Ending(checked.value)) else begun;
      closed.(result := Some(checked))
  }

  // ---------- the stream's own fields ----------

  class CallbackStream {
    var cancelled: bool
    var returned: Option<Answer>
    var started: bool
    var settled: bool
    var terminal: Option<Message>
    var events: seq<Event>
    var result: Option<Result<Message, RequestError>>

    constructor ()
      ensures Now() == FRESH
    {
      cancelled, returned, started, settled, terminal, events, result := false, None, false, false, None, [], None;
    }

    function Now(): State
      reads this
    {
      State(cancelled, returned, started, settled, terminal, events, result)
    }

    method ForwardEvent(e: Event)
      modifies this
      ensures Now() == Forward(old(Now()), e)
      ensures old(terminal).Some? ==> Now() == old(Now())
      ensures old(terminal).None? ==>
                && events == old(events) + [e] && started
                && terminal == (match e case Done(m) => m case Failed(m) => m case _ => None)
                && settled == old(settled) && cancelled == old(cancelled) && returned == old(returned) && result == old(result)
    {
      if terminal.Some? { return; }
      started := true;
      if e.Done? { terminal := e.message; }
      if e.Failed? { terminal := e.error; }
      events := events + [e];
    }

    method EmitProgress(raw: Option<Event>) returns (accepted: bool)
      modifies this
      ensures Now() == Emit(old(Now()), raw)
      ensures accepted <==> raw.Some? && !old(settled) && !old(cancelled) && old(returned).None?
      ensures !accepted || old(terminal).Some? ==> Now() == old(Now())
      ensures accepted && old(terminal).None? ==> events == old(events) + [raw.value]
    {
      if returned.Some? || cancelled { return false; }
      if settled { return false; }
      if raw.None? { return false; }
      ForwardEvent(raw.value);
      return true;
    }

    method SettleRequest(a: Answer)
      modifies this
      ensures Now() == Settle(old(Now()), a)
      ensures settled && cancelled == old(cancelled) && returned == old(returned)
      ensures a.CallFailed? ==> result == Some(Failure(CallbackFailed)) && events == old(events) && terminal == old(terminal)
      ensures old(terminal).None? && (a.NoAssistant? || a.BadMessage?) ==>
                result == Some(Failure(if a.NoAssistant? then NotAnAssistant else Undecodable)) && events == old(events)
      ensures !a.CallFailed? && (old(terminal).Some? || a.Reply?) ==>
                var m := if old(terminal).Some? then old(terminal).value else a.message;
                if m.role != "assistant" then result == Some(Failure(NotAnAssistant)) && events == old(events)
                else if m.stopReason == "pending" then result == Some(Failure(Unfinished)) && events == old(events)
                else
                  && result == Some(Success(m)) && terminal == Some(m)
                  && events == if old(terminal).Some? then old(events)
                               else old(events) + (if old(started) then [] else [Start(m)])
                                    + [if m.stopReason == "error" || m.stopReason == "aborted" then Failed(Some(m)) else Done(Some(m))]
    {
      settled := true;
      if a.CallFailed? { result := Some(Failure(CallbackFailed)); return; }
      var message: Message;
      if terminal.Some? {
        message := terminal.value;
      } else {
        match a {
          case NoAssistant => result := Some(Failure(NotAnAssistant)); return;
          case BadMessage => result := Some(Failure(Undecodable)); return;
          case Reply(m) => message := m;
        }
      }
      if message.role != "assistant" { result := Some(Failure(NotAnAssistant)); return; }
      if message.stopReason == "pending" { result := Some(Failure(Unfinished)); return; }
      if terminal.None? {
        if !started { ForwardEvent(Start(message)); }
        if message.stopReason == "error" || message.stopReason == "aborted" {
          ForwardEvent(Failed(Some(message)));
        } else {
          ForwardEvent(Done(Some(message)));
        }
      }
      result := Some(Success(message));
    }
  }

  // ---------- every interleaving ----------

  datatype Step = Progressed(raw: Option<Event>) | Cancelled | Returned(a: Answer) | Settled

  /** The callback returns once; settlement waits for that or for cancellation, and happens once. */
  ghost predicate Next(s: State, e: Step, s': State) {
    match e
    case Progressed(raw) => s' == Emit(s, raw)
    case Cancelled => s' == s.(cancelled := true)
    case Returned(a) => s.returned.None? && s' == s.(returned := Some(a))
    case Settled =>
      !s.settled
      && ((s.returned.Some? && s' == Settle(s, s.returned.value)) || (s.cancelled && s' == Settle(s, CallFailed)))
  }

  ghost predicate Behaviour(ss: seq<State>, es: seq<Step>) {
    && |ss| == |es| + 1 && ss[0] == FRESH
    && forall k :: 0 <= k < |es| ==> Next(ss[k], es[k], ss[k + 1])
  }

  /** An event closes the stream when it is terminal and carries its message; only the last does. */
  ghost predicate Fenced(s: State) {
    && (forall k :: 0 <= k < |s.events| - 1 ==> Carried(s.events[k]).None?)
    && (s.terminal == if s.events == [] then None else Carried(s.events[|s.events| - 1]))
    && (s.started <==> s.events != [])
  }

  ghost predicate Inv(s: State) {
    && Fenced(s)
    && (s.result.Some? <==> s.settled)
    && (s.result.Some? && s.result.value.Success? ==> s.terminal == Some(s.result.value.value))
  }

  lemma ForwardKeepsFence(s: State, e: Event)
    requires Fenced(s)
    ensures Fenced(Forward(s, e))
  {
  }

  lemma SettleKeepsInv(s: State, a: Answer)
    requires Inv(s) && !s.settled
    ensures Inv(Settle(s, a)) && s.events <= Settle(s, a).events
  {
    var fenced := s.(settled := true);
    var message := FinalMessage(s, a);
    if message.Success? && Check(message.value).Success? && s.terminal.None? {
      var m := message.value;
      var begun := if !s.started then Forward(fenced, Start(m)) else fenced;
      ForwardKeepsFence(fenced, Start(m));
      ForwardKeepsFence(begun, Ending(m));
    }
  }

  lemma StepKeepsInv(s: State, e: Step, s': State)
    requires Inv(s) && Next(s, e, s')
    ensures Inv(s') && s.events <= s'.events
    ensures s.settled || s.terminal.Some? ==> s'.events == s.events
    ensures s.settled ==> s'.settled && s'.result == s.result
  {
    match e
    case Progressed(raw) =>
      if raw.Some? { ForwardKeepsFence(s, raw.value); }
    case Settled =>
      if s.returned.Some? { SettleKeepsInv(s, s.returned.value); }
      SettleKeepsInv(s, CallFailed);
    case _ =>
  }

  lemma {:induction false} BehaviourKeepsInv(ss: seq<State>, es: seq<Step>, k: nat)
    requires Behaviour(ss, es) && k < |ss|
    ensures Inv(ss[k])
  {
    if k > 0 {
      BehaviourKeepsInv(ss, es, k - 1);
      StepKeepsInv(ss[k - 1], es[k - 1], ss[k]);
    }
  }

  /** Once a terminal message is held or the request has settled, the stream gets nothing more; and
      the result of a settled request does not change. */
  lemma {:induction false} NothingAfterTheEnd(ss: seq<State>, es: seq<Step>, j: nat, k: nat)
    requires Behaviour(ss, es) && j <= k < |ss|
    ensures ss[j].events <= ss[k].events
    ensures ss[j].settled ==> ss[k].events == ss[j].events && ss[k].settled && ss[k].result == ss[j].result
    ensures ss[j].terminal.Some? ==> ss[k].events == ss[j].events
    decreases k - j
  {
    if j < k {
      NothingAfterTheEnd(ss, es, j, k - 1);
      BehaviourKeepsInv(ss, es, j);
      BehaviourKeepsInv(ss, es, k - 1);
      StepKeepsInv(ss[k - 1], es[k - 1], ss[k]);
    }
  }

  /** No terminal event is followed by another event. */
  predicate TerminalIsLast(events: seq<Event>) {
    forall i :: 0 <= i < |events| - 1 ==> !IsTerminal(events[i])
  }

  predicate TerminalsCarry(events: seq<Event>) {
    forall i :: 0 <= i < |events| && IsTerminal(events[i]) ==> Carried(events[i]).Some?
  }

  /** A request that succeeds ends its stream with a terminal event that carries the result, and that
      is the only one exactly when every terminal event on the stream carries its message. */
  lemma SuccessHasOneEnding(ss: seq<State>, es: seq<Step>, k: nat)
    requires Behaviour(ss, es) && k < |ss|
    requires ss[k].result.Some? && ss[k].result.value.Success?
    ensures var events := ss[k].events;
            && events != []
            && IsTerminal(events[|events| - 1])
            && Carried(events[|events| - 1]) == Some(ss[k].result.value.value)
            && (TerminalIsLast(events) <==> TerminalsCarry(events))
  {
    BehaviourKeepsInv(ss, es, k);
  }

  /** At any moment of any run, success or not: only a terminal event that lacks its message is ever
      followed by another, and while the callback runs on, any event may follow it. */
  lemma OnlyBareEndingsAreFollowed(ss: seq<State>, es: seq<Step>, k: nat, i: nat)
    requires Behaviour(ss, es) && k < |ss| && i < |ss[k].events| && IsTerminal(ss[k].events[i])
    ensures i < |ss[k].events| - 1 ==> Carried(ss[k].events[i]).None?
    ensures Carried(ss[k].events[i]).None? && i == |ss[k].events| - 1 && !ss[k].settled && !ss[k].cancelled && ss[k].returned.None? ==>
              forall e :: Next(ss[k], Progressed(Some(e)), Forward(ss[k], e)) && Forward(ss[k], e).events == ss[k].events + [e]
  {
    BehaviourKeepsInv(ss, es, k);
  }

  /** What the callback can do to keep the fence: report every done and error with its message. */
  ghost predicate CarriesMessages(es: seq<Step>) {
    forall k :: 0 <= k < |es| && es[k].Progressed? && es[k].raw.Some? && IsTerminal(es[k].raw.value) ==>
      Carried(es[k].raw.value).Some?
  }

  /** Then no terminal event is ever followed by another event. */
  lemma {:induction false} CarryingCallbackIsFenced(ss: seq<State>, es: seq<Step>, k: nat)
    requires Behaviour(ss, es) && CarriesMessages(es) && k < |ss|
    ensures TerminalsCarry(ss[k].events) && TerminalIsLast(ss[k].events)
  {
    BehaviourKeepsInv(ss, es, k);
    if k > 0 {
      CarryingCallbackIsFenced(ss, es, k - 1);
      assert Next(ss[k - 1], es[k - 1], ss[k]);
    }
  }

  /** A callback that reported nothing still gets a start in front of the ending. */
  lemma SilentCallbackGetsStart(ss: seq<State>, es: seq<Step>, k: nat)
    requires Behaviour(ss, es) && k < |es|
    requires es[k].Settled? && ss[k].events == [] && ss[k + 1].result.Some? && ss[k + 1].result.value.Success?
    ensures var m := ss[k + 1].result.value.value;
            ss[k + 1].events ==
            [Start(m), if m.stopReason == "error" || m.stopReason == "aborted" then Failed(Some(m)) else Done(Some(m))]
  {
    BehaviourKeepsInv(ss, es, k);
    assert Next(ss[k], es[k], ss[k + 1]);
  }

  /** Whenever settlement ends the stream, in any run: with an error event exactly when the message
      stopped on an error or was aborted, and with a done event otherwise. */
  lemma EndingTellsTheOutcome(ss: seq<State>, es: seq<Step>, k: nat)
    requires Behaviour(ss, es) && k < |es| && es[k].Settled? && ss[k + 1].events != ss[k].events
    ensures ss[k + 1].result.Some? && ss[k + 1].result.value.Success?
    ensures var (m, events) := (ss[k + 1].result.value.value, ss[k + 1].events);
            && events[|events| - 1] in {Failed(Some(m)), Done(Some(m))}
            && (events[|events| - 1] == Failed(Some(m)) <==> m.stopReason == "error" || m.stopReason == "aborted")
            && events[..|events| - 1] == ss[k].events + if ss[k].events == [] then [Start(m)] else []
  {
    BehaviourKeepsInv(ss, es, k);
    assert Next(ss[k], es[k], ss[k + 1]);
  }

  /** Otherwise the fence leaks: a done event that lacks its message does not close the stream, and a
      second one follows it. */
  lemma BareDoneDoesNotClose()
    ensures exists ss: seq<State>, es: seq<Step> ::
              Behaviour(ss, es) && ss[|es|].events == [Done(None), Done(None)]
  {
    var e := Progressed(Some(Done(None)));
    var one := FRESH.(started := true, events := [Done(None)]);
    var two := FRESH.(started := true, events := [Done(None), Done(None)]);
    var ss, es := [FRESH, one, two], [e, e];
    assert [Done(None)] + [Done(None)] == [Done(None), Done(None)];
    assert [] + [Done(None)] == [Done(None)];
    assert Next(ss[0], es[0], ss[1]) && Next(ss[1], es[1], ss[2]);
    assert Behaviour(ss, es);
  }
}
