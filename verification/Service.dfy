/** `Service.Serve` as a step system of two processes: the owner, which selects, stops the server
    and joins, and the goroutine, which serves and sends its one result on a buffered channel. */
module Service {
  import opened Options

  // What `server.Serve` returns; a closed server is an ordinary end.
  datatype ServeResult = Nil | ServerClosed | ServeFailed(code: int)

  // `stop`: nil, or the failed shutdown together with what closing returned
  datatype StopError = StopError(shutdown: int, close: Option<int>)

  // The joined error: nil exactly when both parts are.
  datatype Outcome = Outcome(serve: Option<int>, stop: Option<StopError>)

  datatype Owner =
    | Selecting
    | ShuttingDown
    | Closing(shutdown: int)
    | Joining(stop: Option<StopError>)
    | Returned(outcome: Outcome)

  datatype Sender = Serving | Sending(result: ServeResult) | Exited

  datatype State = State(
    owner: Owner,
    sender: Sender,
    channel: Option<ServeResult>,      // capacity one
    canceled: bool,
    received: Option<ServeResult>,     // serveErr, when serveFinished
    sent: Option<ServeResult>,         // history of the one send
    sends: nat,
    receives: nat,
    shutdowns: nat,
    closes: nat)

  // `normalizeServeError`
  function Normalize(r: ServeResult): Option<int> {
    match r
    case Nil => None
    case ServerClosed => None
    case ServeFailed(code) => Some(code)
  }

  predicate Init(s: State) {
    s.owner == Selecting && s.sender == Serving && s.channel.None? && s.received.None? && s.sent.None?
    && s.sends == 0 && s.receives == 0 && s.shutdowns == 0 && s.closes == 0
  }

  // ---- one step of either process, or of the caller ----

  datatype Action =
    | ServeReturns(result: ServeResult)
    | Send
    | Cancel
    | SelectResult
    | SelectDone
    | ShutdownReturns(failure: Option<int>)
    | CloseReturns(failure: Option<int>)
    | ReceiveResult
    | Return

  predicate Enabled(s: State, a: Action) {
    match a
    case ServeReturns(_) => s.sender.Serving?
    case Send => s.sender.Sending? && s.channel.None?
    case Cancel => !s.canceled
    case SelectResult => s.owner.Selecting? && s.channel.Some?
    case SelectDone => s.owner.Selecting? && s.canceled
    case ShutdownReturns(_) => s.owner.ShuttingDown?
    case CloseReturns(_) => s.owner.Closing?
    case ReceiveResult => s.owner.Joining? && s.received.None? && s.channel.Some?
    case Return => s.owner.Joining? && s.received.Some?
  }

  function Apply(s: State, a: Action): State
    requires Enabled(s, a)
  {
    match a
    case ServeReturns(result) => s.(sender := Sending(result))
    case Send =>
      s.(sender := Exited, channel := Some(s.sender.result), sent := Some(s.sender.result), sends := s.sends + 1)
    case Cancel => s.(canceled := true)
    case SelectResult =>
      s.(owner := ShuttingDown, shutdowns := s.shutdowns + 1,
         received := s.channel, channel := None, receives := s.receives + 1)
    case SelectDone => s.(owner := ShuttingDown, shutdowns := s.shutdowns + 1)
    case ShutdownReturns(None) => s.(owner := Joining(None))
    case ShutdownReturns(Some(code)) => s.(owner := Closing(code), closes := s.closes + 1)
    case CloseReturns(failure) => s.(owner := Joining(Some(StopError(s.owner.shutdown, failure))))
    case ReceiveResult => s.(received := s.channel, channel := None, receives := s.receives + 1)
    case Return => s.(owner := Returned(Outcome(Normalize(s.received.value), s.owner.stop)))
  }

  // ---- what every reachable state keeps ----

  predicate Stopped(s: State) { s.owner.Joining? || s.owner.Returned? }

  function StopPart(s: State): Option<StopError>
    requires Stopped(s)
  {
    match s.owner
    case Joining(stop) => stop
    case Returned(outcome) => outcome.stop
  }

  predicate Inv(s: State) {
    // the one send: in flight, in the channel, or received
    s.sends == (if s.sender.Exited? then 1 else 0)
    && (s.sent.Some? <==> s.sender.Exited?)
    && s.receives == (if s.received.Some? then 1 else 0)
    && (s.sender.Exited? ==> s.channel.Some? != s.received.Some?)
    && (!s.sender.Exited? ==> s.channel.None? && s.received.None?)
    && (s.channel.Some? ==> s.channel == s.sent)
    && (s.received.Some? ==> s.received == s.sent)
    // the stop sequence
    && s.shutdowns == (if s.owner.Selecting? then 0 else 1)
    && (s.owner.Selecting? || s.owner.ShuttingDown? ==> s.closes == 0)
    && (s.owner.Selecting? ==> s.received.None?)
    && (s.owner.Closing? ==> s.closes == 1)
    && (Stopped(s) ==> s.closes == if StopPart(s).Some? then 1 else 0)
    // the result
    && (s.owner.Returned? ==>
          s.received.Some? && s.owner.outcome.serve == Normalize(s.received.value))
  }

  lemma InitInv(s: State)
    requires Init(s)
    ensures Inv(s)
  {
  }

  lemma StepInv(s: State, a: Action)
    requires Inv(s) && Enabled(s, a)
    ensures Inv(Apply(s, a))
  {
    hide Normalize;
  }

  // A run: a start state and the actions taken, each enabled where it is taken.
  ghost predicate IsRun(start: State, actions: seq<Action>)
    decreases |actions|
  {
    Init(start) &&
    (actions != [] ==>
       IsRun(start, actions[..|actions| - 1])
       && Enabled(Final(start, actions[..|actions| - 1]), actions[|actions| - 1]))
  }

  ghost function Final(start: State, actions: seq<Action>): State
    decreases |actions|
  {
    if actions == [] then start
    else
      var before, last := Final(start, actions[..|actions| - 1]), actions[|actions| - 1];
      if Enabled(before, last) then Apply(before, last) else before
  }

  lemma {:induction false} RunInv(start: State, actions: seq<Action>)
    requires IsRun(start, actions)
    ensures Inv(Final(start, actions))
    decreases |actions|
  {
    hide Inv, Enabled, Apply;
    if actions == [] {
      InitInv(start);
    } else {
      RunInv(start, actions[..|actions| - 1]);
      StepInv(Final(start, actions[..|actions| - 1]), actions[|actions| - 1]);
    }
  }

  // ---- what a run was answered ----

  // What serving, shutdown and close returned over a run, each in order.
  function ServeAnswers(actions: seq<Action>): seq<ServeResult>
    decreases |actions|
  {
    if actions == [] then []
    else
      var before, last := ServeAnswers(actions[..|actions| - 1]), actions[|actions| - 1];
      if last.ServeReturns? then before + [last.result] else before
  }

  function ShutdownAnswers(actions: seq<Action>): seq<Option<int>>
    decreases |actions|
  {
    if actions == [] then []
    else
      var before, last := ShutdownAnswers(actions[..|actions| - 1]), actions[|actions| - 1];
      if last.ShutdownReturns? then before + [last.failure] else before
  }

  function CloseAnswers(actions: seq<Action>): seq<Option<int>>
    decreases |actions|
  {
    if actions == [] then []
    else
      var before, last := CloseAnswers(actions[..|actions| - 1]), actions[|actions| - 1];
      if last.CloseReturns? then before + [last.failure] else before
  }

  // What the goroutine holds, sent or had received is what serving returned, and nothing else.
  predicate ServeHeard(s: State, served: seq<ServeResult>) {
    match s.sender
    case Serving => served == []
    case Sending(result) => served == [result]
    case Exited => s.sent.Some? && served == [s.sent.value]
  }

  // The owner's stop part is what shutdown and close returned, and close runs only in between.
  predicate StopHeard(s: State, shutdown: seq<Option<int>>, closed: seq<Option<int>>) {
    match s.owner
    case Selecting => shutdown == closed == []
    case ShuttingDown => shutdown == closed == []
    case Closing(code) => shutdown == [Some(code)] && closed == []
    case _ =>
      match StopPart(s)
      case None => shutdown == [None] && closed == []
      case Some(stop) => shutdown == [Some(stop.shutdown)] && closed == [stop.close]
  }

  lemma {:induction false} RunHeard(start: State, actions: seq<Action>)
    requires IsRun(start, actions)
    ensures ServeHeard(Final(start, actions), ServeAnswers(actions))
    ensures StopHeard(Final(start, actions), ShutdownAnswers(actions), CloseAnswers(actions))
    decreases |actions|
  {
    hide ServeHeard, StopHeard, Enabled, Apply;
    if actions == [] {
      StartHeard(start);
    } else {
      var front := actions[..|actions| - 1];
      RunHeard(start, front);
      StepServe(Final(start, front), actions[|front|], ServeAnswers(front));
      StepStop(Final(start, front), actions[|front|], ShutdownAnswers(front), CloseAnswers(front));
    }
  }

  lemma StartHeard(s: State)
    requires Init(s)
    ensures ServeHeard(s, []) && StopHeard(s, [], [])
  {
  }

  lemma StepServe(s: State, a: Action, served: seq<ServeResult>)
    requires ServeHeard(s, served) && Enabled(s, a)
    ensures ServeHeard(Apply(s, a), if a.ServeReturns? then served + [a.result] else served)
  {
  }

  lemma StepStop(s: State, a: Action, shutdown: seq<Option<int>>, closed: seq<Option<int>>)
    requires StopHeard(s, shutdown, closed) && Enabled(s, a)
    ensures StopHeard(Apply(s, a), if a.ShutdownReturns? then shutdown + [a.failure] else shutdown,
                      if a.CloseReturns? then closed + [a.failure] else closed)
  {
    hide Normalize;
  }

  /** On every interleaving: `Serve` returns only after the goroutine's one send was received once;
      serving and shutdown returned once each; close ran, and ran once, exactly when that shutdown
      failed; the returned value joins what they returned, and is nil exactly when serving ended
      cleanly and shutdown succeeded. */
  lemma {:induction false} ReturnsJoined(start: State, actions: seq<Action>)
      returns (serve: ServeResult, shutdown: Option<int>)
    requires IsRun(start, actions) && Final(start, actions).owner.Returned?
    ensures var s := Final(start, actions);
      s.sender == Exited && s.sends == 1 && s.receives == 1 && s.channel.None? && s.received == s.sent == Some(serve)
    ensures ServeAnswers(actions) == [serve] && ShutdownAnswers(actions) == [shutdown]
    ensures var (s, closed) := (Final(start, actions), CloseAnswers(actions));
      s.shutdowns == 1 && s.closes == |closed| == (if shutdown.Some? then 1 else 0)
      && s.owner.outcome == Outcome(Normalize(serve),
           if shutdown.Some? then Some(StopError(shutdown.value, closed[0])) else None)
    ensures Final(start, actions).owner.outcome == Outcome(None, None) <==>
      (serve == Nil || serve == ServerClosed) && shutdown.None?
  {
    RunInv(start, actions);
    RunHeard(start, actions);
    hide IsRun, Final, ServeAnswers, ShutdownAnswers, CloseAnswers;
    serve, shutdown := ServeAnswers(actions)[0], ShutdownAnswers(actions)[0];
  }

  /** Shutdown starts only once the caller canceled or serving ended: at every step that starts it, and ever
      after. */
  lemma {:induction false} ShutdownCause(start: State, actions: seq<Action>, next: Action)
    requires IsRun(start, actions) && Enabled(Final(start, actions), next)
    requires Final(start, actions).shutdowns == 0 && Apply(Final(start, actions), next).shutdowns > 0
    ensures Final(start, actions).canceled
      || (ServeAnswers(actions) != [] && Final(start, actions).channel == Some(ServeAnswers(actions)[0]))
  {
    RunInv(start, actions);
    RunHeard(start, actions);
    hide IsRun, Final, ServeAnswers, ShutdownAnswers, CloseAnswers;
  }

  lemma {:induction false} ShutdownCaused(start: State, actions: seq<Action>)
    requires IsRun(start, actions) && Final(start, actions).shutdowns > 0
    ensures Final(start, actions).canceled || ServeAnswers(actions) != []
    decreases |actions|
  {
    var front, last := actions[..|actions| - 1], actions[|actions| - 1];
    if Final(start, front).shutdowns > 0 {
      ShutdownCaused(start, front);
    } else {
      ShutdownCause(start, front, last);
    }
    hide IsRun, Final;
  }

  /** The channel is free whenever the goroutine is about to send, so the sender never blocks. */
  lemma {:induction false} SenderNeverBlocks(start: State, actions: seq<Action>)
    requires IsRun(start, actions) && Final(start, actions).sender.Sending?
    ensures Enabled(Final(start, actions), Send)
  {
    RunInv(start, actions);
    hide IsRun, Final;
  }

  // ---- progress ----

  function OwnerRank(o: Owner): nat {
    match o
    case Selecting => 5
    case ShuttingDown => 4
    case Closing(_) => 3
    case Joining(_) => 2
    case Returned(_) => 0
  }

  function Rank(s: State): nat {
    OwnerRank(s.owner)
    + (if s.owner.Joining? && s.received.Some? then 0 else 1)
    + (match s.sender case Serving => 2 case Sending(_) => 1 case Exited => 0)
    + (if s.canceled then 0 else 1)
  }

  lemma StepRank(s: State, a: Action)
    requires Inv(s) && Enabled(s, a)
    ensures Rank(Apply(s, a)) < Rank(s)
  {
  }

  /** Every interleaving is finite: no run takes more steps than its start ranks. */
  lemma {:induction false} RunsEnd(start: State, actions: seq<Action>)
    requires IsRun(start, actions)
    ensures |actions| + Rank(Final(start, actions)) <= Rank(start)
    decreases |actions|
  {
    hide Rank, Inv, Enabled, Apply;
    if actions != [] {
      RunsEnd(start, actions[..|actions| - 1]);
      RunInv(start, actions[..|actions| - 1]);
      StepRank(Final(start, actions[..|actions| - 1]), actions[|actions| - 1]);
    }
  }

  // A terminal event: the caller canceled, or serving ended.
  predicate Terminal(s: State) { s.canceled || !s.sender.Serving? }

  // Steps the system takes without the caller: everything but cancellation, with serving made to
  // return once the server was stopped.
  predicate Forced(s: State, a: Action) {
    Enabled(s, a) && a != Cancel && (a.ServeReturns? ==> Stopped(s))
  }

  /** After a terminal event a run that has not returned can always go on by itself, provided that
      stopping the server makes serving return; with `RunsEnd`, every such run returns. */
  lemma {:induction false} NeverStuck(start: State, actions: seq<Action>) returns (a: Action)
    requires IsRun(start, actions)
    requires Terminal(Final(start, actions)) && !Final(start, actions).owner.Returned?
    ensures Forced(Final(start, actions), a)
  {
    RunInv(start, actions);
    hide IsRun, Final;
    var s := Final(start, actions);
    match s.owner
    case Selecting =>
      a := if s.canceled then SelectDone else if s.sender.Sending? then Send else SelectResult;
    case ShuttingDown => a := ShutdownReturns(None);
    case Closing(_) => a := CloseReturns(None);
    case Joining(_) =>
      a := if s.received.Some? then Return
           else if s.channel.Some? then ReceiveResult
           else if s.sender.Sending? then Send
           else ServeReturns(ServerClosed);
  }

  /** A run after a terminal event that cannot go on by itself has returned. */
  lemma {:induction false} MaximalRunsReturn(start: State, actions: seq<Action>)
    requires IsRun(start, actions) && Terminal(Final(start, actions))
    requires forall a :: !Forced(Final(start, actions), a)
    ensures Final(start, actions).owner.Returned?
  {
    hide IsRun, Final, Forced, Terminal;
    if !Final(start, actions).owner.Returned? {
      var a := NeverStuck(start, actions);
    }
  }
}
