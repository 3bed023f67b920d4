/**
 The realtime connection of `useRealtimeEvents`: one effect asks for a ticket,
 opens a socket, and starts over after a growing wait. Each `await` and each
 event of a socket or timer is a step; the steps of one effect may come in any
 order that its sockets, timers and requests allow.
 */
module Reconnect {
  import opened Wrappers

  const FIRST_WAIT := 500
  const LONGEST_WAIT := 10_000

  datatype Shown = Connecting | Connected | Reconnecting | Disconnected

  /** A call of `connect` past its token check: waiting for the ticket response, then for its body. */
  datatype Call = Ticket | Body | Over

  datatype Ready = Handshake | Open | Closing | Closed

  datatype Socket = Socket(ready: Ready, wasOpen: bool)

  datatype Timer = Armed | Fired | Cleared

  /** What the backoff depends on, in order. */
  datatype Event = Opened | Waiting(ms: nat)

  /** Everything an effect ever started, and its four closure variables. */
  datatype State = State(
    calls: seq<Call>,
    sockets: seq<Socket>,
    timers: seq<Timer>,
    socket: Option<nat>,
    reconnectTimer: Option<nat>,
    stopped: bool,
    retryDelay: nat,
    said: seq<Shown>,      // the arguments of setConnectionState, in order
    log: seq<Event>)

  datatype Reading = Unreadable | NoTicket | NoUrl | Refused | Made

  datatype Step =
    | Answer(call: nat, ok: bool)
    | Read(call: nat, reading: Reading)
    | Opens(socket: nat)
    | Errors(socket: nat)
    | Closes(socket: nat)
    | Fires(timer: nat, hasToken: bool)
    | Cleanup

  function Min(a: nat, b: nat): nat { if a < b then a else b }

  /** The function `scheduleReconnect`. */
  function Scheduled(s: State): State {
    if s.stopped || s.reconnectTimer.Some? then s else
    s.(said := s.said + [Reconnecting], reconnectTimer := Some(|s.timers|), timers := s.timers + [Armed],
       log := s.log + [Waiting(s.retryDelay)], retryDelay := Min(s.retryDelay * 2, LONGEST_WAIT))
  }

  /** The function `connect`, up to its first await. */
  function Started(s: State, hasToken: bool): State {
    if s.stopped then s
    else if !hasToken then s.(said := s.said + [Disconnected])
    else s.(said := s.said + [if s.retryDelay > FIRST_WAIT then Reconnecting else Connecting],
            calls := s.calls + [Ticket])
  }

  predicate Enabled(s: State, step: Step) {
    match step
    case Answer(c, _) => c < |s.calls| && s.calls[c] == Ticket
    case Read(c, _) => c < |s.calls| && s.calls[c] == Body
    case Opens(k) => k < |s.sockets| && s.sockets[k].ready == Handshake
    case Errors(k) => k < |s.sockets| && s.sockets[k].ready != Closed
    case Closes(k) => k < |s.sockets| && s.sockets[k].ready != Closed
    case Fires(t, _) => t < |s.timers| && s.timers[t] == Armed
    case Cleanup => !s.stopped
  }

  function AfterRead(s: State, reading: Reading): State {
    if reading == Unreadable then Scheduled(s)
    else if s.stopped then s
    else match reading
      case NoUrl => s.(said := s.said + [Disconnected])
      case Made => s.(sockets := s.sockets + [Socket(Handshake, false)], socket := Some(|s.sockets|))
      case _ => Scheduled(s)
  }

  function AfterClose(s: State, k: nat): State {
    var t := if s.socket == Some(k) then s.(socket := None) else s;
    if t.stopped then t.(said := t.said + [Disconnected]) else Scheduled(t)
  }

  function CloseCalled(sockets: seq<Socket>, k: nat): seq<Socket> {
    if k < |sockets| && sockets[k].ready != Closed then sockets[k := sockets[k].(ready := Closing)] else sockets
  }

  function TimerCleared(timers: seq<Timer>, t: nat): seq<Timer> {
    if t < |timers| && timers[t] == Armed then timers[t := Cleared] else timers
  }

  /** One step; a step that is not possible changes nothing. */
  function Do(s: State, step: Step): State {
    if !Enabled(s, step) then s else
    match step
    case Answer(c, ok) => if ok then s.(calls := s.calls[c := Body]) else Scheduled(s.(calls := s.calls[c := Over]))
    case Read(c, reading) => AfterRead(s.(calls := s.calls[c := Over]), reading)
    case Opens(k) =>
      s.(sockets := s.sockets[k := Socket(Open, true)], retryDelay := FIRST_WAIT, said := s.said + [Connected],
         log := s.log + [Opened])
    case Errors(k) => s.(sockets := CloseCalled(s.sockets, k))
    case Closes(k) => AfterClose(s.(sockets := s.sockets[k := s.sockets[k].(ready := Closed)]), k)
    case Fires(t, hasToken) => Started(s.(timers := s.timers[t := Fired], reconnectTimer := None), hasToken)
    case Cleanup =>
      s.(stopped := true, said := s.said + [Disconnected],
         timers := if s.reconnectTimer.Some? then TimerCleared(s.timers, s.reconnectTimer.value) else s.timers,
         sockets := if s.socket.Some? then CloseCalled(s.sockets, s.socket.value) else s.sockets)
  }

  const NEW := State([], [], [], None, None, false, FIRST_WAIT, [], [])

  function Mounted(hasToken: bool): State { Started(NEW, hasToken) }

  function Run(s: State, schedule: seq<Step>): State
    decreases |schedule|
  {
    if schedule == [] then s else Run(Do(s, schedule[0]), schedule[1..])
  }

  // ---------- the invariant ----------

  /** Something that goes on and will end with an event. */
  datatype Activity = Calling(c: nat) | Live(k: nat) | Pending(t: nat)

  predicate Goes(s: State, a: Activity) {
    match a
    case Calling(c) => c < |s.calls| && s.calls[c] != Over
    case Live(k) => k < |s.sockets| && s.sockets[k].ready != Closed
    case Pending(t) => t < |s.timers| && s.timers[t] == Armed
  }

  /** Nothing goes on, or `which.value` alone. */
  ghost predicate GoesOnly(s: State, which: Option<Activity>) {
    forall a :: Goes(s, a) <==> which == Some(a)
  }

  /** The activity that the closure variables and the last call point to. */
  function Current(s: State): Option<Activity> {
    if s.socket.Some? then Some(Live(s.socket.value))
    else if s.reconnectTimer.Some? && !s.stopped then Some(Pending(s.reconnectTimer.value))
    else if s.calls != [] && s.calls[|s.calls| - 1] != Over then Some(Calling(|s.calls| - 1))
    else None
  }

  function Last(s: State): Shown { if s.said == [] then Disconnected else s.said[|s.said| - 1] }

  /** What the user is told, as a function of what goes on. */
  function Told(s: State): Shown {
    if s.stopped || Current(s).None? then Disconnected
    else if s.socket.Some? && s.socket.value < |s.sockets| && s.sockets[s.socket.value].wasOpen then Connected
    else if s.log == [] then Connecting
    else Reconnecting
  }

  function WaitsSinceOpen(log: seq<Event>): nat {
    if log == [] || log[|log| - 1].Opened? then 0 else 1 + WaitsSinceOpen(log[..|log| - 1])
  }

  function Pow2(n: nat): (p: nat)
    ensures p > n
  {
    if n == 0 then 1 else 2 * Pow2(n - 1)
  }

  function Backoff(n: nat): nat { Min(FIRST_WAIT * Pow2(n), LONGEST_WAIT) }

  ghost predicate RightWait(log: seq<Event>, i: nat)
    requires i < |log|
  {
    log[i].Waiting? ==> log[i].ms == Backoff(WaitsSinceOpen(log[..i]))
  }

  /** Every wait in the log has the length that its place asks for. */
  ghost predicate RightWaits(log: seq<Event>) {
    forall i: nat {:trigger RightWait(log, i)} | i < |log| :: RightWait(log, i)
  }

  predicate LastWaiting(log: seq<Event>) { log != [] && log[|log| - 1].Waiting? }

  /** While a socket that was open lasts, the log ends with its opening; otherwise with the last wait, if any. */
  predicate LogFits(s: State) {
    match Current(s)
    case None => true
    case Some(Pending(_)) => LastWaiting(s.log)
    case Some(Calling(_)) => s.log == [] || LastWaiting(s.log)
    case Some(Live(k)) =>
      k < |s.sockets| && (s.log == [] || LastWaiting(s.log) <==> !s.sockets[k].wasOpen)
  }

  predicate SocketFits(socket: Socket) {
    && (socket.ready == Open ==> socket.wasOpen)
    && (socket.ready == Handshake ==> !socket.wasOpen)
  }

  ghost predicate SocketsFit(s: State) {
    && (forall k | 0 <= k < |s.sockets| :: SocketFits(s.sockets[k]))
    && (s.socket.Some? ==> s.socket.value < |s.sockets| && (s.stopped ==> s.sockets[s.socket.value].ready == Closing))
  }

  ghost predicate Backed(s: State) { s.retryDelay == Backoff(WaitsSinceOpen(s.log)) && RightWaits(s.log) }

  ghost predicate Inv(s: State) {
    && GoesOnly(s, Current(s)) && SocketsFit(s) && Last(s) == Told(s) && Backed(s)
    && (s.stopped || (LogFits(s) && (s.socket.None? || s.reconnectTimer.None?)))
  }

  // ---------- every step keeps it ----------

  lemma BackedOpened(log: seq<Event>)
    requires RightWaits(log)
    ensures RightWaits(log + [Opened]) && WaitsSinceOpen(log + [Opened]) == 0
  {
    var after := log + [Opened];
    forall i: nat | i < |after| ensures RightWait(after, i) {
      if i < |log| { assert RightWait(log, i) && after[..i] == log[..i]; }
    }
  }

  lemma BackedWaiting(log: seq<Event>, ms: nat)
    requires RightWaits(log) && ms == Backoff(WaitsSinceOpen(log))
    ensures RightWaits(log + [Waiting(ms)]) && WaitsSinceOpen(log + [Waiting(ms)]) == WaitsSinceOpen(log) + 1
    ensures Backoff(WaitsSinceOpen(log) + 1) == Min(ms * 2, LONGEST_WAIT)
  {
    var after := log + [Waiting(ms)];
    assert after[..|log|] == log;
    forall i: nat | i < |after| ensures RightWait(after, i) {
      if i < |log| { assert RightWait(log, i) && after[..i] == log[..i]; }
    }
  }

  /** Nothing goes on, and a timer may be armed next. */
  ghost predicate Quiet(s: State) {
    && GoesOnly(s, None) && SocketsFit(s) && Backed(s) && s.socket.None?
    && (s.stopped || s.reconnectTimer.None?)
    && (s.stopped ==> Last(s) == Disconnected)
  }

  lemma QuietIsNone(s: State)
    requires Quiet(s)
    ensures Current(s) == None
  {
    if s.calls != [] { assert !Goes(s, Calling(|s.calls| - 1)); }
  }

  lemma ScheduledGoes(s: State)
    requires Quiet(s)
    ensures GoesOnly(Scheduled(s), Current(Scheduled(s)))
  {
    QuietIsNone(s);
    var t := Scheduled(s);
    forall a ensures Goes(t, a) <==> Current(t) == Some(a) { assert !Goes(s, a); }
  }

  lemma ScheduledBacked(s: State)
    requires Backed(s)
    ensures Backed(Scheduled(s))
  {
    BackedWaiting(s.log, s.retryDelay);
  }

  lemma ScheduledKeepsInv(s: State)
    requires Quiet(s)
    ensures Inv(Scheduled(s))
  {
    QuietIsNone(s);
    ScheduledGoes(s);
    ScheduledBacked(s);
  }

  lemma StartedKeepsInv(s: State, hasToken: bool)
    requires Quiet(s) && (s.log == [] || LastWaiting(s.log))
    ensures Inv(Started(s, hasToken))
  {
    QuietIsNone(s);
    var t := Started(s, hasToken);
    forall a ensures Goes(t, a) <==> Current(t) == Some(a) { assert !Goes(s, a); }
    if s.log != [] { assert Pow2(WaitsSinceOpen(s.log)) >= 2; }
  }

  lemma MountKeepsInv(hasToken: bool)
    ensures Inv(Mounted(hasToken))
  {
    StartedKeepsInv(NEW, hasToken);
  }

  // one lemma for each kind of step

  lemma AnswerKeepsInv(s: State, c: nat, ok: bool)
    requires Inv(s) && Enabled(s, Answer(c, ok))
    ensures Inv(Do(s, Answer(c, ok)))
  {
    assert Goes(s, Calling(c));
    if ok {
      var t := Do(s, Answer(c, ok));
      forall a ensures Goes(t, a) <==> Current(t) == Some(a) { assert Goes(s, a) <==> Current(s) == Some(a); }
    } else {
      CallOverIsQuiet(s, c);
      ScheduledKeepsInv(s.(calls := s.calls[c := Over]));
    }
  }

  /** A finished call leaves nothing going on. */
  lemma CallOverIsQuiet(s: State, c: nat)
    requires Inv(s) && c < |s.calls| && s.calls[c] != Over
    ensures Quiet(s.(calls := s.calls[c := Over]))
  {
    var t := s.(calls := s.calls[c := Over]);
    assert Goes(s, Calling(c));
    forall a ensures !Goes(t, a) { assert Goes(s, a) <==> Current(s) == Some(a); }
  }

  lemma MadeKeepsInv(s: State)
    requires Quiet(s) && !s.stopped && Last(s) != Disconnected && (s.log == [] || LastWaiting(s.log))
    requires Last(s) == if s.log == [] then Connecting else Reconnecting
    ensures Inv(AfterRead(s, Made))
  {
    QuietIsNone(s);
    var t := AfterRead(s, Made);
    forall a ensures Goes(t, a) <==> Current(t) == Some(a) { assert !Goes(s, a); }
  }

  lemma QuietKeepsInv(s: State)
    requires Quiet(s) && Last(s) == Disconnected
    ensures Inv(s)
  {
    QuietIsNone(s);
  }

  lemma ReadKeepsInv(s: State, c: nat, reading: Reading)
    requires Inv(s) && Enabled(s, Read(c, reading))
    ensures Inv(Do(s, Read(c, reading)))
  {
    assert Goes(s, Calling(c));
    var t := s.(calls := s.calls[c := Over]);
    CallOverIsQuiet(s, c);
    if reading == Unreadable {
      ScheduledKeepsInv(t);
    } else if s.stopped {
      QuietKeepsInv(t);
    } else if reading == NoUrl {
      QuietKeepsInv(t.(said := t.said + [Disconnected]));
    } else if reading == Made {
      MadeKeepsInv(t);
    } else {
      ScheduledKeepsInv(t);
    }
  }

  lemma OpensKeepsInv(s: State, k: nat)
    requires Inv(s) && Enabled(s, Opens(k))
    ensures Inv(Do(s, Opens(k)))
  {
    assert Goes(s, Live(k));
    BackedOpened(s.log);
    var t := Do(s, Opens(k));
    forall a ensures Goes(t, a) <==> Current(t) == Some(a) { assert Goes(s, a) <==> Current(s) == Some(a); }
  }

  lemma ErrorsKeepsInv(s: State, k: nat)
    requires Inv(s) && Enabled(s, Errors(k))
    ensures Inv(Do(s, Errors(k)))
  {
    assert Goes(s, Live(k));
    var t := Do(s, Errors(k));
    forall a ensures Goes(t, a) <==> Current(t) == Some(a) { assert Goes(s, a) <==> Current(s) == Some(a); }
  }

  lemma ClosesKeepsInv(s: State, k: nat)
    requires Inv(s) && Enabled(s, Closes(k))
    ensures Inv(Do(s, Closes(k)))
  {
    assert Goes(s, Live(k));
    var t := s.(sockets := s.sockets[k := s.sockets[k].(ready := Closed)], socket := None);
    forall a ensures !Goes(t, a) { assert Goes(s, a) <==> Current(s) == Some(a); }
    ScheduledKeepsInv(t);
  }

  lemma FiresKeepsInv(s: State, k: nat, hasToken: bool)
    requires Inv(s) && Enabled(s, Fires(k, hasToken))
    ensures Inv(Do(s, Fires(k, hasToken)))
  {
    assert Goes(s, Pending(k));
    var t := s.(timers := s.timers[k := Fired], reconnectTimer := None);
    forall a ensures !Goes(t, a) { assert Goes(s, a) <==> Current(s) == Some(a); }
    StartedKeepsInv(t, hasToken);
  }

  lemma CleanupKeepsInv(s: State)
    requires Inv(s) && !s.stopped
    ensures Inv(Do(s, Cleanup))
  {
    var t := Do(s, Cleanup);
    forall a ensures Goes(t, a) <==> Current(t) == Some(a) { assert Goes(s, a) <==> Current(s) == Some(a); }
  }

  lemma StepKeepsInv(s: State, step: Step)
    requires Inv(s)
    ensures Inv(Do(s, step))
  {
    if Enabled(s, step) {
      match step
      case Answer(c, ok) => AnswerKeepsInv(s, c, ok);
      case Read(c, reading) => ReadKeepsInv(s, c, reading);
      case Opens(k) => OpensKeepsInv(s, k);
      case Errors(k) => ErrorsKeepsInv(s, k);
      case Closes(k) => ClosesKeepsInv(s, k);
      case Fires(t, hasToken) => FiresKeepsInv(s, t, hasToken);
      case Cleanup => CleanupKeepsInv(s);
    }
  }

  lemma {:induction false} RunKeepsInv(s: State, schedule: seq<Step>)
    requires Inv(s)
    ensures Inv(Run(s, schedule))
    decreases |schedule|
  {
    if schedule != [] {
      StepKeepsInv(s, schedule[0]);
      RunKeepsInv(Do(s, schedule[0]), schedule[1..]);
    }
  }

  // ---------- what that means over every run ----------

  function Activities(s: State): set<Activity> {
    (set c | 0 <= c < |s.calls| && s.calls[c] != Over :: Calling(c)) +
    (set k | 0 <= k < |s.sockets| && s.sockets[k].ready != Closed :: Live(k)) +
    (set t | 0 <= t < |s.timers| && s.timers[t] == Armed :: Pending(t))
  }

  lemma ActivitiesAre(s: State)
    requires Inv(s)
    ensures Activities(s) == if Current(s).Some? then {Current(s).value} else {}
  {
    forall a ensures a in Activities(s) <==> Current(s) == Some(a) {
      assert a in Activities(s) <==> Goes(s, a);
    }
  }

  /**
   Of connection attempts, sockets and timers at most one goes on. Until the cleanup exactly one
   does, unless the user is told that the connection is off; after it none but what was under way.
   */
  lemma AtMostOneActivity(hasToken: bool, schedule: seq<Step>)
    ensures var s := Run(Mounted(hasToken), schedule);
      && |Activities(s)| <= 1
      && (!s.stopped ==> (|Activities(s)| == 1 <==> Last(s) != Disconnected))
      && (s.stopped ==> Last(s) == Disconnected && forall t | 0 <= t < |s.timers| :: s.timers[t] != Armed)
  {
    var s := Run(Mounted(hasToken), schedule);
    MountKeepsInv(hasToken);
    RunKeepsInv(Mounted(hasToken), schedule);
    ActivitiesAre(s);
    forall t | 0 <= t < |s.timers| && s.stopped ensures s.timers[t] != Armed { assert !Goes(s, Pending(t)); }
  }

  predicate Lasts(socket: Socket) { socket.ready != Closed && socket.wasOpen }

  /** "Connected" is shown exactly while a socket that has opened lasts. */
  lemma ConnectedIsShownExactly(hasToken: bool, schedule: seq<Step>)
    ensures var s := Run(Mounted(hasToken), schedule);
      Last(s) == Connected <==> !s.stopped && exists k | 0 <= k < |s.sockets| :: Lasts(s.sockets[k])
  {
    var s := Run(Mounted(hasToken), schedule);
    MountKeepsInv(hasToken);
    RunKeepsInv(Mounted(hasToken), schedule);
    forall k | 0 <= k < |s.sockets| && s.sockets[k].ready != Closed ensures s.socket == Some(k) {
      assert Goes(s, Live(k));
    }
    if s.socket.Some? { assert Goes(s, Live(s.socket.value)); }
  }

  /** A wait that follows `n` waits since the last opening lasts min(500 * 2^n, 10000) milliseconds. */
  lemma WaitsGrow(hasToken: bool, schedule: seq<Step>, i: nat)
    ensures var log := Run(Mounted(hasToken), schedule).log;
      i < |log| && log[i].Waiting? ==> log[i].ms == Min(500 * Pow2(WaitsSinceOpen(log[..i])), 10_000)
  {
    MountKeepsInv(hasToken);
    RunKeepsInv(Mounted(hasToken), schedule);
    var log := Run(Mounted(hasToken), schedule).log;
    if i < |log| { assert RightWait(log, i); }
  }

  /** From the sixth wait on, and not before, the wait is the longest one. */
  lemma LongestWaitFrom(n: nat)
    ensures Backoff(n) == LONGEST_WAIT <==> n >= 5
  {
    assert Pow2(4) == 16 && Pow2(5) == 32;
    if n > 5 { PowGrows(5, n); } else if n < 4 { PowGrows(n, 4); }
  }

  lemma {:induction false} PowGrows(m: nat, n: nat)
    requires m <= n
    ensures Pow2(m) <= Pow2(n)
  {
    if m < n { PowGrows(m, n - 1); }
  }

  lemma StepStartsNothing(s: State, step: Step)
    requires Inv(s) && s.stopped
    ensures var t := Do(s, step);
      t.stopped && |t.calls| == |s.calls| && |t.sockets| == |s.sockets| && |t.timers| == |s.timers| && t.log == s.log
  {
    if step.Opens? { assert !Goes(s, Live(step.socket)) || s.sockets[step.socket].ready == Closing; }
    if step.Fires? { assert !Goes(s, Pending(step.timer)); }
  }

  /** After the cleanup no request, socket or timer is started, and nothing but "disconnected" is shown. */
  lemma {:induction false} NothingStartsAfterCleanup(s: State, schedule: seq<Step>)
    requires Inv(s) && s.stopped
    ensures var t := Run(s, schedule);
      && t.stopped && |t.calls| == |s.calls| && |t.sockets| == |s.sockets| && |t.timers| == |s.timers| && t.log == s.log
      && Last(t) == Disconnected
    decreases |schedule|
  {
    if schedule != [] {
      StepKeepsInv(s, schedule[0]);
      StepStartsNothing(s, schedule[0]);
      NothingStartsAfterCleanup(Do(s, schedule[0]), schedule[1..]);
    }
  }

  /** What has to go on for the step to happen. */
  function Needs(step: Step): Activity
    requires step != Cleanup
  {
    match step
    case Answer(c, _) => Calling(c)
    case Read(c, _) => Calling(c)
    case Opens(k) => Live(k)
    case Errors(k) => Live(k)
    case Closes(k) => Live(k)
    case Fires(t, _) => Pending(t)
  }

  /** A step that ends the loop for good: a missing token, or no URL to connect to. */
  predicate GivesUp(s: State, step: Step) {
    Enabled(s, step) && (step.Fires? ==> !step.hasToken) && (step.Read? ==> step.reading == NoUrl)
        && (step.Fires? || step.Read?)
  }

  lemma CurrentAfter(s: State, step: Step)
    requires GoesOnly(s, Current(s)) && !s.stopped && Current(s).Some? && step != Cleanup
    requires s.socket.None? || s.reconnectTimer.None?
    ensures Current(Do(s, step)).None? <==> GivesUp(s, step)
  {
    if Enabled(s, step) { assert Goes(s, Needs(step)); }
  }

  /** Before the cleanup, only these steps leave nothing going on. */
  lemma GivesUpExactly(s: State, step: Step)
    requires Inv(s) && !s.stopped && Activities(s) != {} && step != Cleanup
    ensures Activities(Do(s, step)) == {} <==> GivesUp(s, step)
  {
    StepKeepsInv(s, step);
    ActivitiesAre(s);
    ActivitiesAre(Do(s, step));
    CurrentAfter(s, step);
  }

  /** Once nothing goes on, nothing ever will: the effect does not try again by itself. */
  lemma {:induction false} GivenUpForGood(s: State, schedule: seq<Step>)
    requires Inv(s) && Activities(s) == {} && Cleanup !in schedule
    ensures Run(s, schedule) == s
    decreases |schedule|
  {
    if schedule != [] {
      assert schedule[0] in schedule;
      ActivitiesAre(s);
      forall a ensures !Goes(s, a) { assert Goes(s, a) <==> Current(s) == Some(a); }
      assert Enabled(s, schedule[0]) ==> Goes(s, Needs(schedule[0]));
      GivenUpForGood(s, schedule[1..]);
    }
  }

  // ---------- what each step does to calls, sockets and timers ----------

  /** A mounted effect asks for a ticket if there is a token, and is off for good otherwise. */
  lemma MountedIs(hasToken: bool)
    ensures var s := Mounted(hasToken);
      && s.calls == (if hasToken then [Ticket] else []) && s.sockets == [] && s.timers == [] && s.log == []
      && s.said == [if hasToken then Connecting else Disconnected] && !s.stopped
  {
  }

  /** A call goes on to the body with a ticket response, is over without one, and is over with the body. */
  lemma CallAfter(s: State, step: Step, c: nat)
    requires c < |s.calls|
    ensures |Do(s, step).calls| >= |s.calls|
    ensures Do(s, step).calls[c] ==
            if s.calls[c] == Ticket && step == Answer(c, true) then Body
            else if s.calls[c] == Ticket && step == Answer(c, false) then Over
            else if s.calls[c] == Body && step.Read? && step.call == c then Over
            else s.calls[c]
  {
  }

  /** A socket opens once; an error or the cleanup starts to close every socket that is not closed yet. */
  lemma SocketAfter(s: State, step: Step, k: nat)
    requires Inv(s) && k < |s.sockets|
    ensures |Do(s, step).sockets| >= |s.sockets|
    ensures var was, now := s.sockets[k], Do(s, step).sockets[k];
      if was.ready == Handshake && step == Opens(k) then now == Socket(Open, true)
      else if step == Closes(k) then now == Socket(Closed, was.wasOpen)
      else if was.ready != Closed && (step == Errors(k) || (step == Cleanup && !s.stopped)) then
        now == Socket(Closing, was.wasOpen)
      else now == was
  {
    assert Goes(s, Live(k)) <==> Current(s) == Some(Live(k));
  }

  /** A timer fires once, and the cleanup clears every timer that has not fired. */
  lemma TimerAfter(s: State, step: Step, t: nat)
    requires Inv(s) && t < |s.timers|
    ensures |Do(s, step).timers| >= |s.timers|
    ensures Do(s, step).timers[t] ==
            if s.timers[t] == Armed && step.Fires? && step.timer == t then Fired
            else if s.timers[t] == Armed && step == Cleanup && !s.stopped then Cleared
            else s.timers[t]
  {
    assert Goes(s, Pending(t)) <==> Current(s) == Some(Pending(t));
  }

  /** The attempt has failed or the connection has ended: the effect is to try again, unless it is cleaned up. */
  predicate Lost(s: State, step: Step) {
    match step
    case Answer(c, ok) => !s.stopped && c < |s.calls| && s.calls[c] == Ticket && !ok
    case Read(c, reading) => !s.stopped && c < |s.calls| && s.calls[c] == Body && reading != NoUrl && reading != Made
    case Closes(k) => !s.stopped && k < |s.sockets| && s.sockets[k].ready != Closed
    case _ => false
  }

  /** A wait begins, with a new timer, exactly when an attempt or a connection is lost. */
  lemma WaitsExactly(s: State, step: Step)
    requires Inv(s)
    ensures var t := Do(s, step);
      && t.timers[|s.timers|..] == (if Lost(s, step) then [Armed] else [])
      && |t.log| == |s.log| + (if |t.timers| > |s.timers| || OpensNow(s, step) then 1 else 0)
      && (|t.log| > |s.log| ==> t.log[..|s.log|] == s.log && (t.log[|s.log|] == Opened <==> OpensNow(s, step)))
      && (|t.log| == |s.log| ==> t.log == s.log)
  {
    match step {
      case Answer(c, _) => assert Goes(s, Calling(c)) <==> Current(s) == Some(Calling(c));
      case Read(c, _) => assert Goes(s, Calling(c)) <==> Current(s) == Some(Calling(c));
      case Closes(k) => assert Goes(s, Live(k)) <==> Current(s) == Some(Live(k));
      case _ =>
    }
  }

  predicate OpensNow(s: State, step: Step) {
    step.Opens? && step.socket < |s.sockets| && s.sockets[step.socket].ready == Handshake
  }

  /** A socket is made exactly from the body of a ticket response, and a ticket asked for exactly after a wait. */
  lemma AttemptsExactly(s: State, step: Step)
    requires Inv(s)
    ensures var t := Do(s, step);
      && t.sockets[|s.sockets|..] ==
         (if step.Read? && step.call < |s.calls| && s.calls[step.call] == Body && step.reading == Made && !s.stopped
          then [Socket(Handshake, false)] else [])
      && t.calls[|s.calls|..] ==
         (if step.Fires? && step.timer < |s.timers| && s.timers[step.timer] == Armed && step.hasToken
          then [Ticket] else [])
  {
    if step.Fires? { assert Goes(s, Pending(step.timer)) <==> Current(s) == Some(Pending(step.timer)); }
  }

  /** While an attempt or a wait goes on, the user is told "connecting" until the first loss, then "reconnecting". */
  lemma AttemptIsShownExactly(hasToken: bool, schedule: seq<Step>)
    ensures var s := Run(Mounted(hasToken), schedule);
      var trying := !s.stopped && Activities(s) != {} && !exists k | 0 <= k < |s.sockets| :: Lasts(s.sockets[k]);
      && (Last(s) == Connecting <==> trying && s.log == [])
      && (Last(s) == Reconnecting <==> trying && s.log != [])
  {
    var s := Run(Mounted(hasToken), schedule);
    MountKeepsInv(hasToken);
    RunKeepsInv(Mounted(hasToken), schedule);
    ActivitiesAre(s);
    ConnectedIsShownExactly(hasToken, schedule);
  }

  // ---------- the hook: effects that follow each other ----------

  /** When the resources change, the effect is cleaned up and a new one mounted; all share one shown state. */
  datatype Hook = Hook(effects: seq<State>, shown: Shown)

  datatype HookStep = Within(effect: nat, step: Step) | Remount(hasToken: bool)

  function HookDo(h: Hook, step: HookStep): Hook {
    match step
    case Within(i, inner) =>
      if i >= |h.effects| then h else
      var after := Do(h.effects[i], inner);
      Hook(h.effects[i := after], if |after.said| > |h.effects[i].said| then Last(after) else h.shown)
    case Remount(hasToken) =>
      if h.effects == [] then h else
      var last := |h.effects| - 1;
      Hook(h.effects[last := Do(h.effects[last], Cleanup)] + [Mounted(hasToken)], Last(Mounted(hasToken)))
  }

  function HookMounted(hasToken: bool): Hook { Hook([Mounted(hasToken)], Last(Mounted(hasToken))) }

  function HookRun(h: Hook, schedule: seq<HookStep>): Hook
    decreases |schedule|
  {
    if schedule == [] then h else HookRun(HookDo(h, schedule[0]), schedule[1..])
  }

  ghost predicate EffectFits(h: Hook, i: nat)
    requires i < |h.effects|
  {
    Inv(h.effects[i]) && (i < |h.effects| - 1 ==> h.effects[i].stopped)
  }

  /** Every effect keeps its invariant, and all but the last are cleaned up. */
  ghost predicate HookInv(h: Hook) {
    h.effects != [] && forall i: nat | i < |h.effects| :: EffectFits(h, i)
  }

  lemma HookStepKeepsInv(h: Hook, step: HookStep)
    requires HookInv(h)
    ensures HookInv(HookDo(h, step))
  {
    var after := HookDo(h, step);
    var last := |h.effects| - 1;
    if step.Remount? { MountKeepsInv(step.hasToken); }
    forall i: nat | i < |after.effects| ensures EffectFits(after, i) {
      if i <= last {
        assert EffectFits(h, i);
        StepKeepsInv(h.effects[i], if step.Within? then step.step else Cleanup);
      }
    }
  }

  lemma {:induction false} HookRunKeepsInv(h: Hook, schedule: seq<HookStep>)
    requires HookInv(h)
    ensures HookInv(HookRun(h, schedule))
    decreases |schedule|
  {
    if schedule != [] {
      HookStepKeepsInv(h, schedule[0]);
      HookRunKeepsInv(HookDo(h, schedule[0]), schedule[1..]);
    }
  }

  predicate Usable(h: Hook, i: nat, k: nat) {
    i < |h.effects| && k < |h.effects[i].sockets|
        && (h.effects[i].sockets[k].ready == Handshake || h.effects[i].sockets[k].ready == Open)
  }

  /** However often the effect was mounted, at most one socket is opening or open, and it is the last effect's. */
  lemma OneConnectionAcrossRemounts(hasToken: bool, schedule: seq<HookStep>, i: nat, k: nat, j: nat, l: nat)
    ensures var h := HookRun(HookMounted(hasToken), schedule);
      Usable(h, i, k) && Usable(h, j, l) ==> i == j == |h.effects| - 1 && k == l
  {
    var h := HookRun(HookMounted(hasToken), schedule);
    MountKeepsInv(hasToken);
    HookRunKeepsInv(HookMounted(hasToken), schedule);
    if Usable(h, i, k) && Usable(h, j, l) {
      assert EffectFits(h, i) && EffectFits(h, j);
      assert Goes(h.effects[i], Live(k)) && Goes(h.effects[j], Live(l));
    }
  }

  /** The close event of a socket that an earlier effect left behind, while the last effect shows something. */
  predicate LateClose(h: Hook, step: HookStep) {
    && step.Within? && step.effect < |h.effects| - 1 && step.step.Closes? && Enabled(h.effects[step.effect], step.step)
    && Last(h.effects[|h.effects| - 1]) != Disconnected
  }

  /** An effect that is cleaned up says nothing more, except "disconnected" when its socket closes. */
  lemma CleanedUpSays(s: State, step: Step)
    requires Inv(s) && s.stopped
    ensures Do(s, step).said == s.said + if step.Closes? && Enabled(s, step) then [Disconnected] else []
  {
    if Enabled(s, step) {
      assert Goes(s, Needs(step));
    }
  }

  /** An effect says at most one thing in a step. */
  lemma SaysAtMostOnce(s: State, step: Step)
    ensures Do(s, step).said == s.said || (|Do(s, step).said| == |s.said| + 1 && s.said == Do(s, step).said[..|s.said|])
  {
  }

  /** A step makes the shown state differ from the last effect's exactly if it is a late close. */
  lemma ShownExactly(h: Hook, step: HookStep)
    requires HookInv(h) && h.shown == Last(h.effects[|h.effects| - 1])
    ensures var after := HookDo(h, step);
      after.effects != [] && (after.shown == Last(after.effects[|after.effects| - 1]) <==> !LateClose(h, step))
  {
    if step.Within? && step.effect < |h.effects| {
      var s := h.effects[step.effect];
      assert EffectFits(h, step.effect);
      SaysAtMostOnce(s, step.step);
      if step.effect < |h.effects| - 1 { CleanedUpSays(s, step.step); }
    }
  }

  /** The step makes the last effect say something, or mounts a new one, which does. */
  predicate Speaks(h: Hook, step: HookStep) {
    if step.Remount? then h.effects != []
    else h.effects != [] && step.effect == |h.effects| - 1
         && |Do(h.effects[step.effect], step.step).said| > |h.effects[step.effect].said|
  }

  /**
   Whether a late close hides the state of the last effect after the schedule; `hidden` says whether one did before.
   */
  predicate Hidden(h: Hook, schedule: seq<HookStep>, hidden: bool)
    decreases |schedule|
  {
    if schedule == [] then hidden
    else Hidden(HookDo(h, schedule[0]), schedule[1..], LateClose(h, schedule[0]) || (hidden && !Speaks(h, schedule[0])))
  }

  ghost predicate ShownFits(h: Hook, hidden: bool) {
    h.effects != [] &&
    var last := Last(h.effects[|h.effects| - 1]);
    if hidden then h.shown == Disconnected && last != Disconnected else h.shown == last
  }

  lemma ShownStep(h: Hook, step: HookStep, hidden: bool)
    requires HookInv(h) && ShownFits(h, hidden)
    ensures ShownFits(HookDo(h, step), LateClose(h, step) || (hidden && !Speaks(h, step)))
  {
    if step.Within? && step.effect < |h.effects| {
      assert EffectFits(h, step.effect);
      SaysAtMostOnce(h.effects[step.effect], step.step);
      if step.effect < |h.effects| - 1 { CleanedUpSays(h.effects[step.effect], step.step); }
    }
  }

  lemma {:induction false} ShownRun(h: Hook, schedule: seq<HookStep>, hidden: bool)
    requires HookInv(h) && ShownFits(h, hidden)
    ensures ShownFits(HookRun(h, schedule), Hidden(h, schedule, hidden))
    decreases |schedule|
  {
    if schedule != [] {
      HookStepKeepsInv(h, schedule[0]);
      ShownStep(h, schedule[0], hidden);
      var after := LateClose(h, schedule[0]) || (hidden && !Speaks(h, schedule[0]));
      ShownRun(HookDo(h, schedule[0]), schedule[1..], after);
    }
  }

  /** No step of the schedule is a late close. */
  predicate NeverLate(h: Hook, schedule: seq<HookStep>)
    decreases |schedule|
  {
    schedule == [] || (!LateClose(h, schedule[0]) && NeverLate(HookDo(h, schedule[0]), schedule[1..]))
  }

  /** Without a late close nothing is ever hidden. */
  lemma {:induction false} NeverLateNeverHidden(h: Hook, schedule: seq<HookStep>)
    requires NeverLate(h, schedule)
    ensures !Hidden(h, schedule, false)
    decreases |schedule|
  {
    if schedule != [] { NeverLateNeverHidden(HookDo(h, schedule[0]), schedule[1..]); }
  }

  /**
   Over every run of the hook: what is shown is the state of the last effect, exactly unless there was a late
   close since that effect spoke last; and then it is "disconnected".
   */
  lemma ShownOverRuns(hasToken: bool, schedule: seq<HookStep>)
    ensures var h := HookRun(HookMounted(hasToken), schedule);
      && h.effects != []
      && (h.shown == Last(h.effects[|h.effects| - 1]) <==> !Hidden(HookMounted(hasToken), schedule, false))
      && (Hidden(HookMounted(hasToken), schedule, false) ==> h.shown == Disconnected)
      && (NeverLate(HookMounted(hasToken), schedule) ==> h.shown == Last(h.effects[|h.effects| - 1]))
  {
    if NeverLate(HookMounted(hasToken), schedule) { NeverLateNeverHidden(HookMounted(hasToken), schedule); }
    MountKeepsInv(hasToken);
    ShownRun(HookMounted(hasToken), schedule, false);
  }

  lemma FirstStep(h: Hook, step: HookStep, rest: seq<HookStep>)
    ensures HookRun(h, [step] + rest) == HookRun(HookDo(h, step), rest)
  {
    assert ([step] + rest)[1..] == rest;
  }

  /** An effect that has its connection at the first attempt. */
  const CONNECTED :=
    State([Over], [Socket(Open, true)], [], Some(0), None, false, FIRST_WAIT, [Connecting, Connected], [Opened])

  /** The steps by which a mounted effect gets its connection. */
  lemma Connects(h: Hook, i: nat, rest: seq<HookStep>)
    requires i < |h.effects| && h.effects[i] == Mounted(true)
    ensures HookRun(h, [Within(i, Answer(0, true)), Within(i, Read(0, Made)), Within(i, Opens(0))] + rest)
        == HookRun(Hook(h.effects[i := CONNECTED], Connected), rest)
  {
    var one, two, three := Within(i, Answer(0, true)), Within(i, Read(0, Made)), Within(i, Opens(0));
    var h1 := HookDo(h, one);
    var h2 := HookDo(h1, two);
    assert h1.effects[i] == Mounted(true).(calls := [Body]);
    assert h2.effects[i] == Mounted(true).(calls := [Over], sockets := [Socket(Handshake, false)], socket := Some(0));
    assert Do(h2.effects[i], Opens(0)) == CONNECTED;
    assert HookDo(h2, three).effects == h.effects[i := CONNECTED];
    FirstStep(h, one, [two, three] + rest);
    FirstStep(h1, two, [three] + rest);
    FirstStep(h2, three, rest);
    assert [one, two, three] + rest == [one] + ([two, three] + rest) && [two, three] + rest == [two] + ([three] + rest);
  }

  /** With one late close the user is told that the connection is off although it is open. */
  lemma LateCloseHidesTheConnection()
    ensures exists schedule :: var h := HookRun(HookMounted(true), schedule);
      h.shown == Disconnected && h.effects != [] && Last(h.effects[|h.effects| - 1]) == Connected
  {
    var late := [Within(0, Closes(0))];
    var again := [Within(1, Answer(0, true)), Within(1, Read(0, Made)), Within(1, Opens(0))] + late;
    Connects(HookMounted(true), 0, [Remount(true)] + again);
    assert HookMounted(true).effects[0 := CONNECTED] == [CONNECTED];
    ConnectsAgain(late);
    TheLateClose();
  }

  lemma ConnectsAgain(rest: seq<HookStep>)
    ensures HookRun(Hook([CONNECTED], Connected),
                    [Remount(true)]
                    + ([Within(1, Answer(0, true)), Within(1, Read(0, Made)), Within(1, Opens(0))] + rest))
            == HookRun(Hook([Do(CONNECTED, Cleanup), CONNECTED], Connected), rest)
  {
    var h := Hook([CONNECTED], Connected);
    FirstStep(h, Remount(true), [Within(1, Answer(0, true)), Within(1, Read(0, Made)), Within(1, Opens(0))] + rest);
    Connects(HookDo(h, Remount(true)), 1, rest);
    assert HookDo(h, Remount(true)).effects[1 := CONNECTED] == [Do(CONNECTED, Cleanup), CONNECTED];
  }

  lemma TheLateClose()
    ensures var h := HookRun(Hook([Do(CONNECTED, Cleanup), CONNECTED], Connected), [Within(0, Closes(0))]);
      h.shown == Disconnected && |h.effects| == 2 && Last(h.effects[1]) == Connected
  {
    FirstStep(Hook([Do(CONNECTED, Cleanup), CONNECTED], Connected), Within(0, Closes(0)), []);
    assert [Within(0, Closes(0))] == [Within(0, Closes(0))] + [];
  }

  // ---------- the effect with its closure variables ----------

  class RealtimeEffect {
    var calls: seq<Call>
    var sockets: seq<Socket>
    var timers: seq<Timer>
    var socket: Option<nat>
    var reconnectTimer: Option<nat>
    var stopped: bool
    var retryDelay: nat
    var said: seq<Shown>
    var log: seq<Event>

    ghost function View(): State
      reads this
    {
      State(calls, sockets, timers, socket, reconnectTimer, stopped, retryDelay, said, log)
    }

    constructor (hasToken: bool)
      ensures View() == Mounted(hasToken) && Inv(View())
    {
      calls, sockets, timers, said, log := [], [], [], [], [];
      socket, reconnectTimer, stopped, retryDelay := None, None, false, FIRST_WAIT;
      new;
      MountKeepsInv(hasToken);
      Connect(hasToken);
    }

    method ScheduleReconnect()
      modifies this
      ensures View() == Scheduled(old(View()))
    {
      if stopped || reconnectTimer.Some? { return; }
      said := said + [Reconnecting];
      reconnectTimer := Some(|timers|);
      timers := timers + [Armed];
      log := log + [Waiting(retryDelay)];
      retryDelay := Min(retryDelay * 2, LONGEST_WAIT);
    }

    method Connect(hasToken: bool)
      modifies this
      ensures View() == Started(old(View()), hasToken)
    {
      if stopped { return; }
      if !hasToken {
        said := said + [Disconnected];
        return;
      }
      said := said + [if retryDelay > FIRST_WAIT then Reconnecting else Connecting];
      calls := calls + [Ticket];
    }

    /** The ticket response arrives, or the request fails. */
    method OnTicketResponse(c: nat, ok: bool)
      requires Inv(View()) && Enabled(View(), Answer(c, ok))
      modifies this
      ensures View() == Do(old(View()), Answer(c, ok)) && Inv(View())
    {
      StepKeepsInv(View(), Answer(c, ok));
      calls := calls[c := if ok then Body else Over];
      if !ok { ScheduleReconnect(); }
    }

    /** The body of the ticket response arrives, or cannot be read. */
    method OnTicketBody(c: nat, reading: Reading)
      requires Inv(View()) && Enabled(View(), Read(c, reading))
      modifies this
      ensures View() == Do(old(View()), Read(c, reading)) && Inv(View())
    {
      StepKeepsInv(View(), Read(c, reading));
      calls := calls[c := Over];
      if reading == Unreadable {
        ScheduleReconnect();
        return;
      }
      if stopped { return; }
      if reading == NoUrl {
        said := said + [Disconnected];
      } else if reading == Made {
        socket := Some(|sockets|);
        sockets := sockets + [Socket(Handshake, false)];
      } else {
        ScheduleReconnect();
      }
    }

    method OnOpen(k: nat)
      requires Inv(View()) && Enabled(View(), Opens(k))
      modifies this
      ensures View() == Do(old(View()), Opens(k)) && Inv(View())
    {
      StepKeepsInv(View(), Opens(k));
      sockets := sockets[k := Socket(Open, true)];
      retryDelay := FIRST_WAIT;
      said := said + [Connected];
      log := log + [Opened];
    }

    method OnError(k: nat)
      requires Inv(View()) && Enabled(View(), Errors(k))
      modifies this
      ensures View() == Do(old(View()), Errors(k)) && Inv(View())
    {
      StepKeepsInv(View(), Errors(k));
      sockets := CloseCalled(sockets, k);
    }

    method OnClose(k: nat)
      requires Inv(View()) && Enabled(View(), Closes(k))
      modifies this
      ensures View() == Do(old(View()), Closes(k)) && Inv(View())
    {
      StepKeepsInv(View(), Closes(k));
      sockets := sockets[k := sockets[k].(ready := Closed)];
      if socket == Some(k) { socket := None; }
      if stopped {
        said := said + [Disconnected];
        return;
      }
      ScheduleReconnect();
    }

    /** The timer callback that `scheduleReconnect` passes to setTimeout. */
    method OnTimer(t: nat, hasToken: bool)
      requires Inv(View()) && Enabled(View(), Fires(t, hasToken))
      modifies this
      ensures View() == Do(old(View()), Fires(t, hasToken)) && Inv(View())
    {
      StepKeepsInv(View(), Fires(t, hasToken));
      timers := timers[t := Fired];
      reconnectTimer := None;
      Connect(hasToken);
    }

    /** The function that the effect returns. */
    method CleanUp()
      requires Inv(View()) && !stopped
      modifies this
      ensures View() == Do(old(View()), Cleanup) && Inv(View())
    {
      StepKeepsInv(View(), Cleanup);
      stopped := true;
      said := said + [Disconnected];
      if reconnectTimer.Some? { timers := TimerCleared(timers, reconnectTimer.value); }
      if socket.Some? { sockets := CloseCalled(sockets, socket.value); }
    }
  }
}
