/**
 The per-conversation write lock: a map from conversation to the promise of the
 last call that asked for it. A call waits for the promise it found there,
 reads the record, computes the new version, writes it, and settles its own
 promise. Every `await` is a step boundary, and a schedule is any list of steps.
 The promise created by a call is named by the call itself; `calls` lists the
 calls in the order they arrived.
 */
module WriteLock {
  import opened Wrappers
  import opened Notes

  type ConversationId = string
  type CallId = nat

  /** How a call ends; Failed is a storage or decryption error. */
  datatype Ending = Wrote(note: Note) | ReturnedNull | Threw | Failed

  datatype Phase =
    | Waiting(previous: Option<CallId>)
    | Reading                      // the write has started, the record is not read yet
    | Loaded(existing: Option<Note>)
    | Writing(updated: Note)
    | Closing(ending: Ending)      // the write is over, `finally` has not run
    | Settled(ending: Ending)      // the promise is resolved

  datatype Call = Call(conversation: ConversationId, change: Change, phase: Phase) {
    predicate Active() { !phase.Waiting? && !phase.Settled? }

    predicate Committed() { (phase.Closing? || phase.Settled?) && phase.ending.Wrote? }
  }

  datatype State = State(
    calls: seq<Call>,
    queues: map<ConversationId, CallId>,
    records: map<ConversationId, Note>)

  datatype Step =
    | Arrive(conversation: ConversationId, change: Change)
    | Enter(call: CallId)
    | Read(call: CallId, ok: bool)
    | Compute(call: CallId, ok: bool)   // not ok: decryption failed
    | Write(call: CallId, ok: bool)
    | Finish(call: CallId)

  function NextPhase(s: State, i: CallId, phase: Phase): State
    requires i < |s.calls|
  {
    s.(calls := s.calls[i := s.calls[i].(phase := phase)])
  }

  function Ended(outcome: Outcome): Phase {
    match outcome
    case Stored(note) => Writing(note)
    case Refused => Closing(ReturnedNull)
    case Thrown => Closing(Threw)
  }

  predicate Resolved(s: State, promise: Option<CallId>) {
    promise.None? || (promise.value < |s.calls| && s.calls[promise.value].phase.Settled?)
  }

  predicate Enabled(s: State, step: Step) {
    step.Arrive? || (step.call < |s.calls| &&
      var phase := s.calls[step.call].phase;
      match step
      case Enter(_) => phase.Waiting? && Resolved(s, phase.previous)
      case Read(_, _) => phase.Reading?
      case Compute(_, _) => phase.Loaded?
      case Write(_, _) => phase.Writing?
      case Finish(_) => phase.Closing?)
  }

  /** One step of the schedule; a step that is not possible changes nothing. */
  function Do(s: State, step: Step): State {
    if !Enabled(s, step) then s else
    match step
    case Arrive(k, change) =>
      State(s.calls + [Call(k, change, Waiting(Get(s.queues, k)))], s.queues[k := |s.calls|], s.records)
    case Enter(i) => NextPhase(s, i, Reading)
    case Read(i, ok) => NextPhase(s, i, if ok then Loaded(Get(s.records, s.calls[i].conversation)) else Closing(Failed))
    case Compute(i, ok) =>
      NextPhase(s, i, if ok then Ended(Apply(s.calls[i].phase.existing, s.calls[i].change)) else Closing(Failed))
    case Write(i, ok) =>
      var note := s.calls[i].phase.updated;
      if ok then NextPhase(s, i, Closing(Wrote(note))).(records := s.records[s.calls[i].conversation := note])
      else NextPhase(s, i, Closing(Failed))
    case Finish(i) =>
      var k := s.calls[i].conversation;
      NextPhase(s, i, Settled(s.calls[i].phase.ending)).(
        queues := if Get(s.queues, k) == Some(i) then s.queues - {k} else s.queues)
  }

  function Initial(records: map<ConversationId, Note>): State { State([], map[], records) }

  function Run(s: State, schedule: seq<Step>): State
    decreases |schedule|
  {
    if schedule == [] then s else Do(Run(s, schedule[..|schedule| - 1]), schedule[|schedule| - 1])
  }

  // ---------- the sequential reference ----------

  /** The changes that were written to conversation `k` by the first `n` calls, in arrival order. */
  function Committed(calls: seq<Call>, n: nat, k: ConversationId): seq<Change>
    requires n <= |calls|
  {
    if n == 0 then []
    else Committed(calls, n - 1, k)
         + (if calls[n - 1].conversation == k && calls[n - 1].Committed() then [calls[n - 1].change] else [])
  }

  /** The record of `k` when the first `n` calls have run one after the other. */
  function Sequential(calls: seq<Call>, n: nat, k: ConversationId, start: Option<Note>): Option<Note>
    requires n <= |calls|
  {
    Fold(start, Committed(calls, n, k))
  }

  /** What the sequential run would have given the call, unless storage failed. */
  predicate Explained(ending: Ending, change: Change, before: Option<Note>) {
    match ending
    case Wrote(note) => Apply(before, change) == Stored(note)
    case ReturnedNull => Apply(before, change) == Refused
    case Threw => Apply(before, change) == Thrown
    case Failed => true
  }

  // ---------- invariant ----------

  ghost predicate NoneBetween(calls: seq<Call>, low: int, high: nat, k: ConversationId)
    requires -1 <= low && high <= |calls|
  {
    forall j | low < j < high :: calls[j].conversation != k
  }

  ghost predicate AllSettled(calls: seq<Call>, n: nat, k: ConversationId)
    requires n <= |calls|
  {
    forall j | 0 <= j < n && calls[j].conversation == k :: calls[j].phase.Settled?
  }

  /** A waiting call waits for the call just before it on its conversation; any other call comes after settled ones. */
  ghost predicate OrderedAt(calls: seq<Call>, i: nat)
    requires i < |calls|
  {
    var c := calls[i];
    if c.phase.Waiting? && c.phase.previous.Some? then
      var p := c.phase.previous.value;
      p < i && calls[p].conversation == c.conversation && NoneBetween(calls, p, i, c.conversation)
    else AllSettled(calls, i, c.conversation)
  }

  ghost predicate Ordered(calls: seq<Call>) {
    forall i: nat | i < |calls| :: OrderedAt(calls, i)
  }

  /** If the map holds `k`, it holds its last call, which is not settled; if not, every call on `k` is settled. */
  ghost predicate QueueExact(s: State, k: ConversationId) {
    if k in s.queues then
      var q := s.queues[k];
      && q < |s.calls| && s.calls[q].conversation == k && !s.calls[q].phase.Settled?
      && NoneBetween(s.calls, q, |s.calls|, k)
    else AllSettled(s.calls, |s.calls|, k)
  }

  /** What a call holds is what the sequential run gives it at its turn. */
  predicate Fits(c: Call, before: Option<Note>) {
    match c.phase
    case Waiting(_) => true
    case Reading => true
    case Loaded(existing) => existing == before
    case Writing(note) => Apply(before, c.change) == Stored(note)
    case Closing(ending) => Explained(ending, c.change, before)
    case Settled(ending) => Explained(ending, c.change, before)
  }

  ghost predicate CoherentAt(calls: seq<Call>, i: nat, start: map<ConversationId, Note>)
    requires i < |calls|
  {
    Fits(calls[i], Sequential(calls, i, calls[i].conversation, Get(start, calls[i].conversation)))
  }

  ghost predicate RecordExact(s: State, k: ConversationId, start: map<ConversationId, Note>) {
    Get(s.records, k) == Sequential(s.calls, |s.calls|, k, Get(start, k))
  }

  ghost predicate Inv(s: State, start: map<ConversationId, Note>) {
    && Ordered(s.calls)
    && (forall k :: QueueExact(s, k))
    && (forall i: nat | i < |s.calls| :: CoherentAt(s.calls, i, start))
    && (forall k :: RecordExact(s, k, start))
  }

  // ---------- the sequential reference under a step ----------

  /** Only the conversation, the change and the committed bit of each call on `k` matter. */
  lemma {:induction false} CommittedFrame(a: seq<Call>, b: seq<Call>, n: nat, k: ConversationId)
    requires n <= |a| && n <= |b|
    requires forall j | 0 <= j < n :: a[j].conversation == b[j].conversation && a[j].change == b[j].change
                                      && (a[j].conversation == k ==> a[j].Committed() == b[j].Committed())
    ensures Committed(a, n, k) == Committed(b, n, k)
  {
    if n > 0 { CommittedFrame(a, b, n - 1, k); }
  }

  /** Calls on `k` that have not committed add nothing. */
  lemma {:induction false} CommittedStops(calls: seq<Call>, m: nat, n: nat, k: ConversationId)
    requires m <= n <= |calls|
    requires forall j | m <= j < n && calls[j].conversation == k :: !calls[j].Committed()
    ensures Committed(calls, n, k) == Committed(calls, m, k)
  {
    if m < n { CommittedStops(calls, m, n - 1, k); }
  }

  /** Behind an unsettled call, every call on its conversation still waits. */
  lemma LaterWait(calls: seq<Call>, i: nat, j: nat)
    requires Ordered(calls) && i < j < |calls| && !calls[i].phase.Settled?
    requires calls[j].conversation == calls[i].conversation
    ensures calls[j].phase.Waiting?
  {
    assert OrderedAt(calls, j);
  }

  /** Before the turn of a call that may move, everything on its conversation is settled. */
  lemma EarlierSettled(s: State, i: CallId)
    requires Ordered(s.calls) && i < |s.calls|
    requires s.calls[i].phase.Waiting? ==> Resolved(s, s.calls[i].phase.previous)
    ensures AllSettled(s.calls, i, s.calls[i].conversation)
  {
    assert OrderedAt(s.calls, i);
    if s.calls[i].phase.Waiting? && s.calls[i].phase.previous.Some? {
      assert OrderedAt(s.calls, s.calls[i].phase.previous.value);
    }
  }

  /** While call `i` runs and has not written, the record is the sequential one as of its turn. */
  lemma TurnRecord(s: State, i: CallId, start: map<ConversationId, Note>)
    requires Inv(s, start) && i < |s.calls| && s.calls[i].Active() && !s.calls[i].Committed()
    ensures var k := s.calls[i].conversation;
      Get(s.records, k) == Sequential(s.calls, i, k, Get(start, k))
  {
    var k := s.calls[i].conversation;
    assert RecordExact(s, k, start);
    forall j | i <= j < |s.calls| && s.calls[j].conversation == k ensures !s.calls[j].Committed() {
      if i < j { LaterWait(s.calls, i, j); }
    }
    CommittedStops(s.calls, i, |s.calls|, k);
  }

  // ---------- every step keeps the invariant ----------

  /** Call `i`, whose turn it is, moves to another phase. */
  ghost predicate Moves(s: State, phase: Phase, i: CallId) {
    && i < |s.calls| && !s.calls[i].phase.Settled? && !phase.Waiting?
    && (s.calls[i].phase.Waiting? ==> Resolved(s, s.calls[i].phase.previous))
  }

  lemma MoveOrdered(s: State, phase: Phase, i: CallId)
    requires Ordered(s.calls) && Moves(s, phase, i)
    ensures Ordered(NextPhase(s, i, phase).calls)
  {
    var t := NextPhase(s, i, phase).calls;
    EarlierSettled(s, i);
    forall j: nat | j < |t| ensures OrderedAt(t, j) {
      assert OrderedAt(s.calls, j);
      if j > i && s.calls[j].conversation == s.calls[i].conversation { LaterWait(s.calls, i, j); }
    }
  }

  lemma MoveQueue(s: State, phase: Phase, i: CallId, k: ConversationId)
    requires Ordered(s.calls) && Moves(s, phase, i) && QueueExact(s, k) && !phase.Settled?
    ensures QueueExact(NextPhase(s, i, phase), k)
  {
  }

  lemma FinishQueue(s: State, i: CallId, k: ConversationId)
    requires Ordered(s.calls) && i < |s.calls| && s.calls[i].phase.Closing?
    requires QueueExact(s, k) && QueueExact(s, s.calls[i].conversation)
    ensures QueueExact(Do(s, Finish(i)), k)
  {
    EarlierSettled(s, i);
  }

  /** A move that leaves the records and the committed calls alone keeps the sequential part of the invariant. */
  lemma QuietMove(s: State, phase: Phase, i: CallId, start: map<ConversationId, Note>)
    requires Inv(s, start) && Moves(s, phase, i)
    requires s.calls[i].Committed() == s.calls[i].(phase := phase).Committed()
    requires Fits(s.calls[i].(phase := phase),
                  Sequential(s.calls, i, s.calls[i].conversation, Get(start, s.calls[i].conversation)))
    ensures forall j: nat | j < |s.calls| :: CoherentAt(NextPhase(s, i, phase).calls, j, start)
    ensures forall k :: RecordExact(NextPhase(s, i, phase), k, start)
  {
    var t := NextPhase(s, i, phase);
    forall j: nat | j < |s.calls| ensures CoherentAt(t.calls, j, start) {
      assert CoherentAt(s.calls, j, start);
      CommittedFrame(t.calls, s.calls, j, s.calls[j].conversation);
    }
    forall k ensures RecordExact(t, k, start) {
      assert RecordExact(s, k, start);
      CommittedFrame(t.calls, s.calls, |s.calls|, k);
    }
  }

  lemma QuietMoveKeepsInv(s: State, phase: Phase, i: CallId, start: map<ConversationId, Note>)
    requires Inv(s, start) && Moves(s, phase, i) && !phase.Settled?
    requires !s.calls[i].Committed() && !s.calls[i].(phase := phase).Committed()
    requires Fits(s.calls[i].(phase := phase),
                  Sequential(s.calls, i, s.calls[i].conversation, Get(start, s.calls[i].conversation)))
    ensures Inv(NextPhase(s, i, phase), start)
  {
    MoveOrdered(s, phase, i);
    QuietMove(s, phase, i, start);
    forall k ensures QueueExact(NextPhase(s, i, phase), k) { MoveQueue(s, phase, i, k); }
  }

  lemma FinishKeepsInv(s: State, i: CallId, start: map<ConversationId, Note>)
    requires Inv(s, start) && i < |s.calls| && s.calls[i].phase.Closing?
    ensures Inv(Do(s, Finish(i)), start)
  {
    var phase := Settled(s.calls[i].phase.ending);
    var t := Do(s, Finish(i));
    MoveOrdered(s, phase, i);
    assert CoherentAt(s.calls, i, start);
    QuietMove(s, phase, i, start);
    assert t.calls == NextPhase(s, i, phase).calls && t.records == s.records;
    forall k ensures RecordExact(t, k, start) { assert RecordExact(NextPhase(s, i, phase), k, start); }
    forall k ensures QueueExact(t, k) { FinishQueue(s, i, k); }
  }

  /** A successful write is the next step of the sequential run. */
  lemma WriteKeepsInv(s: State, i: CallId, start: map<ConversationId, Note>)
    requires Inv(s, start) && i < |s.calls| && s.calls[i].phase.Writing?
    ensures Inv(Do(s, Write(i, true)), start)
  {
    var k := s.calls[i].conversation;
    var phase := Closing(Wrote(s.calls[i].phase.updated));
    var t := Do(s, Write(i, true));
    MoveOrdered(s, phase, i);
    forall c ensures QueueExact(t, c) { MoveQueue(s, phase, i, c); assert QueueExact(NextPhase(s, i, phase), c); }
    forall j: nat | j < |s.calls| ensures CoherentAt(t.calls, j, start) {
      assert CoherentAt(s.calls, j, start);
      if s.calls[j].conversation == k && i < j {
        LaterWait(s.calls, i, j);
      } else {
        CommittedFrame(t.calls, s.calls, j, s.calls[j].conversation);
      }
    }
    forall c ensures RecordExact(t, c, start) {
      assert RecordExact(s, c, start);
      if c != k { CommittedFrame(t.calls, s.calls, |s.calls|, c); } else { WriteIsNext(s, i, start); }
    }
  }

  /** The write adds the change of the call to the committed ones; calls behind it still wait. */
  lemma WriteCommits(s: State, i: CallId)
    requires Ordered(s.calls) && i < |s.calls| && s.calls[i].phase.Writing?
    ensures var k, t := s.calls[i].conversation, Do(s, Write(i, true));
      Committed(t.calls, |t.calls|, k) == Committed(s.calls, i, k) + [s.calls[i].change]
  {
    var k, t := s.calls[i].conversation, Do(s, Write(i, true)).calls;
    forall j | i < j < |t| && t[j].conversation == k ensures !t[j].Committed() {
      LaterWait(s.calls, i, j);
    }
    CommittedStops(t, i + 1, |t|, k);
    CommittedFrame(t, s.calls, i, k);
  }

  lemma WriteIsNext(s: State, i: CallId, start: map<ConversationId, Note>)
    requires Inv(s, start) && i < |s.calls| && s.calls[i].phase.Writing?
    ensures RecordExact(Do(s, Write(i, true)), s.calls[i].conversation, start)
  {
    var k := s.calls[i].conversation;
    WriteCommits(s, i);
    assert CoherentAt(s.calls, i, start);
    WrittenNote(Get(start, k), Committed(s.calls, i, k), s.calls[i].change, s.calls[i].phase.updated);
  }

  lemma WrittenNote(note: Option<Note>, changes: seq<Change>, c: Change, written: Note)
    requires Apply(Fold(note, changes), c) == Stored(written)
    ensures Fold(note, changes + [c]) == Some(written)
  {
    assert (changes + [c])[..|changes|] == changes;
  }

  lemma ArriveOrdered(s: State, k: ConversationId, change: Change)
    requires Ordered(s.calls) && QueueExact(s, k)
    ensures Ordered(Do(s, Arrive(k, change)).calls)
  {
    var t := Do(s, Arrive(k, change)).calls;
    assert forall j | 0 <= j < |s.calls| :: t[j] == s.calls[j];
    forall j: nat | j < |t| ensures OrderedAt(t, j) {
      if j < |s.calls| { assert OrderedAt(s.calls, j); }
    }
  }

  lemma ArriveQueue(s: State, k: ConversationId, change: Change, c: ConversationId)
    requires QueueExact(s, c)
    ensures QueueExact(Do(s, Arrive(k, change)), c)
  {
    var t := Do(s, Arrive(k, change)).calls;
    assert forall j | 0 <= j < |s.calls| :: t[j] == s.calls[j];
  }

  lemma ArriveRecord(s: State, k: ConversationId, change: Change, c: ConversationId, start: map<ConversationId, Note>)
    requires RecordExact(s, c, start)
    ensures RecordExact(Do(s, Arrive(k, change)), c, start)
  {
    var t := Do(s, Arrive(k, change)).calls;
    CommittedFrame(t, s.calls, |s.calls|, c);
    CommittedStops(t, |s.calls|, |t|, c);
  }

  lemma ArriveCoherent(s: State, k: ConversationId, change: Change, j: nat, start: map<ConversationId, Note>)
    requires j < |s.calls| && CoherentAt(s.calls, j, start)
    ensures CoherentAt(Do(s, Arrive(k, change)).calls, j, start)
  {
    CommittedFrame(Do(s, Arrive(k, change)).calls, s.calls, j, s.calls[j].conversation);
  }

  lemma ArriveKeepsInv(s: State, k: ConversationId, change: Change, start: map<ConversationId, Note>)
    requires Inv(s, start)
    ensures Inv(Do(s, Arrive(k, change)), start)
  {
    var t := Do(s, Arrive(k, change));
    ArriveOrdered(s, k, change);
    forall j: nat | j < |t.calls| ensures CoherentAt(t.calls, j, start) {
      if j < |s.calls| { ArriveCoherent(s, k, change, j, start); }
    }
    forall c ensures QueueExact(t, c) { ArriveQueue(s, k, change, c); }
    forall c ensures RecordExact(t, c, start) { ArriveRecord(s, k, change, c, start); }
  }

  lemma StepKeepsInv(s: State, step: Step, start: map<ConversationId, Note>)
    requires Inv(s, start)
    ensures Inv(Do(s, step), start)
  {
    if Enabled(s, step) {
      if !step.Arrive? { assert CoherentAt(s.calls, step.call, start); }
      match step
      case Arrive(k, change) => ArriveKeepsInv(s, k, change, start);
      case Enter(i) => QuietMoveKeepsInv(s, Reading, i, start);
      case Read(i, ok) =>
        TurnRecord(s, i, start);
        QuietMoveKeepsInv(s, if ok then Loaded(Get(s.records, s.calls[i].conversation)) else Closing(Failed), i, start);
      case Compute(i, ok) =>
        var c := s.calls[i];
        QuietMoveKeepsInv(s, if ok then Ended(Apply(c.phase.existing, c.change)) else Closing(Failed), i, start);
      case Write(i, ok) =>
        if ok { WriteKeepsInv(s, i, start); } else { QuietMoveKeepsInv(s, Closing(Failed), i, start); }
      case Finish(i) => FinishKeepsInv(s, i, start);
    }
  }

  /** The invariant holds at every point of every schedule. */
  lemma {:induction false} RunKeepsInv(schedule: seq<Step>, start: map<ConversationId, Note>)
    ensures Inv(Run(Initial(start), schedule), start)
  {
    if schedule != [] {
      RunKeepsInv(schedule[..|schedule| - 1], start);
      StepKeepsInv(Run(Initial(start), schedule[..|schedule| - 1]), schedule[|schedule| - 1], start);
    } else {
      forall k ensures RecordExact(Initial(start), k, start) { }
    }
  }

  // ---------- what every schedule guarantees ----------

  /** At most one call per conversation is between its start and its end, and calls start in arrival order. */
  lemma MutualExclusion(schedule: seq<Step>, start: map<ConversationId, Note>, i: CallId, j: CallId)
    requires i < j < |Run(Initial(start), schedule).calls|
    requires var s := Run(Initial(start), schedule); s.calls[i].conversation == s.calls[j].conversation
    ensures var s := Run(Initial(start), schedule);
      && !(s.calls[i].Active() && s.calls[j].Active())
      && (!s.calls[j].phase.Waiting? ==> s.calls[i].phase.Settled?)
  {
    RunKeepsInv(schedule, start);
    assert OrderedAt(Run(Initial(start), schedule).calls, j);
  }

  /**
   No update is lost: the record of a conversation is what its written changes
   give when applied one after the other in arrival order, and every call that
   has ended without a storage error ended as it would have at its turn.
   */
  lemma NoLostUpdate(schedule: seq<Step>, start: map<ConversationId, Note>, k: ConversationId)
    ensures var s := Run(Initial(start), schedule);
      && Get(s.records, k) == Fold(Get(start, k), Committed(s.calls, |s.calls|, k))
      && forall i: nat | i < |s.calls| && s.calls[i].conversation == k && s.calls[i].phase.Settled? ::
           Explained(s.calls[i].phase.ending, s.calls[i].change, Fold(Get(start, k), Committed(s.calls, i, k)))
  {
    RunKeepsInv(schedule, start);
    var s := Run(Initial(start), schedule);
    assert RecordExact(s, k, start);
    forall i: nat | i < |s.calls| && s.calls[i].conversation == k && s.calls[i].phase.Settled?
      ensures Explained(s.calls[i].phase.ending, s.calls[i].change, Fold(Get(start, k), Committed(s.calls, i, k)))
    {
      assert CoherentAt(s.calls, i, start);
    }
  }

  /**
   Concurrent appends to one note: whatever the interleaving, the text is the written additions joined in arrival order.
   */
  lemma ConcurrentAppendsAddUp(schedule: seq<Step>, start: map<ConversationId, Note>, k: ConversationId)
    requires k in start
    requires forall c | c in Run(Initial(start), schedule).calls && c.conversation == k :: PlainAppend(c.change)
    requires var s := Run(Initial(start), schedule); AcceptedParts(start[k], Committed(s.calls, |s.calls|, k)) != []
    ensures var s := Run(Initial(start), schedule);
      && k in s.records
      && s.records[k].contentHtml ==
           Some(Join(OriginalPart(start[k]) + AcceptedParts(start[k], Committed(s.calls, |s.calls|, k))))
  {
    var s := Run(Initial(start), schedule);
    NoLostUpdate(schedule, start, k);
    CommittedAreAppends(s.calls, |s.calls|, k);
    AppendsContent(start[k], Committed(s.calls, |s.calls|, k));
  }

  lemma {:induction false} CommittedAreAppends(calls: seq<Call>, n: nat, k: ConversationId)
    requires n <= |calls| && forall c | c in calls && c.conversation == k :: PlainAppend(c.change)
    ensures forall d | d in Committed(calls, n, k) :: PlainAppend(d)
  {
    if n > 0 { CommittedAreAppends(calls, n - 1, k); }
  }

  /** The queue map has a key exactly while some call on that conversation is pending. */
  lemma QueueKeyMeansPending(schedule: seq<Step>, start: map<ConversationId, Note>, k: ConversationId)
    ensures var s := Run(Initial(start), schedule);
      k in s.queues <==> exists i: nat :: i < |s.calls| && s.calls[i].conversation == k && !s.calls[i].phase.Settled?
  {
    RunKeepsInv(schedule, start);
    assert QueueExact(Run(Initial(start), schedule), k);
  }

  // ---------- every queued call gets its turn ----------

  function Rank(phase: Phase): nat {
    match phase
    case Waiting(_) => 5
    case Reading => 4
    case Loaded(_) => 3
    case Writing(_) => 2
    case Closing(_) => 1
    case Settled(_) => 0
  }

  /** The steps still to be taken by the first `n` calls on `k`. */
  function WorkAhead(calls: seq<Call>, n: nat, k: ConversationId): nat
    requires n <= |calls|
  {
    if n == 0 then 0
    else WorkAhead(calls, n - 1, k) + if calls[n - 1].conversation == k then Rank(calls[n - 1].phase) else 0
  }

  lemma {:induction false} WorkAheadFrame(a: seq<Call>, b: seq<Call>, n: nat, k: ConversationId, i: nat)
    requires n <= |a| && n <= |b| && i < |a| && i < |b|
    requires forall j | 0 <= j < n && j != i :: a[j] == b[j]
    requires a[i].conversation == b[i].conversation
    requires a[i].conversation == k && i < n ==> Rank(b[i].phase) < Rank(a[i].phase)
    ensures WorkAhead(b, n, k) <= WorkAhead(a, n, k)
    ensures i >= n || a[i].conversation != k ==> WorkAhead(b, n, k) == WorkAhead(a, n, k)
    ensures i < n && a[i].conversation == k ==> WorkAhead(b, n, k) < WorkAhead(a, n, k)
  {
    if n > 0 { WorkAheadFrame(a, b, n - 1, k, i); }
  }

  /** No step, not even a new arrival, adds to the work ahead of a call; a step of its own queue takes some away. */
  lemma StepsNeverAddWork(s: State, step: Step, i: CallId)
    requires i < |s.calls|
    ensures i < |Do(s, step).calls|
    ensures WorkAhead(Do(s, step).calls, i + 1, s.calls[i].conversation) <=
            WorkAhead(s.calls, i + 1, s.calls[i].conversation)
    ensures
      && Enabled(s, step) && !step.Arrive? && step.call <= i
      && s.calls[step.call].conversation == s.calls[i].conversation ==>
      WorkAhead(Do(s, step).calls, i + 1, s.calls[i].conversation) < WorkAhead(s.calls, i + 1, s.calls[i].conversation)
  {
    var k := s.calls[i].conversation;
    if Enabled(s, step) {
      if step.Arrive? {
        PrefixWork(s.calls, Do(s, step).calls, i + 1, k);
      } else {
        WorkAheadFrame(s.calls, Do(s, step).calls, i + 1, k, step.call);
      }
    }
  }

  lemma {:induction false} PrefixWork(a: seq<Call>, b: seq<Call>, n: nat, k: ConversationId)
    requires n <= |a| && a <= b
    ensures WorkAhead(a, n, k) == WorkAhead(b, n, k)
  {
    if n > 0 { PrefixWork(a, b, n - 1, k); }
  }

  /** The step a call takes when it goes on and storage answers `ok`. */
  function NextStep(c: Call, i: CallId, ok: bool): Step {
    match c.phase
    case Waiting(_) => Enter(i)
    case Reading => Read(i, ok)
    case Loaded(_) => Compute(i, ok)
    case Writing(_) => Write(i, ok)
    case _ => Finish(i)
  }

  /**
   Nobody waits for ever: while a call is pending, the oldest pending call of its
   queue can go on, however storage answers, and that step leaves less work
   ahead. With StepsNeverAddWork, at most 5 steps per call ahead are needed.
   */
  lemma {:induction false} SomeoneCanGoOn(schedule: seq<Step>, start: map<ConversationId, Note>, i: CallId)
    returns (j: CallId)
    requires var s := Run(Initial(start), schedule); i < |s.calls| && !s.calls[i].phase.Settled?
    ensures var s := Run(Initial(start), schedule);
      && j <= i && s.calls[j].conversation == s.calls[i].conversation
      && AllSettled(s.calls, j, s.calls[i].conversation) && !s.calls[j].phase.Settled?
      && forall ok :: Enabled(s, NextStep(s.calls[j], j, ok))
  {
    RunKeepsInv(schedule, start);
    var s := Run(Initial(start), schedule);
    var k := s.calls[i].conversation;
    j := 0;
    while s.calls[j].conversation != k || s.calls[j].phase.Settled?
      invariant j <= i && AllSettled(s.calls, j, k)
      decreases i - j
    {
      j := j + 1;
    }
    assert OrderedAt(s.calls, j);
  }

  /** How many steps of `more` were possible and belonged to the calls ahead of `i`, or to `i`. */
  function TurnsTaken(s: State, more: seq<Step>, i: CallId): nat
    requires i < |s.calls|
    decreases |more|
  {
    if more == [] then 0 else
    var t := Run(s, more[..|more| - 1]);
    var step := more[|more| - 1];
    TurnsTaken(s, more[..|more| - 1], i)
    + if Enabled(t, step) && !step.Arrive? && step.call <= i && step.call < |t.calls|
         && t.calls[step.call].conversation == s.calls[i].conversation then 1 else 0
  }

  /**
   Whatever else happens, `i` is settled once its queue has been given as many
   turns as the work that was ahead: turns taken and work left never exceed it,
   and while `i` is pending SomeoneCanGoOn offers another turn.
   */
  lemma {:induction false} TurnsBounded(s: State, more: seq<Step>, i: CallId)
    requires i < |s.calls|
    ensures i < |Run(s, more).calls| && Run(s, more).calls[i].conversation == s.calls[i].conversation
    ensures TurnsTaken(s, more, i) + WorkAhead(Run(s, more).calls, i + 1, s.calls[i].conversation)
            <= WorkAhead(s.calls, i + 1, s.calls[i].conversation)
    ensures TurnsTaken(s, more, i) == WorkAhead(s.calls, i + 1, s.calls[i].conversation) ==>
      Run(s, more).calls[i].phase.Settled?
  {
    if more != [] {
      TurnsBounded(s, more[..|more| - 1], i);
      StepsNeverAddWork(Run(s, more[..|more| - 1]), more[|more| - 1], i);
    }
  }

  lemma {:induction false} RunAppend(s: State, a: seq<Step>, b: seq<Step>)
    ensures Run(s, a + b) == Run(Run(s, a), b)
    decreases |b|
  {
    if b == [] {
      assert a + b == a;
    } else {
      RunAppend(s, a, b[..|b| - 1]);
      assert (a + b)[..|a + b| - 1] == a + b[..|b| - 1];
    }
  }

  /** Step `n` of `more` is a possible turn of a call, with the n-th answer of storage. */
  ghost predicate TurnAt(s: State, more: seq<Step>, answers: nat -> bool, n: nat)
    requires n < |more|
  {
    var now := Run(s, more[..n]);
    Enabled(now, more[n]) && !more[n].Arrive? && more[n].call < |now.calls|
    && more[n] == NextStep(now.calls[more[n].call], more[n].call, answers(n))
  }

  lemma TurnAtPrefix(s: State, more: seq<Step>, step: Step, answers: nat -> bool, n: nat)
    requires n < |more| && TurnAt(s, more, answers, n)
    ensures TurnAt(s, more + [step], answers, n)
  {
    assert (more + [step])[..n] == more[..n];
  }

  /**
   Every queued call eventually runs: after any schedule, and whatever storage
   answers from then on, some further turns settle the call, no more of them
   than there was work ahead.
   */
  lemma EveryCallSettles(schedule: seq<Step>, start: map<ConversationId, Note>, i: CallId, answers: nat -> bool)
    returns (more: seq<Step>)
    requires i < |Run(Initial(start), schedule).calls|
    ensures var s := Run(Initial(start), schedule);
      && (forall n: nat {:trigger TurnAt(s, more, answers, n)} | n < |more| :: TurnAt(s, more, answers, n))
      && |more| <= WorkAhead(s.calls, i + 1, s.calls[i].conversation)
    ensures var t := Run(Initial(start), schedule + more); i < |t.calls| && t.calls[i].phase.Settled?
  {
    var s := Run(Initial(start), schedule);
    var k := s.calls[i].conversation;
    var t := s;
    more := [];
    while !t.calls[i].phase.Settled?
      invariant t == Run(s, more) && i < |t.calls| && t.calls[i].conversation == k
      invariant forall n: nat {:trigger TurnAt(s, more, answers, n)} | n < |more| :: TurnAt(s, more, answers, n)
      invariant |more| + WorkAhead(t.calls, i + 1, k) <= WorkAhead(s.calls, i + 1, k)
      decreases WorkAhead(t.calls, i + 1, k)
    {
      RunAppend(Initial(start), schedule, more);
      var j := SomeoneCanGoOn(schedule + more, start, i);
      var step := NextStep(t.calls[j], j, answers(|more|));
      assert Enabled(t, step);
      StepsNeverAddWork(t, step, i);
      StepKeepsConversation(t, step, i);
      var longer := more + [step];
      assert longer[..|more|] == more;
      forall n: nat | n < |longer| ensures TurnAt(s, longer, answers, n) {
        if n < |more| { TurnAtPrefix(s, more, step, answers, n); }
      }
      t, more := Do(t, step), longer;
    }
    RunAppend(Initial(start), schedule, more);
  }

  lemma StepKeepsConversation(s: State, step: Step, i: CallId)
    requires i < |s.calls|
    ensures i < |Do(s, step).calls| && Do(s, step).calls[i].conversation == s.calls[i].conversation
  {
  }

  // ---------- calls fail only through storage ----------

  predicate HasFailed(c: Call) { (c.phase.Closing? || c.phase.Settled?) && c.phase.ending.Failed? }

  /** A read, a decryption or a write of call `i` that storage answers with an error. */
  predicate IsFailure(step: Step, i: CallId) {
    (step.Read? || step.Compute? || step.Write?) && step.call == i && !step.ok
  }

  /** Step `n` of the schedule is a possible failure of call `i`. */
  ghost predicate FailsAt(schedule: seq<Step>, start: map<ConversationId, Note>, i: CallId, n: nat)
    requires n < |schedule|
  {
    IsFailure(schedule[n], i) && Enabled(Run(Initial(start), schedule[..n]), schedule[n])
  }

  lemma FailsInStep(s: State, step: Step, i: CallId)
    requires i < |s.calls|
    ensures i < |Do(s, step).calls|
    ensures HasFailed(Do(s, step).calls[i]) <==> HasFailed(s.calls[i]) || (IsFailure(step, i) && Enabled(s, step))
  {
  }

  lemma {:induction false} CallsStay(s: State, schedule: seq<Step>, n: nat)
    requires n <= |schedule|
    ensures |Run(s, schedule[..n]).calls| <= |Run(s, schedule).calls|
    decreases |schedule|
  {
    if n < |schedule| {
      CallsStay(s, schedule[..|schedule| - 1], n);
      assert schedule[..|schedule| - 1][..n] == schedule[..n];
    } else {
      assert schedule[..n] == schedule;
    }
  }

  /** Over every schedule: a call fails if and only if storage answered one of its own steps with an error. */
  lemma {:induction false} FailsExactly(schedule: seq<Step>, start: map<ConversationId, Note>, i: CallId)
    requires i < |Run(Initial(start), schedule).calls|
    ensures HasFailed(Run(Initial(start), schedule).calls[i])
            <==> exists n: nat :: n < |schedule| && FailsAt(schedule, start, i, n)
    decreases |schedule|
  {
    if schedule != [] {
      var last := |schedule| - 1;
      var front, step := schedule[..last], schedule[last];
      var before := Run(Initial(start), front);
      forall n: nat | n < last ensures front[..n] == schedule[..n] && front[n] == schedule[n] { }
      if i < |before.calls| {
        FailsExactly(front, start, i);
        FailsInStep(before, step, i);
        if n: nat :| n < last && FailsAt(front, start, i, n) { assert FailsAt(schedule, start, i, n); }
        if n: nat :| n < |schedule| && FailsAt(schedule, start, i, n) {
          assert n == last || FailsAt(front, start, i, n);
        }
        if IsFailure(step, i) && Enabled(before, step) { assert FailsAt(schedule, start, i, last); }
      } else {
        forall n: nat | n < |schedule| ensures !FailsAt(schedule, start, i, n) {
          CallsStay(Initial(start), front, n);
        }
      }
    }
  }

  /** If storage never answers with an error, every finished call wrote, was refused, or threw, as at its turn. */
  lemma WithoutErrorsNothingFails(schedule: seq<Step>, start: map<ConversationId, Note>, i: CallId)
    requires i < |Run(Initial(start), schedule).calls|
    requires forall step | step in schedule :: !IsFailure(step, i)
    ensures var s := Run(Initial(start), schedule);
      var k := s.calls[i].conversation;
      s.calls[i].phase.Settled? ==>
        match Apply(Fold(Get(start, k), Committed(s.calls, i, k)), s.calls[i].change)
        case Stored(note) => s.calls[i].phase.ending == Wrote(note)
        case Refused => s.calls[i].phase.ending == ReturnedNull
        case Thrown => s.calls[i].phase.ending == Threw
  {
    FailsExactly(schedule, start, i);
    forall n: nat | n < |schedule| ensures !FailsAt(schedule, start, i, n) { assert schedule[n] in schedule; }
    NoLostUpdate(schedule, start, Run(Initial(start), schedule).calls[i].conversation);
  }

  // ---------- conversations do not interfere ----------

  /** Everything a step of call `i` looks at: the call, its turn, and the record and queue entry of its conversation. */
  lemma StepIsLocal(s: State, t: State, step: Step)
    requires !step.Arrive? && step.call < |s.calls| && |t.calls| == |s.calls|
    requires s.calls[step.call] == t.calls[step.call]
    requires Enabled(s, step) && Enabled(t, step)
    requires var k := s.calls[step.call].conversation;
      Get(s.records, k) == Get(t.records, k) && Get(s.queues, k) == Get(t.queues, k)
    ensures var i, k := step.call, s.calls[step.call].conversation;
      var s', t' := Do(s, step), Do(t, step);
      && s'.calls == s.calls[i := s'.calls[i]] && t'.calls == t.calls[i := s'.calls[i]]
      && Get(s'.records, k) == Get(t'.records, k) && Get(s'.queues, k) == Get(t'.queues, k)
      && (forall c | c != k :: Get(s'.records, c) == Get(s.records, c) && Get(t'.records, c) == Get(t.records, c))
      && (forall c | c != k :: Get(s'.queues, c) == Get(s.queues, c) && Get(t'.queues, c) == Get(t.queues, c))
      && s'.calls[i].conversation == k
  {
  }

  /** A step on another conversation neither enables nor disables this one. */
  lemma StepLeavesEnabled(s: State, a: Step, b: Step)
    requires !a.Arrive? && !b.Arrive? && a.call < |s.calls| && b.call < |s.calls|
    requires s.calls[a.call].conversation != s.calls[b.call].conversation
    requires OrderedAt(s.calls, a.call)
    ensures Enabled(Do(s, b), a) == Enabled(s, a)
    ensures |Do(s, b).calls| == |s.calls| && Do(s, b).calls[a.call] == s.calls[a.call]
    ensures Get(Do(s, b).records, s.calls[a.call].conversation) == Get(s.records, s.calls[a.call].conversation)
    ensures Get(Do(s, b).queues, s.calls[a.call].conversation) == Get(s.queues, s.calls[a.call].conversation)
  {
  }

  lemma SameEntries<V>(m: map<ConversationId, V>, n: map<ConversationId, V>)
    requires forall k :: Get(m, k) == Get(n, k)
    ensures m == n
  {
    forall k ensures (k in m <==> k in n) && (k in m ==> m[k] == n[k]) { assert Get(m, k) == Get(n, k); }
  }

  /** Two possible steps of calls on different conversations. */
  ghost predicate Apart(s: State, a: Step, b: Step) {
    && Ordered(s.calls)
    && !a.Arrive? && !b.Arrive? && Enabled(s, a) && Enabled(s, b)
    && s.calls[a.call].conversation != s.calls[b.call].conversation
  }

  lemma CallsCommute(s: State, a: Step, b: Step)
    requires Apart(s, a, b)
    ensures Do(Do(s, a), b).calls == Do(Do(s, b), a).calls
  {
    assert OrderedAt(s.calls, a.call) && OrderedAt(s.calls, b.call);
    StepLeavesEnabled(s, a, b);
    StepLeavesEnabled(s, b, a);
    StepIsLocal(s, Do(s, b), a);
    StepIsLocal(s, Do(s, a), b);
  }

  lemma EntriesCommute(s: State, a: Step, b: Step, k: ConversationId)
    requires Apart(s, a, b)
    ensures Get(Do(Do(s, a), b).records, k) == Get(Do(Do(s, b), a).records, k)
    ensures Get(Do(Do(s, a), b).queues, k) == Get(Do(Do(s, b), a).queues, k)
  {
    assert OrderedAt(s.calls, a.call) && OrderedAt(s.calls, b.call);
    StepLeavesEnabled(s, a, b);
    StepLeavesEnabled(s, b, a);
    StepIsLocal(s, Do(s, b), a);
    StepIsLocal(s, Do(s, a), b);
  }

  /** In a reachable state, steps of calls on different conversations commute: neither can see the other. */
  lemma ConversationsIndependent(s: State, a: Step, b: Step)
    requires Ordered(s.calls)
    requires !a.Arrive? && !b.Arrive? && a.call < |s.calls| && b.call < |s.calls|
    requires s.calls[a.call].conversation != s.calls[b.call].conversation
    ensures Enabled(Do(s, b), a) == Enabled(s, a) && Enabled(Do(s, a), b) == Enabled(s, b)
    ensures Do(Do(s, a), b) == Do(Do(s, b), a)
  {
    assert OrderedAt(s.calls, a.call) && OrderedAt(s.calls, b.call);
    StepLeavesEnabled(s, a, b);
    StepLeavesEnabled(s, b, a);
    if Enabled(s, a) && Enabled(s, b) {
      var ab, ba := Do(Do(s, a), b), Do(Do(s, b), a);
      CallsCommute(s, a, b);
      forall k ensures Get(ab.records, k) == Get(ba.records, k) && Get(ab.queues, k) == Get(ba.queues, k) {
        EntriesCommute(s, a, b, k);
      }
      SameEntries(ab.records, ba.records);
      SameEntries(ab.queues, ba.queues);
    }
  }

  /**
   A call that arrives on another conversation leaves this one as it was: its record, its queue entry, its calls
   and what they may do next.
   */
  lemma ArrivalElsewhere(s: State, k: ConversationId, change: Change, c: ConversationId, step: Step)
    requires c != k && Ordered(s.calls)
    requires !step.Arrive? && step.call < |s.calls| && s.calls[step.call].conversation == c
    ensures var t := Do(s, Arrive(k, change));
      && Get(t.records, c) == Get(s.records, c) && Get(t.queues, c) == Get(s.queues, c)
      && (forall i | 0 <= i < |t.calls| && t.calls[i].conversation == c :: i < |s.calls| && t.calls[i] == s.calls[i])
      && (Enabled(t, step) <==> Enabled(s, step))
      && Do(t, step) == Do(Do(s, step), Arrive(k, change))
  {
    var a := Arrive(k, change);
    assert OrderedAt(s.calls, step.call);
    if Enabled(s, step) {
      var ab, ba := Do(Do(s, a), step), Do(Do(s, step), a);
      assert ab.calls == ba.calls;
      SameEntries(ab.queues, ba.queues);
    }
  }

  // ---------- the running program ----------

  /** The queue map and the stored records, changed in place by the steps of the calls. */
  class ConversationWrites {
    var calls: seq<Call>
    var queues: map<ConversationId, CallId>
    var records: map<ConversationId, Note>

    function View(): State
      reads this
    {
      State(calls, queues, records)
    }

    constructor (stored: map<ConversationId, Note>)
      ensures View() == Initial(stored)
    {
      calls, queues, records := [], map[], stored;
    }

    /** The synchronous part of the lock: take the promise in the map, put the own one in its place. */
    method Request(k: ConversationId, change: Change) returns (i: CallId)
      modifies this
      ensures i == old(|calls|) && View() == Do(old(View()), Arrive(k, change))
    {
      var previous := Get(queues, k);
      i := |calls|;
      calls := calls + [Call(k, change, Waiting(previous))];
      queues := queues[k := i];
    }

    method Proceed(i: CallId, ok: bool)
      requires i < |calls| && Enabled(View(), NextStep(calls[i], i, ok))
      modifies this
      ensures View() == Do(old(View()), NextStep(old(calls)[i], i, ok))
    {
      var c := calls[i];
      match c.phase {
        case Waiting(_) =>
          calls := calls[i := c.(phase := Reading)];
        case Reading =>
          var phase := Closing(Failed);
          if ok { phase := Loaded(Get(records, c.conversation)); }
          calls := calls[i := c.(phase := phase)];
        case Loaded(existing) =>
          var phase := Closing(Failed);
          if ok { phase := Ended(Apply(existing, c.change)); }
          calls := calls[i := c.(phase := phase)];
        case Writing(updated) =>
          var ending := Failed;
          if ok {
            records := records[c.conversation := updated];
            ending := Wrote(updated);
          }
          calls := calls[i := c.(phase := Closing(ending))];
        case Closing(ending) =>
          // release(), then forget the promise if it is still the last one.
          calls := calls[i := c.(phase := Settled(ending))];
          if Get(queues, c.conversation) == Some(i) {
            queues := queues - {c.conversation};
          }
      }
    }
  }
}
