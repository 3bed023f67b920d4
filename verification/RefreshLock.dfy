/**
 Access-token refresh across browser tabs: a lock with a time to live in shared
 local storage, and inside each tab one shared promise. Reading and writing the
 lock happens inside one synchronous turn and is one step; every `await` is a
 step boundary. All tabs read one clock that never goes back.
 */
module RefreshLock {
  import opened Wrappers

  type TabId = string
  type Token = string

  const TTL_MS := 15_000

  /** The stored entry: absent, not parsable, parsable but without a usable owner and expiry, or a lock. */
  datatype Slot = Absent | Garbled | Partial | Held(owner: TabId, expiresAt: int)

  // ---------- the three lock operations ----------

  predicate Live(slot: Slot, now: int) { slot.Held? && slot.expiresAt > now }

  /** The entry after it has been looked at: garbage and expired locks are cleared away. */
  function Cleaned(slot: Slot, now: int): Slot {
    if slot.Garbled? || (slot.Held? && slot.expiresAt <= now) then Absent else slot
  }

  predicate Blocked(slot: Slot, now: int, tab: TabId) { Live(slot, now) && slot.owner != tab }

  function Acquired(slot: Slot, now: int, tab: TabId): Slot {
    if Blocked(slot, now, tab) then slot else Held(tab, now + TTL_MS)
  }

  function Released(slot: Slot, now: int, tab: TabId): Slot {
    if Live(slot, now) && slot.owner == tab then Absent else Cleaned(slot, now)
  }

  /** A release takes another tab's lock away exactly when that lock has expired. */
  lemma ReleaseOfAnothersLock(slot: Slot, now: int, tab: TabId)
    requires slot.Held? && slot.owner != tab
    ensures Released(slot, now, tab) != slot <==> slot.expiresAt <= now
  {
  }

  /** A release empties the entry exactly if it is garbage, or a lock that has expired or is the tab's own. */
  lemma ReleaseExactly(slot: Slot, now: int, tab: TabId)
    ensures Released(slot, now, tab) == Absent || Released(slot, now, tab) == slot
    ensures Released(slot, now, tab) == Absent <==>
      match slot
      case Absent => true
      case Garbled => true
      case Partial => false
      case Held(owner, expiresAt) => expiresAt <= now || owner == tab
  {
  }

  // ---------- tabs, callers and refresh requests ----------

  /** One refresh request, from the acquisition of the lock to its release; `result` is None while it is outstanding. */
  datatype Attempt = Attempt(tab: TabId, startedAt: int, result: Option<Option<Token>>) {
    predicate Pending() { result.None? }

    predicate Fresh(now: int) { Pending() && now < startedAt + TTL_MS }
  }

  datatype Wait =
    | Sharing(attempt: nat, starter: bool)   // awaiting the shared promise; the starter clears it afterwards
    | Elsewhere                              // another tab holds the lock
    | Got(attempt: nat, result: Option<Token>)
    | GotElsewhere(result: Option<Token>)

  datatype Caller = Caller(tab: TabId, wait: Wait)

  datatype State = State(
    now: int,
    slot: Slot,
    attempts: seq<Attempt>,
    shared: map<TabId, nat>,      // refreshPromise of each tab
    callers: seq<Caller>,
    crashed: set<TabId>)

  datatype Step =
    | Tick(ms: nat)
    | Call(tab: TabId)
    | Settle(attempt: nat, result: Option<Token>)
    | Resume(caller: nat)
    | ResumeElsewhere(caller: nat, result: Option<Token>)
    | Crash(tab: TabId)

  predicate Enabled(s: State, step: Step) {
    match step
    case Tick(_) => true
    case Call(tab) => tab !in s.crashed
    case Settle(a, _) => a < |s.attempts| && s.attempts[a].Pending() && s.attempts[a].tab !in s.crashed
    case Resume(c) => c < |s.callers| && s.callers[c].tab !in s.crashed && s.callers[c].wait.Sharing?
                      && s.callers[c].wait.attempt < |s.attempts| && !s.attempts[s.callers[c].wait.attempt].Pending()
    case ResumeElsewhere(c, _) => c < |s.callers| && s.callers[c].tab !in s.crashed && s.callers[c].wait.Elsewhere?
    case Crash(_) => true
  }

  /** One step; a step that is not possible changes nothing. */
  function Do(s: State, step: Step): State {
    if !Enabled(s, step) then s else
    match step
    case Tick(ms) => s.(now := s.now + ms)
    case Call(tab) =>
      if tab in s.shared then
        s.(callers := s.callers + [Caller(tab, Sharing(s.shared[tab], false))])
      else if Blocked(s.slot, s.now, tab) then
        s.(callers := s.callers + [Caller(tab, Elsewhere)])
      else
        s.(slot := Acquired(s.slot, s.now, tab),
           attempts := s.attempts + [Attempt(tab, s.now, None)],
           shared := s.shared[tab := |s.attempts|],
           callers := s.callers + [Caller(tab, Sharing(|s.attempts|, true))])
    case Settle(a, result) =>
      s.(slot := Released(s.slot, s.now, s.attempts[a].tab),
         attempts := s.attempts[a := s.attempts[a].(result := Some(result))])
    case Resume(c) =>
      var w := s.callers[c].wait;
      s.(callers := s.callers[c := s.callers[c].(wait := Got(w.attempt, s.attempts[w.attempt].result.value))],
         shared := if w.starter then s.shared - {s.callers[c].tab} else s.shared)
    case ResumeElsewhere(c, result) =>
      s.(callers := s.callers[c := s.callers[c].(wait := GotElsewhere(result))])
    case Crash(tab) => s.(crashed := s.crashed + {tab})
  }

  /** No live lock and nobody in the middle of anything; a leftover entry may be there. */
  predicate Initial(s: State) {
    !Live(s.slot, s.now) && s.attempts == [] && s.shared == map[] && s.callers == [] && s.crashed == {}
  }

  function Run(s: State, schedule: seq<Step>): State
    decreases |schedule|
  {
    if schedule == [] then s else Do(Run(s, schedule[..|schedule| - 1]), schedule[|schedule| - 1])
  }

  // ---------- invariant ----------

  ghost predicate Holds(s: State, a: nat)
    requires a < |s.attempts|
  {
    var t := s.attempts[a];
    && t.startedAt <= s.now
    && (t.Fresh(s.now) ==> s.slot == Held(t.tab, t.startedAt + TTL_MS))
    && (t.Pending() ==> t.tab in s.shared && s.shared[t.tab] == a)
  }

  ghost predicate CallerOk(s: State, c: nat)
    requires c < |s.callers|
  {
    var tab := s.callers[c].tab;
    match s.callers[c].wait
    case Sharing(a, starter) =>
      a < |s.attempts| && s.attempts[a].tab == tab && (starter ==> tab in s.shared && s.shared[tab] == a)
    case Got(a, result) => a < |s.attempts| && s.attempts[a].tab == tab && s.attempts[a].result == Some(result)
    case _ => true
  }

  predicate IsStarter(c: Caller) { c.wait.Sharing? && c.wait.starter }

  ghost predicate Inv(s: State) {
    && (forall a: nat | a < |s.attempts| :: Holds(s, a))
    && (Live(s.slot, s.now) ==> exists a: nat ::
          a < |s.attempts| && s.attempts[a].Pending()
              && s.slot == Held(s.attempts[a].tab, s.attempts[a].startedAt + TTL_MS))
    && (forall tab | tab in s.shared :: s.shared[tab] < |s.attempts| && s.attempts[s.shared[tab]].tab == tab)
    && (forall c: nat | c < |s.callers| :: CallerOk(s, c))
    && (forall c, d | 0 <= c < d < |s.callers| && IsStarter(s.callers[c]) && IsStarter(s.callers[d]) ::
          s.callers[c].tab != s.callers[d].tab)
  }

  lemma CallKeepsInv(s: State, tab: TabId)
    requires Inv(s) && Enabled(s, Call(tab))
    ensures Inv(Do(s, Call(tab)))
  {
    var t := Do(s, Call(tab));
    forall a: nat | a < |t.attempts| ensures Holds(t, a) {
      if a < |s.attempts| { assert Holds(s, a); }
    }
    forall c: nat | c < |t.callers| ensures CallerOk(t, c) {
      if c < |s.callers| { assert CallerOk(s, c); }
    }
    forall c, d | 0 <= c < d < |t.callers| && IsStarter(t.callers[c]) && IsStarter(t.callers[d])
      ensures t.callers[c].tab != t.callers[d].tab
    {
      assert CallerOk(s, c);
    }
    if Live(t.slot, t.now) {
      if t.attempts == s.attempts {
        assert t.slot == s.slot;
      } else {
        assert t.slot == Held(t.attempts[|s.attempts|].tab, t.attempts[|s.attempts|].startedAt + TTL_MS);
      }
    }
  }

  lemma SettleKeepsInv(s: State, a: nat, result: Option<Token>)
    requires Inv(s) && Enabled(s, Settle(a, result))
    ensures Inv(Do(s, Settle(a, result)))
  {
    var t := Do(s, Settle(a, result));
    assert Holds(s, a);
    forall b: nat | b < |t.attempts| ensures Holds(t, b) { assert Holds(s, b); }
    forall c: nat | c < |t.callers| ensures CallerOk(t, c) { assert CallerOk(s, c); }
    if Live(t.slot, t.now) {
      assert t.slot == s.slot && s.slot.owner != s.attempts[a].tab;
      var b: nat :| b < |s.attempts| && s.attempts[b].Pending()
                    && s.slot == Held(s.attempts[b].tab, s.attempts[b].startedAt + TTL_MS);
      assert t.attempts[b] == s.attempts[b];
    }
  }

  lemma ResumeKeepsInv(s: State, c: nat)
    requires Inv(s) && Enabled(s, Resume(c))
    ensures Inv(Do(s, Resume(c)))
  {
    var t := Do(s, Resume(c));
    var tab := s.callers[c].tab;
    assert CallerOk(s, c);
    forall b: nat | b < |t.attempts| ensures Holds(t, b) { assert Holds(s, b); }
    forall d: nat | d < |t.callers| ensures CallerOk(t, d) { assert CallerOk(s, d); }
  }

  lemma OtherStepKeepsInv(s: State, step: Step)
    requires Inv(s) && Enabled(s, step) && (step.Tick? || step.ResumeElsewhere? || step.Crash?)
    ensures Inv(Do(s, step))
  {
    var t := Do(s, step);
    forall b: nat | b < |t.attempts| ensures Holds(t, b) { assert Holds(s, b); }
    forall d: nat | d < |t.callers| ensures CallerOk(t, d) { assert CallerOk(s, d); }
  }

  lemma {:induction false} RunKeepsInv(s: State, schedule: seq<Step>)
    requires Initial(s)
    ensures Inv(Run(s, schedule))
  {
    if schedule != [] {
      var before, step := Run(s, schedule[..|schedule| - 1]), schedule[|schedule| - 1];
      RunKeepsInv(s, schedule[..|schedule| - 1]);
      if Enabled(before, step) {
        match step
        case Call(tab) => CallKeepsInv(before, tab);
        case Settle(a, result) => SettleKeepsInv(before, a, result);
        case Resume(c) => ResumeKeepsInv(before, c);
        case _ => OtherStepKeepsInv(before, step);
      }
    }
  }

  // ---------- what every run guarantees ----------

  /**
   Two refresh sections never overlap while both are younger than the time to
   live, whether or not one of the tabs has crashed in the middle.
   */
  lemma FreshSectionsDisjoint(s: State, schedule: seq<Step>, a: nat, b: nat)
    requires Initial(s) && a < |Run(s, schedule).attempts| && b < |Run(s, schedule).attempts| && a != b
    ensures var t := Run(s, schedule); !(t.attempts[a].Fresh(t.now) && t.attempts[b].Fresh(t.now))
  {
    RunKeepsInv(s, schedule);
    assert Holds(Run(s, schedule), a) && Holds(Run(s, schedule), b);
  }

  /** The bound is tight: a section that outlives its lock can overlap the next one. */
  lemma OldSectionsCanOverlap(s: State)
    requires Initial(s)
    ensures var t := Run(s, [Call("a"), Tick(TTL_MS), Call("b")]);
      && |t.attempts| == 2 && t.attempts[0].Pending() && t.attempts[1].Pending()
      && t.attempts[0].tab == "a" && t.attempts[1].tab == "b" && t.slot == Held("b", t.now + TTL_MS) && t.crashed == {}
  {
    var s1 := Do(s, Call("a"));
    var s2 := Do(s1, Tick(TTL_MS));
    assert Run(s, [Call("a")]) == s1 by { assert [Call("a")][..0] == []; }
    assert [Call("a"), Tick(TTL_MS)][..1] == [Call("a")];
    assert [Call("a"), Tick(TTL_MS), Call("b")][..2] == [Call("a"), Tick(TTL_MS)];
  }

  /** It happens: a section that outlived its lock settles when the next lock has expired too, and clears it. */
  lemma AnothersLockIsReleased(s: State, result: Option<Token>)
    requires Initial(s)
    ensures var schedule := [Call("a"), Tick(TTL_MS), Call("b"), Tick(TTL_MS)];
      var before, after := Run(s, schedule), Run(s, schedule + [Settle(0, result)]);
      && before.slot == Held("b", before.now) && after.slot == Absent
      && |after.attempts| == 2 && after.attempts[1].tab == "b" && after.attempts[1].Pending()
  {
    var early, schedule := [Call("a"), Tick(TTL_MS), Call("b")], [Call("a"), Tick(TTL_MS), Call("b"), Tick(TTL_MS)];
    OldSectionsCanOverlap(s);
    var t := Run(s, early);
    assert schedule[..3] == early && (schedule + [Settle(0, result)])[..4] == schedule;
  }

  /**
   A tab is turned away exactly while another tab's request is outstanding and
   younger than the time to live; so a crashed holder, whose request stays
   outstanding, turns nobody away after that.
   */
  lemma BlockedExactlyByFreshHolder(s: State, schedule: seq<Step>, tab: TabId)
    requires Initial(s)
    ensures var t := Run(s, schedule);
      Blocked(t.slot, t.now, tab) <==>
      exists a: nat :: a < |t.attempts| && t.attempts[a].tab != tab && t.attempts[a].Fresh(t.now)
  {
    RunKeepsInv(s, schedule);
    var t := Run(s, schedule);
    if Blocked(t.slot, t.now, tab) {
      var a: nat :| a < |t.attempts| && t.attempts[a].Pending()
                    && t.slot == Held(t.attempts[a].tab, t.attempts[a].startedAt + TTL_MS);
      assert t.attempts[a].Fresh(t.now);
    }
    forall a: nat | a < |t.attempts| && t.attempts[a].tab != tab && t.attempts[a].Fresh(t.now)
      ensures Blocked(t.slot, t.now, tab)
    {
      assert Holds(t, a);
    }
  }

  /** A live lock is only ever changed by the settling of its own owner's request. */
  lemma LiveLockOnlySettledByOwner(s: State, schedule: seq<Step>, step: Step)
    requires Initial(s) && Live(Run(s, schedule).slot, Run(s, schedule).now)
    ensures var t := Run(s, schedule);
      Do(t, step).slot != t.slot ==> step.Settle? && Enabled(t, step) && t.attempts[step.attempt].tab == t.slot.owner
  {
    RunKeepsInv(s, schedule);
    var t := Run(s, schedule);
    var a: nat :| a < |t.attempts| && t.attempts[a].Pending()
                  && t.slot == Held(t.attempts[a].tab, t.attempts[a].startedAt + TTL_MS);
    assert Holds(t, a);
  }

  /** Inside one tab at most one refresh request is outstanding. */
  lemma SingleFlight(s: State, schedule: seq<Step>, a: nat, b: nat)
    requires Initial(s) && a < |Run(s, schedule).attempts| && b < |Run(s, schedule).attempts|
    requires var t := Run(s, schedule);
      t.attempts[a].Pending() && t.attempts[b].Pending() && t.attempts[a].tab == t.attempts[b].tab
    ensures a == b
  {
    RunKeepsInv(s, schedule);
    assert Holds(Run(s, schedule), a) && Holds(Run(s, schedule), b);
  }

  /** The caller has the result of the request that it joined, which is its own tab's. */
  predicate HasResultOf(s: State, c: nat)
    requires c < |s.callers| && s.callers[c].wait.Got?
  {
    var w := s.callers[c].wait;
    w.attempt < |s.attempts| && s.attempts[w.attempt].result == Some(w.result)
    && s.attempts[w.attempt].tab == s.callers[c].tab
  }

  /**
   A call made while its tab has a request outstanding joins that request, and everyone who joined gets its one result.
   */
  lemma CallersShareTheResult(s: State, schedule: seq<Step>, tab: TabId)
    requires Initial(s)
    ensures var t := Run(s, schedule);
      && (forall a: nat | a < |t.attempts| && t.attempts[a].Pending() && t.attempts[a].tab == tab
          && tab !in t.crashed ::
            Do(t, Call(tab)) == t.(callers := t.callers + [Caller(tab, Sharing(a, false))]))
      && (forall c: nat | c < |t.callers| && t.callers[c].wait.Got? :: HasResultOf(t, c))
  {
    RunKeepsInv(s, schedule);
    var t := Run(s, schedule);
    forall a: nat | a < |t.attempts| && t.attempts[a].Pending() && t.attempts[a].tab == tab && tab !in t.crashed
      ensures Do(t, Call(tab)) == t.(callers := t.callers + [Caller(tab, Sharing(a, false))])
    {
      assert Holds(t, a);
    }
    forall c: nat | c < |t.callers| && t.callers[c].wait.Got? ensures HasResultOf(t, c) { assert CallerOk(t, c); }
  }

  // ---------- the shared promise comes and goes ----------

  /** Caller `c` started attempt `a` of its tab and has not gone on yet. */
  predicate StillStarting(s: State, c: nat, tab: TabId, a: nat) {
    c < |s.callers| && s.callers[c] == Caller(tab, Sharing(a, true))
  }

  ghost predicate PromiseOk(s: State, tab: TabId) {
    tab in s.shared ==> exists c: nat :: StillStarting(s, c, tab, s.shared[tab])
  }

  lemma PromiseStep(s: State, step: Step, tab: TabId)
    requires Inv(s) && PromiseOk(s, tab)
    ensures PromiseOk(Do(s, step), tab)
  {
    var t := Do(s, step);
    if Enabled(s, step) && tab in t.shared {
      if tab in s.shared {
        var c: nat :| StillStarting(s, c, tab, s.shared[tab]);
        if step.Resume? {
          assert CallerOk(s, step.caller);
          assert step.caller != c;
        }
        assert StillStarting(t, c, tab, t.shared[tab]);
      } else {
        assert StillStarting(t, |s.callers|, tab, |s.attempts|);
      }
    }
  }

  lemma {:induction false} PromiseRun(s: State, schedule: seq<Step>, tab: TabId)
    requires Initial(s)
    ensures PromiseOk(Run(s, schedule), tab)
    decreases |schedule|
  {
    if schedule != [] {
      var front := schedule[..|schedule| - 1];
      RunKeepsInv(s, front);
      PromiseRun(s, front, tab);
      PromiseStep(Run(s, front), schedule[|schedule| - 1], tab);
    }
  }

  /**
   Over every run: a tab has a shared promise for an attempt if and only if the
   caller that started the attempt has not gone on yet.
   */
  lemma PromiseWhileStarterWaits(s: State, schedule: seq<Step>, tab: TabId, a: nat)
    requires Initial(s)
    ensures var t := Run(s, schedule);
      Get(t.shared, tab) == Some(a) <==> exists c: nat :: StillStarting(t, c, tab, a)
  {
    var t := Run(s, schedule);
    RunKeepsInv(s, schedule);
    PromiseRun(s, schedule, tab);
    if c: nat :| StillStarting(t, c, tab, a) { assert CallerOk(t, c); }
  }

  /**
   Over every run, what a call does: it joins the attempt whose starter still
   waits; without one, it is turned away exactly if another tab's request is
   outstanding and younger than 15 s, and otherwise starts a request of its own.
   */
  lemma CallExactly(s: State, schedule: seq<Step>, tab: TabId)
    requires Initial(s) && tab !in Run(s, schedule).crashed
    ensures var t := Run(s, schedule);
      var u := Do(t, Call(tab));
      && |u.callers| == |t.callers| + 1 && u.callers[..|t.callers|] == t.callers && u.callers[|t.callers|].tab == tab
      && var wait := u.callers[|t.callers|].wait;
      if exists c: nat, a: nat :: StillStarting(t, c, tab, a) then
        wait.Sharing? && !wait.starter && u.attempts == t.attempts && u.slot == t.slot
        && exists c: nat :: StillStarting(t, c, tab, wait.attempt)
      else if exists b: nat :: b < |t.attempts| && t.attempts[b].tab != tab && t.attempts[b].Pending()
                               && t.now < t.attempts[b].startedAt + 15_000 then
        wait == Elsewhere && u.attempts == t.attempts && u.slot == t.slot
      else
        && wait == Sharing(|t.attempts|, true) && u.attempts == t.attempts + [Attempt(tab, t.now, None)]
        && u.slot == Held(tab, t.now + 15_000)
  {
    var t := Run(s, schedule);
    BlockedExactlyByFreshHolder(s, schedule, tab);
    if tab in t.shared {
      PromiseWhileStarterWaits(s, schedule, tab, t.shared[tab]);
    } else {
      forall c: nat, a: nat ensures !StillStarting(t, c, tab, a) { PromiseWhileStarterWaits(s, schedule, tab, a); }
    }
  }

  // ---------- where results come from ----------

  lemma {:induction false} StateGrows(s: State, schedule: seq<Step>, n: nat)
    requires n <= |schedule|
    ensures var early, late := Run(s, schedule[..n]), Run(s, schedule);
      && |early.attempts| <= |late.attempts| && early.crashed <= late.crashed
      && (forall a | 0 <= a < |early.attempts| :: late.attempts[a].tab == early.attempts[a].tab)
      && (forall a | 0 <= a < |early.attempts| && early.attempts[a].tab in early.crashed ::
            late.attempts[a] == early.attempts[a])
    decreases |schedule|
  {
    if n < |schedule| {
      StateGrows(s, schedule[..|schedule| - 1], n);
      assert schedule[..|schedule| - 1][..n] == schedule[..n];
    } else {
      assert schedule[..n] == schedule;
    }
  }

  /** A request of a tab that has crashed never gets a result. */
  lemma CrashedNeverSettles(s: State, schedule: seq<Step>, n: nat, a: nat)
    requires n < |schedule| && a < |Run(s, schedule[..n]).attempts|
    requires schedule[n] == Crash(Run(s, schedule[..n]).attempts[a].tab)
    ensures a < |Run(s, schedule).attempts| && Run(s, schedule).attempts[a] == Run(s, schedule[..n]).attempts[a]
  {
    assert schedule[..n + 1][..n] == schedule[..n];
    StateGrows(s, schedule, n + 1);
  }

  /** A request has a result if and only if a step that was possible has settled it with that result. */
  lemma {:induction false} ResultsComeFromSettling(s: State, schedule: seq<Step>, a: nat, result: Option<Token>)
    requires Initial(s) && a < |Run(s, schedule).attempts|
    ensures Run(s, schedule).attempts[a].result == Some(result)
            <==> exists n: nat :: n < |schedule| && SettlesAt(s, schedule, n, a, result)
    decreases |schedule|
  {
    if schedule != [] {
      var last := |schedule| - 1;
      var front, step := schedule[..last], schedule[last];
      SettledBefore(s, schedule, a, result);
      if a < |Run(s, front).attempts| { ResultsComeFromSettling(s, front, a, result); }
    }
  }

  /** Who has settled an attempt is the last step, or one before it if the attempt was made by then. */
  lemma SettledBefore(s: State, schedule: seq<Step>, a: nat, result: Option<Token>)
    requires schedule != []
    ensures var last := |schedule| - 1;
      var front := schedule[..last];
      (exists n: nat :: n < |schedule| && SettlesAt(s, schedule, n, a, result))
      <==> || SettlesAt(s, schedule, last, a, result)
           || (a < |Run(s, front).attempts| && exists n: nat :: n < last && SettlesAt(s, front, n, a, result))
  {
    var last := |schedule| - 1;
    var front := schedule[..last];
    forall n: nat | n < last ensures SettlesAt(s, front, n, a, result) <==> SettlesAt(s, schedule, n, a, result) {
      assert front[..n] == schedule[..n] && front[n] == schedule[n];
    }
    if n: nat :| n < last && SettlesAt(s, schedule, n, a, result) {
      assert front[..n] == schedule[..n];
      StateGrows(s, front, n);
      assert SettlesAt(s, front, n, a, result);
    }
  }

  /** Step `n` settles attempt `a` with the result. */
  ghost predicate SettlesAt(s: State, schedule: seq<Step>, n: nat, a: nat, result: Option<Token>)
    requires n < |schedule|
  {
    schedule[n] == Settle(a, result) && Enabled(Run(s, schedule[..n]), schedule[n])
  }

  /** A caller that was turned away gets what the other tab's refresh brought, and nothing else changes. */
  lemma TurnedAwayGetsElsewhere(s: State, c: nat, result: Option<Token>)
    requires c < |s.callers| && s.callers[c].wait == Elsewhere && s.callers[c].tab !in s.crashed
    ensures Do(s, ResumeElsewhere(c, result)) ==
            s.(callers := s.callers[c := Caller(s.callers[c].tab, GotElsewhere(result))])
  {
  }

  // ---------- the running program ----------

  /** Local storage and the module variables of all tabs, changed in place. */
  class RefreshCoordinator {
    var now: int
    var slot: Slot
    var attempts: seq<Attempt>
    var shared: map<TabId, nat>
    var callers: seq<Caller>
    ghost var crashed: set<TabId>

    ghost function View(): State
      reads this
    {
      State(now, slot, attempts, shared, callers, crashed)
    }

    /** The live lock, if there is one; garbage and expired locks are removed on the way. */
    method GetRefreshLock() returns (lock: Option<Slot>)
      modifies this`slot
      ensures slot == Cleaned(old(slot), now)
      ensures lock == if Live(old(slot), now) then Some(old(slot)) else None
    {
      lock := None;
      match slot {
        case Absent =>
        case Garbled => slot := Absent;
        case Partial =>
        case Held(_, expiresAt) =>
          if expiresAt <= now { slot := Absent; } else { lock := Some(slot); }
      }
    }

    method AcquireRefreshLock(tab: TabId) returns (ok: bool)
      modifies this`slot
      ensures ok == !Blocked(old(slot), now, tab) && slot == Acquired(old(slot), now, tab)
    {
      var existing := GetRefreshLock();
      if existing.Some? && existing.value.owner != tab { return false; }
      slot := Held(tab, now + TTL_MS);
      return true;
    }

    method ReleaseRefreshLock(tab: TabId)
      modifies this`slot
      ensures slot == Released(old(slot), now, tab)
    {
      var existing := GetRefreshLock();
      if existing.Some? && existing.value.owner == tab { slot := Absent; }
    }

    /** The synchronous start of `refreshAccessToken`. */
    method RefreshAccessToken(tab: TabId)
      requires Enabled(View(), Call(tab))
      modifies this
      ensures View() == Do(old(View()), Call(tab))
    {
      if tab in shared {
        callers := callers + [Caller(tab, Sharing(shared[tab], false))];
        return;
      }
      var ok := AcquireRefreshLock(tab);
      if !ok {
        callers := callers + [Caller(tab, Elsewhere)];
        return;
      }
      shared := shared[tab := |attempts|];
      callers := callers + [Caller(tab, Sharing(|attempts|, true))];
      attempts := attempts + [Attempt(tab, now, None)];
    }

    /** The response, or its failure: the lock is released and the shared promise settles. */
    method Respond(a: nat, result: Option<Token>)
      requires Enabled(View(), Settle(a, result))
      modifies this
      ensures View() == Do(old(View()), Settle(a, result))
    {
      ReleaseRefreshLock(attempts[a].tab);
      attempts := attempts[a := attempts[a].(result := Some(result))];
    }

    /** A caller of the shared promise goes on; the one who started it clears it. */
    method Return(c: nat)
      requires Enabled(View(), Resume(c))
      modifies this
      ensures View() == Do(old(View()), Resume(c))
    {
      var w := callers[c].wait;
      if w.starter { shared := shared - {callers[c].tab}; }
      callers := callers[c := callers[c].(wait := Got(w.attempt, attempts[w.attempt].result.value))];
    }
  }
}
