/**
 The table of unlocked support-encryption sessions: each has an idle limit that
 activity extends, a timer, and a lock event when it goes. First the table as a
 value and what a whole history of events does to it, then the objects and
 timers that implement it.
 */
module SupportSessions {
  import opened Wrappers

  type Key = string
  type Context = string

  const IDLE_MS := 4 * 60 * 60 * 1000

  datatype Entry = Entry(context: Context, expiresAt: int)

  /**
   The clock, the table, and two tallies per key: lock events dispatched, and
   remembers that found no session for the key.
   */
  datatype State = State(now: int, table: map<Key, Entry>, locked: multiset<Key>, openings: multiset<Key>)

  datatype Event =
    | Advance(ms: nat)
    | Remember(key: Key, context: Context)
    | Get(key: Key)
    | Activity                 // pointer, keyboard, touch or wheel
    | Visible                  // the page becomes visible again
    | TimerFires(key: Key)
    | Clear(key: Key)
    | ClearAll

  predicate Expired(s: State, k: Key) { k in s.table && s.table[k].expiresAt <= s.now }

  function Locked(s: State, keys: set<Key>): State {
    s.(table := s.table - keys, locked := s.locked + multiset(keys * s.table.Keys))
  }

  function ExpiredKeys(s: State): set<Key> { set k | k in s.table && Expired(s, k) }

  function Extended(s: State, keys: set<Key>): State {
    s.(table := map k | k in s.table :: if k in keys then s.table[k].(expiresAt := s.now + IDLE_MS) else s.table[k])
  }

  function Do(s: State, e: Event): State {
    match e
    case Advance(ms) => s.(now := s.now + ms)
    case Remember(k, context) =>
      s.(table := s.table[k := Entry(context, s.now + IDLE_MS)],
         openings := if k in s.table then s.openings else s.openings + multiset{k})
    case Get(k) => if Expired(s, k) then Locked(s, {k}) else Extended(s, {k})
    case Activity => var live := Locked(s, ExpiredKeys(s)); Extended(live, live.table.Keys)
    case Visible => Locked(s, ExpiredKeys(s))
    case TimerFires(k) => if Expired(s, k) then Locked(s, {k}) else s
    case Clear(k) => Locked(s, {k})
    case ClearAll => Locked(s, s.table.Keys)
  }

  /** What `getUnlockedSupportEncryptionSession` returns. */
  function Answer(s: State, k: Key): Option<Context> {
    if k in s.table && !Expired(s, k) then Some(s.table[k].context) else None
  }

  function Run(history: seq<Event>, start: int): State {
    if history == [] then State(start, map[], multiset{}, multiset{})
    else Do(Run(history[..|history| - 1], start), history[|history| - 1])
  }

  // ---------- one key at a time ----------

  /** Whether the event ends a session with this entry. */
  predicate Ends(e: Event, k: Key, entry: Entry, now: int) {
    match e
    case Get(key) => key == k && entry.expiresAt <= now
    case TimerFires(key) => key == k && entry.expiresAt <= now
    case Activity => entry.expiresAt <= now
    case Visible => entry.expiresAt <= now
    case Clear(key) => key == k
    case ClearAll => true
    case _ => false
  }

  /** Whether the event counts as activity for this key. */
  predicate Touches(e: Event, k: Key) { e.Activity? || (e.Get? && e.key == k) }

  /** What an event does, seen from one key. */
  predicate AtKey(s: State, e: Event, t: State, k: Key) {
    if e.Remember? && e.key == k then
      && k in t.table && t.table[k] == Entry(e.context, s.now + IDLE_MS)
      && t.locked[k] == s.locked[k] && t.openings[k] == s.openings[k] + if k in s.table then 0 else 1
    else if k !in s.table then
      k !in t.table && t.locked[k] == s.locked[k] && t.openings[k] == s.openings[k]
    else if Ends(e, k, s.table[k], s.now) then
      k !in t.table && t.locked[k] == s.locked[k] + 1 && t.openings[k] == s.openings[k]
    else
      && k in t.table && t.locked[k] == s.locked[k] && t.openings[k] == s.openings[k]
      && t.table[k].context == s.table[k].context
      && t.table[k].expiresAt == if Touches(e, k) then s.now + IDLE_MS else s.table[k].expiresAt
  }

  lemma LockedAtKey(s: State, keys: set<Key>, k: Key)
    ensures var t := Locked(s, keys);
      && (k in t.table <==> k in s.table && k !in keys)
      && (k in t.table ==> t.table[k] == s.table[k])
      && t.locked[k] == s.locked[k] + (if k in s.table && k in keys then 1 else 0)
      && t.openings == s.openings && t.now == s.now
  {
  }

  lemma ExtendedAtKey(s: State, keys: set<Key>, k: Key)
    ensures var t := Extended(s, keys);
      && (k in t.table <==> k in s.table)
      && (k in t.table ==> t.table[k].context == s.table[k].context
                           && t.table[k].expiresAt == if k in keys then s.now + IDLE_MS else s.table[k].expiresAt)
      && t.locked == s.locked && t.openings == s.openings && t.now == s.now
  {
  }

  lemma DoAtKey(s: State, e: Event, k: Key)
    ensures AtKey(s, e, Do(s, e), k)
    ensures Do(s, e).now == s.now + if e.Advance? then e.ms else 0
  {
    match e {
      case Advance(_) =>
      case Remember(_, _) =>
      case Get(key) => GetAtKey(s, key, k);
      case Activity => ActivityAtKey(s, k);
      case _ => LockingAtKey(s, e, k);
    }
  }

  lemma GetAtKey(s: State, key: Key, k: Key)
    ensures AtKey(s, Get(key), Do(s, Get(key)), k) && Do(s, Get(key)).now == s.now
  {
    LockedAtKey(s, {key}, k);
    ExtendedAtKey(s, {key}, k);
  }

  /** The events that can only lock. */
  lemma LockingAtKey(s: State, e: Event, k: Key)
    requires e.Visible? || e.TimerFires? || e.Clear? || e.ClearAll?
    ensures AtKey(s, e, Do(s, e), k) && Do(s, e).now == s.now
  {
    LockedAtKey(s, if e.Visible? then ExpiredKeys(s) else if e.ClearAll? then s.table.Keys else {e.key}, k);
  }

  lemma ActivityAtKey(s: State, k: Key)
    ensures AtKey(s, Activity, Do(s, Activity), k) && Do(s, Activity).now == s.now
  {
    var live := Locked(s, ExpiredKeys(s));
    LockedAtKey(s, ExpiredKeys(s), k);
    ExtendedAtKey(live, live.table.Keys, k);
  }

  // ---------- conservation ----------

  /** Openings minus lock events is 1 exactly while the key has a session, else 0. */
  lemma {:induction false} OpeningsAndLocksBalance(history: seq<Event>, start: int, k: Key)
    ensures var s := Run(history, start); s.openings[k] == s.locked[k] + if k in s.table then 1 else 0
  {
    if history != [] {
      OpeningsAndLocksBalance(history[..|history| - 1], start, k);
      DoAtKey(Run(history[..|history| - 1], start), history[|history| - 1], k);
    }
  }

  // ---------- the reference: no table, no timers ----------

  function Clock(history: seq<Event>, start: int): int {
    if history == [] then start
    else
      var front, e := history[..|history| - 1], history[|history| - 1];
      Clock(front, start) + if e.Advance? then e.ms else 0
  }

  /** A context that is still usable after less than the idle limit without activity. */
  datatype Memory = Memory(context: Context, lastActivity: int)

  function Usable(m: Option<Memory>, now: int): Option<Memory> {
    if m.Some? && now < m.value.lastActivity + IDLE_MS then m else None
  }

  /** The context last remembered for the key and its last activity, as far as the history alone tells. */
  function Remembered(history: seq<Event>, start: int, k: Key): Option<Memory> {
    if history == [] then None else
    var front, e := history[..|history| - 1], history[|history| - 1];
    var now, m := Clock(front, start), Remembered(front, start, k);
    match e
    case Remember(key, context) => if key == k then Some(Memory(context, now)) else m
    case Get(key) => if key == k then Touched(m, now) else m
    case Activity => Touched(m, now)
    case Clear(key) => if key == k then None else m
    case ClearAll => None
    case _ => m
  }

  function Touched(m: Option<Memory>, now: int): Option<Memory> {
    if Usable(m, now).Some? then Some(m.value.(lastActivity := now)) else None
  }

  function ContextOf(m: Option<Memory>): Option<Context> { if m.Some? then Some(m.value.context) else None }

  /** The table agrees with the reference wherever it matters: what it has dropped was no longer usable. */
  ghost predicate Agrees(s: State, now: int, m: Option<Memory>, k: Key) {
    && s.now == now
    && (k in s.table ==> m == Some(Memory(s.table[k].context, s.table[k].expiresAt - IDLE_MS)))
    && (k !in s.table ==> Usable(m, now).None?)
  }

  lemma {:induction false} TableAgrees(history: seq<Event>, start: int, k: Key)
    ensures Agrees(Run(history, start), Clock(history, start), Remembered(history, start, k), k)
  {
    if history != [] {
      TableAgrees(history[..|history| - 1], start, k);
      DoAtKey(Run(history[..|history| - 1], start), history[|history| - 1], k);
    }
  }

  /**
   After any history, a context is returned exactly when it is the one last
   remembered for the key, the key was not cleared since, no gap between
   activities reached the idle limit, and neither does the present one.
   */
  lemma AnswerIsTheReference(history: seq<Event>, start: int, k: Key)
    ensures Answer(Run(history, start), k) ==
            ContextOf(Usable(Remembered(history, start, k), Clock(history, start)))
  {
    TableAgrees(history, start, k);
  }

  /** What the page and the timers do on their own. */
  predicate Silent(e: Event) { e.TimerFires? || e.Visible? }

  function WithoutSilent(history: seq<Event>): seq<Event> {
    if history == [] then []
    else
      var front, e := history[..|history| - 1], history[|history| - 1];
      WithoutSilent(front) + if Silent(e) then [] else [e]
  }

  lemma SameAfter(a: seq<Event>, b: seq<Event>, e: Event, start: int, k: Key)
    requires Clock(a, start) == Clock(b, start) && Remembered(a, start, k) == Remembered(b, start, k)
    ensures Clock(a + [e], start) == Clock(b + [e], start)
    ensures Remembered(a + [e], start, k) == Remembered(b + [e], start, k)
  {
    assert (a + [e])[..|a|] == a && (b + [e])[..|b|] == b;
  }

  lemma {:induction false} SilentEventsChangeNothing(history: seq<Event>, start: int, k: Key)
    ensures Clock(WithoutSilent(history), start) == Clock(history, start)
    ensures Remembered(WithoutSilent(history), start, k) == Remembered(history, start, k)
  {
    if history != [] {
      var front, e := history[..|history| - 1], history[|history| - 1];
      SilentEventsChangeNothing(front, start, k);
      var kept := WithoutSilent(front);
      if Silent(e) {
        assert WithoutSilent(history) == kept;
      } else {
        SameAfter(kept, front, e, start, k);
        assert history == front + [e];
      }
    }
  }

  /** When timers fire, or whether they fire at all, cannot be told from the answers. */
  lemma TimersCannotBeObserved(a: seq<Event>, b: seq<Event>, start: int, k: Key)
    requires WithoutSilent(a) == WithoutSilent(b)
    ensures Answer(Run(a, start), k) == Answer(Run(b, start), k)
  {
    AnswerIsTheReference(a, start, k);
    AnswerIsTheReference(b, start, k);
    SilentEventsChangeNothing(a, start, k);
    SilentEventsChangeNothing(b, start, k);
  }

  /** A context that was just remembered is given out exactly for less than four hours. */
  lemma FourHours(history: seq<Event>, start: int, k: Key, context: Context, ms: nat)
    ensures Answer(Run(history + [Remember(k, context)] + [Advance(ms)], start), k) ==
            if ms < 4 * 60 * 60 * 1000 then Some(context) else None
  {
    var one := history + [Remember(k, context)];
    assert one[..|history|] == history && (one + [Advance(ms)])[..|one|] == one;
    AnswerIsTheReference(one + [Advance(ms)], start, k);
  }

  // ---------- a bulk event is one event per key ----------

  predicate Bulk(e: Event) { e.Activity? || e.Visible? || e.ClearAll? }

  /** What a bulk event does to one session of the table. */
  function Single(e: Event, k: Key): Event {
    if e.Activity? then Get(k) else if e.Visible? then TimerFires(k) else Clear(k)
  }

  function AfterEach(s: State, e: Event, keys: seq<Key>): State {
    if keys == [] then s else Do(AfterEach(s, e, keys[..|keys| - 1]), Single(e, keys[|keys| - 1]))
  }

  predicate Distinct(keys: seq<Key>) { forall i, j | 0 <= i < j < |keys| :: keys[i] != keys[j] }

  predicate SameAtKey(s: State, t: State, k: Key) {
    && (k in s.table <==> k in t.table) && (k in s.table ==> s.table[k] == t.table[k])
    && s.locked[k] == t.locked[k] && s.openings[k] == t.openings[k]
  }

  lemma {:induction false} AfterEachAtKey(s: State, e: Event, keys: seq<Key>, k: Key)
    requires Bulk(e) && Distinct(keys)
    ensures AfterEach(s, e, keys).now == s.now
    ensures k in keys ==> AtKey(s, Single(e, k), AfterEach(s, e, keys), k)
    ensures k !in keys ==> SameAtKey(s, AfterEach(s, e, keys), k)
  {
    if keys != [] {
      var front, last := keys[..|keys| - 1], keys[|keys| - 1];
      AfterEachAtKey(s, e, front, k);
      DoAtKey(AfterEach(s, e, front), Single(e, last), k);
    }
  }

  lemma EachAgreesAtKey(s: State, e: Event, keys: seq<Key>, k: Key)
    requires Bulk(e) && Distinct(keys) && (k in keys <==> k in s.table)
    ensures SameAtKey(Do(s, e), AfterEach(s, e, keys), k) && Do(s, e).now == AfterEach(s, e, keys).now
  {
    AfterEachAtKey(s, e, keys, k);
    DoAtKey(s, e, k);
  }

  /** In whatever order the loop visits the table, one round per session gives the bulk event. */
  lemma EachIsBulk(s: State, e: Event, keys: seq<Key>)
    requires Bulk(e) && Distinct(keys) && forall k :: k in keys <==> k in s.table
    ensures AfterEach(s, e, keys) == Do(s, e)
  {
    forall k ensures SameAtKey(Do(s, e), AfterEach(s, e, keys), k) { EachAgreesAtKey(s, e, keys, k); }
    EachAgreesAtKey(s, e, keys, "");
    SameEverywhere(Do(s, e), AfterEach(s, e, keys));
  }

  lemma SameEverywhere(s: State, t: State)
    requires s.now == t.now && forall k :: SameAtKey(s, t, k)
    ensures s == t
  {
    forall k ensures (k in s.table <==> k in t.table) && (k in s.table ==> s.table[k] == t.table[k]) {
      assert SameAtKey(s, t, k);
    }
    forall k ensures s.locked[k] == t.locked[k] && s.openings[k] == t.openings[k] { assert SameAtKey(s, t, k); }
    assert s.table == t.table;
    assert s.locked == t.locked;
    assert s.openings == t.openings;
  }

  lemma EachNext(s: State, e: Event, keys: seq<Key>, i: nat)
    requires i < |keys|
    ensures AfterEach(s, e, keys[..i + 1]) == Do(AfterEach(s, e, keys[..i]), Single(e, keys[i]))
  {
    assert keys[..i + 1][..i] == keys[..i];
  }

  // ---------- objects and timers ----------

  class UnlockedSession {
    const context: Context
    var expiresAt: int
    var timer: nat

    constructor (context: Context, expiresAt: int)
      ensures this.context == context && this.expiresAt == expiresAt && timer == 0
    {
      this.context := context;
      this.expiresAt := expiresAt;
      timer := 0;
    }
  }

  /** What a pending `setTimeout` will do: look at `key`, expecting to find `session`. */
  datatype Callback = Callback(key: Key, session: UnlockedSession, due: int)

  lemma LockedOne(s: State, key: Key)
    ensures Locked(s, {key}) ==
            if key in s.table then s.(table := s.table - {key}, locked := s.locked + multiset{key}) else s
  {
    if key in s.table {
      assert {key} * s.table.Keys == {key};
    } else {
      assert {key} * s.table.Keys == {};
      assert s.table - {key} == s.table;
    }
  }

  class SessionTable {
    var now: int
    var sessions: map<Key, UnlockedSession>
    var armed: map<nat, Callback>
    var nextTimer: nat
    var locked: multiset<Key>
    ghost var openings: multiset<Key>

    ghost function Objects(): set<UnlockedSession>
      reads this
    {
      set k | k in sessions :: sessions[k]
    }

    /** The session of a key has an armed timer of its own, due when it expires. */
    ghost predicate TimerOk(k: Key)
      requires k in sessions
      reads this, Objects()
    {
      sessions[k].timer in armed && armed[sessions[k].timer] == Callback(k, sessions[k], sessions[k].expiresAt)
    }

    /** An armed timer belongs to the session that its callback expects. */
    ghost predicate ArmedOk(t: nat)
      requires t in armed
      reads this, Objects()
    {
      && 0 < t < nextTimer && armed[t].key in sessions && armed[t].session == sessions[armed[t].key]
      && sessions[armed[t].key].timer == t
    }

    /** No two keys share a session object or a timer. */
    ghost predicate Apart(k: Key, l: Key)
      requires k in sessions && l in sessions
      reads this, Objects()
    {
      sessions[k] != sessions[l] && sessions[k].timer != sessions[l].timer
    }

    /** Armed timers and stored sessions correspond one to one; only the keys in `open` may be without a timer. */
    ghost predicate TimersMatch(open: set<Key>)
      reads this, Objects()
    {
      && nextTimer > 0
      && (forall k, l {:trigger Apart(k, l)} | k in sessions && l in sessions && k != l :: Apart(k, l))
      && (forall k {:trigger TimerOk(k)} | k in sessions && k !in open :: TimerOk(k))
      && (forall t {:trigger ArmedOk(t)} | t in armed :: ArmedOk(t))
      && (forall k | k in sessions :: sessions[k].timer < nextTimer)
    }

    ghost predicate Valid()
      reads this, Objects()
    {
      TimersMatch({})
    }

    ghost function Table(): map<Key, Entry>
      reads this, Objects()
    {
      map k | k in sessions :: Entry(sessions[k].context, sessions[k].expiresAt)
    }

    ghost function View(): State
      reads this, Objects()
    {
      State(now, Table(), locked, openings)
    }

    constructor (start: int)
      ensures Valid() && View() == Run([], start)
    {
      now, sessions, armed, nextTimer, locked, openings := start, map[], map[], 1, multiset{}, multiset{};
    }

    method LockSession(key: Key)
      requires TimersMatch({key})
      modifies this`sessions, this`armed, this`locked
      ensures Valid() && sessions == old(sessions) - {key} && Table() == old(Table()) - {key}
      ensures locked == if key in old(sessions) then old(locked) + multiset{key} else old(locked)
    {
      if key !in sessions {
        assert sessions - {key} == sessions;
        return;
      }
      var session := sessions[key];
      armed := armed - {session.timer};
      sessions := sessions - {key};
      locked := locked + multiset{key};
      Dropped(key);
    }

    /** Taking away a session together with its timer keeps the correspondence. */
    twostate lemma Dropped(key: Key)
      requires old(TimersMatch({key})) && key in old(sessions) && nextTimer == old(nextTimer)
      requires sessions == old(sessions) - {key} && armed == old(armed) - {old(sessions[key].timer)}
      requires forall k | k in sessions ::
              sessions[k].timer == old(sessions[k].timer) && sessions[k].expiresAt == old(sessions[k].expiresAt)
      ensures Valid() && Table() == old(Table()) - {key}
    {
      forall k, l | k in sessions && l in sessions && k != l ensures Apart(k, l) { assert old(Apart(k, l)); }
      forall k | k in sessions ensures TimerOk(k) { assert old(TimerOk(k)) && old(Apart(k, key)); }
      forall u | u in armed ensures ArmedOk(u) { assert old(ArmedOk(u)); }
    }

    /** Replaces the timer of a session that has not expired. */
    method ScheduleExpiry(key: Key, session: UnlockedSession)
      requires key in sessions && sessions[key] == session && TimersMatch({key}) && session.expiresAt > now
      modifies this`armed, this`nextTimer, session`timer
      ensures Valid() && Table() == old(Table())
    {
      armed := armed - {session.timer};
      var delay := if session.expiresAt - now > 1 then session.expiresAt - now else 1;
      session.timer := nextTimer;
      armed := armed[nextTimer := Callback(key, session, now + delay)];
      nextTimer := nextTimer + 1;
      assert forall k | k in sessions && k != key :: old(Apart(k, key));
      Rearmed(key);
      SameTable();
    }

    twostate lemma SameTable()
      requires sessions == old(sessions)
      requires forall k | k in sessions :: sessions[k].expiresAt == old(sessions[k].expiresAt)
      ensures Table() == old(Table())
    {
    }

    /** Giving one session a fresh timer, in place of the one it had, completes the correspondence. */
    twostate lemma Rearmed(key: Key)
      requires key in old(sessions) && old(TimersMatch({key}))
      requires sessions == old(sessions) && nextTimer == old(nextTimer) + 1 && sessions[key].timer == old(nextTimer)
      requires forall k | k in sessions && k != key :: sessions[k].timer == old(sessions[k].timer)
      requires forall k | k in sessions :: sessions[k].expiresAt == old(sessions[k].expiresAt)
      requires armed == (old(armed) - {old(sessions[key].timer)})[
                          sessions[key].timer := Callback(key, sessions[key], sessions[key].expiresAt)]
      ensures Valid()
    {
      forall k, l | k in sessions && l in sessions && k != l ensures Apart(k, l) { assert old(Apart(k, l)); }
      forall k | k in sessions ensures TimerOk(k) {
        if k != key { assert old(TimerOk(k)) && old(Apart(k, key)); }
      }
      forall t | t in armed ensures ArmedOk(t) {
        if t != sessions[key].timer { assert old(ArmedOk(t)); }
      }
    }

    /** A timer goes off: it is no longer armed, and its callback runs. Timers may be early or late. */
    method TimerGoesOff(t: nat)
      requires Valid() && t in armed
      modifies this, Objects()
      ensures Valid() && View() == Do(old(View()), TimerFires(old(armed)[t].key))
      // A stale timer never fires: the session that the callback expects is the one in the table.
      ensures old(armed[t].key in sessions && sessions[armed[t].key] == armed[t].session)
    {
      var callback := armed[t];
      var key := callback.key;
      assert ArmedOk(t);
      ghost var before := View();
      armed := armed - {t};
      Disarmed(key);
      assert View() == before;
      var active := sessions[key];
      if active != callback.session { return; }
      if active.expiresAt <= now {
        LockSession(key);
        LockedOne(before, key);
        return;
      }
      ScheduleExpiry(key, active);
    }

    /** A session may be open, that is without its timer. */
    twostate lemma Disarmed(key: Key)
      requires old(TimersMatch({key})) && key in old(sessions) && nextTimer == old(nextTimer)
      requires sessions == old(sessions) && armed == old(armed) - {old(sessions[key].timer)}
      requires forall k | k in sessions :: sessions[k].timer == old(sessions[k].timer)
      requires forall k | k in sessions && k != key :: sessions[k].expiresAt == old(sessions[k].expiresAt)
      ensures TimersMatch({key})
      ensures sessions[key].expiresAt == old(sessions[key].expiresAt) ==> Table() == old(Table())
    {
      forall k, l | k in sessions && l in sessions && k != l ensures Apart(k, l) { assert old(Apart(k, l)); }
      forall k | k in sessions && k != key ensures TimerOk(k) { assert old(TimerOk(k)) && old(Apart(k, key)); }
      forall u | u in armed ensures ArmedOk(u) { assert old(ArmedOk(u)); }
    }

    method GetUnlocked(key: Key) returns (context: Option<Context>)
      requires Valid()
      modifies this, Objects()
      ensures Valid() && View() == Do(old(View()), Get(key)) && context == Answer(old(View()), key)
    {
      ghost var before := View();
      if key !in sessions {
        NothingThere(before, key);
        return None;
      }
      var session := sessions[key];
      if session.expiresAt <= now {
        LockSession(key);
        LockedOne(before, key);
        return None;
      }
      session.expiresAt := now + IDLE_MS;
      assert forall k | k in sessions && k != key :: old(Apart(k, key));
      Extended1(key);
      ScheduleExpiry(key, session);
      context := Some(session.context);
    }

    lemma NothingThere(s: State, key: Key)
      requires key !in s.table
      ensures Do(s, Get(key)) == s
    {
      assert Extended(s, {key}).table == s.table;
    }

    /** Activity on one session moves its limit; its timer is the old one for the moment. */
    twostate lemma Extended1(key: Key)
      requires old(Valid()) && key in old(sessions) && nextTimer == old(nextTimer)
      requires sessions == old(sessions) && armed == old(armed) && now == old(now)
      requires forall k | k in sessions :: sessions[k].timer == old(sessions[k].timer)
      requires forall k | k in sessions && k != key :: sessions[k].expiresAt == old(sessions[k].expiresAt)
      requires sessions[key].expiresAt == now + IDLE_MS
      ensures TimersMatch({key}) && Table() == Extended(old(View()), {key}).table
    {
      forall k, l | k in sessions && l in sessions && k != l ensures Apart(k, l) { assert old(Apart(k, l)); }
      forall k | k in sessions && k != key ensures TimerOk(k) { assert old(TimerOk(k)); }
      forall u | u in armed ensures ArmedOk(u) { assert old(ArmedOk(u)); }
    }

    method RememberUnlocked(key: Key, context: Context)
      requires Valid()
      modifies this, Objects()
      ensures Valid() && View() == Do(old(View()), Remember(key, context))
    {
      RememberStep(View(), key, context);
      if key in sessions {
        armed := armed - {sessions[key].timer};
      } else {
        openings := openings + multiset{key};
      }
      var session := new UnlockedSession(context, now + IDLE_MS);
      sessions := sessions[key := session];
      Replaced(key);
      ScheduleExpiry(key, session);
    }

    lemma RememberStep(s: State, key: Key, context: Context)
      ensures Do(s, Remember(key, context)) ==
              s.(table := s.table[key := Entry(context, s.now + IDLE_MS)],
                 openings := if key in s.table then s.openings else s.openings + multiset{key})
    {
    }

    /** A new session takes the place of the one of its key, whose timer has been cleared. */
    twostate lemma Replaced(key: Key)
      requires old(Valid()) && nextTimer == old(nextTimer) && key in sessions
              && sessions == old(sessions)[key := sessions[key]]
      requires sessions[key] !in old(Objects()) && sessions[key].timer == 0
      requires armed == if key in old(sessions) then old(armed) - {old(sessions[key].timer)} else old(armed)
      requires forall k | k in old(sessions) ::
        old(sessions)[k].timer == old(sessions[k].timer) && old(sessions)[k].expiresAt == old(sessions[k].expiresAt)
      ensures TimersMatch({key})
      ensures Table() == old(Table())[key := Entry(sessions[key].context, sessions[key].expiresAt)]
    {
      forall k, l | k in sessions && l in sessions && k != l ensures Apart(k, l) {
        if k != key && l != key {
          assert old(Apart(k, l));
        } else {
          var other := if k == key then l else k;
          assert old(TimerOk(other)) && old(ArmedOk(sessions[other].timer));
        }
      }
      forall k | k in sessions && k != key ensures TimerOk(k) {
        assert old(TimerOk(k));
        if key in old(sessions) { assert old(Apart(k, key)); }
      }
      forall u | u in armed ensures ArmedOk(u) { assert old(ArmedOk(u)); }
    }

    method ClearSession(key: Key)
      requires Valid()
      modifies this, Objects()
      ensures Valid() && View() == Do(old(View()), Clear(key))
      ensures sessions == old(sessions) - {key}
    {
      LockedOne(View(), key);
      LockSession(key);
    }

    /** The keys of the table in some order. */
    method Keys() returns (keys: seq<Key>)
      ensures Distinct(keys) && forall k :: k in keys <==> k in sessions
    {
      keys := [];
      var todo := sessions.Keys;
      while todo != {}
        invariant todo <= sessions.Keys && Distinct(keys)
        invariant forall k :: k in keys <==> k in sessions && k !in todo
      {
        var k :| k in todo;
        keys := keys + [k];
        todo := todo - {k};
      }
    }

    /** No session object has been put in since. */
    ghost predicate KeptFrom(earlier: map<Key, UnlockedSession>)
      reads this
    {
      forall k {:trigger k in sessions} | k in sessions :: k in earlier && sessions[k] == earlier[k]
    }

    /** Where a loop over the table stands after `i` of its keys. */
    ghost predicate HalfWay(before: State, e: Event, keys: seq<Key>, i: nat)
      requires i <= |keys|
      reads this, Objects()
    {
      Valid() && View() == AfterEach(before, e, keys[..i]) && forall j | i <= j < |keys| :: keys[j] in sessions
    }

    method ClearAllSessions()
      requires Valid()
      modifies this, Objects()
      ensures Valid() && View() == Do(old(View()), ClearAll)
    {
      var keys := Keys();
      EachIsBulk(View(), ClearAll, keys);
      ClearKeys(keys);
    }

    method ClearKeys(keys: seq<Key>)
      requires Valid() && Distinct(keys) && forall k | k in keys :: k in sessions
      modifies this, Objects()
      ensures Valid() && View() == AfterEach(old(View()), ClearAll, keys)
    {
      ghost var before := View();
      for i := 0 to |keys|
        invariant HalfWay(before, ClearAll, keys, i) && KeptFrom(old(sessions))
      {
        EachNext(before, ClearAll, keys, i);
        ClearSession(keys[i]);
      }
      assert keys[..|keys|] == keys;
    }

    /** The page becomes visible: what has expired goes, nothing is extended. */
    method ExpireSessionsWithoutExtending()
      requires Valid()
      modifies this, Objects()
      ensures Valid() && View() == Do(old(View()), Visible)
    {
      var keys := Keys();
      EachIsBulk(View(), Visible, keys);
      ExpireKeys(keys);
    }

    method ExpireKeys(keys: seq<Key>)
      requires Valid() && Distinct(keys) && forall k | k in keys :: k in sessions
      modifies this, Objects()
      ensures Valid() && View() == AfterEach(old(View()), Visible, keys)
    {
      ghost var before := View();
      for i := 0 to |keys|
        invariant HalfWay(before, Visible, keys, i) && KeptFrom(old(sessions))
      {
        EachNext(before, Visible, keys, i);
        ExpireOnly(keys[i]);
      }
      assert keys[..|keys|] == keys;
    }

    /** Pointer, keyboard, touch or wheel: what has expired goes, everything else is extended. */
    method ExpireOrExtendSessions()
      requires Valid()
      modifies this, Objects()
      ensures Valid() && View() == Do(old(View()), Activity)
    {
      var keys := Keys();
      EachIsBulk(View(), Activity, keys);
      TouchKeys(keys);
    }

    method TouchKeys(keys: seq<Key>)
      requires Valid() && Distinct(keys) && forall k | k in keys :: k in sessions
      modifies this, Objects()
      ensures Valid() && View() == AfterEach(old(View()), Activity, keys)
    {
      ghost var before := View();
      for i := 0 to |keys|
        invariant HalfWay(before, Activity, keys, i) && KeptFrom(old(sessions))
      {
        EachNext(before, Activity, keys, i);
        ExpireOrExtend(keys[i], sessions[keys[i]]);
      }
      assert keys[..|keys|] == keys;
    }

    method ExpireOnly(key: Key)
      requires Valid() && key in sessions
      modifies this, Objects()
      ensures Valid() && View() == Do(old(View()), TimerFires(key))
      ensures sessions == old(sessions) || sessions == old(sessions) - {key}
    {
      LockedOne(View(), key);
      if sessions[key].expiresAt <= now { LockSession(key); }
    }

    method ExpireOrExtend(key: Key, session: UnlockedSession)
      requires Valid() && key in sessions && sessions[key] == session
      modifies this, Objects()
      ensures Valid() && View() == Do(old(View()), Get(key))
      ensures sessions == old(sessions) || sessions == old(sessions) - {key}
    {
      ghost var before := View();
      if session.expiresAt <= now {
        LockSession(key);
        LockedOne(before, key);
        return;
      }
      session.expiresAt := now + IDLE_MS;
      assert forall k | k in sessions && k != key :: old(Apart(k, key));
      Extended1(key);
      ScheduleExpiry(key, session);
    }
  }
}
