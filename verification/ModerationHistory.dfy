/**
 The append-only moderation history: triggers that reject every update and
 deletion of an action row, except clearing the actor of an erased user and
 the cascade of a deleted report, which a transaction-local flag announces.
 Erasing a user deletes the reports that the user filed, by a foreign key of
 the reports, and with them their action rows.
 A statement is atomic; a schedule is any list of statements, savepoints,
 rollbacks and commits of a session.
 */
module ModerationHistory {
  import opened Wrappers

  type Id = string

  datatype Action = Action(
    report: Id, tenant: Id, actor: Option<Id>, actorRole: string, actionType: string,
    previousStatus: Option<string>, newStatus: Option<string>, note: Option<string>, createdAt: int)

  datatype Report = Report(tenant: Id, reporter: Id, reported: Option<Id>, status: string)

  /** The three tables; `deletions` counts, for the statement of the theorems only, how often a report was deleted. */
  datatype Tables = Tables(reports: map<Id, Report>, users: set<Id>, actions: map<Id, Action>, deletions: multiset<Id>)

  // ---------- the triggers ----------

  datatype Mutation = Update(before: Action, after: Action) | Delete(before: Action)

  /**
   Whether `reject_collection_moderation_action_mutation` lets the row through; `cleanup` is the flag, `depth` the
   trigger depth.
   */
  predicate LetsThrough(m: Mutation, cleanup: bool, depth: nat) {
    match m
    case Update(o, n) =>
      (cleanup || depth > 1) && o.actor.Some? && n.actor.None? && n.(actor := None) == o.(actor := None)
    case Delete(_) => cleanup
  }

  // ---------- statements ----------

  datatype Statement =
    | InsertReport(id: Id, report: Report)
    | SetStatus(id: Id, status: string)
    | InsertUser(user: Id)
    | InsertAction(id: Id, action: Action)
    | UpdateActions(rows: map<Id, Action>)   // the new version of each row that is hit
    | DeleteActions(ids: set<Id>)
    | EraseUser(user: Id, restricted: bool)   // restricted: a row of another table forbids to delete the user
    | DeleteReports(ids: set<Id>)

  predicate Referenced(db: Tables, a: Action) {
    a.report in db.reports && db.reports[a.report].tenant == a.tenant && (a.actor.Some? ==> a.actor.value in db.users)
  }

  predicate ReportReferenced(db: Tables, r: Report) {
    r.reporter in db.users && (r.reported.Some? ==> r.reported.value in db.users)
  }

  /** The reports that a user filed: they go with the user. */
  function FiledBy(db: Tables, user: Id): set<Id> { set r | r in db.reports && db.reports[r].reporter == user }

  function ReportedCleared(r: Report, user: Id): Report {
    if r.reported == Some(user) then r.(reported := None) else r
  }

  /** The rows that the cascade of the foreign key hits. */
  function Cascade(db: Tables, ids: set<Id>): set<Id> {
    set k | k in db.actions && db.actions[k].report in ids && db.actions[k].report in db.reports
            && db.actions[k].tenant == db.reports[db.actions[k].report].tenant
  }

  function ActorCleared(a: Action, user: Id): Action { if a.actor == Some(user) then a.(actor := None) else a }

  /** The tables without a user. */
  function Erased(db: Tables, user: Id): Tables {
    var filed := FiledBy(db, user);
    Tables(map r | r in db.reports && r !in filed :: ReportedCleared(db.reports[r], user),
           db.users - {user},
           map k | k in db.actions && k !in Cascade(db, filed) :: ActorCleared(db.actions[k], user),
           db.deletions + multiset(filed))
  }

  /** The tables after the statement, or None if it fails and is undone; `cleanup` is the flag before it. */
  function Execute(db: Tables, s: Statement, cleanup: bool): Option<Tables> {
    match s
    case InsertReport(id, report) =>
      if id in db.reports || !ReportReferenced(db, report) then None else Some(db.(reports := db.reports[id := report]))
    case SetStatus(id, status) =>
      Some(if id in db.reports then db.(reports := db.reports[id := db.reports[id].(status := status)]) else db)
    case InsertUser(user) =>
      if user in db.users then None else Some(db.(users := db.users + {user}))
    case InsertAction(id, action) =>
      if id in db.actions || !Referenced(db, action) then None else Some(db.(actions := db.actions[id := action]))
    case UpdateActions(rows) =>
      var hit := map k | k in rows && k in db.actions :: rows[k];
      if (forall k | k in hit :: LetsThrough(Update(db.actions[k], hit[k]), cleanup, 1) && Referenced(db, hit[k]))
      then Some(db.(actions := db.actions + hit)) else None
    case DeleteActions(ids) =>
      if (forall k | k in ids && k in db.actions :: LetsThrough(Delete(db.actions[k]), cleanup, 1))
      then Some(db.(actions := db.actions - ids)) else None
    case EraseUser(user, restricted) =>
      // Three foreign keys react, all from inside other triggers: the reports that the user filed are
      // deleted with their actions, and the user is cleared from other reports and from actions.
      if user !in db.users then Some(db) else if restricted then None else
      var filed := FiledBy(db, user);
      if && (forall k | k in db.actions && db.actions[k].actor == Some(user) ::
               LetsThrough(Update(db.actions[k], ActorCleared(db.actions[k], user)), cleanup || filed != {}, 2))
         && (forall k | k in Cascade(db, filed) :: LetsThrough(Delete(db.actions[k]), cleanup || filed != {}, 2))
      then Some(Erased(db, user)) else None
    case DeleteReports(ids) =>
      // Row triggers switch the flag on for the cascade as soon as one report is hit.
      var hit := set r | r in ids && r in db.reports;
      if (forall k | k in Cascade(db, hit) :: LetsThrough(Delete(db.actions[k]), cleanup || hit != {}, 2))
      then Some(db.(reports := db.reports - hit, actions := db.actions - Cascade(db, hit),
                    deletions := db.deletions + multiset(hit)))
      else None
  }

  /** The flag after a statement: the statement trigger of a report deletion, direct or nested, switches it off. */
  function CleanupAfter(db: Tables, s: Statement, cleanup: bool): bool {
    if s.DeleteReports? || (s.EraseUser? && s.user in db.users) then false else cleanup
  }

  // ---------- a session ----------

  datatype Point = Point(db: Tables, cleanup: bool)

  /** An open transaction: where it stands, its savepoints, and whether it has failed. */
  datatype Transaction = Transaction(here: Point, saved: seq<Point>, failed: bool)

  datatype State = State(committed: Tables, open: Option<Transaction>)

  datatype Step =
    | Begin
    | Run(statement: Statement)
    | Savepoint
    | RollbackTo(n: nat)
    | Commit
    | Rollback

  /**
   One step; one that makes no sense in the state is rejected and changes nothing. The flag ends with its transaction.
   */
  function Do(s: State, step: Step): State {
    if s.open.None? then
      if step.Begin? then State(s.committed, Some(Transaction(Point(s.committed, false), [], false))) else s
    else
      var t := s.open.value;
      match step
      case Begin => s
      case Run(statement) =>
        if t.failed then s else
        var db := Execute(t.here.db, statement, t.here.cleanup);
        if db.None? then s.(open := Some(t.(failed := true)))
        else s.(open := Some(t.(here := Point(db.value, CleanupAfter(t.here.db, statement, t.here.cleanup)))))
      case Savepoint => if t.failed then s else s.(open := Some(t.(saved := t.saved + [t.here])))
      case RollbackTo(n) =>
        if n >= |t.saved| then s else s.(open := Some(Transaction(t.saved[n], t.saved[..n + 1], false)))
      case Commit => State(if t.failed then s.committed else t.here.db, None)
      case Rollback => State(s.committed, None)
  }

  function RunAll(s: State, schedule: seq<Step>): State
    decreases |schedule|
  {
    if schedule == [] then s else Do(RunAll(s, schedule[..|schedule| - 1]), schedule[|schedule| - 1])
  }

  // ---------- what may happen to a row ----------

  /** The row is as it was, or its actor has been cleared. */
  predicate SameButActor(a: Action, b: Action) { b == a || (a.actor.Some? && b == a.(actor := None)) }

  /** Every row of `a` is still there with at most its actor cleared, unless its report has been deleted meanwhile. */
  ghost predicate Evolves(a: Tables, b: Tables) {
    && (forall r :: a.deletions[r] <= b.deletions[r])
    && (forall k | k in a.actions ::
          || b.deletions[a.actions[k].report] > a.deletions[a.actions[k].report]
          || (k in b.actions && SameButActor(a.actions[k], b.actions[k])))
  }

  lemma EvolvesTransitive(a: Tables, b: Tables, c: Tables)
    requires Evolves(a, b) && Evolves(b, c)
    ensures Evolves(a, c)
  {
    forall r ensures a.deletions[r] <= c.deletions[r] { assert a.deletions[r] <= b.deletions[r] <= c.deletions[r]; }
  }

  /**
   With the flag off, a statement that touches action rows directly fails as
   soon as it hits one; the triggers never make the erasure of a user or the
   deletion of reports fail.
   */
  lemma DirectMutationFails(db: Tables, s: Statement)
    ensures s.UpdateActions? ==> (Execute(db, s, false).Some? <==> s.rows.Keys !! db.actions.Keys)
    ensures s.DeleteActions? ==> (Execute(db, s, false).Some? <==> s.ids !! db.actions.Keys)
    ensures s.EraseUser? ==> (Execute(db, s, false).None? <==> s.user in db.users && s.restricted)
    ensures s.DeleteReports? ==> Execute(db, s, false).Some?
  {
    if s.UpdateActions? {
      var hit := map k | k in s.rows && k in db.actions :: s.rows[k];
      if k :| k in s.rows && k in db.actions { assert k in hit && k !in s.rows.Keys - db.actions.Keys; }
    } else if s.DeleteActions? {
      if k :| k in s.ids && k in db.actions { assert !LetsThrough(Delete(db.actions[k]), false, 1); }
    }
  }

  /** The reports that a statement deletes: those named, or those filed by the erased user. */
  function Deleted(db: Tables, s: Statement): set<Id> {
    match s
    case DeleteReports(ids) => ids * db.reports.Keys
    case EraseUser(user, _) => if user in db.users then FiledBy(db, user) else {}
    case _ => {}
  }

  lemma ErasureSucceeds(db: Tables, user: Id)
    requires user in db.users
    ensures Execute(db, EraseUser(user, false), false) == Some(Erased(db, user))
  {
    DirectMutationFails(db, EraseUser(user, false));
  }

  /**
   What a successful statement does to an existing row: it goes with its report, loses its actor, or stays the same.
   */
  lemma StatementOnRow(db: Tables, s: Statement, k: Id)
    requires Execute(db, s, false).Some? && k in db.actions && Referenced(db, db.actions[k])
    ensures var after, a := Execute(db, s, false).value, db.actions[k];
      if a.report in Deleted(db, s) then k !in after.actions
      else if s.EraseUser? && a.actor == Some(s.user) then k in after.actions && after.actions[k] == a.(actor := None)
      else k in after.actions && after.actions[k] == a
  {
    DirectMutationFails(db, s);
    if s.UpdateActions? { assert k !in s.rows.Keys; }
    if s.DeleteActions? { assert k !in s.ids; }
  }

  /** Erasing a user loses exactly the history of the reports that the user filed, whoever acted on them. */
  lemma ErasureLosesExactly(db: Tables, user: Id, k: Id)
    requires AllReferenced(db) && k in db.actions && user in db.users
    ensures Execute(db, EraseUser(user, false), false).Some?
    ensures k !in Execute(db, EraseUser(user, false), false).value.actions
            <==> db.reports[db.actions[k].report].reporter == user
  {
    DirectMutationFails(db, EraseUser(user, false));
    StatementOnRow(db, EraseUser(user, false), k);
  }

  ghost predicate AllReferenced(db: Tables) {
    && (forall k | k in db.actions :: Referenced(db, db.actions[k]))
    && (forall r | r in db.reports :: ReportReferenced(db, db.reports[r]))
  }

  lemma DeletedCounted(db: Tables, s: Statement)
    requires Execute(db, s, false).Some?
    ensures Execute(db, s, false).value.deletions == db.deletions + multiset(Deleted(db, s))
  {
    if s.DeleteReports? { assert Deleted(db, s) == set r | r in s.ids && r in db.reports; }
  }

  lemma StatementKeepsReferences(db: Tables, s: Statement)
    requires Execute(db, s, false).Some? && AllReferenced(db)
    ensures AllReferenced(Execute(db, s, false).value)
  {
    var after := Execute(db, s, false).value;
    DirectMutationFails(db, s);
    forall k | k in after.actions ensures Referenced(after, after.actions[k]) {
      if k in db.actions { StatementOnRow(db, s, k); }
    }
  }

  lemma StatementEvolves(db: Tables, s: Statement)
    requires Execute(db, s, false).Some? && AllReferenced(db)
    ensures Evolves(db, Execute(db, s, false).value)
    ensures AllReferenced(Execute(db, s, false).value)
  {
    var after := Execute(db, s, false).value;
    DeletedCounted(db, s);
    forall k | k in db.actions
      ensures after.deletions[db.actions[k].report] > db.deletions[db.actions[k].report]
              || (k in after.actions && SameButActor(db.actions[k], after.actions[k]))
    {
      StatementOnRow(db, s, k);
    }
    StatementKeepsReferences(db, s);
  }

  // ---------- every statement, row by row ----------

  /**
   The triggers let an update through exactly if it clears an actor and changes nothing else, from inside another
   trigger or while the flag is on; and a deletion exactly while the flag is on.
   */
  lemma TriggerExactly(o: Action, n: Action, cleanup: bool, depth: nat)
    ensures LetsThrough(Update(o, n), cleanup, depth) <==>
            && (cleanup || depth >= 2) && o.actor.Some? && n.actor == None && n.report == o.report
            && n.tenant == o.tenant && n.actorRole == o.actorRole && n.actionType == o.actionType
            && n.previousStatus == o.previousStatus && n.newStatus == o.newStatus && n.note == o.note
            && n.createdAt == o.createdAt
    ensures LetsThrough(Delete(o), cleanup, depth) <==> cleanup
  {
  }

  /**
   With the flag off, a statement fails exactly on a taken id, a missing reference, a direct change, or a restriction.
   */
  lemma FailsExactly(db: Tables, s: Statement)
    ensures Execute(db, s, false) == None <==>
            match s
            case InsertReport(id, r) =>
              id in db.reports || r.reporter !in db.users || (r.reported.Some? && r.reported.value !in db.users)
            case InsertUser(user) => user in db.users
            case InsertAction(id, a) =>
              || id in db.actions || a.report !in db.reports || db.reports[a.report].tenant != a.tenant
              || (a.actor.Some? && a.actor.value !in db.users)
            case UpdateActions(rows) => exists k :: k in rows && k in db.actions
            case DeleteActions(ids) => exists k :: k in ids && k in db.actions
            case EraseUser(user, restricted) => user in db.users && restricted
            case _ => false
  {
    DirectMutationFails(db, s);
  }

  /** Reports come and go only by the statements for it, and a report that stays changes only by the two that may. */
  lemma StatementOnReport(db: Tables, s: Statement, r: Id)
    requires Execute(db, s, false).Some?
    ensures var after := Execute(db, s, false).value;
      if r !in db.reports then
        if s.InsertReport? && s.id == r then r in after.reports && after.reports[r] == s.report else r !in after.reports
      else if s.DeleteReports? && r in s.ids then r !in after.reports
      else if s.EraseUser? && db.reports[r].reporter == s.user && s.user in db.users then r !in after.reports
      else
        && r in after.reports
        && var was, now := db.reports[r], after.reports[r];
        && now.tenant == was.tenant && now.reporter == was.reporter
        && now.status == (if s.SetStatus? && s.id == r then s.status else was.status)
        && now.reported ==
           if s.EraseUser? && was.reported == Some(s.user) && s.user in db.users then None else was.reported
  {
    DirectMutationFails(db, s);
  }

  /** Users come and go only by the two statements for it. */
  lemma StatementOnUser(db: Tables, s: Statement, u: Id)
    requires Execute(db, s, false).Some?
    ensures u in Execute(db, s, false).value.users
            <==> s == InsertUser(u) || (u in db.users && !(s.EraseUser? && s.user == u))
  {
    DirectMutationFails(db, s);
  }

  /** A row appears only by its insertion, and as it was inserted. */
  lemma NewRowIs(db: Tables, s: Statement, k: Id)
    requires Execute(db, s, false).Some? && k !in db.actions
    ensures var after := Execute(db, s, false).value;
      if s.InsertAction? && s.id == k then k in after.actions && after.actions[k] == s.action else k !in after.actions
  {
    DirectMutationFails(db, s);
  }

  /** An existing row goes exactly with its report, and the counter counts exactly the reports that go. */
  lemma RowGoesWithItsReport(db: Tables, s: Statement)
    requires Execute(db, s, false).Some?
    ensures var after := Execute(db, s, false).value;
      && after.deletions == db.deletions + multiset(db.reports.Keys - after.reports.Keys)
      && forall k | k in db.actions && Referenced(db, db.actions[k]) ::
           k in after.actions <==> db.actions[k].report in after.reports
  {
    var after := Execute(db, s, false).value;
    DeletedCounted(db, s);
    forall r ensures r in Deleted(db, s) <==> r in db.reports && r !in after.reports { StatementOnReport(db, s, r); }
    assert Deleted(db, s) == db.reports.Keys - after.reports.Keys;
    forall k | k in db.actions && Referenced(db, db.actions[k])
      ensures k in after.actions <==> db.actions[k].report in after.reports
    {
      StatementOnRow(db, s, k);
    }
  }

  // ---------- every run ----------

  ghost predicate Inv(s: State) {
    && AllReferenced(s.committed)
    && (s.open.Some? ==>
          && PointOk(s.committed, s.open.value.here)
          && forall i | 0 <= i < |s.open.value.saved| :: PointOk(s.committed, s.open.value.saved[i]))
  }

  /** The flag is off, and the tables have only evolved since the last commit. */
  ghost predicate PointOk(committed: Tables, p: Point) { !p.cleanup && AllReferenced(p.db) && Evolves(committed, p.db) }

  lemma StepKeepsInv(s: State, step: Step)
    requires Inv(s)
    ensures Inv(Do(s, step)) && Evolves(s.committed, Do(s, step).committed)
  {
    if s.open.Some? && step.Run? && !s.open.value.failed {
      var here := s.open.value.here;
      var db := Execute(here.db, step.statement, here.cleanup);
      if db.Some? {
        StatementEvolves(here.db, step.statement);
        EvolvesTransitive(s.committed, here.db, db.value);
      }
    }
  }

  lemma {:induction false} RunKeepsInv(s: State, schedule: seq<Step>)
    requires Inv(s)
    ensures Inv(RunAll(s, schedule)) && Evolves(s.committed, RunAll(s, schedule).committed)
  {
    if schedule != [] {
      var mid := RunAll(s, schedule[..|schedule| - 1]);
      RunKeepsInv(s, schedule[..|schedule| - 1]);
      StepKeepsInv(mid, schedule[|schedule| - 1]);
      EvolvesTransitive(s.committed, mid.committed, Do(mid, schedule[|schedule| - 1]).committed);
    }
  }

  /**
   Over every run, rollbacks included: a committed row is still there with at
   most its actor cleared, unless its report was deleted and that was
   committed; and between statements the flag is off, also at every savepoint.
   */
  lemma HistoryIsAppendOnly(s: State, schedule: seq<Step>)
    requires s.open.None? && AllReferenced(s.committed)
    ensures var t := RunAll(s, schedule);
      && (forall k | k in s.committed.actions ::
            var a := s.committed.actions[k];
            || t.committed.deletions[a.report] > s.committed.deletions[a.report]
            || (k in t.committed.actions && SameButActor(a, t.committed.actions[k])))
      && (t.open.Some? ==> !t.open.value.here.cleanup)
      && (t.open.Some? ==> forall i | 0 <= i < |t.open.value.saved| :: !t.open.value.saved[i].cleanup)
  {
    RunKeepsInv(s, schedule);
  }

  /** It happens: a user who filed a report is erased, and a committed row is gone. */
  lemma ErasureLosesHistory(db: Tables, k: Id)
    requires AllReferenced(db) && k in db.actions
    ensures var reporter := db.reports[db.actions[k].report].reporter;
      var t := RunAll(State(db, None), [Begin, Run(EraseUser(reporter, false)), Commit]);
      t.open.None? && k !in t.committed.actions
  {
    var reporter := db.reports[db.actions[k].report].reporter;
    var erase := Run(EraseUser(reporter, false));
    assert Referenced(db, db.actions[k]) && ReportReferenced(db, db.reports[db.actions[k].report]);
    ErasureLosesExactly(db, reporter, k);
    var s0 := State(db, None);
    assert [Begin][..0] == [] && [Begin, erase][..1] == [Begin] && [Begin, erase, Commit][..2] == [Begin, erase];
    assert RunAll(s0, [Begin]) == Do(s0, Begin);
    assert RunAll(s0, [Begin, erase]) == Do(Do(s0, Begin), erase);
  }

  /** The step neither deletes the report nor erases its reporter. */
  predicate Spares(step: Step, report: Id, reporter: Id) {
    step.Run? ==> (step.statement.DeleteReports? ==> report !in step.statement.ids)
                  && (step.statement.EraseUser? ==> step.statement.user != reporter)
  }

  /** In a run that neither deletes a report nor erases its reporter, no row of the report is ever lost. */
  lemma NoDeletionNoLoss(s: State, schedule: seq<Step>, k: Id)
    requires s.open.None? && AllReferenced(s.committed) && k in s.committed.actions
    requires var r := s.committed.actions[k].report;
      forall step | step in schedule :: Spares(step, r, s.committed.reports[r].reporter)
    ensures var t := RunAll(s, schedule);
      k in t.committed.actions && SameButActor(s.committed.actions[k], t.committed.actions[k])
  {
    RunKeepsInv(s, schedule);
    var r := s.committed.actions[k].report;
    SparedRun(s, schedule, r, s.committed.reports[r].reporter);
  }

  /** The report is there, filed by the same user, and has not been deleted since. */
  predicate Spared(was: Tables, db: Tables, report: Id, reporter: Id) {
    report in db.reports && db.reports[report].reporter == reporter && db.deletions[report] == was.deletions[report]
  }

  lemma SparedStatement(was: Tables, db: Tables, s: Statement, report: Id, reporter: Id)
    requires Spared(was, db, report, reporter) && Spares(Run(s), report, reporter) && Execute(db, s, false).Some?
    ensures Spared(was, Execute(db, s, false).value, report, reporter)
  {
    DeletedCounted(db, s);
  }

  lemma {:induction false} SparedRun(s: State, schedule: seq<Step>, report: Id, reporter: Id)
    requires s.open.None? && AllReferenced(s.committed)
    requires report in s.committed.reports && s.committed.reports[report].reporter == reporter
    requires forall step | step in schedule :: Spares(step, report, reporter)
    ensures var t := RunAll(s, schedule);
      && Spared(s.committed, t.committed, report, reporter)
      && (t.open.Some? ==> Spared(s.committed, t.open.value.here.db, report, reporter))
      && (t.open.Some? ==>
            forall i | 0 <= i < |t.open.value.saved| :: Spared(s.committed, t.open.value.saved[i].db, report, reporter))
  {
    if schedule != [] {
      var front, step := schedule[..|schedule| - 1], schedule[|schedule| - 1];
      assert step in schedule && forall e | e in front :: e in schedule;
      SparedRun(s, front, report, reporter);
      RunKeepsInv(s, front);
      var mid := RunAll(s, front);
      if mid.open.Some? && step.Run? && Execute(mid.open.value.here.db, step.statement, false).Some? {
        SparedStatement(s.committed, mid.open.value.here.db, step.statement, report, reporter);
      }
    }
  }

  // ---------- transactions ----------

  /** What is committed changes in no step but the commit of a transaction that has not failed. */
  lemma OnlyCommitCommits(s: State, step: Step)
    ensures Do(s, step).committed ==
            if step == Commit && s.open.Some? && !s.open.value.failed then s.open.value.here.db else s.committed
    ensures s.open == None && step != Begin ==> Do(s, step) == s
  {
  }

  /** The tables after all the statements, or None if one of them fails. */
  function AllDone(db: Tables, statements: seq<Statement>): Option<Tables>
    decreases |statements|
  {
    if statements == [] then Some(db)
    else
      var before := AllDone(db, statements[..|statements| - 1]);
      if before.None? then None else Execute(before.value, statements[|statements| - 1], false)
  }

  function Runs(statements: seq<Statement>): (steps: seq<Step>)
    ensures |steps| == |statements| && forall i | 0 <= i < |steps| :: steps[i] == Run(statements[i])
  {
    seq(|statements|, i requires 0 <= i < |statements| => Run(statements[i]))
  }

  lemma RunOneMore(s: State, front: seq<Step>, last: Step)
    ensures RunAll(s, front + [last]) == Do(RunAll(s, front), last)
  {
    assert (front + [last])[..|front|] == front;
  }

  /** An open transaction that has run the statements from `db`. */
  ghost predicate HasRun(s: State, db: Tables, statements: seq<Statement>) {
    && s.committed == db && s.open.Some? && s.open.value.saved == []
    && match AllDone(db, statements)
       case None => s.open.value.failed
       case Some(now) => !s.open.value.failed && s.open.value.here == Point(now, false)
  }

  lemma {:induction false} StatementsRun(db: Tables, statements: seq<Statement>)
    ensures HasRun(RunAll(State(db, None), [Begin] + Runs(statements)), db, statements)
  {
    if statements == [] {
      assert [Begin] + Runs([]) == [] + [Begin];
      RunOneMore(State(db, None), [], Begin);
    } else {
      var front, last := statements[..|statements| - 1], statements[|statements| - 1];
      StatementsRun(db, front);
      assert [Begin] + Runs(statements) == [Begin] + Runs(front) + [Run(last)];
      RunOneMore(State(db, None), [Begin] + Runs(front), Run(last));
    }
  }

  /** A transaction has all its statements committed, or none of them if one fails or it is rolled back. */
  lemma AllOrNothing(db: Tables, statements: seq<Statement>)
    ensures var after := AllDone(db, statements);
      RunAll(State(db, None), [Begin] + Runs(statements) + [Commit])
        == State(if after.Some? then after.value else db, None)
    ensures RunAll(State(db, None), [Begin] + Runs(statements) + [Rollback]) == State(db, None)
  {
    StatementsRun(db, statements);
    RunOneMore(State(db, None), [Begin] + Runs(statements), Commit);
    RunOneMore(State(db, None), [Begin] + Runs(statements), Rollback);
  }

  /** The step stays inside the transaction and keeps the first `n` savepoints. */
  predicate Keeps(step: Step, n: nat) { step != Commit && step != Rollback && (step.RollbackTo? ==> step.n >= n) }

  /** The savepoints begin with these. */
  ghost predicate Behind(s: State, committed: Tables, saved: seq<Point>) {
    s.committed == committed && s.open.Some? && saved <= s.open.value.saved
  }

  lemma {:induction false} SavepointsLast(s: State, saved: seq<Point>, schedule: seq<Step>)
    requires Behind(s, s.committed, saved) && forall step | step in schedule :: Keeps(step, |saved|)
    ensures Behind(RunAll(s, schedule), s.committed, saved)
    decreases |schedule|
  {
    if schedule != [] {
      var front, last := schedule[..|schedule| - 1], schedule[|schedule| - 1];
      assert Keeps(last, |saved|) && forall step | step in front :: step in schedule;
      SavepointsLast(s, saved, front);
    }
  }

  /**
   Rolling back to a savepoint restores the tables as they were when it was set, whatever happened in between: any
   statements, failed ones too, further savepoints and rollbacks to them.
   */
  lemma SavepointRestores(s: State, schedule: seq<Step>)
    requires s.open.Some? && !s.open.value.failed
    requires forall step | step in schedule :: Keeps(step, |s.open.value.saved| + 1)
    ensures var t := s.open.value;
      RunAll(Do(s, Savepoint), schedule + [RollbackTo(|t.saved|)])
        == State(s.committed, Some(Transaction(t.here, t.saved + [t.here], false)))
  {
    var t := s.open.value;
    var saved := t.saved + [t.here];
    SavepointsLast(Do(s, Savepoint), saved, schedule);
    RunOneMore(Do(s, Savepoint), schedule, RollbackTo(|t.saved|));
    var reached := RunAll(Do(s, Savepoint), schedule).open.value.saved;
    assert reached[..|saved|] == saved;
  }

  // ---------- the triggers at work ----------

  /** All rows of a table, changed in the same way. */
  function Cleared<V>(rows: map<Id, V>, f: V -> V): map<Id, V> { map k | k in rows :: f(rows[k]) }

  /** The tables and the setting of one transaction, changed row by row. */
  class ModerationTables {
    var reports: map<Id, Report>
    var users: set<Id>
    var actions: map<Id, Action>
    var cleanup: bool
    ghost var deletions: multiset<Id>

    ghost function View(): Tables
      reads this
    {
      Tables(reports, users, actions, deletions)
    }

    /** The row trigger before a report is deleted. */
    method AllowCascade()
      modifies this`cleanup
      ensures cleanup
    {
      cleanup := true;
    }

    /** The statement trigger after reports were deleted. */
    method FinishCascade()
      modifies this`cleanup
      ensures !cleanup
    {
      cleanup := false;
    }

    /** Deletes the reports one by one, each after its row trigger. */
    method DeleteReportRows(hit: set<Id>)
      requires hit <= reports.Keys && !cleanup
      modifies this`reports, this`cleanup
      ensures reports == old(reports) - hit && cleanup == (hit != {})
    {
      var todo := hit;
      while todo != {}
        invariant todo <= hit && cleanup == (todo != hit)
        invariant reports == old(reports) - (hit - todo)
      {
        var r :| r in todo;
        AllowCascade();
        reports := reports - {r};
        todo := todo - {r};
      }
      assert hit - {} == hit;
    }

    /** The cascade: each row passes its trigger, since the flag is on. */
    method CascadeRows(doomed: set<Id>)
      requires doomed <= actions.Keys && (doomed != {} ==> cleanup)
      modifies this`actions
      ensures actions == old(actions) - doomed
    {
      var rows := doomed;
      while rows != {}
        invariant rows <= doomed && actions == old(actions) - (doomed - rows)
      {
        var k :| k in rows;
        assert LetsThrough(Delete(actions[k]), cleanup, 2);
        actions := actions - {k};
        rows := rows - {k};
      }
      assert doomed - {} == doomed;
    }

    method DeleteReportsStatement(ids: set<Id>)
      requires !cleanup
      modifies this
      ensures Execute(old(View()), DeleteReports(ids), false) == Some(View()) && !cleanup
    {
      ghost var before := View();
      var hit := set r | r in ids && r in reports;
      var doomed := Cascade(Tables(reports, users, actions, multiset{}), hit);
      assert doomed == Cascade(before, hit);
      DeleteReportRows(hit);
      CascadeRows(doomed);
      FinishCascade();
      deletions := deletions + multiset(hit);
      DirectMutationFails(before, DeleteReports(ids));
    }

    /** The foreign key for the reported user clears that column. */
    method ClearReported(user: Id)
      modifies this`reports
      ensures reports == Cleared(old(reports), (r: Report) => ReportedCleared(r, user))
    {
      reports := map r | r in reports :: ReportedCleared(reports[r], user);
    }

    /** The foreign key of the actions clears the actor, row by row through the trigger, from inside another one. */
    method ClearActor(user: Id)
      modifies this`actions
      ensures actions == Cleared(old(actions), (a: Action) => ActorCleared(a, user))
    {
      var rows := set k | k in actions && actions[k].actor == Some(user);
      ghost var before := actions;
      while rows != {}
        invariant actions.Keys == before.Keys
        invariant forall k | k in rows :: k in before && before[k].actor == Some(user)
        invariant forall k | k in actions ::
                actions[k] == if k in rows then before[k] else ActorCleared(before[k], user)
      {
        var k :| k in rows;
        var cleared := actions[k].(actor := None);
        assert LetsThrough(Update(actions[k], cleared), cleanup, 2);
        actions := actions[k := cleared];
        rows := rows - {k};
      }
    }

    /** The DELETE of a user, with what the three foreign keys do: the nested report deletion runs its triggers. */
    method EraseUserStatement(user: Id, restricted: bool) returns (ok: bool)
      requires !cleanup
      modifies this
      ensures Execute(old(View()), EraseUser(user, restricted), false) == if ok then Some(View()) else None
      ensures !ok ==> View() == old(View())
      ensures !cleanup
    {
      ghost var before := View();
      if user !in users { return true; }
      if restricted { return false; }
      ok := true;
      users := users - {user};
      var filed := set r | r in reports && reports[r].reporter == user;
      var doomed := Cascade(Tables(reports, users, actions, multiset{}), filed);
      assert filed == FiledBy(before, user) && doomed == Cascade(before, filed);
      DeleteReportRows(filed);
      ClearReported(user);
      ClearActor(user);
      CascadeRows(doomed);
      FinishCascade();
      deletions := deletions + multiset(filed);
      ErasureInSteps(before, user, View());
    }
  }

  /** Deleting rows and clearing references one after the other is what erasing a user does at once. */
  lemma ErasureInSteps(db: Tables, user: Id, after: Tables)
    requires user in db.users
    requires var filed := FiledBy(db, user);
      && after.users == db.users - {user} && after.deletions == db.deletions + multiset(filed)
      && after.reports == Cleared(db.reports - filed, (r: Report) => ReportedCleared(r, user))
      && after.actions == Cleared(db.actions, (a: Action) => ActorCleared(a, user)) - Cascade(db, filed)
    ensures Execute(db, EraseUser(user, false), false) == Some(after)
  {
    ErasureSucceeds(db, user);
    assert after.reports == Erased(db, user).reports;
    assert after.actions == Erased(db, user).actions;
  }
}
