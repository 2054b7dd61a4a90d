/** Concurrent reservations (app/services/quota.py): transactions of many tenants interleaved
    statement by statement, each reading committed rows and its own changes. A transaction
    passes the tenant's advisory lock, reads the reserved rows, reads the builds, decides, and
    at last commits or rolls back; releasing a reservation takes no lock. */
module QuotaProtocol {
  import opened Text
  import opened Common
  import opened Quota

  /** Fixed for the whole run: each tenant's plan and scope, the default allocation, and
      whether the database has advisory locks (PostgreSQL) or not (SQLite). */
  datatype Config = Config(
    plan: string -> Option<Plan>,
    platformScope: string -> bool,
    default: Allocation,
    locking: bool)

  type TxId = nat

  datatype Phase =
    | Outside                                    // check_and_reserve not entered, or finished
    | Entered                                    // past the lock statement
    | CountedRows(apps: nat, reserved: set<string>)
    | CountedAll(used: nat)

  /** `passedLock` stays set until the transaction ends: the lock is transaction-scoped. */
  datatype Tx = Tx(tenant: string, passedLock: bool, phase: Phase, inserted: set<Row>, deleted: set<Row>)

  datatype State = State(rows: set<Row>, deployments: set<Deployment>, txs: map<TxId, Tx>, nextId: nat)

  datatype Action =
    | Begin(x: TxId, tenant: string)
    | CheckInstalled(x: TxId, project: string)   // the installer's own look before reserving
    | Lock(x: TxId)
    | ReadRows(x: TxId)
    | ReadBuilds(x: TxId)
    | Decide(x: TxId, project: string, displayName: string)
    | Release(x: TxId, project: string)
    | Commit(x: TxId)
    | Rollback(x: TxId)
    | Builds(deployments: set<Deployment>)       // builds start, progress and end at any time

  /** The rows a transaction sees. */
  function Visible(s: State, tx: Tx): set<Row> {
    s.rows - tx.deleted + tx.inserted
  }

  predicate LockHeld(s: State, tenant: string) {
    exists y :: y in s.txs && s.txs[y].tenant == tenant && s.txs[y].passedLock
  }

  predicate Enabled(cfg: Config, s: State, a: Action) {
    match a
    case Begin(x, _) => x !in s.txs
    case CheckInstalled(x, project) =>
      x in s.txs && DockerRows(Visible(s, s.txs[x]), s.txs[x].tenant, project) == {}
    case Lock(x) =>
      && x in s.txs && s.txs[x].phase.Outside?
      && (cfg.locking ==> s.txs[x].passedLock || !LockHeld(s, s.txs[x].tenant))
    case ReadRows(x) => x in s.txs && s.txs[x].phase.Entered?
    case ReadBuilds(x) => x in s.txs && s.txs[x].phase.CountedRows?
    case Decide(x, _, _) => x in s.txs && s.txs[x].phase.CountedAll?
    case Release(x, _) => x in s.txs
    case Commit(x) => x in s.txs
    case Rollback(x) => x in s.txs
    case Builds(_) => true
  }

  /** The row that a reservation inserts. */
  function NewRow(cfg: Config, id: nat, tenant: string, project: string, displayName: string): Row {
    Reservation(id, tenant, project, PlanAllocation(cfg.plan(tenant), cfg.default), displayName)
  }

  function Put(s: State, x: TxId, tx: Tx): State {
    s.(txs := s.txs[x := tx])
  }

  function Next(cfg: Config, s: State, a: Action): State
    requires Enabled(cfg, s, a)
  {
    match a
    case Begin(x, tenant) => Put(s, x, Tx(tenant, false, Outside, {}, {}))
    case CheckInstalled(_, _) => s
    case Lock(x) => Put(s, x, s.txs[x].(passedLock := true, phase := Entered))
    case ReadRows(x) =>
      var tx := s.txs[x];
      var apps := AppRows(Visible(s, tx), tx.tenant);
      Put(s, x, tx.(phase := CountedRows(|apps|, Projects(apps))))
    case ReadBuilds(x) =>
      var tx := s.txs[x];
      var builds := UnreservedBuilds(s.deployments, tx.tenant, tx.phase.reserved);
      Put(s, x, tx.(phase := CountedAll(tx.phase.apps + |builds|)))
    case Decide(x, project, displayName) =>
      var tx := s.txs[x];
      var plan := cfg.plan(tx.tenant);
      if Admits(plan, cfg.platformScope(tx.tenant), tx.phase.used) then
        var row := NewRow(cfg, s.nextId, tx.tenant, project, displayName);
        Put(s, x, tx.(phase := Outside, inserted := tx.inserted + {row})).(nextId := s.nextId + 1)
      else
        Put(s, x, tx.(phase := Outside))
    case Release(x, project) =>
      var tx := s.txs[x];
      var gone := ReleasedRows(Visible(s, tx), tx.tenant, project);
      Put(s, x, tx.(inserted := tx.inserted - gone, deleted := tx.deleted + gone))
    case Commit(x) => s.(rows := Visible(s, s.txs[x]), txs := s.txs - {x})
    case Rollback(x) => s.(txs := s.txs - {x})
    case Builds(deployments) => s.(deployments := deployments)
  }

  /** The state after these actions, or None when one of them was not possible. */
  function Exec(cfg: Config, s: State, actions: seq<Action>): Option<State>
    decreases |actions|
  {
    if actions == [] then Some(s)
    else if Enabled(cfg, s, actions[0]) then Exec(cfg, Next(cfg, s, actions[0]), actions[1..])
    else None
  }

  // ------------------------------------------------------------ the invariant

  function Cap(cfg: Config, tenant: string): int {
    Max(0, MaxApps(cfg.plan(tenant)))
  }

  /** At most the plan's number of reservations, each with the plan's share. */
  ghost predicate InQuota(cfg: Config, rows: set<Row>, tenant: string) {
    && |AppRows(rows, tenant)| <= Cap(cfg, tenant)
    && forall r :: r in AppRows(rows, tenant) ==> AllocatedAs(r, PlanAllocation(cfg.plan(tenant), cfg.default))
  }

  ghost predicate CommittedOk(cfg: Config, s: State) {
    forall t :: !cfg.platformScope(t) ==> InQuota(cfg, s.rows, t)
  }

  ghost predicate TxOk(cfg: Config, s: State, tx: Tx) {
    && (forall r :: r in tx.inserted + tx.deleted ==> r.tenant == tx.tenant)
    && (tx.inserted != {} || !tx.phase.Outside? ==> tx.passedLock)
    && (tx.passedLock && !cfg.platformScope(tx.tenant) ==> InQuota(cfg, Visible(s, tx), tx.tenant))
    && (tx.phase.CountedRows? ==> |AppRows(Visible(s, tx), tx.tenant)| <= tx.phase.apps)
    && (tx.phase.CountedAll? ==> |AppRows(Visible(s, tx), tx.tenant)| <= tx.phase.used)
  }

  ghost predicate Exclusive(s: State) {
    forall x, y :: x in s.txs && y in s.txs && x != y && s.txs[x].passedLock && s.txs[y].passedLock
                   ==> s.txs[x].tenant != s.txs[y].tenant
  }

  ghost predicate Inv(cfg: Config, s: State) {
    && CommittedOk(cfg, s)
    && Exclusive(s)
    && forall x :: x in s.txs ==> TxOk(cfg, s, s.txs[x])
  }

  lemma FewerRows(cfg: Config, rows: set<Row>, more: set<Row>, tenant: string)
    requires AppRows(rows, tenant) <= AppRows(more, tenant)
    ensures |AppRows(rows, tenant)| <= |AppRows(more, tenant)|
    ensures InQuota(cfg, more, tenant) ==> InQuota(cfg, rows, tenant)
  {
    SubsetSize(AppRows(rows, tenant), AppRows(more, tenant));
  }

  /** A step that commits nothing needs checking only for its own transaction. */
  lemma OwnStepKeepsInv(cfg: Config, s: State, after: State, x: TxId)
    requires Inv(cfg, s) && after.rows == s.rows && x in after.txs
    requires forall y :: y in after.txs && y != x ==> y in s.txs && after.txs[y] == s.txs[y]
    requires TxOk(cfg, after, after.txs[x]) && Exclusive(after)
    ensures Inv(cfg, after)
  {
    hide InQuota;
    forall y | y in after.txs && y != x
      ensures TxOk(cfg, after, after.txs[y])
    {
      assert TxOk(cfg, s, s.txs[y]);
    }
  }

  lemma LockKeepsInv(cfg: Config, s: State, x: TxId)
    requires cfg.locking && Inv(cfg, s) && Enabled(cfg, s, Lock(x))
    ensures Inv(cfg, Next(cfg, s, Lock(x)))
  {
    var tx, after := s.txs[x], Next(cfg, s, Lock(x));
    assert TxOk(cfg, s, tx);
    if !tx.passedLock {
      FewerRows(cfg, Visible(after, after.txs[x]), s.rows, tx.tenant);
    }
    OwnStepKeepsInv(cfg, s, after, x);
  }

  lemma OneMoreRow(cfg: Config, rows: set<Row>, row: Row, used: nat)
    requires |AppRows(rows, row.tenant)| <= used
    requires AllocatedAs(row, PlanAllocation(cfg.plan(row.tenant), cfg.default))
    requires InQuota(cfg, rows, row.tenant) && used + 1 <= MaxApps(cfg.plan(row.tenant))
    ensures InQuota(cfg, rows + {row}, row.tenant)
  {
    var before, now := AppRows(rows, row.tenant), AppRows(rows + {row}, row.tenant);
    assert now <= before + {row};
    SubsetSize(now, before + {row});
  }

  lemma DecideKeepsInv(cfg: Config, s: State, a: Action)
    requires Inv(cfg, s) && a.Decide? && Enabled(cfg, s, a)
    ensures Inv(cfg, Next(cfg, s, a))
  {
    hide InQuota, AppRows, PlanAllocation, MaxApps;
    var tx, after := s.txs[a.x], Next(cfg, s, a);
    assert TxOk(cfg, s, tx);
    if after.nextId != s.nextId && !cfg.platformScope(tx.tenant) {
      OneMoreRow(cfg, Visible(s, tx), NewRow(cfg, s.nextId, tx.tenant, a.project, a.displayName), tx.phase.used);
      assert Visible(after, after.txs[a.x])
          == Visible(s, tx) + {NewRow(cfg, s.nextId, tx.tenant, a.project, a.displayName)};
    }
    OwnStepKeepsInv(cfg, s, after, a.x);
  }

  lemma ReleaseKeepsInv(cfg: Config, s: State, a: Action)
    requires Inv(cfg, s) && a.Release? && Enabled(cfg, s, a)
    ensures Inv(cfg, Next(cfg, s, a))
  {
    var tx, after := s.txs[a.x], Next(cfg, s, a);
    assert TxOk(cfg, s, tx);
    FewerRows(cfg, Visible(after, after.txs[a.x]), Visible(s, tx), tx.tenant);
    OwnStepKeepsInv(cfg, s, after, a.x);
  }

  lemma CommitKeepsInv(cfg: Config, s: State, x: TxId)
    requires Inv(cfg, s) && x in s.txs
    ensures Inv(cfg, Next(cfg, s, Commit(x)))
  {
    var tx, after := s.txs[x], Next(cfg, s, Commit(x));
    assert TxOk(cfg, s, tx);
    forall t | !cfg.platformScope(t)
      ensures InQuota(cfg, after.rows, t)
    {
      assert InQuota(cfg, s.rows, t);
      if t != tx.tenant || !tx.passedLock {
        FewerRows(cfg, after.rows, s.rows, t);
      }
    }
    forall y | y in after.txs
      ensures TxOk(cfg, after, after.txs[y])
    {
      var other := s.txs[y];
      assert TxOk(cfg, s, other);
      if other.passedLock {
        FewerRows(cfg, Visible(after, other), Visible(s, other), other.tenant);
      }
    }
  }

  lemma RollbackKeepsInv(cfg: Config, s: State, x: TxId)
    requires Inv(cfg, s) && x in s.txs
    ensures Inv(cfg, Next(cfg, s, Rollback(x)))
  {
    hide InQuota;
    forall y | y in s.txs
      ensures TxOk(cfg, Next(cfg, s, Rollback(x)), s.txs[y])
    {
      assert TxOk(cfg, s, s.txs[y]);
    }
  }

  lemma BuildsKeepInv(cfg: Config, s: State, a: Action)
    requires Inv(cfg, s) && a.Builds?
    ensures Inv(cfg, Next(cfg, s, a))
  {
    hide InQuota;
    forall y | y in s.txs
      ensures TxOk(cfg, Next(cfg, s, a), s.txs[y])
    {
      assert TxOk(cfg, s, s.txs[y]);
    }
  }

  lemma ReadKeepsInv(cfg: Config, s: State, a: Action)
    requires Inv(cfg, s) && Enabled(cfg, s, a) && (a.Begin? || a.ReadRows? || a.ReadBuilds?)
    ensures Inv(cfg, Next(cfg, s, a))
  {
    hide InQuota;
    assert a.x in s.txs ==> TxOk(cfg, s, s.txs[a.x]);
    OwnStepKeepsInv(cfg, s, Next(cfg, s, a), a.x);
  }

  /** With the lock, every step of every transaction keeps the invariant. */
  lemma StepKeepsInv(cfg: Config, s: State, a: Action)
    requires cfg.locking && Inv(cfg, s) && Enabled(cfg, s, a)
    ensures Inv(cfg, Next(cfg, s, a))
  {
    hide Inv;
    match a
    case Lock(x) => LockKeepsInv(cfg, s, x);
    case Decide(_, _, _) => DecideKeepsInv(cfg, s, a);
    case Release(_, _) => ReleaseKeepsInv(cfg, s, a);
    case Commit(x) => CommitKeepsInv(cfg, s, x);
    case Rollback(x) => RollbackKeepsInv(cfg, s, x);
    case Builds(_) => BuildsKeepInv(cfg, s, a);
    case CheckInstalled(_, _) =>
    case _ =>
      ReadKeepsInv(cfg, s, a);
  }

  // ------------------------------------------------------------ main results

  /** With the lock, under every interleaving and whatever builds appear: a billed tenant never
      has more reservations than its plan allows, counting committed rows and, for the
      transaction that holds the tenant's lock, its own pending changes. */
  lemma {:induction false} ReservationsNeverExceedPlan(cfg: Config, s: State, actions: seq<Action>)
    requires cfg.locking && Inv(cfg, s)
    requires Exec(cfg, s, actions).Some?
    ensures var end := Exec(cfg, s, actions).value;
            && Inv(cfg, end)
            && (forall t :: !cfg.platformScope(t) ==> |AppRows(end.rows, t)| <= Cap(cfg, t))
            && (forall x :: x in end.txs && end.txs[x].passedLock && !cfg.platformScope(end.txs[x].tenant) ==>
                  |AppRows(Visible(end, end.txs[x]), end.txs[x].tenant)| <= Cap(cfg, end.txs[x].tenant))
    decreases |actions|
  {
    if actions != [] {
      StepKeepsInv(cfg, s, actions[0]);
      ReservationsNeverExceedPlan(cfg, Next(cfg, s, actions[0]), actions[1..]);
    } else {
      forall t | !cfg.platformScope(t)
        ensures |AppRows(s.rows, t)| <= Cap(cfg, t)
      {
        assert InQuota(cfg, s.rows, t);
      }
    }
  }

  /** The empty database satisfies the invariant, so the results hold from the start. */
  lemma FreshDatabaseIsOk(cfg: Config, deployments: set<Deployment>)
    ensures Inv(cfg, State({}, deployments, map[], 0))
  {
    forall t
      ensures AppRows({}, t) == {}
    {
    }
  }

  /** In every such state the recorded CPU, memory and disk of a billed tenant add up to no
      more than its plan, or than the defaults for as many apps as the plan allows. */
  lemma RecordedUsageStaysInBudget(cfg: Config, s: State, actions: seq<Action>, tenant: string)
    requires cfg.locking && Inv(cfg, s) && NonNegative(cfg.default)
    requires Exec(cfg, s, actions).Some?
    requires !cfg.platformScope(tenant) && cfg.plan(tenant).Some?
    ensures WithinBudget(TotalUsage(AppRows(Exec(cfg, s, actions).value.rows, tenant), cfg.default),
                         cfg.plan(tenant).value, cfg.default)
  {
    ReservationsNeverExceedPlan(cfg, s, actions);
    var end := Exec(cfg, s, actions).value;
    assert InQuota(cfg, end.rows, tenant);
    UsageStaysInBudget(AppRows(end.rows, tenant), cfg.plan(tenant).value, cfg.default);
  }

  // ------------------------------------------------------------ what goes wrong

  lemma {:induction false} ExecAppend(cfg: Config, s: State, a: seq<Action>, b: seq<Action>)
    requires Exec(cfg, s, a).Some?
    ensures Exec(cfg, s, a + b) == Exec(cfg, Exec(cfg, s, a).value, b)
    decreases |a|
  {
    if a == [] {
      assert a + b == b;
    } else {
      assert (a + b)[0] == a[0] && (a + b)[1..] == a[1..] + b;
      ExecAppend(cfg, Next(cfg, s, a[0]), a[1..], b);
    }
  }

  lemma ExecCons(cfg: Config, s: State, a: Action, rest: seq<Action>)
    requires Enabled(cfg, s, a)
    ensures Exec(cfg, s, [a] + rest) == Exec(cfg, Next(cfg, s, a), rest)
  {
    assert ([a] + rest)[1..] == rest;
  }

  /** One transaction's way up to its count. */
  function Counting(x: TxId, tenant: string, project: string): seq<Action> {
    [Begin(x, tenant), CheckInstalled(x, project), Lock(x), ReadRows(x), ReadBuilds(x)]
  }

  function Reserving(x: TxId, project: string): seq<Action> {
    [Decide(x, project, project), Commit(x)]
  }

  lemma NothingInstalled(rows: set<Row>, tenant: string, project: string)
    requires AppRows(rows, tenant) == {}
    ensures DockerRows(rows, tenant, project) == {}
    ensures Projects({}) == {} && UnreservedBuilds({}, tenant, {}) == {}
  {
    assert DockerRows(rows, tenant, project) <= AppRows(rows, tenant);
  }

  lemma CountingReaches(cfg: Config, s: State, x: TxId, tenant: string, project: string)
    requires x !in s.txs && AppRows(s.rows, tenant) == {} && s.deployments == {}
    requires cfg.locking ==> !LockHeld(s, tenant)
    ensures Exec(cfg, s, Counting(x, tenant, project))
         == Some(Put(s, x, Tx(tenant, true, CountedAll(0), {}, {})))
  {
    hide AppRows, UnreservedBuilds, Projects, DockerRows;
    NothingInstalled(s.rows, tenant, project);
    var s1 := Next(cfg, s, Begin(x, tenant));
    assert Visible(s1, s1.txs[x]) == s.rows;
    var s2 := Next(cfg, s1, CheckInstalled(x, project));
    var s3 := Next(cfg, s2, Lock(x));
    assert Visible(s3, s3.txs[x]) == s.rows;
    var s4 := Next(cfg, s3, ReadRows(x));
    assert s4.txs[x].phase == CountedRows(0, {});
    var s5 := Next(cfg, s4, ReadBuilds(x));
    assert s5 == Put(s, x, Tx(tenant, true, CountedAll(0), {}, {}));
    ExecCons(cfg, s4, ReadBuilds(x), []);
    ExecCons(cfg, s3, ReadRows(x), [ReadBuilds(x)]);
    ExecCons(cfg, s2, Lock(x), [ReadRows(x), ReadBuilds(x)]);
    ExecCons(cfg, s1, CheckInstalled(x, project), [Lock(x), ReadRows(x), ReadBuilds(x)]);
    ExecCons(cfg, s, Begin(x, tenant), [CheckInstalled(x, project), Lock(x), ReadRows(x), ReadBuilds(x)]);
  }

  lemma ReservingReaches(cfg: Config, s: State, x: TxId, project: string)
    requires x in s.txs && s.txs[x].phase.CountedAll? && s.txs[x].inserted == {} && s.txs[x].deleted == {}
    requires Admits(cfg.plan(s.txs[x].tenant), cfg.platformScope(s.txs[x].tenant), s.txs[x].phase.used)
    ensures Exec(cfg, s, Reserving(x, project))
         == Some(State(s.rows + {NewRow(cfg, s.nextId, s.txs[x].tenant, project, project)},
                       s.deployments, s.txs - {x}, s.nextId + 1))
  {
    var s1 := Next(cfg, s, Decide(x, project, project));
    var s2 := Next(cfg, s1, Commit(x));
    assert s2.txs == s.txs - {x};
    assert s2.rows == s.rows + {NewRow(cfg, s.nextId, s.txs[x].tenant, project, project)};
    ExecCons(cfg, s1, Commit(x), []);
    ExecCons(cfg, s, Decide(x, project, project), [Commit(x)]);
  }

  /** A reservation's life: a transaction that commits leaves exactly the new row behind, and one
      that rolls back leaves nothing. */
  lemma CommitOrRollback(cfg: Config, s: State, x: TxId, tenant: string, project: string)
    requires x !in s.txs && AppRows(s.rows, tenant) == {} && s.deployments == {}
    requires cfg.locking ==> !LockHeld(s, tenant)
    requires cfg.platformScope(tenant) || MaxApps(cfg.plan(tenant)) >= 1
    ensures var committed := Exec(cfg, s, Counting(x, tenant, project) + Reserving(x, project));
            && committed.Some? && committed.value.txs == s.txs
            && committed.value.rows == s.rows + {NewRow(cfg, s.nextId, tenant, project, project)}
    ensures var rolledBack := Exec(cfg, s, Counting(x, tenant, project)
                                           + [Decide(x, project, project), Rollback(x)]);
            && rolledBack.Some? && rolledBack.value.txs == s.txs && rolledBack.value.rows == s.rows
  {
    hide Exec, Next, Counting, NewRow;
    CountingReaches(cfg, s, x, tenant, project);
    var counted := Put(s, x, Tx(tenant, true, CountedAll(0), {}, {}));
    ReservingReaches(cfg, counted, x, project);
    ExecAppend(cfg, s, Counting(x, tenant, project), Reserving(x, project));
    assert counted.txs - {x} == s.txs;
    RollbackReaches(cfg, counted, x, project);
    ExecAppend(cfg, s, Counting(x, tenant, project), [Decide(x, project, project), Rollback(x)]);
  }

  lemma RollbackReaches(cfg: Config, s: State, x: TxId, project: string)
    requires x in s.txs && s.txs[x].phase.CountedAll?
    ensures var end := Exec(cfg, s, [Decide(x, project, project), Rollback(x)]);
            end.Some? && end.value.rows == s.rows && end.value.txs == s.txs - {x}
  {
    hide NewRow, Admits;
    var s1 := Next(cfg, s, Decide(x, project, project));
    var s2 := Next(cfg, s1, Rollback(x));
    assert s2.txs == s.txs - {x};
    ExecCons(cfg, s1, Rollback(x), []);
    ExecCons(cfg, s, Decide(x, project, project), [Rollback(x)]);
  }

  /** A transaction that releases a project and commits deletes exactly the tenant's app rows of
      that name. */
  lemma ReleaseReaches(cfg: Config, s: State, x: TxId, tenant: string, project: string)
    requires x !in s.txs
    ensures var end := Exec(cfg, s, [Begin(x, tenant), Release(x, project), Commit(x)]);
            && end.Some? && end.value.txs == s.txs
            && forall r :: r in end.value.rows <==>
                 r in s.rows && !(r.tenant == tenant && r.kind == "app" && r.externalId == project)
  {
    var s1 := Next(cfg, s, Begin(x, tenant));
    assert Visible(s1, s1.txs[x]) == s.rows;
    var s2 := Next(cfg, s1, Release(x, project));
    var s3 := Next(cfg, s2, Commit(x));
    assert s3.txs == s.txs;
    ExecCons(cfg, s2, Commit(x), []);
    ExecCons(cfg, s1, Release(x, project), [Commit(x)]);
    ExecCons(cfg, s, Begin(x, tenant), [Release(x, project), Commit(x)]);
  }

  /** Transactions 1 to n all count. */
  function CountAll(tenant: string, n: nat): seq<Action> {
    if n == 0 then [] else CountAll(tenant, n - 1) + Counting(n, tenant, Dec(n))
  }

  /** Then they all reserve. */
  function ReserveAll(n: nat): seq<Action> {
    if n == 0 then [] else ReserveAll(n - 1) + Reserving(n, Dec(n))
  }

  const Empty := State({}, {}, map[], 0)

  /** Transactions first + 1 to last have counted no app, and the others are gone. */
  ghost function Racing(rows: set<Row>, tenant: string, first: nat, last: nat): State {
    State(rows, {}, map x | x in UpTo(last) && first < x :: Tx(tenant, true, CountedAll(0), {}, {}), first)
  }

  ghost function RacedRow(cfg: Config, tenant: string, x: nat): Row
    requires x > 0
  {
    NewRow(cfg, x - 1, tenant, Dec(x), Dec(x))
  }

  ghost function RacedRows(cfg: Config, tenant: string, n: nat): set<Row> {
    set x | 0 < x <= n :: RacedRow(cfg, tenant, x)
  }

  lemma {:induction false} AllCount(cfg: Config, tenant: string, n: nat)
    requires !cfg.locking
    ensures Exec(cfg, Empty, CountAll(tenant, n)) == Some(Racing({}, tenant, 0, n))
  {
    hide Counting, Next;
    if n == 0 {
      assert Racing({}, tenant, 0, 0) == Empty;
    } else {
      AllCount(cfg, tenant, n - 1);
      ExecAppend(cfg, Empty, CountAll(tenant, n - 1), Counting(n, tenant, Dec(n)));
      assert AppRows({}, tenant) == {};
      CountingReaches(cfg, Racing({}, tenant, 0, n - 1), n, tenant, Dec(n));
      assert Put(Racing({}, tenant, 0, n - 1), n, Tx(tenant, true, CountedAll(0), {}, {})) == Racing({}, tenant, 0, n);
    }
  }

  lemma {:induction false} AllReserve(cfg: Config, tenant: string, j: nat, n: nat)
    requires j <= n && !cfg.platformScope(tenant) && MaxApps(cfg.plan(tenant)) >= 1
    ensures Exec(cfg, Racing({}, tenant, 0, n), ReserveAll(j))
         == Some(Racing(RacedRows(cfg, tenant, j), tenant, j, n))
  {
    hide Reserving, Next, NewRow;
    if j == 0 {
      assert RacedRows(cfg, tenant, 0) == {};
    } else {
      AllReserve(cfg, tenant, j - 1, n);
      var s := Racing(RacedRows(cfg, tenant, j - 1), tenant, j - 1, n);
      ExecAppend(cfg, Racing({}, tenant, 0, n), ReserveAll(j - 1), Reserving(j, Dec(j)));
      ReservingReaches(cfg, s, j, Dec(j));
      assert RacedRows(cfg, tenant, j) == RacedRows(cfg, tenant, j - 1) + {RacedRow(cfg, tenant, j)};
      assert s.txs - {j} == Racing(s.rows, tenant, j, n).txs;
    }
  }

  lemma {:induction false} RacedRowsSize(cfg: Config, tenant: string, n: nat)
    ensures AppRows(RacedRows(cfg, tenant, n), tenant) == RacedRows(cfg, tenant, n)
    ensures |RacedRows(cfg, tenant, n)| == n
  {
    hide NewRow, RacedRow, AppRows;
    OwnRows(cfg, tenant, n);
    if n == 0 {
      assert RacedRows(cfg, tenant, 0) == {};
    } else {
      RacedRowsSize(cfg, tenant, n - 1);
      assert RacedRows(cfg, tenant, n) == RacedRows(cfg, tenant, n - 1) + {RacedRow(cfg, tenant, n)};
      assert RacedRow(cfg, tenant, n) !in RacedRows(cfg, tenant, n - 1);
    }
  }

  lemma OwnRows(cfg: Config, tenant: string, n: nat)
    ensures AppRows(RacedRows(cfg, tenant, n), tenant) == RacedRows(cfg, tenant, n)
    ensures n > 0 ==> RacedRow(cfg, tenant, n) !in RacedRows(cfg, tenant, n - 1)
  {
    assert forall x :: 0 < x <= n ==> RacedRow(cfg, tenant, x).id == x - 1;
    assert forall x :: 0 < x <= n ==> RacedRow(cfg, tenant, x).tenant == tenant;
  }

  /** Without the lock no plan that admits an app at all has a bound: when n transactions count
      before any of them reserves, all n get in. */
  lemma WithoutLockQuotaIsExceeded(cfg: Config, tenant: string, n: nat)
    requires !cfg.locking && !cfg.platformScope(tenant) && MaxApps(cfg.plan(tenant)) >= 1
    ensures var end := Exec(cfg, Empty, CountAll(tenant, n) + ReserveAll(n));
            end.Some? && |AppRows(end.value.rows, tenant)| == n
  {
    AllCount(cfg, tenant, n);
    AllReserve(cfg, tenant, n, n);
    ExecAppend(cfg, Empty, CountAll(tenant, n), ReserveAll(n));
    RacedRowsSize(cfg, tenant, n);
  }

  /** Two installs of one project both look for it before either takes the lock. */
  function BothLook(tenant: string, project: string): seq<Action> {
    [Begin(1, tenant), CheckInstalled(1, project), Begin(2, tenant), CheckInstalled(2, project)]
  }

  function CountUnderLock(x: TxId): seq<Action> {
    [Lock(x), ReadRows(x), ReadBuilds(x)]
  }

  function DoubleInstall(tenant: string, project: string): seq<Action> {
    BothLook(tenant, project)
    + (CountUnderLock(1) + (Reserving(1, project) + (CountUnderLock(2) + Reserving(2, project))))
  }

  function Waiting(tenant: string): Tx {
    Tx(tenant, false, Outside, {}, {})
  }

  lemma BothLookReaches(cfg: Config, tenant: string, project: string)
    ensures Exec(cfg, State({}, {}, map[], 0), BothLook(tenant, project))
         == Some(State({}, {}, map[1 := Waiting(tenant), 2 := Waiting(tenant)], 0))
  {
    var s0, w := State({}, {}, map[], 0), Waiting(tenant);
    var s1, s2 := Put(s0, 1, w), Put(Put(s0, 1, w), 2, w);
    assert Visible(s1, w) == {} && Visible(s2, w) == {} && AppRows({}, tenant) == {};
    ExecCons(cfg, s2, CheckInstalled(2, project), []);
    ExecCons(cfg, s1, Begin(2, tenant), [CheckInstalled(2, project)]);
    ExecCons(cfg, s1, CheckInstalled(1, project), [Begin(2, tenant), CheckInstalled(2, project)]);
    ExecCons(cfg, s0, Begin(1, tenant), [CheckInstalled(1, project), Begin(2, tenant), CheckInstalled(2, project)]);
  }

  /** The lock alone does not keep one project from being reserved twice: the installer looks
      for an existing reservation before it takes the lock, so two installs of the same
      project can both find none. */
  lemma SameProjectReservedTwice(cfg: Config, tenant: string, project: string)
    requires cfg.locking && !cfg.platformScope(tenant) && MaxApps(cfg.plan(tenant)) >= 2
    ensures var end := Exec(cfg, State({}, {}, map[], 0), DoubleInstall(tenant, project));
            end.Some? && !DistinctProjects(AppRows(end.value.rows, tenant))
  {
    hide Exec, Next, Reserving, CountUnderLock, BothLook;
    var w := Waiting(tenant);
    var rowA, rowB := NewRow(cfg, 0, tenant, project, project), NewRow(cfg, 1, tenant, project, project);
    var s2 := State({}, {}, map[1 := w, 2 := w], 0);
    BothLookReaches(cfg, tenant, project);
    FirstInstall(cfg, s2, tenant, project);
    var s4 := State({rowA}, {}, map[2 := w], 1);
    SecondInstall(cfg, s4, tenant, project);
    var tail := CountUnderLock(2) + Reserving(2, project);
    ExecAppend(cfg, State({}, {}, map[], 0), BothLook(tenant, project),
               CountUnderLock(1) + (Reserving(1, project) + tail));
    var head := CountUnderLock(1) + Reserving(1, project);
    assert CountUnderLock(1) + (Reserving(1, project) + tail) == head + tail;
    ExecAppend(cfg, s2, head, tail);
    var end := Exec(cfg, s4, tail).value;
    assert rowA in AppRows(end.rows, tenant) && rowB in AppRows(end.rows, tenant) && rowA.id != rowB.id;
  }

  lemma FirstInstall(cfg: Config, s: State, tenant: string, project: string)
    requires s == State({}, {}, map[1 := Waiting(tenant), 2 := Waiting(tenant)], 0)
    requires Admits(cfg.plan(tenant), cfg.platformScope(tenant), 0)
    ensures Exec(cfg, s, CountUnderLock(1) + Reserving(1, project))
         == Some(State({NewRow(cfg, 0, tenant, project, project)}, {}, map[2 := Waiting(tenant)], 1))
  {
    LockedCount(cfg, s, 1);
    assert AppRows({}, tenant) == {};
    var s1 := Put(s, 1, Tx(tenant, true, CountedAll(0), {}, {}));
    ReservingReaches(cfg, s1, 1, project);
    ExecAppend(cfg, s, CountUnderLock(1), Reserving(1, project));
    assert s1.txs - {1} == map[2 := Waiting(tenant)];
    assert {} + {NewRow(cfg, 0, tenant, project, project)} == {NewRow(cfg, 0, tenant, project, project)};
  }

  lemma SecondInstall(cfg: Config, s: State, tenant: string, project: string)
    requires s == State({NewRow(cfg, 0, tenant, project, project)}, {}, map[2 := Waiting(tenant)], 1)
    requires Admits(cfg.plan(tenant), cfg.platformScope(tenant), 1)
    ensures var end := Exec(cfg, s, CountUnderLock(2) + Reserving(2, project));
            end.Some? && end.value.rows == s.rows + {NewRow(cfg, 1, tenant, project, project)}
  {
    LockedCount(cfg, s, 2);
    assert AppRows(s.rows, tenant) == s.rows;
    ReservingReaches(cfg, Put(s, 2, Tx(tenant, true, CountedAll(1), {}, {})), 2, project);
    ExecAppend(cfg, s, CountUnderLock(2), Reserving(2, project));
  }

  lemma LockedCount(cfg: Config, s: State, x: TxId)
    requires x in s.txs && s.txs[x] == Tx(s.txs[x].tenant, false, Outside, {}, {})
    requires s.deployments == {} && !LockHeld(s, s.txs[x].tenant)
    ensures Exec(cfg, s, [Lock(x), ReadRows(x), ReadBuilds(x)])
         == Some(Put(s, x, Tx(s.txs[x].tenant, true, CountedAll(|AppRows(s.rows, s.txs[x].tenant)|), {}, {})))
  {
    var tenant := s.txs[x].tenant;
    var s1 := Next(cfg, s, Lock(x));
    assert Visible(s1, s1.txs[x]) == s.rows;
    var s2 := Next(cfg, s1, ReadRows(x));
    var apps := AppRows(s.rows, tenant);
    assert s2.txs[x].phase == CountedRows(|apps|, Projects(apps));
    assert UnreservedBuilds({}, tenant, Projects(apps)) == {};
    var s3 := Next(cfg, s2, ReadBuilds(x));
    assert s3 == Put(s, x, Tx(tenant, true, CountedAll(|apps|), {}, {}));
    ExecCons(cfg, s2, ReadBuilds(x), []);
    ExecCons(cfg, s1, ReadRows(x), [ReadBuilds(x)]);
    ExecCons(cfg, s, Lock(x), [ReadRows(x), ReadBuilds(x)]);
  }
}
