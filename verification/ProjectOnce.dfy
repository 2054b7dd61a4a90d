/** When a project stays reserved at most once (app/modules/apps/service.py:141-167 and
    app/modules/deploys/service.py:186-201 on top of app/services/quota.py). Installers look for
    an existing reservation and then take the tenant's lock; the lemmas say exactly what can slip
    in between, over every interleaving. */
module ProjectOnce {
  import opened Quota
  import opened QuotaProtocol

  /** A state, watched: for each transaction the committed rows at its latest look for each
      project, and the committed rows when it got the lock. */
  datatype Watched = Watched(s: State, looks: map<TxId, map<string, set<Row>>>, locked: map<TxId, set<Row>>)

  function Looks(w: Watched, x: TxId): map<string, set<Row>> {
    if x in w.looks then w.looks[x] else map[]
  }

  function Watch(cfg: Config, w: Watched, a: Action): Watched
    requires Enabled(cfg, w.s, a)
  {
    var s := Next(cfg, w.s, a);
    match a
    case Begin(x, _) => Watched(s, w.looks[x := map[]], w.locked)
    case CheckInstalled(x, project) => Watched(s, w.looks[x := Looks(w, x)[project := w.s.rows]], w.locked)
    case Lock(x) => if w.s.txs[x].passedLock then w.(s := s) else Watched(s, w.looks, w.locked[x := w.s.rows])
    case _ => w.(s := s)
  }

  predicate IsDockerApp(r: Row) {
    r.provider == Docker && r.kind == App
  }

  /** Two rows that reserve the same project. */
  predicate Same(r: Row, q: Row) {
    IsDockerApp(r) && IsDockerApp(q) && r.tenant == q.tenant && r.externalId == q.externalId
  }

  ghost predicate EachOnce(rows: set<Row>) {
    forall r, q :: r in rows && q in rows && Same(r, q) ==> r == q
  }

  /** What every installer does: it looks for a project before it decides about it, and reserves
      it at most once in one transaction. */
  predicate Careful(w: Watched, a: Action) {
    a.Decide? && a.x in w.s.txs ==>
      && a.project in Looks(w, a.x)
      && DockerRows(w.s.txs[a.x].inserted, w.s.txs[a.x].tenant, a.project) == {}
  }

  /** A reservation of a project that x is about to reserve too: committed after x looked for the
      project and before x got the lock, and still there. */
  ghost predicate Intruder(w: Watched, x: TxId, r: Row)
    requires x in w.s.txs
  {
    var tx := w.s.txs[x];
    && (exists q :: q in tx.inserted && Same(r, q))
    && r.externalId in Looks(w, x) && r !in Looks(w, x)[r.externalId]
    && x in w.locked && r in w.locked[x]
    && r in w.s.rows - tx.deleted
  }

  ghost predicate Intruded(w: Watched, a: Action) {
    a.Commit? && a.x in w.s.txs && exists r :: Intruder(w, a.x, r)
  }

  // ------------------------------------------------------------ what every step keeps

  ghost predicate FreshIds(s: State) {
    && (forall r :: r in s.rows ==> r.id < s.nextId)
    && (forall x, r :: x in s.txs && r in s.txs[x].inserted ==> r.id < s.nextId && r !in s.rows)
  }

  ghost predicate OwnTenant(tx: Tx) {
    && (forall r :: r in tx.inserted + tx.deleted ==> r.tenant == tx.tenant)
    && (forall r :: r in tx.inserted ==> tx.passedLock && IsDockerApp(r))
    && (tx.phase.Outside? || tx.passedLock)
    && (forall r, q :: r in tx.inserted && q in tx.inserted && Same(r, q) ==> r == q)
  }

  /** While x holds the lock, no row of its tenant is added. */
  ghost predicate LockSeen(w: Watched, x: TxId, tx: Tx) {
    tx.passedLock ==>
      x in w.locked && forall r :: r in w.s.rows && r.tenant == tx.tenant ==> r in w.locked[x]
  }

  /** What x reserves it has looked for, and it found nothing then. */
  ghost predicate LookSeen(w: Watched, x: TxId, tx: Tx) {
    && (forall r :: r in tx.inserted ==> r.externalId in Looks(w, x))
    && (forall p, r :: p in Looks(w, x) && r in Looks(w, x)[p] ==> r.id < w.s.nextId)
    && (forall r :: r in w.s.rows - tx.deleted && IsDockerApp(r) && r.tenant == tx.tenant && r.externalId in Looks(w, x)
          ==> r !in Looks(w, x)[r.externalId])
  }

  /** No look ever saw a row that is still pending. */
  ghost predicate PendingUnseen(w: Watched, x: TxId) {
    forall p, y, r :: p in Looks(w, x) && y in w.s.txs && r in w.s.txs[y].inserted ==> r !in Looks(w, x)[p]
  }

  ghost predicate TxSeen(w: Watched, x: TxId)
    requires x in w.s.txs
  {
    && OwnTenant(w.s.txs[x])
    && LockSeen(w, x, w.s.txs[x])
    && LookSeen(w, x, w.s.txs[x])
    && PendingUnseen(w, x)
  }

  ghost predicate WatchInv(w: Watched) {
    FreshIds(w.s) && Exclusive(w.s) && forall x :: x in w.s.txs ==> TxSeen(w, x)
  }

  /** No transaction has begun, and each project is reserved at most once. */
  ghost predicate Quiet(s: State) {
    && s.txs == map[]
    && (forall r :: r in s.rows ==> r.id < s.nextId)
    && EachOnce(s.rows)
  }

  function Unwatched(s: State): Watched {
    Watched(s, map[], map[])
  }

  lemma QuietStart(s: State)
    requires Quiet(s)
    ensures WatchInv(Unwatched(s)) && LooksAreCurrent(Unwatched(s))
  {
  }

  lemma CommitKeeps(cfg: Config, w: Watched, x: TxId)
    requires WatchInv(w) && x in w.s.txs
    ensures WatchInv(Watch(cfg, w, Commit(x)))
  {
    var after, tx := Watch(cfg, w, Commit(x)), w.s.txs[x];
    assert TxSeen(w, x);
    CommitKeepsIds(cfg, w, x);
    forall y | y in after.s.txs
      ensures TxSeen(after, y)
    {
      assert TxSeen(w, y);
      CommitKeepsTx(cfg, w, x, y);
    }
  }

  lemma CommitKeepsIds(cfg: Config, w: Watched, x: TxId)
    requires WatchInv(w) && x in w.s.txs
    ensures FreshIds(Next(cfg, w.s, Commit(x)))
  {
    hide LockSeen, LookSeen, PendingUnseen;
    var tx, after := w.s.txs[x], Next(cfg, w.s, Commit(x));
    assert TxSeen(w, x);
    forall y, r | y in after.txs && r in after.txs[y].inserted
      ensures r !in after.rows
    {
      assert TxSeen(w, y) && TxSeen(w, x);
    }
  }

  lemma CommitKeepsTx(cfg: Config, w: Watched, x: TxId, y: TxId)
    requires WatchInv(w) && x in w.s.txs && y in w.s.txs && x != y
    requires TxSeen(w, x) && TxSeen(w, y)
    ensures var after := Watch(cfg, w, Commit(x)); y in after.s.txs && TxSeen(after, y)
  {
    var after := Watch(cfg, w, Commit(x));
    assert after == w.(s := Next(cfg, w.s, Commit(x))) && Looks(after, y) == Looks(w, y);
    assert after.s.rows == w.s.rows - w.s.txs[x].deleted + w.s.txs[x].inserted;
    assert after.s.nextId == w.s.nextId && after.s.txs[y] == w.s.txs[y];
    hide Looks, Next, Watch;
  }

  /** A step of x that commits nothing needs checking only for what it changes. */
  lemma OwnStepKeeps(w: Watched, after: Watched, x: TxId)
    requires WatchInv(w) && x in after.s.txs
    requires after.s.rows == w.s.rows && after.s.nextId >= w.s.nextId
    requires forall y :: y in after.s.txs && y != x ==>
               && y in w.s.txs && after.s.txs[y] == w.s.txs[y] && Looks(after, y) == Looks(w, y)
               && (y in w.locked ==> y in after.locked && after.locked[y] == w.locked[y])
    requires x in w.s.txs ==>
               forall r :: r in after.s.txs[x].inserted ==> r in w.s.txs[x].inserted || r.id >= w.s.nextId
    requires x !in w.s.txs ==> after.s.txs[x].inserted == {}
    requires FreshIds(after.s) && Exclusive(after.s) && TxSeen(after, x)
    ensures WatchInv(after)
  {
    forall y | y in after.s.txs && y != x
      ensures TxSeen(after, y)
    {
      assert TxSeen(w, y);
      assert PendingUnseen(after, y) by {
        forall p, z, r | p in Looks(after, y) && z in after.s.txs && r in after.s.txs[z].inserted
          ensures r !in Looks(after, y)[p]
        {
        }
      }
    }
  }

  // How the parts of the invariant carry over when no row is committed.

  ghost predicate SameRows(w: Watched, after: Watched) {
    after.s.rows == w.s.rows && after.s.nextId == w.s.nextId
  }

  /** No transaction has more pending rows than before. */
  ghost predicate FewerPending(w: Watched, after: Watched) {
    forall y :: y in after.s.txs && after.s.txs[y].inserted != {} ==>
      y in w.s.txs && after.s.txs[y].inserted <= w.s.txs[y].inserted
  }

  lemma FreshIdsCarry(w: Watched, after: Watched)
    requires FreshIds(w.s) && SameRows(w, after) && FewerPending(w, after)
    ensures FreshIds(after.s)
  {
  }

  lemma UnseenCarries(w: Watched, after: Watched, x: TxId)
    requires PendingUnseen(w, x) && FewerPending(w, after) && Looks(after, x) == Looks(w, x)
    ensures PendingUnseen(after, x)
  {
    hide Looks;
  }

  lemma LockCarries(w: Watched, after: Watched, x: TxId, tx: Tx, now: Tx)
    requires LockSeen(w, x, tx) && SameRows(w, after)
    requires now.tenant == tx.tenant && now.passedLock == tx.passedLock
    requires x in w.locked ==> x in after.locked && after.locked[x] == w.locked[x]
    ensures LockSeen(after, x, now)
  {
  }

  lemma LookCarries(w: Watched, after: Watched, x: TxId, tx: Tx, now: Tx)
    requires LookSeen(w, x, tx) && SameRows(w, after) && Looks(after, x) == Looks(w, x)
    requires now.tenant == tx.tenant && now.inserted <= tx.inserted && tx.deleted <= now.deleted
    ensures LookSeen(after, x, now)
  {
    hide Looks;
  }

  lemma OwnTenantCarries(tx: Tx, now: Tx)
    requires OwnTenant(tx) && now.tenant == tx.tenant && now.passedLock == tx.passedLock
    requires now.inserted <= tx.inserted && tx.deleted <= now.deleted
    requires forall r :: r in now.deleted ==> r.tenant == tx.tenant
    requires now.phase.Outside? || tx.passedLock
    ensures OwnTenant(now)
  {
  }

  lemma LocksCarry(s: State, after: State)
    requires Exclusive(s)
    requires forall y :: y in after.txs && after.txs[y].passedLock ==>
               y in s.txs && s.txs[y].passedLock && s.txs[y].tenant == after.txs[y].tenant
    ensures Exclusive(after)
  {
  }

  /** A step of x that commits nothing, reserves nothing and takes no lock. */
  lemma OwnFewerKeeps(w: Watched, after: Watched, x: TxId, now: Tx)
    requires WatchInv(w) && x in w.s.txs && SameRows(w, after)
    requires after.looks == w.looks && after.locked == w.locked
    requires after.s.txs == w.s.txs[x := now]
    requires var tx := w.s.txs[x];
             && now.tenant == tx.tenant && now.passedLock == tx.passedLock
             && now.inserted <= tx.inserted && tx.deleted <= now.deleted
             && (forall r :: r in now.deleted ==> r.tenant == tx.tenant)
             && (now.phase.Outside? || tx.passedLock)
    ensures WatchInv(after)
  {
    var tx := w.s.txs[x];
    assert TxSeen(w, x);
    assert forall y :: Looks(after, y) == Looks(w, y);
    assert FewerPending(w, after);
    LocksCarry(w.s, after.s);
    hide Looks, LockSeen, LookSeen, PendingUnseen, OwnTenant, FreshIds, Exclusive, FewerPending;
    FreshIdsCarry(w, after);
    OwnTenantCarries(tx, now);
    LockCarries(w, after, x, tx, now);
    LookCarries(w, after, x, tx, now);
    UnseenCarries(w, after, x);
    OwnStepKeeps(w, after, x);
  }

  lemma OneMorePending(w: Watched, after: Watched, x: TxId, row: Row)
    requires WatchInv(w) && x in w.s.txs && w.s.txs[x].passedLock
    requires after.looks == w.looks && after.locked == w.locked
    requires after.s.rows == w.s.rows && after.s.nextId == w.s.nextId + 1 && row.id == w.s.nextId
    requires var tx := w.s.txs[x];
             && IsDockerApp(row) && row.tenant == tx.tenant && row.externalId in Looks(w, x)
             && (forall q :: q in tx.inserted ==> !Same(row, q))
             && after.s.txs == w.s.txs[x := tx.(phase := Outside, inserted := tx.inserted + {row})]
    ensures WatchInv(after)
  {
    var tx, now := w.s.txs[x], after.s.txs[x];
    assert TxSeen(w, x);
    assert forall y :: Looks(after, y) == Looks(w, y);
    LocksCarry(w.s, after.s);
    OneMoreOwn(tx, now, row);
    hide Looks, LockSeen, LookSeen, PendingUnseen, OwnTenant, FreshIds, Exclusive;
    NewRowIsUnseen(w, after, x, row);
    OwnStepKeeps(w, after, x);
  }

  lemma OneMoreOwn(tx: Tx, now: Tx, row: Row)
    requires OwnTenant(tx) && tx.passedLock && IsDockerApp(row) && row.tenant == tx.tenant
    requires forall q :: q in tx.inserted ==> !Same(row, q)
    requires now == tx.(phase := Outside, inserted := tx.inserted + {row})
    ensures OwnTenant(now)
  {
  }

  lemma NewRowIsUnseen(w: Watched, after: Watched, x: TxId, row: Row)
    requires WatchInv(w) && x in w.s.txs && Looks(after, x) == Looks(w, x)
    requires after.locked == w.locked
    requires after.s.rows == w.s.rows && after.s.nextId == w.s.nextId + 1 && row.id == w.s.nextId
    requires row.externalId in Looks(w, x)
    requires var tx := w.s.txs[x];
             after.s.txs == w.s.txs[x := tx.(phase := Outside, inserted := tx.inserted + {row})]
    ensures FreshIds(after.s) && LockSeen(after, x, after.s.txs[x]) && LookSeen(after, x, after.s.txs[x])
    ensures PendingUnseen(after, x)
  {
    assert TxSeen(w, x);
    hide Looks;
    assert row !in w.s.rows;
  }

  lemma DecideKeeps(cfg: Config, w: Watched, a: Action)
    requires WatchInv(w) && a.Decide? && Enabled(cfg, w.s, a) && Careful(w, a)
    ensures WatchInv(Watch(cfg, w, a))
  {
    assert TxSeen(w, a.x);
    var after, tx := Watch(cfg, w, a), w.s.txs[a.x];
    var row := NewRow(cfg, w.s.nextId, tx.tenant, a.project, a.displayName);
    Decided(cfg, w.s, a);
    assert after == w.(s := Next(cfg, w.s, a));
    hide Next, NewRow, Watch, Looks;
    if after.s.nextId != w.s.nextId {
      forall q | q in tx.inserted
        ensures !Same(row, q)
      {
        assert q !in DockerRows(tx.inserted, tx.tenant, a.project);
      }
      OneMorePending(w, after, a.x, row);
    } else {
      OwnFewerKeeps(w, after, a.x, tx.(phase := Outside));
    }
  }

  lemma Decided(cfg: Config, s: State, a: Action)
    requires a.Decide? && Enabled(cfg, s, a)
    ensures var after, tx := Next(cfg, s, a), s.txs[a.x];
            var row := NewRow(cfg, s.nextId, tx.tenant, a.project, a.displayName);
            && after.rows == s.rows && IsDockerApp(row) && row.tenant == tx.tenant
            && row.externalId == a.project && row.id == s.nextId
            && if after.nextId == s.nextId then after.txs == s.txs[a.x := tx.(phase := Outside)]
               else after.nextId == s.nextId + 1
                    && after.txs == s.txs[a.x := tx.(phase := Outside, inserted := tx.inserted + {row})]
  {
  }

  lemma BeginKeeps(cfg: Config, w: Watched, x: TxId, tenant: string)
    requires WatchInv(w) && x !in w.s.txs
    ensures WatchInv(Watch(cfg, w, Begin(x, tenant)))
  {
    var after := Watch(cfg, w, Begin(x, tenant));
    assert after.s == Put(w.s, x, Tx(tenant, false, Outside, {}, {}));
    assert Looks(after, x) == map[] && forall y :: y != x ==> Looks(after, y) == Looks(w, y);
    hide Next, Watch;
    assert TxSeen(after, x) && FewerPending(w, after);
    hide Looks, LockSeen, LookSeen, PendingUnseen, OwnTenant, FreshIds, FewerPending, TxSeen;
    LocksCarry(w.s, after.s);
    FreshIdsCarry(w, after);
    OwnStepKeeps(w, after, x);
  }

  lemma LookKeeps(cfg: Config, w: Watched, x: TxId, project: string)
    requires WatchInv(w) && Enabled(cfg, w.s, CheckInstalled(x, project))
    ensures WatchInv(Watch(cfg, w, CheckInstalled(x, project)))
  {
    var after, tx := Watch(cfg, w, CheckInstalled(x, project)), w.s.txs[x];
    assert TxSeen(w, x);
    assert after.s == w.s && after.locked == w.locked;
    assert Looks(after, x) == Looks(w, x)[project := w.s.rows];
    assert forall y :: y != x ==> Looks(after, y) == Looks(w, y);
    assert DockerRows(Visible(w.s, tx), tx.tenant, project) == {};
    hide Looks, Next, Watch;
    forall r | r in w.s.rows - tx.deleted && IsDockerApp(r) && r.tenant == tx.tenant
      ensures r.externalId != project
    {
      assert r !in DockerRows(Visible(w.s, tx), tx.tenant, project);
    }
    OwnStepKeeps(w, after, x);
  }

  lemma LockKeeps(cfg: Config, w: Watched, x: TxId)
    requires cfg.locking && WatchInv(w) && Enabled(cfg, w.s, Lock(x))
    ensures WatchInv(Watch(cfg, w, Lock(x)))
  {
    var after, tx := Watch(cfg, w, Lock(x)), w.s.txs[x];
    var now := tx.(passedLock := true, phase := Entered);
    assert TxSeen(w, x);
    assert after.s == Put(w.s, x, now) && after.looks == w.looks;
    assert tx.passedLock ==> after.locked == w.locked;
    assert !tx.passedLock ==> after.locked == w.locked[x := w.s.rows] && !LockHeld(w.s, tx.tenant);
    hide Watch, Next, Enabled, LookSeen, PendingUnseen;
    if tx.passedLock {
      OwnFewerKeeps(w, after, x, now);
    } else {
      LockTaken(w, after, x, now);
    }
  }

  lemma LockTaken(w: Watched, after: Watched, x: TxId, now: Tx)
    requires WatchInv(w) && x in w.s.txs && now == w.s.txs[x].(passedLock := true, phase := Entered)
    requires after.s == Put(w.s, x, now) && after.looks == w.looks && after.locked == w.locked[x := w.s.rows]
    requires !LockHeld(w.s, now.tenant)
    ensures WatchInv(after)
  {
    var tx := w.s.txs[x];
    assert TxSeen(w, x);
    assert forall y :: Looks(after, y) == Looks(w, y);
    assert FewerPending(w, after) && Exclusive(after.s) && OwnTenant(now) && LockSeen(after, x, now);
    hide Looks, LockSeen, LookSeen, PendingUnseen, OwnTenant, FreshIds, Exclusive, FewerPending, LockHeld;
    FreshIdsCarry(w, after);
    LookCarries(w, after, x, tx, now);
    UnseenCarries(w, after, x);
    OwnStepKeeps(w, after, x);
  }

  lemma ReleaseKeeps(cfg: Config, w: Watched, x: TxId, project: string)
    requires WatchInv(w) && x in w.s.txs
    ensures WatchInv(Watch(cfg, w, Release(x, project)))
  {
    var after, tx := Watch(cfg, w, Release(x, project)), w.s.txs[x];
    var gone := ReleasedRows(Visible(w.s, tx), tx.tenant, project);
    var now := tx.(inserted := tx.inserted - gone, deleted := tx.deleted + gone);
    assert TxSeen(w, x);
    assert after == w.(s := Put(w.s, x, now));
    assert forall r :: r in gone ==> r.tenant == tx.tenant;
    hide Next, Watch, ReleasedRows, LockSeen, LookSeen, PendingUnseen;
    OwnFewerKeeps(w, after, x, now);
  }

  lemma RollbackKeeps(cfg: Config, w: Watched, x: TxId)
    requires WatchInv(w) && x in w.s.txs
    ensures WatchInv(Watch(cfg, w, Rollback(x)))
  {
    var after := Watch(cfg, w, Rollback(x));
    assert after == w.(s := w.s.(txs := w.s.txs - {x}));
    assert forall y :: Looks(after, y) == Looks(w, y);
    hide Looks, Next, Watch;
    forall y | y in after.s.txs
      ensures TxSeen(after, y)
    {
      assert TxSeen(w, y);
    }
  }

  lemma BuildsKeep(cfg: Config, w: Watched, a: Action)
    requires WatchInv(w) && a.Builds?
    ensures WatchInv(Watch(cfg, w, a))
  {
    var after := Watch(cfg, w, a);
    assert after == w.(s := w.s.(deployments := a.deployments));
    assert forall y :: Looks(after, y) == Looks(w, y);
    hide Looks, Next, Watch;
    forall y | y in after.s.txs
      ensures TxSeen(after, y)
    {
      assert TxSeen(w, y);
    }
  }

  lemma CountKeeps(cfg: Config, w: Watched, a: Action)
    requires WatchInv(w) && Enabled(cfg, w.s, a) && (a.ReadRows? || a.ReadBuilds?)
    ensures WatchInv(Watch(cfg, w, a))
  {
    var after := Watch(cfg, w, a);
    assert TxSeen(w, a.x);
    assert after == w.(s := Put(w.s, a.x, w.s.txs[a.x].(phase := after.s.txs[a.x].phase)));
    OwnFewerKeeps(w, after, a.x, after.s.txs[a.x]);
  }

  lemma WatchKeepsInv(cfg: Config, w: Watched, a: Action)
    requires cfg.locking && WatchInv(w) && Enabled(cfg, w.s, a) && Careful(w, a)
    ensures WatchInv(Watch(cfg, w, a))
  {
    hide WatchInv, Watch, Careful;
    match a
    case Begin(x, tenant) => BeginKeeps(cfg, w, x, tenant);
    case CheckInstalled(x, project) => LookKeeps(cfg, w, x, project);
    case Lock(x) => LockKeeps(cfg, w, x);
    case Decide(_, _, _) => DecideKeeps(cfg, w, a);
    case Release(x, project) => ReleaseKeeps(cfg, w, x, project);
    case Commit(x) => CommitKeeps(cfg, w, x);
    case Rollback(x) => RollbackKeeps(cfg, w, x);
    case Builds(_) => BuildsKeep(cfg, w, a);
    case _ => CountKeeps(cfg, w, a);
  }

  // ------------------------------------------------------------ main results

  /** Only a commit can reserve a project a second time, and it does exactly when there is an
      intruder. */
  lemma StepKeepsOnceExactly(cfg: Config, w: Watched, a: Action)
    requires cfg.locking && WatchInv(w) && Enabled(cfg, w.s, a) && EachOnce(w.s.rows)
    ensures EachOnce(Watch(cfg, w, a).s.rows) <==> !Intruded(w, a)
  {
    if a.Commit? {
      CommitOnceExactly(cfg, w, a.x);
    }
  }

  lemma CommitOnceExactly(cfg: Config, w: Watched, x: TxId)
    requires WatchInv(w) && x in w.s.txs && EachOnce(w.s.rows)
    ensures EachOnce(Watch(cfg, w, Commit(x)).s.rows) <==> forall r :: !Intruder(w, x, r)
  {
    var rows, tx := Watch(cfg, w, Commit(x)).s.rows, w.s.txs[x];
    assert rows == w.s.rows - tx.deleted + tx.inserted;
    assert TxSeen(w, x);
    hide Looks, Next, Watch, PendingUnseen;
    if r :| Intruder(w, x, r) {
      var q :| q in tx.inserted && Same(r, q);
      assert r in rows && q in rows && r != q;
    } else {
      forall r, q | r in rows && q in rows && Same(r, q)
        ensures r == q
      {
        assert r in w.s.rows - tx.deleted && q in tx.inserted ==> Intruder(w, x, r);
        assert q in w.s.rows - tx.deleted && r in tx.inserted ==> Intruder(w, x, q);
      }
    }
  }

  /** Every step is possible and every installer careful. */
  ghost predicate Runs(cfg: Config, w: Watched, actions: seq<Action>)
    decreases |actions|
  {
    actions != [] ==>
      && Enabled(cfg, w.s, actions[0]) && Careful(w, actions[0])
      && Runs(cfg, Watch(cfg, w, actions[0]), actions[1..])
  }

  /** At every moment of the run each project is reserved at most once. */
  ghost predicate AlwaysOnce(cfg: Config, w: Watched, actions: seq<Action>)
    requires Runs(cfg, w, actions)
    decreases |actions|
  {
    && EachOnce(w.s.rows)
    && (actions != [] ==> AlwaysOnce(cfg, Watch(cfg, w, actions[0]), actions[1..]))
  }

  ghost predicate NeverIntruded(cfg: Config, w: Watched, actions: seq<Action>)
    requires Runs(cfg, w, actions)
    decreases |actions|
  {
    actions != [] ==>
      !Intruded(w, actions[0]) && NeverIntruded(cfg, Watch(cfg, w, actions[0]), actions[1..])
  }

  lemma {:induction false} OnceExactlyFrom(cfg: Config, w: Watched, actions: seq<Action>)
    requires cfg.locking && WatchInv(w) && EachOnce(w.s.rows) && Runs(cfg, w, actions)
    ensures AlwaysOnce(cfg, w, actions) <==> NeverIntruded(cfg, w, actions)
    decreases |actions|
  {
    hide Watch, WatchInv, EachOnce, Intruded, Enabled, Careful;
    if actions != [] {
      var after := Watch(cfg, w, actions[0]);
      WatchKeepsInv(cfg, w, actions[0]);
      StepKeepsOnceExactly(cfg, w, actions[0]);
      if EachOnce(after.s.rows) {
        OnceExactlyFrom(cfg, after, actions[1..]);
      } else {
        OnceNow(cfg, after, actions[1..]);
      }
    }
  }

  /** From any state without transactions, under every interleaving: each project is reserved at
      most once at every moment if, and only if, no transaction ever commits a reservation of a
      project for which another one was committed between its look and its lock, and is still
      there. */
  lemma ReservedOnceExactly(cfg: Config, s: State, actions: seq<Action>)
    requires cfg.locking && Quiet(s) && Runs(cfg, Unwatched(s), actions)
    ensures AlwaysOnce(cfg, Unwatched(s), actions) <==> NeverIntruded(cfg, Unwatched(s), actions)
  {
    QuietStart(s);
    OnceExactlyFrom(cfg, Unwatched(s), actions);
  }

  lemma OnceNow(cfg: Config, w: Watched, actions: seq<Action>)
    requires Runs(cfg, w, actions)
    ensures AlwaysOnce(cfg, w, actions) ==> EachOnce(w.s.rows)
  {
  }

  // ------------------------------------------------------------ looking under the lock

  /** Every look is made by a transaction that has the lock. */
  ghost predicate LooksUnderLock(cfg: Config, w: Watched, actions: seq<Action>)
    requires Runs(cfg, w, actions)
    decreases |actions|
  {
    actions != [] ==>
      && (actions[0].CheckInstalled? ==> w.s.txs[actions[0].x].passedLock)
      && LooksUnderLock(cfg, Watch(cfg, w, actions[0]), actions[1..])
  }

  /** What a transaction saw when it looked is all that its tenant still has. */
  ghost predicate LookIsCurrent(w: Watched, x: TxId)
    requires x in w.s.txs
  {
    forall p :: p in Looks(w, x) ==>
      && w.s.txs[x].passedLock
      && forall r :: r in w.s.rows && r.tenant == w.s.txs[x].tenant ==> r in Looks(w, x)[p]
  }

  ghost predicate LooksAreCurrent(w: Watched) {
    forall x :: x in w.s.txs ==> LookIsCurrent(w, x)
  }

  lemma CurrentAfter(cfg: Config, w: Watched, a: Action)
    requires cfg.locking && WatchInv(w) && Enabled(cfg, w.s, a) && LooksAreCurrent(w)
    requires a.CheckInstalled? ==> w.s.txs[a.x].passedLock
    ensures LooksAreCurrent(Watch(cfg, w, a))
  {
    var after := Watch(cfg, w, a);
    forall x | x in after.s.txs
      ensures LookIsCurrent(after, x)
    {
      assert x in w.s.txs ==> LookIsCurrent(w, x);
      if a.Commit? {
        CurrentAfterCommit(cfg, w, a.x, x);
      } else if a.Begin? && a.x == x {
        assert Looks(after, x) == map[];
      } else {
        CurrentInPlace(cfg, w, a, x);
      }
    }
  }

  lemma CurrentInPlace(cfg: Config, w: Watched, a: Action, x: TxId)
    requires Enabled(cfg, w.s, a) && !a.Commit? && (a.CheckInstalled? ==> w.s.txs[a.x].passedLock)
    requires x in w.s.txs && x in Watch(cfg, w, a).s.txs && LookIsCurrent(w, x)
    requires a.Begin? ==> a.x != x
    ensures LookIsCurrent(Watch(cfg, w, a), x)
  {
    var after := Watch(cfg, w, a);
    assert after.s.rows == w.s.rows;
    assert after.s.txs[x].tenant == w.s.txs[x].tenant && (w.s.txs[x].passedLock ==> after.s.txs[x].passedLock);
    if a.CheckInstalled? && a.x == x {
      assert Looks(after, x) == Looks(w, x)[a.project := w.s.rows];
    } else {
      assert Looks(after, x) == Looks(w, x);
    }
    hide Looks, Watch, Next, Enabled;
  }

  lemma CurrentAfterCommit(cfg: Config, w: Watched, x: TxId, y: TxId)
    requires WatchInv(w) && x in w.s.txs && y in w.s.txs && x != y && LookIsCurrent(w, y)
    ensures LookIsCurrent(Watch(cfg, w, Commit(x)), y)
  {
    var after := Watch(cfg, w, Commit(x));
    assert after == w.(s := Next(cfg, w.s, Commit(x))) && Looks(after, y) == Looks(w, y);
    assert TxSeen(w, x);
    hide Looks, LockSeen, LookSeen, PendingUnseen;
  }

  lemma CurrentLooksAreNotIntruded(w: Watched, a: Action)
    requires WatchInv(w) && LooksAreCurrent(w)
    ensures !Intruded(w, a)
  {
    hide LockSeen, LookSeen, PendingUnseen;
    if a.Commit? && a.x in w.s.txs {
      assert LookIsCurrent(w, a.x) && TxSeen(w, a.x);
    }
  }

  lemma {:induction false} OnceUnderLockFrom(cfg: Config, w: Watched, actions: seq<Action>)
    requires cfg.locking && WatchInv(w) && EachOnce(w.s.rows) && LooksAreCurrent(w)
    requires Runs(cfg, w, actions) && LooksUnderLock(cfg, w, actions)
    ensures AlwaysOnce(cfg, w, actions)
    decreases |actions|
  {
    hide Watch, WatchInv, EachOnce, Intruded, Enabled, Careful, LooksAreCurrent;
    if actions != [] {
      WatchKeepsInv(cfg, w, actions[0]);
      CurrentLooksAreNotIntruded(w, actions[0]);
      StepKeepsOnceExactly(cfg, w, actions[0]);
      CurrentAfter(cfg, w, actions[0]);
      OnceUnderLockFrom(cfg, Watch(cfg, w, actions[0]), actions[1..]);
    }
  }

  /** From any state without transactions: were the look made under the lock, each project would
      be reserved at most once at every moment of every run. */
  lemma LookUnderLockSuffices(cfg: Config, s: State, actions: seq<Action>)
    requires cfg.locking && Quiet(s)
    requires Runs(cfg, Unwatched(s), actions) && LooksUnderLock(cfg, Unwatched(s), actions)
    ensures AlwaysOnce(cfg, Unwatched(s), actions)
  {
    QuietStart(s);
    OnceUnderLockFrom(cfg, Unwatched(s), actions);
  }
}
