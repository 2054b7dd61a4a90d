/** Quota accounting (app/services/quota.py): which rows count against a tenant's plan, what
    share of the plan an app gets, and the reserve and release operations of one session. */
module Quota {
  import opened Text
  import opened Common

  // ------------------------------------------------------------ rows

  datatype Allocation = Allocation(cpu: int, mem: int, disk: int)

  /** A tenant resource; `id` is the primary key. */
  datatype Row = Row(
    id: nat, tenant: string, provider: string, kind: string, externalId: string, displayName: string,
    cpu: Option<int>, mem: Option<int>, disk: Option<int>)

  datatype Deployment = Deployment(id: nat, tenant: string, project: string, status: string, builder: string)

  datatype Plan = Plan(maxApps: int, cpu: int, mem: int, disk: int)

  const App := "app"
  const Docker := "docker"
  const Ready := "ready"
  const InFlight: set<string> := {"queued", "building"}

  /** Without any plan row, a tenant gets this many apps. */
  const DefaultFreeMaxApps := 1

  function AppRows(rows: set<Row>, tenant: string): set<Row> {
    set r | r in rows && r.tenant == tenant && r.kind == App
  }

  /** A tenant's app rows for one project on the Docker engine: what installers look for. */
  function DockerRows(rows: set<Row>, tenant: string, project: string): set<Row> {
    set r | r in rows && r.tenant == tenant && r.provider == Docker && r.kind == App && r.externalId == project
  }

  function Projects(rows: set<Row>): set<string> {
    set r | r in rows :: r.externalId
  }

  /** Builds under way for projects that hold no reservation. */
  function UnreservedBuilds(deployments: set<Deployment>, tenant: string, reserved: set<string>): set<Deployment> {
    set d | d in deployments && d.tenant == tenant && d.status in InFlight && d.project !in reserved
  }

  /** `_count_apps` */
  function CountApps(rows: set<Row>, deployments: set<Deployment>, tenant: string): nat {
    var apps := AppRows(rows, tenant);
    |apps| + |UnreservedBuilds(deployments, tenant, Projects(apps))|
  }

  function MaxApps(plan: Option<Plan>): int {
    if plan.Some? then plan.value.maxApps else DefaultFreeMaxApps
  }

  /** `plan_allocation`: an equal share of the plan, never below the per-app default. Python's
      floor division and Dafny's division agree for a positive divisor. */
  function PlanAllocation(plan: Option<Plan>, default: Allocation): Allocation {
    if plan.None? then default
    else
      var p, share := plan.value, Max(plan.value.maxApps, 1);
      Allocation(Max(default.cpu, p.cpu / share), Max(default.mem, p.mem / share), Max(default.disk, p.disk / share))
  }

  // ------------------------------------------------------------ one session

  datatype Outcome = Reserved | QuotaExceeded(limit: int, used: nat)

  predicate Admits(plan: Option<Plan>, platformScope: bool, used: nat) {
    platformScope || used + 1 <= MaxApps(plan)
  }

  function Reservation(id: nat, tenant: string, project: string, a: Allocation, displayName: string): Row {
    Row(id, tenant, Docker, App, project, displayName, Some(a.cpu), Some(a.mem), Some(a.disk))
  }

  /** The rows that `release` deletes. */
  function ReleasedRows(rows: set<Row>, tenant: string, project: string): set<Row> {
    set r | r in rows && r.tenant == tenant && r.externalId == project && r.kind == App
  }

  /** The tables as one transaction sees them. */
  class Session {
    var rows: set<Row>
    var deployments: set<Deployment>
    var nextId: nat

    ghost predicate Valid()
      reads this
    {
      && (forall r :: r in rows ==> r.id < nextId)
      && (forall d :: d in deployments ==> d.id < nextId)
    }

    constructor (rows: set<Row>, deployments: set<Deployment>, nextId: nat)
      requires forall r :: r in rows ==> r.id < nextId
      requires forall d :: d in deployments ==> d.id < nextId
      ensures Valid() && this.rows == rows && this.deployments == deployments && this.nextId == nextId
    {
      this.rows, this.deployments, this.nextId := rows, deployments, nextId;
    }

    /** `check_and_reserve`, seen from inside the transaction that holds the tenant's lock. */
    method CheckAndReserve(tenant: string, plan: Option<Plan>, platformScope: bool,
                           project: string, a: Allocation, displayName: string)
      returns (outcome: Outcome)
      requires Valid()
      modifies this
      ensures Valid() && deployments == old(deployments)
      ensures nextId == old(nextId) + if outcome.Reserved? then 1 else 0
      ensures outcome == if Admits(plan, platformScope, CountApps(old(rows), deployments, tenant)) then Reserved
                         else QuotaExceeded(MaxApps(plan), CountApps(old(rows), deployments, tenant))
      ensures outcome.QuotaExceeded? ==> rows == old(rows)
      ensures outcome.Reserved? ==>
                && rows == old(rows) + {Reservation(old(nextId), tenant, project, a, displayName)}
                && |AppRows(rows, tenant)| == |AppRows(old(rows), tenant)| + 1
                && forall other :: other != tenant ==> AppRows(rows, other) == AppRows(old(rows), other)
    {
      var used := CountApps(rows, deployments, tenant);
      if !platformScope {
        var limit := MaxApps(plan);
        if used + 1 > limit {
          return QuotaExceeded(limit, used);
        }
      }
      var row := Reservation(nextId, tenant, project, a, displayName);
      assert AppRows(rows + {row}, tenant) == AppRows(rows, tenant) + {row};
      rows := rows + {row};
      nextId := nextId + 1;
      outcome := Reserved;
    }

    method Release(tenant: string, project: string)
      requires Valid()
      modifies this
      ensures Valid() && deployments == old(deployments) && nextId == old(nextId)
      ensures rows == old(rows) - ReleasedRows(old(rows), tenant, project)
    {
      rows := rows - ReleasedRows(rows, tenant, project);
    }
  }

  // ------------------------------------------------------------ what the count means

  ghost predicate Distinct<T(!new)>(s: set<T>, f: T -> string) {
    forall x, y :: x in s && y in s && f(x) == f(y) ==> x == y
  }

  ghost function Image<T>(s: set<T>, f: T -> string): set<string> {
    set x | x in s :: f(x)
  }

  /** A set has as many images as elements exactly when the function is one-to-one on it. */
  lemma {:induction false} ImageSize<T(!new)>(s: set<T>, f: T -> string)
    ensures |Image(s, f)| <= |s|
    ensures |Image(s, f)| == |s| <==> Distinct(s, f)
    decreases |s|
  {
    if s == {} {
      assert Image(s, f) == {};
    } else {
      var e :| e in s;
      var rest := s - {e};
      var image, restImage := Image(s, f), Image(rest, f);
      ImageSize(rest, f);
      assert s == rest + {e};
      assert image == restImage + {f(e)};
      if f(e) in restImage {
        assert image == restImage;
        var twin :| twin in rest && f(twin) == f(e);
        assert !Distinct(s, f);
      } else {
        assert Distinct(rest, f) ==> Distinct(s, f);
      }
    }
  }

  /** The projects a tenant is using: reserved, or being built. */
  ghost function ProjectsInUse(rows: set<Row>, deployments: set<Deployment>, tenant: string): set<string> {
    Projects(AppRows(rows, tenant))
    + (set d | d in deployments && d.tenant == tenant && d.status in InFlight :: d.project)
  }

  ghost function BuildProjects(builds: set<Deployment>): set<string> {
    set d | d in builds :: d.project
  }

  ghost predicate DistinctProjects(apps: set<Row>) {
    forall r, q :: r in apps && q in apps && r.externalId == q.externalId ==> r == q
  }

  ghost predicate DistinctBuilds(builds: set<Deployment>) {
    forall d, e :: d in builds && e in builds && d.project == e.project ==> d == e
  }

  lemma UseSplits(rows: set<Row>, deployments: set<Deployment>, tenant: string)
    ensures var reserved := Projects(AppRows(rows, tenant));
            var built := BuildProjects(UnreservedBuilds(deployments, tenant, reserved));
            ProjectsInUse(rows, deployments, tenant) == reserved + built && reserved !! built
  {
    var reserved := Projects(AppRows(rows, tenant));
    var builds := UnreservedBuilds(deployments, tenant, reserved);
    forall p | p in ProjectsInUse(rows, deployments, tenant) && p !in reserved
      ensures p in BuildProjects(builds)
    {
      var d :| d in deployments && d.tenant == tenant && d.status in InFlight && d.project == p;
      assert d in builds;
    }
  }

  /** `_count_apps` never undercounts, and counts each distinct project once exactly when no
      project is reserved twice and no unreserved project is being built twice. */
  lemma CountsEachProjectOnce(rows: set<Row>, deployments: set<Deployment>, tenant: string)
    ensures |ProjectsInUse(rows, deployments, tenant)| <= CountApps(rows, deployments, tenant)
    ensures CountApps(rows, deployments, tenant) == |ProjectsInUse(rows, deployments, tenant)| <==>
            && DistinctProjects(AppRows(rows, tenant))
            && DistinctBuilds(UnreservedBuilds(deployments, tenant, Projects(AppRows(rows, tenant))))
  {
    var apps := AppRows(rows, tenant);
    var builds := UnreservedBuilds(deployments, tenant, Projects(apps));
    UseSplits(rows, deployments, tenant);
    ReservedSize(apps);
    BuildsSize(builds);
  }

  lemma ReservedSize(apps: set<Row>)
    ensures |Projects(apps)| <= |apps|
    ensures |Projects(apps)| == |apps| <==> DistinctProjects(apps)
  {
    var f := (r: Row) => r.externalId;
    ImageSize(apps, f);
    assert Projects(apps) == Image(apps, f);
    assert Distinct(apps, f) <==> DistinctProjects(apps);
  }

  lemma BuildsSize(builds: set<Deployment>)
    ensures |BuildProjects(builds)| <= |builds|
    ensures |BuildProjects(builds)| == |builds| <==> DistinctBuilds(builds)
  {
    var f := (d: Deployment) => d.project;
    ImageSize(builds, f);
    assert BuildProjects(builds) == Image(builds, f);
    assert Distinct(builds, f) <==> DistinctBuilds(builds);
  }

  // ------------------------------------------------------------ the budget

  /** `row.cpu or default`: a missing or zero column counts as the default. */
  function OrDefault(column: Option<int>, default: int): int {
    if column.None? || column.value == 0 then default else column.value
  }

  datatype Usage = Usage(cpu: int, mem: int, disk: int)

  /** The sums of `usage`, over a tenant's app rows in any order. */
  ghost function TotalUsage(rows: set<Row>, default: Allocation): Usage
    decreases |rows|
  {
    if rows == {} then Usage(0, 0, 0)
    else
      var r :| r in rows;
      var rest := TotalUsage(rows - {r}, default);
      Usage(rest.cpu + OrDefault(r.cpu, default.cpu),
            rest.mem + OrDefault(r.mem, default.mem),
            rest.disk + OrDefault(r.disk, default.disk))
  }

  ghost predicate AllocatedAs(r: Row, a: Allocation) {
    r.cpu == Some(a.cpu) && r.mem == Some(a.mem) && r.disk == Some(a.disk)
  }

  ghost predicate NonNegative(a: Allocation) {
    a.cpu >= 0 && a.mem >= 0 && a.disk >= 0
  }

  /** Rows of one allocation sum to their number times that allocation. */
  lemma {:induction false} UniformUsage(rows: set<Row>, a: Allocation, default: Allocation)
    requires forall r :: r in rows ==> AllocatedAs(r, a)
    ensures TotalUsage(rows, default) ==
            Usage(|rows| * OrDefault(Some(a.cpu), default.cpu),
                  |rows| * OrDefault(Some(a.mem), default.mem),
                  |rows| * OrDefault(Some(a.disk), default.disk))
    decreases |rows|
  {
    if rows != {} {
      var r := UsageSplits(rows, default);
      hide TotalUsage, OrDefault;
      UniformUsage(rows - {r}, a, default);
      assert |rows| == |rows - {r}| + 1;
      Distribute(|rows| - 1, OrDefault(Some(a.cpu), default.cpu));
      Distribute(|rows| - 1, OrDefault(Some(a.mem), default.mem));
      Distribute(|rows| - 1, OrDefault(Some(a.disk), default.disk));
    }
  }

  lemma UsageSplits(rows: set<Row>, default: Allocation) returns (r: Row)
    requires rows != {}
    ensures r in rows
    ensures var rest := TotalUsage(rows - {r}, default);
            TotalUsage(rows, default) == Usage(rest.cpu + OrDefault(r.cpu, default.cpu),
                                               rest.mem + OrDefault(r.mem, default.mem),
                                               rest.disk + OrDefault(r.disk, default.disk))
  {
    r :| r in rows && TotalUsage(rows, default) ==
      (var rest := TotalUsage(rows - {r}, default);
       Usage(rest.cpu + OrDefault(r.cpu, default.cpu),
             rest.mem + OrDefault(r.mem, default.mem),
             rest.disk + OrDefault(r.disk, default.disk)));
  }

  lemma Distribute(n: int, x: int)
    ensures (n + 1) * x == n * x + x
  {
  }

  /** n apps, at most as many as the plan allows, stay within the plan's total for one
      resource, or within the defaults where the share is below them. */
  lemma ShareStaysInBudget(n: nat, maxApps: int, total: int, default: int)
    requires n <= Max(0, maxApps) && default >= 0
    ensures var share := Max(default, total / Max(maxApps, 1));
            n * OrDefault(Some(share), default) <= Max(total, Max(0, maxApps) * default)
  {
    var divisor := Max(maxApps, 1);
    var part := total / divisor;
    var share := Max(default, part);
    assert OrDefault(Some(share), default) == share;
    if n == 0 {
      assert 0 <= Max(0, maxApps) * default;
    } else if part <= default {
      Scale(n, maxApps, default);
    } else {
      Scale(n, maxApps, part);
      assert maxApps * part <= total;
    }
  }

  lemma Scale(a: int, b: int, x: int)
    requires a <= b && 0 <= x
    ensures a * x <= b * x
  {
    assert (b - a) * x >= 0;
  }

  /** The nth part of a total, in whole units, but never less than the default. */
  ghost predicate IsShare(share: int, total: int, n: int, default: int) {
    && share >= default
    && (share > default ==> n * share <= total < n * (share + 1))
    && (share == default ==> total < n * (default + 1))
  }

  /** No other number is. */
  lemma OnlyOneShare(a: int, b: int, total: int, n: int, default: int)
    requires n > 0 && IsShare(a, total, n, default) && IsShare(b, total, n, default)
    ensures a == b
  {
    if a < b {
      Scale(a + 1, b, n);
    } else if b < a {
      Scale(b + 1, a, n);
    }
  }

  lemma OneShare(total: int, n: int, default: int)
    requires n > 0
    ensures IsShare(Max(default, total / n), total, n, default)
  {
    var part := total / n;
    assert n * part <= total < n * (part + 1);
    if part <= default {
      Scale(part + 1, default + 1, n);
    }
  }

  /** What an app is allotted: its share of each total of the plan, and without a plan the
      defaults. */
  lemma AllocationIsShare(plan: Option<Plan>, default: Allocation)
    ensures var a := PlanAllocation(plan, default);
            if plan.None? then a == default
            else
              var n := Max(plan.value.maxApps, 1);
              && IsShare(a.cpu, plan.value.cpu, n, default.cpu)
              && IsShare(a.mem, plan.value.mem, n, default.mem)
              && IsShare(a.disk, plan.value.disk, n, default.disk)
  {
    hide IsShare;
    if plan.Some? {
      var n := Max(plan.value.maxApps, 1);
      OneShare(plan.value.cpu, n, default.cpu);
      OneShare(plan.value.mem, n, default.mem);
      OneShare(plan.value.disk, n, default.disk);
    }
  }

  /** The seeded plans, for instance. */
  lemma SeededShares()
    ensures PlanAllocation(Some(FreePlan), DefaultAllocation) == Allocation(500, 512, 2048)
    ensures PlanAllocation(Some(ProPlan), DefaultAllocation) == Allocation(800, 819, 4096)
    ensures PlanAllocation(Some(BusinessPlan), DefaultAllocation) == Allocation(800, 1310, 8192)
  {
  }

  /** What a row with this column adds to a sum: the number recorded, unless there is none or
      it is zero. */
  ghost predicate Adds(column: Option<int>, default: int, amount: int) {
    || (column.Some? && column.value != 0 && amount == column.value)
    || ((column.None? || column.value == 0) && amount == default)
  }

  /** The sums of `usage` take in each row exactly once, whichever row one looks at. */
  lemma {:induction false} UsageCountsEachRow(rows: set<Row>, r: Row, default: Allocation)
    requires r in rows
    ensures var all, rest := TotalUsage(rows, default), TotalUsage(rows - {r}, default);
            && Adds(r.cpu, default.cpu, all.cpu - rest.cpu)
            && Adds(r.mem, default.mem, all.mem - rest.mem)
            && Adds(r.disk, default.disk, all.disk - rest.disk)
  {
    UsageOfRow(rows, r, default);
    hide TotalUsage;
  }

  lemma {:induction false} UsageOfRow(rows: set<Row>, r: Row, default: Allocation)
    requires r in rows
    ensures var rest := TotalUsage(rows - {r}, default);
            TotalUsage(rows, default) == Usage(rest.cpu + OrDefault(r.cpu, default.cpu),
                                               rest.mem + OrDefault(r.mem, default.mem),
                                               rest.disk + OrDefault(r.disk, default.disk))
    decreases |rows|
  {
    var q := UsageSplits(rows, default);
    hide TotalUsage, OrDefault;
    if q != r {
      UsageOfRow(rows - {q}, r, default);
      assert rows - {q} - {r} == rows - {r} - {q};
      UsageOfRow(rows - {r}, q, default);
    }
  }

  /** What n installs of different projects, one after the other, leave reserved. */
  ghost function AfterAttempts(plan: Option<Plan>, platformScope: bool, default: Allocation, tenant: string,
                               n: nat): set<Row> {
    if n == 0 then {}
    else
      var rows := AfterAttempts(plan, platformScope, default, tenant, n - 1);
      if Admits(plan, platformScope, CountApps(rows, {}, tenant))
      then rows + {Reservation(n, tenant, Dec(n), PlanAllocation(plan, default), Dec(n))} else rows
  }

  lemma {:induction false} AttemptedRows(plan: Option<Plan>, platformScope: bool, default: Allocation, tenant: string,
                                         n: nat)
    ensures var rows := AfterAttempts(plan, platformScope, default, tenant, n);
            && AppRows(rows, tenant) == rows && CountApps(rows, {}, tenant) == |rows|
            && forall r :: r in rows ==> r.id <= n
  {
    hide PlanAllocation, Admits, MaxApps;
    if n > 0 {
      AttemptedRows(plan, platformScope, default, tenant, n - 1);
      var before, rows := AfterAttempts(plan, platformScope, default, tenant, n - 1),
                          AfterAttempts(plan, platformScope, default, tenant, n);
      forall r | r in rows
        ensures r.tenant == tenant && r.kind == App && r.id <= n
      {
        assert r in before ==> r in AppRows(before, tenant);
      }
      assert AppRows(rows, tenant) == rows;
    }
    var rows := AfterAttempts(plan, platformScope, default, tenant, n);
    assert UnreservedBuilds({}, tenant, Projects(rows)) == {};
  }

  /** A tenant can use its plan up, and no more: of n installs, as many go through as the plan has
      apps, one without any plan, and all of them for the platform's own tenant. */
  lemma {:induction false} PlanIsUsedUp(plan: Option<Plan>, platformScope: bool, default: Allocation, tenant: string,
                                        n: nat)
    ensures var apps := if plan.None? then 1 else plan.value.maxApps;
            |AfterAttempts(plan, platformScope, default, tenant, n)|
              == if platformScope || n <= apps then n else Max(0, apps)
  {
    hide PlanAllocation, CountApps;
    if n > 0 {
      PlanIsUsedUp(plan, platformScope, default, tenant, n - 1);
      AttemptedRows(plan, platformScope, default, tenant, n - 1);
      var before := AfterAttempts(plan, platformScope, default, tenant, n - 1);
      assert Reservation(n, tenant, Dec(n), PlanAllocation(plan, default), Dec(n)) !in before;
    }
  }

  ghost predicate WithinBudget(u: Usage, plan: Plan, default: Allocation) {
    var apps := Max(0, plan.maxApps);
    && u.cpu <= Max(plan.cpu, apps * default.cpu)
    && u.mem <= Max(plan.mem, apps * default.mem)
    && u.disk <= Max(plan.disk, apps * default.disk)
  }

  /** Every resource total of reservations under one plan stays in budget. */
  lemma UsageStaysInBudget(rows: set<Row>, plan: Plan, default: Allocation)
    requires NonNegative(default)
    requires |rows| <= Max(0, plan.maxApps)
    requires forall r :: r in rows ==> AllocatedAs(r, PlanAllocation(Some(plan), default))
    ensures WithinBudget(TotalUsage(rows, default), plan, default)
  {
    UniformUsage(rows, PlanAllocation(Some(plan), default), default);
    ShareStaysInBudget(|rows|, plan.maxApps, plan.cpu, default.cpu);
    ShareStaysInBudget(|rows|, plan.maxApps, plan.mem, default.mem);
    ShareStaysInBudget(|rows|, plan.maxApps, plan.disk, default.disk);
  }

  /** The plans that `_seed_default_plans` creates, and the default per-app allocation. */
  const FreePlan := Plan(1, 500, 512, 2048)
  const ProPlan := Plan(10, 8000, 8192, 40960)
  const BusinessPlan := Plan(50, 40000, 65536, 409600)
  const DefaultAllocation := Allocation(500, 512, 2048)

  /** Under a seeded plan and the default settings the sums never exceed the plan itself. */
  lemma SeededPlansAreNeverExceeded(rows: set<Row>, plan: Plan)
    requires plan in {FreePlan, ProPlan, BusinessPlan}
    requires |rows| <= plan.maxApps
    requires forall r :: r in rows ==> AllocatedAs(r, PlanAllocation(Some(plan), DefaultAllocation))
    ensures var u := TotalUsage(rows, DefaultAllocation);
            u.cpu <= plan.cpu && u.mem <= plan.mem && u.disk <= plan.disk
  {
    UsageStaysInBudget(rows, plan, DefaultAllocation);
  }
}
