/** Reservations and running stacks (app/modules/deploys/service.py on top of
    app/modules/apps/service.py). A first deploy reserves a slot and starts a build in the
    background; a redeploy, a rollback to an earlier image and a preview start one without
    reserving. When a build ends, its stack runs, or it has failed and the project's reservation
    is released; removing an app deletes its reservation and its stack, and no build is told.
    One tenant is modelled, with provider actions enabled, one transaction at a time; how a build
    or a Docker command ends is an input. */
module Deploys {
  import opened Text
  import opened Common
  import opened Quota
  import opened DockerEngine
  import opened Apps

  const Queued := "queued"
  const Failed := "error"

  /** `Pinned` redeploys an earlier image and releases nothing; previews need no reservation. */
  datatype Kind = FromGit | Pinned | Preview

  /** A build on its way; it goes on whatever happens to the rows. */
  datatype Task = Task(build: nat, project: string, kind: Kind)

  /** Committed rows, the stacks that exist apart from previews, and the builds on their way. */
  datatype Host = Host(rows: set<Row>, deployments: set<Deployment>, nextId: nat, stacks: set<string>, tasks: set<Task>)

  /** `left` says whether containers run after a failure: the failing command may have started
      some, and what fails may come after the command. */
  datatype Action =
    | Start(title: string)
    | Redeploy(project: string)
    | RollBack(target: Deployment, hasImage: bool)
    | StartPreview(stack: string, allowed: bool)
    | End(task: Task, ok: bool, left: bool)
    | Install(slug: string, name: Option<string>, template: Option<Template>, deploys: bool, left: bool)
    | Remove(project: string, removes: bool)

  ghost predicate FreshIds(h: Host) {
    && (forall r :: r in h.rows ==> r.id < h.nextId)
    && (forall d :: d in h.deployments ==> d.id < h.nextId)
    && (forall t :: t in h.tasks ==> t.build < h.nextId)
  }

  // ------------------------------------------------------------ steps

  /** A new deployment row, and its build. */
  function Queue(h: Host, c: Caller, project: string, builder: string, kind: Kind): Host {
    h.(deployments := h.deployments + {Deployment(h.nextId, c.tenant, project, Queued, builder)},
       tasks := h.tasks + {Task(h.nextId, project, kind)},
       nextId := h.nextId + 1)
  }

  predicate Startable(h: Host, c: Caller, project: string) {
    && DockerRows(h.rows, c.tenant, project) == {}
    && Admits(c.plan, c.platformScope, CountApps(h.rows, h.deployments, c.tenant))
  }

  /** With a new reservation. */
  function Reserve(h: Host, c: Caller, project: string, displayName: string): Host {
    h.(rows := h.rows + {Reservation(h.nextId, c.tenant, project, PlanAllocation(c.plan, c.default), displayName)},
       nextId := h.nextId + 1)
  }

  function Started(h: Host, c: Caller, name: string): Host {
    var project := SanitizeProjectName(name);
    if Startable(h, c, project) then Queue(Reserve(h, c, project, name), c, project, "", FromGit) else h
  }

  predicate HasSlot(h: Host, c: Caller, project: string) {
    DockerRows(h.rows, c.tenant, project) != {}
  }

  function Redeployed(h: Host, c: Caller, project: string): Host {
    if HasSlot(h, c, project) then Queue(h, c, project, "", FromGit) else h
  }

  predicate CanRollBack(h: Host, c: Caller, target: Deployment, hasImage: bool) {
    && target in h.deployments && target.tenant == c.tenant
    && target.status == Ready && hasImage
    && HasSlot(h, c, target.project)
  }

  function RolledBack(h: Host, c: Caller, target: Deployment, hasImage: bool): Host {
    if CanRollBack(h, c, target, hasImage) then Queue(h, c, target.project, target.builder, Pinned) else h
  }

  function Previewed(h: Host, c: Caller, stack: string, allowed: bool): Host {
    if allowed then Queue(h, c, stack, "", Preview) else h
  }

  /** The row of a build, if it is still there, gets a new status. */
  function WithStatus(deployments: set<Deployment>, id: nat, status: string): set<Deployment> {
    set d | d in deployments :: if d.id == id then d.(status := status) else d
  }

  /** What the build leaves behind: the row's status, and the stack. */
  function BuildOver(h: Host, t: Task, ok: bool, left: bool): Host {
    h.(tasks := h.tasks - {t},
       deployments := WithStatus(h.deployments, t.build, if ok then Ready else Failed),
       stacks := if (ok || left) && !t.kind.Preview? then h.stacks + {t.project} else h.stacks)
  }

  function Ended(h: Host, c: Caller, t: Task, ok: bool, left: bool): Host {
    var over := BuildOver(h, t, ok, left);
    if ok || t.kind.Pinned? then over
    else over.(rows := h.rows - ReleasedRows(h.rows, c.tenant, t.project))
  }

  predicate Installable(h: Host, c: Caller, project: string, template: Option<Template>) {
    && Refusal(h.rows, c, project, true, template).None?
    && Admits(c.plan, c.platformScope, Used(h.rows, h.deployments, c))
  }

  /** One transaction: a failing install is rolled back, whatever its containers do. */
  function AppInstalled(h: Host, c: Caller, slug: string, name: Option<string>, template: Option<Template>,
                     deploys: bool, left: bool): Host {
    var project := ProjectOf(slug, name);
    if !Installable(h, c, project, template) then h
    else if deploys then
      var r := Reserve(h, c, project, template.value.name);
      r.(deployments := r.deployments + {Deployment(r.nextId, c.tenant, project, Ready, AppBuilder)},
         stacks := r.stacks + {project},
         nextId := r.nextId + 1)
    else h.(stacks := if left then h.stacks + {project} else h.stacks)
  }

  function AppRemoved(h: Host, c: Caller, project: string, removes: bool): Host {
    if !removes || !Accessible(h.rows, c, project) then h
    else
      h.(rows := RowsAfterRemove(h.rows, c.tenant, project),
         deployments := DeploymentsAfterRemove(h.deployments, c.tenant, project),
         stacks := h.stacks - {SanitizeProjectName(project)})
  }

  predicate Possible(h: Host, a: Action) {
    a.End? ==> a.task in h.tasks
  }

  function Next(h: Host, c: Caller, a: Action): Host {
    match a
    case Start(name) => Started(h, c, name)
    case Redeploy(project) => Redeployed(h, c, project)
    case RollBack(target, hasImage) => RolledBack(h, c, target, hasImage)
    case StartPreview(stack, allowed) => Previewed(h, c, stack, allowed)
    case End(t, ok, left) => Ended(h, c, t, ok, left)
    case Install(slug, name, template, deploys, left) => AppInstalled(h, c, slug, name, template, deploys, left)
    case Remove(project, removes) => AppRemoved(h, c, project, removes)
  }

  class DeploysService {
    const caller: Caller
    const baseDomain: string
    var rows: set<Row>
    var deployments: set<Deployment>
    var nextId: nat
    var stacks: set<string>
    var tasks: set<Task>

    ghost function State(): Host
      reads this
    {
      Host(rows, deployments, nextId, stacks, tasks)
    }

    constructor (caller: Caller, baseDomain: string)
      ensures this.caller == caller && State() == Host({}, {}, 0, {}, {})
    {
      this.caller, this.baseDomain := caller, baseDomain;
      rows, deployments, nextId, stacks, tasks := {}, {}, 0, {}, {};
    }

    method Spawn(project: string, builder: string, kind: Kind)
      requires FreshIds(State())
      modifies this
      ensures State() == Queue(old(State()), caller, project, builder, kind) && FreshIds(State())
    {
      deployments := deployments + {Deployment(nextId, caller.tenant, project, Queued, builder)};
      tasks := tasks + {Task(nextId, project, kind)};
      nextId := nextId + 1;
    }

    /** Both refusals leave `session_scope` with an exception, so nothing is committed. */
    method StartDeployForTenant(name: string) returns (started: bool)
      requires FreshIds(State())
      modifies this
      ensures State() == Started(old(State()), caller, name) && FreshIds(State())
      ensures started <==> Startable(old(State()), caller, SanitizeProjectName(name))
    {
      hide SanitizeProjectName, PlanAllocation, CountApps, Admits;
      var project := SanitizeProjectName(name);
      var session := new Session(rows, deployments, nextId);
      if DockerRows(session.rows, caller.tenant, project) != {} {
        return false;
      }
      var allocation := PlanAllocation(caller.plan, caller.default);
      var outcome := session.CheckAndReserve(caller.tenant, caller.plan, caller.platformScope,
                                             project, allocation, name);
      if outcome.QuotaExceeded? {
        return false;
      }
      rows, nextId := session.rows, session.nextId;
      Spawn(project, "", FromGit);
      started := true;
    }

    method RedeployForTenant(project: string) returns (started: bool)
      requires FreshIds(State())
      modifies this
      ensures State() == Redeployed(old(State()), caller, project) && FreshIds(State())
      ensures started <==> HasSlot(old(State()), caller, project)
    {
      if DockerRows(rows, caller.tenant, project) == {} {
        return false;
      }
      Spawn(project, "", FromGit);
      started := true;
    }

    method RollbackForTenant(target: Deployment, hasImage: bool) returns (started: bool)
      requires FreshIds(State())
      modifies this
      ensures State() == RolledBack(old(State()), caller, target, hasImage) && FreshIds(State())
      ensures started <==> CanRollBack(old(State()), caller, target, hasImage)
    {
      if target !in deployments || target.tenant != caller.tenant {
        return false;
      }
      if target.status != Ready || !hasImage {
        return false;
      }
      if DockerRows(rows, caller.tenant, target.project) == {} {
        return false;
      }
      Spawn(target.project, target.builder, Pinned);
      started := true;
    }

    /** The end of `_run_deploy` or `_run_rollback`: the status, and after a failed build the
        release, each committed. */
    method EndBuild(t: Task, ok: bool, left: bool)
      requires FreshIds(State()) && t in tasks
      modifies this
      ensures State() == Ended(old(State()), caller, t, ok, left) && FreshIds(State())
    {
      if (ok || left) && !t.kind.Preview? {
        stacks := stacks + {t.project};
      }
      tasks := tasks - {t};
      deployments := WithStatus(deployments, t.build, if ok then Ready else Failed);
      if !ok && !t.kind.Pinned? {
        var session := new Session(rows, deployments, nextId);
        session.Release(caller.tenant, t.project);
        rows := session.rows;
      }
    }

    /** The marketplace install, inside the transaction of its request. */
    method InstallApp(slug: string, name: Option<string>, template: Option<Template>, deploys: bool, left: bool)
      returns (installed: bool)
      requires FreshIds(State())
      modifies this
      ensures State() == AppInstalled(old(State()), caller, slug, name, template, deploys, left) && FreshIds(State())
      ensures installed <==> Installable(old(State()), caller, ProjectOf(slug, name), template) && deploys
    {
      hide SanitizeProjectName, ProjectOf, DomainOf, PlanAllocation, CountApps, Admits, Refusal, Used;
      var session := new Session(rows, deployments, nextId);
      var service := new AppsService(session, true, baseDomain);
      var r := service.InstallForTenant(caller, slug, name, None, template, deploys);
      if r.Installed? {
        rows, deployments, nextId := session.rows, session.deployments, session.nextId;
        stacks := stacks + {r.project};
      } else if r.DeployFailed? && left {
        stacks := stacks + {ProjectOf(slug, name)};
      }
      installed := r.Installed?;
    }

    method RemoveApp(project: string, removes: bool) returns (removed: bool)
      requires FreshIds(State())
      modifies this
      ensures State() == AppRemoved(old(State()), caller, project, removes) && FreshIds(State())
      ensures removed <==> removes && Accessible(old(rows), caller, project)
    {
      hide SanitizeProjectName, DockerRows, AppDeployments, Accessible;
      var session := new Session(rows, deployments, nextId);
      var service := new AppsService(session, true, baseDomain);
      var r := service.RemoveForTenant(caller, project, removes);
      removed := r.Installed?;
      if removed {
        rows, deployments := session.rows, session.deployments;
        stacks := stacks - {SanitizeProjectName(project)};
      }
    }
  }

  // ------------------------------------------------------------ a build that fails

  /** A first deploy that fails, with nothing in between, leaves the reservations as they were if,
      and only if, no app row of another provider carries the project's name: the release, which
      here is committed, does not look at the provider. */
  lemma FailedDeployRestoresExactly(h: Host, c: Caller, name: string, left: bool)
    requires FreshIds(h) && Startable(h, c, SanitizeProjectName(name))
    ensures var project := SanitizeProjectName(name);
            var started, t := Started(h, c, name), Task(h.nextId + 1, project, FromGit);
            && t in started.tasks
            && (Ended(started, c, t, false, left).rows == h.rows <==>
                forall r :: r in AppRows(h.rows, c.tenant) && r.externalId == project ==> r.provider == Docker)
  {
    hide SanitizeProjectName, PlanAllocation, Admits, CountApps;
    var project := SanitizeProjectName(name);
    var own := Reservation(h.nextId, c.tenant, project, PlanAllocation(c.plan, c.default), name);
    var after := h.rows + {own} - ReleasedRows(h.rows + {own}, c.tenant, project);
    assert own !in h.rows;
    forall r | r in h.rows
      ensures r in after <==> !(r in AppRows(h.rows, c.tenant) && r.externalId == project)
      ensures r.tenant == c.tenant && r.kind == App && r.externalId == project ==> r.provider != Docker
    {
      assert r !in DockerRows(h.rows, c.tenant, project);
    }
    if forall r :: r in AppRows(h.rows, c.tenant) && r.externalId == project ==> r.provider == Docker {
      assert after == h.rows;
    } else {
      var r :| r in AppRows(h.rows, c.tenant) && r.provider != Docker && r.externalId == project;
      assert r in h.rows && r !in after;
    }
  }

  /** A reservation of another provider, under the name of the app. */
  const Foreign := Row(0, "t", "coolify", App, "app", "app", None, None, None)

  /** An input on which it does not: the foreign reservation is gone for good. */
  lemma ForeignReservationIsLost(left: bool)
    ensures var c := Caller("t", Some(Plan(2, 0, 0, 0)), false, Allocation(0, 0, 0));
            var h, project := Host({Foreign}, {}, 1, {}, {}), SanitizeProjectName("app");
            && Startable(h, c, project)
            && Foreign !in Ended(Started(h, c, "app"), c, Task(2, project, FromGit), false, left).rows
  {
    var h := Host({Foreign}, {}, 1, {}, {});
    SanitizedIsFixed("app");
    assert DockerRows(h.rows, "t", "app") == {};
    assert AppRows(h.rows, "t") == {Foreign};
    assert UnreservedBuilds(h.deployments, "t", Projects(AppRows(h.rows, "t"))) == {};
    assert CountApps(h.rows, h.deployments, "t") == 1;
  }

  // ------------------------------------------------------------ what runs is reserved

  predicate BeingBuilt(h: Host, project: string) {
    exists t :: t in h.tasks && !t.kind.Preview? && t.project == project
  }

  predicate InUse(h: Host, project: string) {
    project in h.stacks || BeingBuilt(h, project)
  }

  /** Every stack, and every build on its way that is not a preview, has a reservation. */
  ghost predicate Held(h: Host, c: Caller) {
    forall p :: InUse(h, p) ==> HasSlot(h, c, p)
  }

  /** A reservation goes while something still needs it: a build fails, and leaves a stack, or
      its project has one already or is being built once more; an app is removed while it is
      being built; or a failing install leaves a stack. */
  predicate Strands(h: Host, c: Caller, a: Action) {
    match a
    case End(t, ok, left) =>
      && !ok && !t.kind.Pinned?
      && ((left && !t.kind.Preview?) || InUse(h.(tasks := h.tasks - {t}), t.project))
    case Remove(project, removes) =>
      removes && Accessible(h.rows, c, project) && BeingBuilt(h, SanitizeProjectName(project))
    case Install(slug, name, template, deploys, left) =>
      Installable(h, c, ProjectOf(slug, name), template) && !deploys && left
    case _ => false
  }

  /** No reservation goes, and what is used in addition has one. */
  lemma NothingGoes(h: Host, after: Host, c: Caller, project: string)
    requires Held(h, c) && h.rows <= after.rows && HasSlot(after, c, project)
    requires forall p :: InUse(after, p) ==> InUse(h, p) || p == project
    ensures Held(after, c)
  {
    forall p | InUse(after, p)
      ensures HasSlot(after, c, p)
    {
      assert DockerRows(h.rows, c.tenant, p) <= DockerRows(after.rows, c.tenant, p);
    }
  }

  /** The reservations of one project go; the others stay. */
  lemma OneGoes(h: Host, after: Host, c: Caller, project: string)
    requires Held(h, c) && !HasSlot(after, c, project)
    requires forall p :: p != project ==> DockerRows(after.rows, c.tenant, p) == DockerRows(h.rows, c.tenant, p)
    requires forall p :: p != project && InUse(after, p) ==> InUse(h, p)
    ensures Held(after, c) <==> !InUse(after, project)
  {
    hide InUse, DockerRows;
  }

  lemma QueueUses(h: Host, c: Caller, project: string, builder: string, kind: Kind)
    requires FreshIds(h)
    ensures var after := Queue(h, c, project, builder, kind);
            && FreshIds(after) && after.rows == h.rows && after.stacks == h.stacks
            && forall p :: InUse(after, p) <==> InUse(h, p) || (p == project && !kind.Preview?)
  {
    var after := Queue(h, c, project, builder, kind);
    assert Task(h.nextId, project, kind) in after.tasks;
    forall p
      ensures InUse(after, p) <==> InUse(h, p) || (p == project && !kind.Preview?)
    {
      if t :| t in h.tasks && !t.kind.Preview? && t.project == p {
        assert t in after.tasks;
      }
    }
  }

  lemma StatusKeepsIds(h: Host, t: Task, ok: bool, left: bool)
    requires FreshIds(h)
    ensures FreshIds(BuildOver(h, t, ok, left))
  {
  }

  lemma OverUses(h: Host, t: Task, ok: bool, left: bool)
    requires t in h.tasks
    ensures var over, rest := BuildOver(h, t, ok, left), h.(tasks := h.tasks - {t});
            && (forall p :: InUse(over, p) <==>
                  InUse(rest, p) || ((ok || left) && !t.kind.Preview? && p == t.project))
            && (forall p :: InUse(h, p) <==> InUse(rest, p) || (!t.kind.Preview? && p == t.project))
  {
    var over, rest := BuildOver(h, t, ok, left), h.(tasks := h.tasks - {t});
    forall p
      ensures BeingBuilt(over, p) <==> BeingBuilt(rest, p)
      ensures BeingBuilt(h, p) <==> BeingBuilt(rest, p) || (!t.kind.Preview? && p == t.project)
    {
      if u :| u in h.tasks && !u.kind.Preview? && u.project == p {
        assert u == t || u in rest.tasks;
      }
    }
  }

  lemma StartHolds(h: Host, c: Caller, name: string)
    requires FreshIds(h) && Held(h, c)
    ensures FreshIds(Started(h, c, name)) && Held(Started(h, c, name), c)
  {
    hide SanitizeProjectName, PlanAllocation, Admits, CountApps, InUse;
    var project := SanitizeProjectName(name);
    if Startable(h, c, project) {
      var r := Reserve(h, c, project, name);
      ReserveReserves(h, c, project, name);
      QueueUses(r, c, project, "", FromGit);
      NothingGoes(h, Started(h, c, name), c, project);
    }
  }

  lemma ReserveReserves(h: Host, c: Caller, project: string, displayName: string)
    requires FreshIds(h)
    ensures var r := Reserve(h, c, project, displayName);
            && FreshIds(r) && HasSlot(r, c, project)
            && forall p :: InUse(r, p) <==> InUse(h, p)
  {
    hide PlanAllocation;
    var r := Reserve(h, c, project, displayName);
    var own := Reservation(h.nextId, c.tenant, project, PlanAllocation(c.plan, c.default), displayName);
    assert own in DockerRows(r.rows, c.tenant, project);
    assert forall p :: BeingBuilt(r, p) <==> BeingBuilt(h, p);
  }

  lemma QueueHolds(h: Host, c: Caller, project: string, builder: string, kind: Kind)
    requires FreshIds(h) && Held(h, c) && (kind.Preview? || HasSlot(h, c, project))
    ensures FreshIds(Queue(h, c, project, builder, kind)) && Held(Queue(h, c, project, builder, kind), c)
  {
    hide InUse, DockerRows;
    QueueUses(h, c, project, builder, kind);
  }

  lemma EndHoldsExactly(h: Host, c: Caller, t: Task, ok: bool, left: bool)
    requires FreshIds(h) && Held(h, c) && t in h.tasks
    ensures FreshIds(Ended(h, c, t, ok, left))
    ensures Held(Ended(h, c, t, ok, left), c) <==> !Strands(h, c, End(t, ok, left))
  {
    hide InUse, BuildOver;
    StatusKeepsIds(h, t, ok, left);
    OverUses(h, t, ok, left);
    var over, after := BuildOver(h, t, ok, left), Ended(h, c, t, ok, left);
    OverKeepsRows(h, t, ok, left);
    if ok || t.kind.Pinned? {
      forall p | InUse(after, p)
        ensures HasSlot(after, c, p)
      {
        assert InUse(h, p);
      }
    } else {
      SameUse(over, after);
      ReleaseTakesOne(h, c, t.project);
      OneGoes(h, after, c, t.project);
    }
  }

  lemma OverKeepsRows(h: Host, t: Task, ok: bool, left: bool)
    ensures BuildOver(h, t, ok, left).rows == h.rows && BuildOver(h, t, ok, left).nextId == h.nextId
  {
  }

  lemma SameUse(a: Host, b: Host)
    requires a.stacks == b.stacks && a.tasks == b.tasks
    ensures forall p :: InUse(a, p) <==> InUse(b, p)
  {
    assert forall p :: BeingBuilt(a, p) <==> BeingBuilt(b, p);
  }

  lemma ReleaseTakesOne(h: Host, c: Caller, project: string)
    ensures var rows := h.rows - ReleasedRows(h.rows, c.tenant, project);
            forall p :: DockerRows(rows, c.tenant, p) == if p == project then {} else DockerRows(h.rows, c.tenant, p)
  {
  }

  lemma InstallHoldsExactly(h: Host, c: Caller, a: Action)
    requires FreshIds(h) && Held(h, c) && a.Install?
    ensures FreshIds(Next(h, c, a))
    ensures Held(Next(h, c, a), c) <==> !Strands(h, c, a)
  {
    hide SanitizeProjectName, ProjectOf, PlanAllocation, Admits, CountApps, Used;
    var project, after := ProjectOf(a.slug, a.name), Next(h, c, a);
    if Installable(h, c, project, a.template) {
      assert !HasSlot(h, c, project);
      assert forall p :: BeingBuilt(after, p) <==> BeingBuilt(h, p);
      if a.deploys {
        ReserveReserves(h, c, project, a.template.value.name);
        NothingGoes(h, after, c, project);
      } else {
        OneGoes(h, after, c, project);
        assert !InUse(h, project);
      }
    }
  }

  lemma RemoveHoldsExactly(h: Host, c: Caller, a: Action)
    requires FreshIds(h) && Held(h, c) && a.Remove?
    ensures FreshIds(Next(h, c, a))
    ensures Held(Next(h, c, a), c) <==> !Strands(h, c, a)
  {
    hide SanitizeProjectName, Accessible;
    var clean, after := SanitizeProjectName(a.project), Next(h, c, a);
    if a.removes && Accessible(h.rows, c, a.project) {
      assert forall p :: BeingBuilt(after, p) <==> BeingBuilt(h, p);
      forall p
        ensures DockerRows(after.rows, c.tenant, p) == if p == clean then {} else DockerRows(h.rows, c.tenant, p)
      {
      }
      OneGoes(h, after, c, clean);
    }
  }

  /** A step leaves everything that is used reserved if, and only if, it strands nothing. */
  lemma StepHoldsExactly(h: Host, c: Caller, a: Action)
    requires FreshIds(h) && Held(h, c) && Possible(h, a)
    ensures FreshIds(Next(h, c, a))
    ensures Held(Next(h, c, a), c) <==> !Strands(h, c, a)
  {
    hide Started, Ended, AppInstalled, AppRemoved, Installable, Accessible;
    hide SanitizeProjectName, ProjectOf, Held, HasSlot;
    match a
    case Start(name) => StartHolds(h, c, name);
    case Redeploy(project) =>
      if HasSlot(h, c, project) {
        QueueHolds(h, c, project, "", FromGit);
      }
    case RollBack(target, hasImage) =>
      if CanRollBack(h, c, target, hasImage) {
        QueueHolds(h, c, target.project, target.builder, Pinned);
      }
    case StartPreview(stack, allowed) =>
      if allowed {
        QueueHolds(h, c, stack, "", Preview);
      }
    case End(t, ok, left) => EndHoldsExactly(h, c, t, ok, left);
    case Install(_, _, _, _, _) => InstallHoldsExactly(h, c, a);
    case Remove(_, _) => RemoveHoldsExactly(h, c, a);
  }

  // ------------------------------------------------------------ runs

  ghost predicate Runs(h: Host, c: Caller, actions: seq<Action>)
    decreases |actions|
  {
    actions != [] ==> Possible(h, actions[0]) && Runs(Next(h, c, actions[0]), c, actions[1..])
  }

  ghost function After(h: Host, c: Caller, actions: seq<Action>): Host
    decreases |actions|
  {
    if actions == [] then h else After(Next(h, c, actions[0]), c, actions[1..])
  }

  ghost predicate AlwaysHeld(h: Host, c: Caller, actions: seq<Action>)
    decreases |actions|
  {
    Held(h, c) && (actions != [] ==> AlwaysHeld(Next(h, c, actions[0]), c, actions[1..]))
  }

  ghost predicate NeverStrands(h: Host, c: Caller, actions: seq<Action>)
    decreases |actions|
  {
    actions != [] ==> !Strands(h, c, actions[0]) && NeverStrands(Next(h, c, actions[0]), c, actions[1..])
  }

  /** Over any run: whatever runs or is being built has a reservation at every moment if, and
      only if, no step ever strands something. A failed redeploy of a running app does, and so
      does the removal of an app that is being built. */
  lemma {:induction false} EveryStackIsReservedExactly(h: Host, c: Caller, actions: seq<Action>)
    requires FreshIds(h) && Held(h, c) && Runs(h, c, actions)
    ensures AlwaysHeld(h, c, actions) <==> NeverStrands(h, c, actions)
    decreases |actions|
  {
    hide Held, Strands, FreshIds, Next, Possible;
    if actions != [] {
      StepHoldsExactly(h, c, actions[0]);
      if Held(Next(h, c, actions[0]), c) {
        EveryStackIsReservedExactly(Next(h, c, actions[0]), c, actions[1..]);
      }
    }
  }

  /** The quota admits one more app, and there is one more row. */
  ghost predicate AddsOne(h: Host, c: Caller, rows: set<Row>) {
    && Admits(c.plan, c.platformScope, CountApps(h.rows, h.deployments, c.tenant))
    && exists row: Row :: row.tenant == c.tenant && rows == h.rows + {row}
  }

  lemma ReserveAddsOne(h: Host, c: Caller, project: string, displayName: string)
    requires Admits(c.plan, c.platformScope, CountApps(h.rows, h.deployments, c.tenant))
    ensures AddsOne(h, c, Reserve(h, c, project, displayName).rows)
  {
    hide PlanAllocation, Admits, CountApps;
    var own := Reservation(h.nextId, c.tenant, project, PlanAllocation(c.plan, c.default), displayName);
    assert own.tenant == c.tenant && Reserve(h, c, project, displayName).rows == h.rows + {own};
  }

  lemma RowsOfStep(h: Host, c: Caller, a: Action)
    ensures Next(h, c, a).rows <= h.rows || AddsOne(h, c, Next(h, c, a).rows)
  {
    hide SanitizeProjectName, ProjectOf, Reserve, AddsOne, CountApps, Accessible, DockerRows, Admits;
    if a.Start? && Startable(h, c, SanitizeProjectName(a.title)) {
      ReserveAddsOne(h, c, SanitizeProjectName(a.title), a.title);
    } else if a.Install? && Installable(h, c, ProjectOf(a.slug, a.name), a.template) {
      ReserveAddsOne(h, c, ProjectOf(a.slug, a.name), a.template.value.name);
    }
  }

  /** Reservations stay within the plan in any case. */
  lemma RowsFit(h: Host, c: Caller, rows: set<Row>)
    requires rows <= h.rows || AddsOne(h, c, rows)
    requires !c.platformScope && |AppRows(h.rows, c.tenant)| <= Max(0, MaxApps(c.plan))
    ensures |AppRows(rows, c.tenant)| <= Max(0, MaxApps(c.plan))
  {
    hide MaxApps;
    var before, now := AppRows(h.rows, c.tenant), AppRows(rows, c.tenant);
    if rows <= h.rows {
      SubsetSize(now, before);
    } else {
      var row: Row :| row.tenant == c.tenant && rows == h.rows + {row};
      SubsetSize(now, before + {row});
      CountCoversRows(h.rows, h.deployments, c.tenant);
    }
  }

  lemma StacksFit(h: Host, c: Caller)
    requires Held(h, c)
    ensures |h.stacks| <= |AppRows(h.rows, c.tenant)|
  {
    var apps := AppRows(h.rows, c.tenant);
    forall p | p in h.stacks
      ensures p in Projects(apps)
    {
      assert InUse(h, p);
      var r :| r in DockerRows(h.rows, c.tenant, p);
      assert r in apps;
    }
    SubsetSize(h.stacks, Projects(apps));
    ReservedSize(apps);
  }

  /** So in such a run no more stacks run than the plan allows. */
  lemma {:induction false} StacksStayWithinPlan(h: Host, c: Caller, actions: seq<Action>)
    requires FreshIds(h) && Held(h, c) && Runs(h, c, actions) && NeverStrands(h, c, actions)
    requires !c.platformScope && |AppRows(h.rows, c.tenant)| <= Max(0, MaxApps(c.plan))
    ensures |After(h, c, actions).stacks| <= Max(0, MaxApps(c.plan))
    decreases |actions|
  {
    hide Held, Strands, FreshIds, Next, Possible, AppRows;
    if actions == [] {
      StacksFit(h, c);
    } else {
      StepHoldsExactly(h, c, actions[0]);
      RowsOfStep(h, c, actions[0]);
      RowsFit(h, c, Next(h, c, actions[0]).rows);
      StacksStayWithinPlan(Next(h, c, actions[0]), c, actions[1..]);
    }
  }

  // ------------------------------------------------------------ runs that strand

  /** Nothing reserved and nothing on its way. */
  ghost predicate Idle(h: Host) {
    FreshIds(h) && h.rows == {} && h.tasks == {} && forall d :: d in h.deployments ==> d.status in {Ready, Failed}
  }

  /** Deploy an app, redeploy it, and let the redeploy fail. */
  ghost function FailingRedeploy(h: Host, project: string): seq<Action> {
    [Start(project), End(Task(h.nextId + 1, project, FromGit), true, true),
     Redeploy(project), End(Task(h.nextId + 2, project, FromGit), false, false)]
  }

  /** Deploy an app, and remove it while it is being built. */
  ghost function EarlyRemoval(h: Host, project: string): seq<Action> {
    [Start(project), Remove(project, true), End(Task(h.nextId + 1, project, FromGit), true, true)]
  }

  lemma StatusesDiffer()
    ensures Ready !in InFlight && Failed !in InFlight && Queued in InFlight
  {
    assert Ready[0] == 'r' && Failed[0] == 'e' && Queued[0] == 'q' && "building"[0] == 'b';
  }

  lemma IdleAdmits(h: Host, c: Caller, project: string)
    requires Idle(h) && MaxApps(c.plan) >= 1
    ensures Startable(h, c, project)
  {
    StatusesDiffer();
    assert AppRows(h.rows, c.tenant) == {};
    assert UnreservedBuilds(h.deployments, c.tenant, {}) == {};
  }

  ghost predicate Settled(deployments: set<Deployment>, bound: nat) {
    forall d :: d in deployments ==> d.status in {Ready, Failed} && d.id < bound
  }

  /** Settling the one build that is not settled yet. */
  lemma AllSettled(before: set<Deployment>, build: Deployment, status: string, bound: nat)
    requires Settled(before, bound) && status in {Ready, Failed} && build.id < bound
    ensures Settled(WithStatus(before + {build}, build.id, status), bound)
  {
  }

  lemma IdleIsSettled(h: Host)
    ensures Idle(h) <==> h.rows == {} && h.tasks == {} && Settled(h.deployments, h.nextId)
  {
  }

  /** A host with one reservation and perhaps one build. */
  lemma FirstDeploy(h: Host, c: Caller, project: string)
    requires Idle(h) && MaxApps(c.plan) >= 1 && SanitizeProjectName(project) == project
    ensures var own := Reservation(h.nextId, c.tenant, project, PlanAllocation(c.plan, c.default), project);
            && Next(h, c, Start(project)) ==
                 Host({own}, h.deployments + {Deployment(h.nextId + 1, c.tenant, project, Queued, "")}, h.nextId + 2,
                      h.stacks, {Task(h.nextId + 1, project, FromGit)})
            && DockerRows({own}, c.tenant, project) == {own}
            && ReleasedRows({own}, c.tenant, project) == {own}
  {
    hide SanitizeProjectName, PlanAllocation, MaxApps, Startable;
    IdleAdmits(h, c, project);
  }

  lemma BuildSucceeds(h: Host, c: Caller, t: Task)
    requires h.tasks == {t} && t.kind.FromGit?
    ensures Possible(h, End(t, true, true))
    ensures Next(h, c, End(t, true, true)) ==
            Host(h.rows, WithStatus(h.deployments, t.build, Ready), h.nextId, h.stacks + {t.project}, {})
  {
    hide WithStatus;
  }

  lemma BuildFails(h: Host, c: Caller, t: Task)
    requires h.tasks == {t} && t.kind.FromGit? && ReleasedRows(h.rows, c.tenant, t.project) == h.rows
    ensures Possible(h, End(t, false, false))
    ensures Next(h, c, End(t, false, false)) ==
            Host({}, WithStatus(h.deployments, t.build, Failed), h.nextId, h.stacks, {})
  {
    hide WithStatus, ReleasedRows;
  }

  lemma RedeployQueues(h: Host, c: Caller, project: string)
    requires DockerRows(h.rows, c.tenant, project) != {} && h.tasks == {}
    ensures Next(h, c, Redeploy(project)) ==
            Host(h.rows, h.deployments + {Deployment(h.nextId, c.tenant, project, Queued, "")}, h.nextId + 1,
                 h.stacks, {Task(h.nextId, project, FromGit)})
  {
    hide DockerRows;
  }

  lemma RemovalTakes(h: Host, c: Caller, project: string)
    requires DockerRows(h.rows, c.tenant, project) == h.rows && h.rows != {}
    requires SanitizeProjectName(project) == project && c.tenant != "" && project != ""
    ensures Next(h, c, Remove(project, true)) ==
            Host({}, h.deployments - AppDeployments(h.deployments, c.tenant, project), h.nextId,
                 h.stacks - {project}, h.tasks)
  {
    hide SanitizeProjectName, DockerRows, AppDeployments;
  }

  lemma FailingRedeployReaches(h: Host, c: Caller, project: string)
    requires Idle(h) && MaxApps(c.plan) >= 1 && SanitizeProjectName(project) == project
    ensures Runs(h, c, FailingRedeploy(h, project))
    ensures Idle(After(h, c, FailingRedeploy(h, project)))
    ensures After(h, c, FailingRedeploy(h, project)).stacks == h.stacks + {project}
  {
    hide SanitizeProjectName, PlanAllocation, MaxApps, WithStatus, Next, DockerRows, ReleasedRows, Idle, Settled;
    var first, second := Task(h.nextId + 1, project, FromGit), Task(h.nextId + 2, project, FromGit);
    IdleIsSettled(h);
    FirstDeploy(h, c, project);
    var h1 := Next(h, c, Start(project));
    BuildSucceeds(h1, c, first);
    var h2 := Next(h1, c, End(first, true, true));
    RedeployQueues(h2, c, project);
    var h3 := Next(h2, c, Redeploy(project));
    BuildFails(h3, c, second);
    var h4 := Next(h3, c, End(second, false, false));
    SettledLater(h.deployments, h.nextId, h.nextId + 3);
    AllSettled(h.deployments, Deployment(h.nextId + 1, c.tenant, project, Queued, ""), Ready, h.nextId + 3);
    AllSettled(h2.deployments, Deployment(h.nextId + 2, c.tenant, project, Queued, ""), Failed, h.nextId + 3);
    IdleIsSettled(h4);
    assert [End(second, false, false)] + [] == [End(second, false, false)];
    ActionFirst(h3, c, End(second, false, false), []);
    ActionFirst(h2, c, Redeploy(project), [End(second, false, false)]);
    ActionFirst(h1, c, End(first, true, true), [Redeploy(project), End(second, false, false)]);
    ActionFirst(h, c, Start(project), [End(first, true, true), Redeploy(project), End(second, false, false)]);
  }

  lemma SettledLater(deployments: set<Deployment>, bound: nat, later: nat)
    requires Settled(deployments, bound) && bound <= later
    ensures Settled(deployments, later)
  {
  }

  lemma EarlyRemovalReaches(h: Host, c: Caller, project: string)
    requires Idle(h) && MaxApps(c.plan) >= 1 && SanitizeProjectName(project) == project
    requires c.tenant != "" && project != ""
    ensures Runs(h, c, EarlyRemoval(h, project))
    ensures Idle(After(h, c, EarlyRemoval(h, project)))
    ensures After(h, c, EarlyRemoval(h, project)).stacks == h.stacks + {project}
  {
    hide SanitizeProjectName, PlanAllocation, MaxApps, WithStatus, Next, DockerRows, ReleasedRows, Idle;
    var t, queued := Task(h.nextId + 1, project, FromGit), Deployment(h.nextId + 1, c.tenant, project, Queued, "");
    IdleIsSettled(h);
    FirstDeploy(h, c, project);
    var h1 := Next(h, c, Start(project));
    RemovalTakes(h1, c, project);
    var h2 := Next(h1, c, Remove(project, true));
    var kept := h.deployments - AppDeployments(h.deployments, c.tenant, project);
    QueuedStays(h.deployments, queued, c.tenant, project);
    BuildSucceeds(h2, c, t);
    var h3 := Next(h2, c, End(t, true, true));
    AllSettled(kept, queued, Ready, h.nextId + 2);
    IdleIsSettled(h3);
    assert h3.stacks == h.stacks + {project};
    assert [End(t, true, true)] + [] == [End(t, true, true)];
    ActionFirst(h2, c, End(t, true, true), []);
    ActionFirst(h1, c, Remove(project, true), [End(t, true, true)]);
    ActionFirst(h, c, Start(project), [Remove(project, true), End(t, true, true)]);
  }

  lemma QueuedStays(before: set<Deployment>, queued: Deployment, tenant: string, project: string)
    requires queued.builder == ""
    ensures var all := before + {queued};
            all - AppDeployments(all, tenant, project) == before - AppDeployments(before, tenant, project) + {queued}
  {
    assert AppBuilder != "";
  }

  lemma ActionFirst(h: Host, c: Caller, a: Action, rest: seq<Action>)
    ensures After(h, c, [a] + rest) == After(Next(h, c, a), c, rest)
    ensures Runs(h, c, [a] + rest) <==> Possible(h, a) && Runs(Next(h, c, a), c, rest)
  {
    assert ([a] + rest)[1..] == rest;
  }

  lemma {:induction false} RunsAppend(h: Host, c: Caller, a: seq<Action>, b: seq<Action>)
    ensures After(h, c, a + b) == After(After(h, c, a), c, b)
    ensures Runs(h, c, a + b) <==> Runs(h, c, a) && Runs(After(h, c, a), c, b)
    decreases |a|
  {
    hide Next, Possible;
    if a == [] {
      assert a + b == b;
    } else {
      assert (a + b)[0] == a[0] && (a + b)[1..] == a[1..] + b;
      RunsAppend(Next(h, c, a[0]), c, a[1..], b);
    }
  }

  ghost function Names(n: nat): set<string> {
    if n == 0 then {} else Names(n - 1) + {Dec(n)}
  }

  lemma {:induction false} NotYetNamed(k: nat, n: nat)
    requires k < n
    ensures Dec(n) !in Names(k)
  {
    if k > 0 {
      NotYetNamed(k - 1, n);
      if Dec(k) == Dec(n) {
        DecInjective(k, n);
      }
    }
  }

  lemma {:induction false} NamesSize(n: nat)
    ensures |Names(n)| == n
  {
    if n > 0 {
      NamesSize(n - 1);
      NotYetNamed(n - 1, n);
    }
  }

  lemma NumeralIsSanitized(n: nat)
    ensures SanitizeProjectName(Dec(n)) == Dec(n)
  {
    SanitizedIsFixed(Dec(n));
  }

  const EmptyHost := Host({}, {}, 0, {}, {})

  /** With failed redeploys in the run there is no bound at all: a tenant whose plan admits one
      app gets n stacks running, for every n. */
  lemma {:induction false} FailedRedeploysLiftTheBound(c: Caller, n: nat) returns (actions: seq<Action>)
    requires MaxApps(c.plan) >= 1
    ensures Runs(EmptyHost, c, actions) && Idle(After(EmptyHost, c, actions))
    ensures After(EmptyHost, c, actions).stacks == Names(n) && |Names(n)| == n
  {
    hide FailingRedeploy, MaxApps, Next, SanitizeProjectName;
    NamesSize(n);
    if n == 0 {
      actions := [];
    } else {
      var before := FailedRedeploysLiftTheBound(c, n - 1);
      var h := After(EmptyHost, c, before);
      NumeralIsSanitized(n);
      FailingRedeployReaches(h, c, Dec(n));
      RunsAppend(EmptyHost, c, before, FailingRedeploy(h, Dec(n)));
      actions := before + FailingRedeploy(h, Dec(n));
    }
  }

  ghost predicate NothingFails(actions: seq<Action>) {
    forall i :: 0 <= i < |actions| ==> (actions[i].End? ==> actions[i].ok)
  }

  /** Nor is there one when apps are removed while they are being built, although every build and
      every command succeeds. */
  lemma {:induction false} EarlyRemovalsLiftTheBound(c: Caller, n: nat) returns (actions: seq<Action>)
    requires MaxApps(c.plan) >= 1 && c.tenant != ""
    ensures Runs(EmptyHost, c, actions) && Idle(After(EmptyHost, c, actions)) && NothingFails(actions)
    ensures After(EmptyHost, c, actions).stacks == Names(n) && |Names(n)| == n
  {
    hide MaxApps, Next, SanitizeProjectName;
    NamesSize(n);
    if n == 0 {
      actions := [];
    } else {
      var before := EarlyRemovalsLiftTheBound(c, n - 1);
      var h := After(EmptyHost, c, before);
      NumeralIsSanitized(n);
      EarlyRemovalReaches(h, c, Dec(n));
      RunsAppend(EmptyHost, c, before, EarlyRemoval(h, Dec(n)));
      actions := before + EarlyRemoval(h, Dec(n));
    }
  }
}
