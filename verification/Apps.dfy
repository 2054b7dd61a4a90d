/** Installing and removing marketplace apps (app/modules/apps/service.py): reserve a slot,
    deploy, and either record the install or give the slot back. What Docker does is an input. */
module Apps {
  import opened Text
  import opened Quota
  import opened DockerEngine
  import Compose
  import ComposePipeline

  datatype Template = Template(slug: string, name: string, hasCompose: bool)

  /** Who asks: `tenant_id or ""`, with the plan and scope it resolves to. */
  datatype Caller = Caller(tenant: string, plan: Option<Plan>, platformScope: bool, default: Allocation)

  /** `Error` carries the status code of the DockerEngineError. */
  datatype Install =
    | Installed(project: string, domain: string)
    | Error(code: nat)
    | OverQuota(limit: int, used: nat)
    | DeployFailed

  const AppBuilder := "app"

  function ProjectOf(slug: string, name: Option<string>): string {
    SanitizeProjectName(if name.Some? && name.value != "" then name.value else slug)
  }

  function DomainOf(project: string, domain: Option<string>, base: string): string {
    if domain.Some? && domain.value != "" then domain.value
    else if base != "" then project + "." + base
    else ""
  }

  function AppDeployments(deployments: set<Deployment>, tenant: string, project: string): set<Deployment> {
    set d | d in deployments && d.tenant == tenant && d.project == project && d.builder == AppBuilder
  }

  /** Whether the tenant may act on the app: mapped to it, or platform-scope. */
  predicate Accessible(rows: set<Row>, caller: Caller, project: string) {
    caller.tenant != "" &&
    (caller.platformScope || (project != "" && DockerRows(rows, caller.tenant, project) != {}))
  }

  function Used(rows: set<Row>, deployments: set<Deployment>, caller: Caller): nat {
    CountApps(rows, deployments, caller.tenant)
  }

  /** The status code with which an install is turned away before the quota is looked at. */
  function Refusal(rows: set<Row>, caller: Caller, project: string, actionsEnabled: bool,
                   template: Option<Template>): Option<nat> {
    if !actionsEnabled then Some(403)
    else if template.None? then Some(404)
    else if !template.value.hasCompose then Some(422)
    else if DockerRows(rows, caller.tenant, project) != {} then Some(409)
    else None
  }

  class AppsService {
    const session: Session
    const actionsEnabled: bool
    const baseDomain: string
    var stacks: seq<string>   // compose stack names brought up, in order

    constructor (session: Session, actionsEnabled: bool, baseDomain: string)
      ensures this.session == session && this.actionsEnabled == actionsEnabled
      ensures this.baseDomain == baseDomain && stacks == []
    {
      this.session, this.actionsEnabled, this.baseDomain, stacks := session, actionsEnabled, baseDomain, [];
    }

    /** `deploy_stack`, when it does not raise. */
    method DeployStack(project: string)
      modifies this
      ensures stacks == old(stacks) + [SanitizeProjectName(project)]
    {
      stacks := stacks + [SanitizeProjectName(project)];
    }

    method InstallForTenant(caller: Caller, slug: string, name: Option<string>, domain: Option<string>,
                            template: Option<Template>, deploys: bool)
      returns (r: Install)
      requires session.Valid()
      modifies this, session
      ensures session.Valid()
      // which answer is given, in the order of the checks
      ensures var project := ProjectOf(slug, name);
              var refusal := Refusal(old(session.rows), caller, project, actionsEnabled, template);
              r == if refusal.Some? then Error(refusal.value)
                   else if !Admits(caller.plan, caller.platformScope,
                                   Used(old(session.rows), old(session.deployments), caller))
                   then OverQuota(MaxApps(caller.plan), Used(old(session.rows), old(session.deployments), caller))
                   else if deploys then Installed(project, DomainOf(project, domain, baseDomain))
                   else DeployFailed
      // a refusal touches nothing
      ensures r.Error? || r.OverQuota? ==>
                session.rows == old(session.rows) && session.deployments == old(session.deployments)
                && stacks == old(stacks)
      // success: one new reservation, one READY deployment, one stack, all under the same name
      ensures r.Installed? ==>
                && template.Some?
                && session.rows == old(session.rows)
                     + {Reservation(old(session.nextId), caller.tenant, r.project,
                                    PlanAllocation(caller.plan, caller.default), template.value.name)}
                && |AppRows(session.rows, caller.tenant)| == |AppRows(old(session.rows), caller.tenant)| + 1
                && session.deployments == old(session.deployments)
                     + {Deployment(old(session.nextId) + 1, caller.tenant, r.project, Ready, AppBuilder)}
                && session.nextId == old(session.nextId) + 2
                && stacks == old(stacks) + [r.project]
      ensures r.Installed? && !caller.platformScope ==>
                |AppRows(session.rows, caller.tenant)| <= MaxApps(caller.plan)
      // failure: the slot is given back
      ensures r.DeployFailed? ==>
                && session.deployments == old(session.deployments) && stacks == old(stacks)
                && session.rows == old(session.rows)
                                   - ReleasedRows(old(session.rows), caller.tenant, ProjectOf(slug, name))
    {
      hide SanitizeProjectName, PlanAllocation, DomainOf, CountApps;
      if !actionsEnabled {
        return Error(403);
      }
      if template.None? {
        return Error(404);
      }
      if !template.value.hasCompose {
        return Error(422);
      }
      var project := ProjectOf(slug, name);
      if DockerRows(session.rows, caller.tenant, project) != {} {
        return Error(409);
      }
      var resolvedDomain := DomainOf(project, domain, baseDomain);
      var allocation := PlanAllocation(caller.plan, caller.default);
      ghost var before, id := session.rows, session.nextId;
      CountCoversRows(session.rows, session.deployments, caller.tenant);
      var outcome := session.CheckAndReserve(caller.tenant, caller.plan, caller.platformScope,
                                             project, allocation, template.value.name);
      if outcome.QuotaExceeded? {
        return OverQuota(outcome.limit, outcome.used);
      }
      ghost var row := Reservation(id, caller.tenant, project, allocation, template.value.name);
      if !deploys {
        session.Release(caller.tenant, project);
        assert row !in before;
        assert ReleasedRows(before + {row}, caller.tenant, project)
            == ReleasedRows(before, caller.tenant, project) + {row};
        return DeployFailed;
      }
      DeployStack(project);
      SanitizeIsIdempotent(if name.Some? && name.value != "" then name.value else slug);
      ghost var builds := session.deployments;
      var deployment := Deployment(session.nextId, caller.tenant, project, Ready, AppBuilder);
      session.deployments := session.deployments + {deployment};
      session.nextId := session.nextId + 1;
      assert session.rows == before + {row} && session.deployments == builds + {deployment};
      r := Installed(project, resolvedDomain);
    }

    /** `removes` is false when the engine raises; then nothing has changed yet. */
    method RemoveForTenant(caller: Caller, project: string, removes: bool) returns (r: Install)
      requires session.Valid()
      modifies this, session
      ensures session.Valid() && stacks == old(stacks) && session.nextId == old(session.nextId)
      ensures r == if !actionsEnabled || !Accessible(old(session.rows), caller, project) then Error(403)
                   else if removes then Installed(project, "") else DeployFailed
      ensures !r.Installed? ==> session.rows == old(session.rows) && session.deployments == old(session.deployments)
      ensures r.Installed? ==>
                && session.rows == RowsAfterRemove(old(session.rows), caller.tenant, project)
                && session.deployments == DeploymentsAfterRemove(old(session.deployments), caller.tenant, project)
    {
      if !actionsEnabled || !Accessible(session.rows, caller, project) {
        return Error(403);
      }
      if !removes {
        return DeployFailed;
      }
      var clean := SanitizeProjectName(project);
      session.rows := session.rows - DockerRows(session.rows, caller.tenant, clean);
      session.deployments := session.deployments - AppDeployments(session.deployments, caller.tenant, clean);
      return Installed(project, "");
    }
  }

  /** The committed tables and the route that installs into them (app/api/routes.py:2164-2183): the
      request's `session_scope` commits when the service returns, and rolls back when it raises. */
  class AppsRoute {
    const actionsEnabled: bool
    const baseDomain: string
    var rows: set<Row>
    var deployments: set<Deployment>
    var nextId: nat

    ghost predicate Valid()
      reads this
    {
      && (forall r :: r in rows ==> r.id < nextId)
      && (forall d :: d in deployments ==> d.id < nextId)
    }

    constructor (actionsEnabled: bool, baseDomain: string)
      ensures Valid() && rows == {} && deployments == {}
      ensures this.actionsEnabled == actionsEnabled && this.baseDomain == baseDomain
    {
      this.actionsEnabled, this.baseDomain := actionsEnabled, baseDomain;
      rows, deployments, nextId := {}, {}, 0;
    }

    /** An install that fails, for whatever reason, leaves the committed tables exactly as they
        were; one that succeeds adds one reservation and one READY deployment under one name. */
    method Install(caller: Caller, slug: string, name: Option<string>, domain: Option<string>,
                   template: Option<Template>, deploys: bool)
      returns (r: Install)
      requires Valid()
      modifies this
      ensures Valid()
      ensures r.Installed? <==>
                && actionsEnabled && template.Some? && template.value.hasCompose && deploys
                && DockerRows(old(rows), caller.tenant, ProjectOf(slug, name)) == {}
                && (caller.platformScope || Used(old(rows), old(deployments), caller) < MaxApps(caller.plan))
      ensures !r.Installed? ==> rows == old(rows) && deployments == old(deployments)
      ensures r.Installed? ==>
                && r.project == ProjectOf(slug, name)
                && DockerRows(old(rows), caller.tenant, r.project) == {}
                && |DockerRows(rows, caller.tenant, r.project)| == 1
                && rows == old(rows) + DockerRows(rows, caller.tenant, r.project)
                && (exists id ::
                      deployments == old(deployments) + {Deployment(id, caller.tenant, r.project, Ready, AppBuilder)})
    {
      hide SanitizeProjectName, PlanAllocation, DomainOf, CountApps;
      var session := new Session(rows, deployments, nextId);
      var service := new AppsService(session, actionsEnabled, baseDomain);
      r := service.InstallForTenant(caller, slug, name, domain, template, deploys);
      if r.Installed? {
        OneReservation(rows, session.rows, nextId, caller, r.project, template.value.name);
        rows, deployments, nextId := session.rows, session.deployments, session.nextId;
      }
    }
  }

  lemma OneReservation(before: set<Row>, after: set<Row>, id: nat, caller: Caller, project: string, displayName: string)
    requires DockerRows(before, caller.tenant, project) == {}
    requires after == before
               + {Reservation(id, caller.tenant, project, PlanAllocation(caller.plan, caller.default), displayName)}
    ensures |DockerRows(after, caller.tenant, project)| == 1
    ensures after == before + DockerRows(after, caller.tenant, project)
  {
    hide PlanAllocation;
    var row := Reservation(id, caller.tenant, project, PlanAllocation(caller.plan, caller.default), displayName);
    assert DockerRows(after, caller.tenant, project) == DockerRows(before, caller.tenant, project) + {row};
  }

  lemma CountCoversRows(rows: set<Row>, deployments: set<Deployment>, tenant: string)
    ensures |AppRows(rows, tenant)| <= CountApps(rows, deployments, tenant)
  {
  }

  function RowsAfterRemove(rows: set<Row>, tenant: string, project: string): set<Row> {
    rows - DockerRows(rows, tenant, SanitizeProjectName(project))
  }

  function DeploymentsAfterRemove(deployments: set<Deployment>, tenant: string, project: string): set<Deployment> {
    deployments - AppDeployments(deployments, tenant, SanitizeProjectName(project))
  }

  // ------------------------------------------------------------ what an install leaves behind

  /** Removing an app that was just installed restores the reservations, and the deployments too
      if the project had no app deployment left over from before. */
  lemma RemoveUndoesInstall(rows: set<Row>, deployments: set<Deployment>, row: Row, deployment: Deployment,
                            tenant: string, slug: string, name: Option<string>)
    requires DockerRows(rows, tenant, ProjectOf(slug, name)) == {}
    requires row.tenant == tenant && row.provider == Docker && row.kind == App
    requires row.externalId == ProjectOf(slug, name)
    requires deployment.tenant == tenant && deployment.project == ProjectOf(slug, name)
    requires deployment.builder == AppBuilder && deployment !in deployments
    ensures RowsAfterRemove(rows + {row}, tenant, ProjectOf(slug, name)) == rows
    ensures DeploymentsAfterRemove(deployments + {deployment}, tenant, ProjectOf(slug, name)) == deployments
       <==> AppDeployments(deployments, tenant, ProjectOf(slug, name)) == {}
  {
    var project := ProjectOf(slug, name);
    SanitizeIsIdempotent(if name.Some? && name.value != "" then name.value else slug);
    assert DockerRows(rows + {row}, tenant, project) == {row};
    assert row !in rows by {
      assert row in rows ==> row in DockerRows(rows, tenant, project);
    }
    var left := AppDeployments(deployments, tenant, project);
    assert AppDeployments(deployments + {deployment}, tenant, project) == left + {deployment};
    if left != {} {
      var d :| d in left;
      assert d in deployments && d !in DeploymentsAfterRemove(deployments + {deployment}, tenant, project);
    }
  }

  /** An install is turned away for the first of these reasons that holds, and only then. */
  lemma RefusalExactly(rows: set<Row>, caller: Caller, project: string, actionsEnabled: bool,
                       template: Option<Template>)
    ensures var refusal := Refusal(rows, caller, project, actionsEnabled, template);
            && (refusal == Some(403) <==> !actionsEnabled)
            && (refusal == Some(404) <==> actionsEnabled && template.None?)
            && (refusal == Some(422) <==> actionsEnabled && template.Some? && !template.value.hasCompose)
            && (refusal == Some(409) <==> actionsEnabled && template.Some? && template.value.hasCompose
                                          && exists r :: r in rows && IsAppOf(r, caller.tenant, project))
            && (refusal.Some? ==> refusal.value in {403, 404, 409, 422})
  {
    var found := DockerRows(rows, caller.tenant, project);
    if found != {} {
      var r :| r in found;
      assert IsAppOf(r, caller.tenant, project);
    }
    assert forall r :: r in rows && IsAppOf(r, caller.tenant, project) ==> r in found;
  }

  ghost predicate IsAppOf(r: Row, tenant: string, project: string) {
    r.tenant == tenant && r.provider == "docker" && r.kind == "app" && r.externalId == project
  }

  /** An app is named after what the caller asked for, else after its template; and the domain that
      an install without one of its own reports is the first host that the edge routes to it. */
  lemma DomainIsRouted(e: Compose.Edge, slug: string, name: Option<string>)
    requires e.domain != "" && e.project == ProjectOf(slug, name)
    requires ComposePipeline.IsHost(e.project + "." + e.domain)
    requires forall i :: 0 <= i < |e.extraHosts| ==> ComposePipeline.IsHost(e.extraHosts[i])
    ensures e.project == SanitizeProjectName(if name == None || name == Some("") then slug else name.value)
    ensures Split(Compose.Addresses(e), ',')[0] == "http://" + DomainOf(e.project, None, e.domain)
  {
    hide SanitizeProjectName, Compose.Addresses, Split, ComposePipeline.IsHost;
    ComposePipeline.AddressesExactly(e, "");
    assert "http://" + (e.project + "." + e.domain) == "http://" + e.project + "." + e.domain;
  }
}
