/** The provisioning columns of an agent row, the verb eligibility rules that read
    them, and the lifecycle transitions that write them. */
module AgentRow {

  datatype Kind = Workspace | Service

  datatype Instance = Instance(kind: Kind, name: string)

  datatype Lifecycle = Draft | Provisioning | Ready | Deprovisioning | Deprovisioned

  datatype RunState = Stopped | Running | Error | Warning

  datatype Conflict = NoConflict | Conflict(kind: Kind, name: string)

  /** The empty name means that no instance of that kind is recorded. */
  datatype Row = Row(
    lifecycle: Lifecycle,
    run: RunState,
    workspace: string,
    service: string,
    conflict: Conflict)

  /** What the registered runtime of an agent does; fixed for the agent. */
  datatype Runtime = Runtime(inProcess: bool, rendersService: bool)

  /** The operator's report of one workspace: whether its template and identity inputs
      are this agent's, and the services mounting it. */
  datatype Report = Report(name: string, identity: bool, services: seq<string>)

  function Named(kind: Kind, name: string): set<Instance> {
    if name == "" then {} else {Instance(kind, name)}
  }

  function Recorded(r: Row): set<Instance> {
    Named(Workspace, r.workspace) + Named(Service, r.service)
  }

  predicate Records(r: Row, i: Instance) {
    i.name != "" && (if i.kind.Workspace? then r.workspace else r.service) == i.name
  }

  // ---- Verb eligibility -------------------------------------------------------

  predicate InProgress(r: Row) {
    r.lifecycle.Provisioning? || r.lifecycle.Deprovisioning?
  }

  /** `renderable` is the configuration half of the rule: template and credential. */
  predicate MayProvision(r: Row, renderable: bool) {
    !InProgress(r) && r.conflict.NoConflict? && r.workspace == "" &&
    !(r.lifecycle.Ready? && !r.run.Error?) && renderable
  }

  predicate MayAdopt(r: Row, hasTemplate: bool) {
    !InProgress(r) && r.conflict.Conflict? && hasTemplate
  }

  predicate MayReplace(r: Row, renderable: bool) {
    !InProgress(r) && r.conflict.Conflict? && renderable
  }

  predicate MayReprovision(r: Row, rt: Runtime, renderable: bool) {
    !InProgress(r) && r.workspace != "" && r.conflict.NoConflict? && rt.rendersService && renderable
  }

  predicate MayDeprovision(r: Row) {
    !((r.lifecycle.Draft? || r.lifecycle.Deprovisioned?) &&
      r.workspace == "" && r.service == "" && r.conflict.NoConflict?)
  }

  /** Why a conflicting instance is not this agent's to adopt or destroy. `elsewhere`
      is the set of instances other agents record. */
  predicate NotOurs(r: Row, rt: Runtime, report: Report, elsewhere: set<Instance>)
    requires r.conflict.Conflict?
  {
    || (if r.conflict.kind.Workspace? then !report.identity else r.conflict.name !in report.services)
    || |report.services| > (if rt.rendersService then 1 else 0)
    || (r.conflict.kind.Workspace? && Taken(r.workspace, Instance(Workspace, report.name), elsewhere))
    || exists s :: s in report.services && Taken(r.service, Instance(Service, s), elsewhere)
  }

  predicate Taken(own: string, i: Instance, elsewhere: set<Instance>) {
    (own != "" && own != i.name) || i in elsewhere
  }

  /** The report shows the instance to be this agent's own. A workspace must have been rendered from
      its template with its identity, a service must mount its workspace; no more services mount
      the workspace than its runtime renders; and nothing of it is recorded by another agent, or
      differs from what this agent records. */
  ghost predicate Own(r: Row, rt: Runtime, report: Report, elsewhere: set<Instance>)
    requires r.conflict.Conflict?
  {
    && (r.conflict.kind.Workspace? ==> report.identity)
    && (r.conflict.kind.Service? ==> r.conflict.name in report.services)
    && |report.services| <= 1 && (report.services != [] ==> rt.rendersService)
    && (r.conflict.kind.Workspace? ==> Instance(Workspace, report.name) !in elsewhere && r.workspace in {"", report.name})
    && forall s :: s in report.services ==> Instance(Service, s) !in elsewhere && r.service in {"", s}
  }

  /** The checks refuse an instance exactly when it is not shown to be the agent's own. */
  lemma OwnExactlyWhen(r: Row, rt: Runtime, report: Report, elsewhere: set<Instance>)
    requires r.conflict.Conflict?
    ensures Own(r, rt, report, elsewhere) <==> !NotOurs(r, rt, report, elsewhere)
  {
    if |report.services| == 1 {
      assert forall s :: s in report.services <==> s == report.services[0];
    }
  }

  /** Nothing held is forgotten: it is recorded under one of these names, or it is one of those
      whose record was refused. */
  ghost predicate Kept(workspace: string, service: string, held: set<Instance>, refused: set<Instance>) {
    && (workspace != "" ==> Instance(Workspace, workspace) !in refused)
    && (service != "" ==> Instance(Service, service) !in refused)
    && forall i {:trigger KeptOne(workspace, service, held, refused, i)} :: KeptOne(workspace, service, held, refused, i)
  }

  predicate KeptOne(workspace: string, service: string, held: set<Instance>, refused: set<Instance>, i: Instance) {
    && (i in refused ==> i in held)
    && (i in held ==> i in refused || (i.name != "" && i.name == if i.kind.Workspace? then workspace else service))
  }

  /** Nothing recorded is stale. */
  predicate Fresh(workspace: string, service: string, held: set<Instance>) {
    && (workspace != "" ==> Instance(Workspace, workspace) in held)
    && (service != "" ==> Instance(Service, service) in held)
  }

  lemma KeptMeans(r: Row, held: set<Instance>, refused: set<Instance>)
    requires Kept(r.workspace, r.service, held, refused)
    ensures refused <= held <= Recorded(r) + refused && refused !! Recorded(r)
    ensures Fresh(r.workspace, r.service, held) <==> held == Recorded(r) + refused
  {
    forall i ensures (i in refused ==> i in held) && (i in held ==> i in Recorded(r) + refused) {
      assert KeptOne(r.workspace, r.service, held, refused, i);
    }
  }

  /** What is created is held and recorded, or its record is refused. */
  lemma CreateKeeps(r: Row, held: set<Instance>, refused: set<Instance>, i: Instance, elsewhere: bool)
    requires Kept(r.workspace, r.service, held, refused) && i.name != "" && r.lifecycle.Provisioning?
    requires (if i.kind.Workspace? then r.workspace else r.service) == ""
    ensures var after := if elsewhere then r else MarkCreated(r, i);
            Kept(after.workspace, after.service, held + {i}, if elsewhere then refused + {i} else refused - {i})
  {
    var after := if elsewhere then r else MarkCreated(r, i);
    var now := if elsewhere then refused + {i} else refused - {i};
    forall j ensures KeptOne(after.workspace, after.service, held + {i}, now, j) {
      assert KeptOne(r.workspace, r.service, held, refused, j);
    }
  }

  /** What is confirmed gone is no longer held, whether its name is still recorded or not. */
  lemma DestroyKeeps(workspace: string, service: string, held: set<Instance>, refused: set<Instance>, i: Instance)
    requires Kept(workspace, service, held, refused)
    ensures Kept(workspace, service, held - {i}, refused - {i})
    ensures i.kind.Workspace? && i.name == workspace ==> Kept("", service, held - {i}, refused - {i})
    ensures i.kind.Service? && i.name == service ==> Kept(workspace, "", held - {i}, refused - {i})
  {
    forall j ensures KeptOne(workspace, service, held - {i}, refused - {i}, j) {
      assert KeptOne(workspace, service, held, refused, j);
    }
    if i.kind.Workspace? && i.name == workspace {
      forall j ensures KeptOne("", service, held - {i}, refused - {i}, j) {
        assert KeptOne(workspace, service, held, refused, j);
      }
    }
    if i.kind.Service? && i.name == service {
      forall j ensures KeptOne(workspace, "", held - {i}, refused - {i}, j) {
        assert KeptOne(workspace, service, held, refused, j);
      }
    }
  }

  /** A name that is not held may be forgotten. */
  lemma ForgetKeeps(workspace: string, service: string, held: set<Instance>, refused: set<Instance>)
    requires Kept(workspace, service, held, refused)
    ensures Instance(Workspace, workspace) !in held ==> Kept("", service, held, refused)
    ensures Instance(Service, service) !in held ==> Kept(workspace, "", held, refused)
    ensures Instance(Workspace, workspace) !in held && Instance(Service, service) !in held ==> Kept("", "", held, refused)
  {
    forall j ensures KeptOne(workspace, service, held, refused, j) { }
    if Instance(Workspace, workspace) !in held {
      forall j ensures KeptOne("", service, held, refused, j) { assert KeptOne(workspace, service, held, refused, j); }
    }
    if Instance(Service, service) !in held {
      forall j ensures KeptOne(workspace, "", held, refused, j) { assert KeptOne(workspace, service, held, refused, j); }
    }
    if Instance(Workspace, workspace) !in held && Instance(Service, service) !in held {
      forall j ensures KeptOne("", "", held, refused, j) { assert KeptOne(workspace, service, held, refused, j); }
    }
  }

  /** More names, recorded where none was, are held from then on. */
  lemma TakeKeeps(r: Row, held: set<Instance>, refused: set<Instance>, workspace: string, service: string)
    requires Kept(r.workspace, r.service, held, refused)
    requires (workspace == "" || r.workspace == "") && (service == "" || r.service == "")
    ensures var taken := Named(Workspace, workspace) + Named(Service, service);
            var w, s := if workspace != "" then workspace else r.workspace, if service != "" then service else r.service;
            && Kept(w, s, held + taken, refused - taken)
            && (Fresh(r.workspace, r.service, held) ==> Fresh(w, s, held + taken))
  {
    var taken := Named(Workspace, workspace) + Named(Service, service);
    var w, s := if workspace != "" then workspace else r.workspace, if service != "" then service else r.service;
    forall j ensures KeptOne(w, s, held + taken, refused - taken, j) {
      assert KeptOne(r.workspace, r.service, held, refused, j);
    }
  }

  /** Names recorded where none was, or recorded again, are held from then on. */
  lemma RecordKeeps(r: Row, held: set<Instance>, refused: set<Instance>, workspace: string, service: string)
    requires Kept(r.workspace, r.service, held, refused)
    requires (r.workspace == "" || r.workspace == workspace) && (r.service == "" || r.service == service)
    ensures var taken := Named(Workspace, workspace) + Named(Service, service);
            Kept(workspace, service, held + taken, refused - taken) && Fresh(workspace, service, held + taken)
  {
    var taken := Named(Workspace, workspace) + Named(Service, service);
    forall j ensures KeptOne(workspace, service, held + taken, refused - taken, j) {
      assert KeptOne(r.workspace, r.service, held, refused, j);
    }
  }

  // ---- Lifecycle transitions --------------------------------------------------

  function MarkProvisioning(r: Row): Row
    requires r.lifecycle.Draft? || r.lifecycle.Ready? || r.lifecycle.Deprovisioned?
  {
    r.(lifecycle := Provisioning, run := Stopped)
  }

  function MarkAdopting(r: Row, workspace: string, service: string): Row
    requires r.lifecycle.Draft? || r.lifecycle.Ready? || r.lifecycle.Deprovisioned?
  {
    r.(lifecycle := Provisioning, run := Stopped, workspace := workspace, service := service,
       conflict := NoConflict)
  }

  /** `mark_workspace_provisioned` and `mark_service_provisioned`. */
  function MarkCreated(r: Row, i: Instance): Row
    requires r.lifecycle.Provisioning?
  {
    if i.kind.Workspace? then r.(workspace := i.name) else r.(service := i.name)
  }

  function MarkServiceDestroyed(r: Row): Row
    requires r.lifecycle.Provisioning?
  {
    r.(service := "")
  }

  function MarkProvisioned(r: Row, workspace: string, service: string): Row
    requires r.lifecycle.Provisioning?
  {
    r.(lifecycle := Ready, run := Running, workspace := workspace, service := service)
  }

  function MarkDeprovisioning(r: Row, workspace: string, service: string): Row {
    if workspace == "" && service == "" then r.(lifecycle := Deprovisioning)
    else r.(lifecycle := Deprovisioning,
            workspace := if workspace != "" then workspace else r.workspace,
            service := if service != "" then service else r.service,
            conflict := NoConflict)
  }

  function MarkDeprovisioned(r: Row): Row
    requires r.lifecycle.Draft? || r.lifecycle.Deprovisioning? || r.lifecycle.Deprovisioned?
  {
    Row(Deprovisioned, Stopped, "", "", NoConflict)
  }

  /** `mark_provision_failed` on the in-memory agent: a recorded name is blanked only
      while it is still the name confirmed gone. */
  function MarkFailed(mem: Row, gone: set<Instance>, conflict: Conflict): Row {
    var workspace := if Instance(Workspace, mem.workspace) in gone then "" else mem.workspace;
    var service := if Instance(Service, mem.service) in gone then "" else mem.service;
    Row(if workspace != "" then Ready else Draft, Error, workspace, service,
        if conflict.Conflict? then conflict else mem.conflict)
  }

  /** What that same call writes to the row: only the columns it changed. */
  function SaveFailed(row: Row, mem: Row, gone: set<Instance>, conflict: Conflict): Row {
    var after := MarkFailed(mem, gone, conflict);
    Row(after.lifecycle, after.run,
        if mem.workspace != after.workspace then after.workspace else row.workspace,
        if mem.service != after.service then after.service else row.service,
        if conflict.Conflict? then conflict else row.conflict)
  }

  /** Recording a failure forgets exactly the names confirmed gone, so nothing still held. */
  lemma FailKeeps(row: Row, mem: Row, gone: set<Instance>, held: set<Instance>, refused: set<Instance>)
    requires Kept(row.workspace, row.service, held, refused) && gone !! held
    requires (row.workspace == "" || row.workspace == mem.workspace) && (row.service == "" || row.service == mem.service)
    ensures var after := SaveFailed(row, mem, gone, NoConflict);
            && Kept(after.workspace, after.service, held, refused)
            && (Fresh(row.workspace, row.service, held + gone) ==> Fresh(after.workspace, after.service, held))
            && Recorded(after) == Recorded(row) - gone
  {
    ForgetKeeps(row.workspace, row.service, held, refused);
    var after := SaveFailed(row, mem, gone, NoConflict);
    assert after.workspace == if Instance(Workspace, row.workspace) in gone then "" else row.workspace;
    assert after.service == if Instance(Service, row.service) in gone then "" else row.service;
  }

  // ---- The shape of a row, at rest or left in progress by a stopped verb ---------------------------------------

  ghost predicate Shape(r: Row, rt: Runtime) {
    && (r.service != "" ==> r.workspace != "" && rt.rendersService)
    && (r.conflict.Conflict? ==> r.conflict.name != "" && !rt.inProcess)
    && (r.conflict.Conflict? && r.conflict.kind.Workspace? ==> r.workspace == "")
    && (r.conflict.Conflict? && r.conflict.kind.Service? ==>
          r.workspace != "" && r.service == "" && rt.rendersService)
    && (r.lifecycle.Draft? || r.lifecycle.Deprovisioned? ==> r.workspace == "")
    && (r.lifecycle.Ready? && !r.run.Error? ==> r.run.Running? && (rt.inProcess || r.workspace != ""))
    && (rt.inProcess ==> r.workspace == "" && !rt.rendersService)
  }

  /** Recording a failure leaves a row of the right shape: with its workspace a service is gone too. */
  lemma FailShapes(row: Row, mem: Row, gone: set<Instance>, rt: Runtime)
    requires Shape(row.(lifecycle := Provisioning), rt) && !rt.inProcess
    requires (row.workspace == "" || row.workspace == mem.workspace) && (row.service == "" || row.service == mem.service)
    requires Instance(Workspace, mem.workspace) in gone ==> mem.service == "" || Instance(Service, mem.service) in gone
    requires row.conflict.Conflict? ==> row.workspace == mem.workspace && Instance(Workspace, mem.workspace) !in gone
    ensures var after := SaveFailed(row, mem, gone, NoConflict);
            Shape(after, rt) && !InProgress(after) && after.run.Error? && after.conflict == row.conflict
  {
  }

  // ---- Which verbs a row admits --------------------------------------------------------------

  /** A fully configured row of the right shape admits one way on: provisioning, settling a
      conflict by adopting or replacing, or reprovisioning; none exactly while another verb is
      recorded as under way, while it runs in process, or when its workspace takes no service. */
  lemma OneWayOn(r: Row, rt: Runtime)
    requires Shape(r, rt)
    ensures MayAdopt(r, true) <==> MayReplace(r, true)
    ensures !(MayProvision(r, true) && MayAdopt(r, true)) && !(MayProvision(r, true) && MayReprovision(r, rt, true))
    ensures !(MayAdopt(r, true) && MayReprovision(r, rt, true))
    ensures !MayProvision(r, true) && !MayAdopt(r, true) && !MayReprovision(r, rt, true) <==>
            || r.lifecycle.Provisioning? || r.lifecycle.Deprovisioning?
            || (r.conflict.NoConflict? && r.workspace == "" && r.lifecycle.Ready? && r.run.Running?)
            || (r.conflict.NoConflict? && r.workspace != "" && !rt.rendersService)
  {
  }

  /** Without its configuration it admits none of them; teardown is admitted whatever the
      configuration, and refused only to a row that never had or no longer has anything. */
  lemma TeardownIsAlwaysOpen(r: Row, rt: Runtime)
    requires Shape(r, rt)
    ensures !MayProvision(r, false) && !MayAdopt(r, false) && !MayReplace(r, false) && !MayReprovision(r, rt, false)
    ensures !MayDeprovision(r) <==> Recorded(r) == {} && r.conflict.NoConflict? && (r.lifecycle.Draft? || r.lifecycle.Deprovisioned?)
  {
    assert r.workspace != "" ==> Instance(Workspace, r.workspace) in Recorded(r);
    assert r.service != "" ==> Instance(Service, r.service) in Recorded(r);
  }
}
