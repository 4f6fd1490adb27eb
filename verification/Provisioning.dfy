/** The five provisioning verbs of one agent, run under its provisioning lock against an
    operator daemon that may fail at any call.

    `row` is the persisted row and `agent` the in-memory copy a verb works on; they differ
    only after the unique constraints refused a write. Ghost state: `calls` is everything the
    daemon was asked, with each time the row recorded an instance this verb had not created;
    `held` are the instances the daemon returned from a create, or that the row adopted, and
    whose destroy was not confirmed; `refused` are those of them the row does not record, because
    another agent recorded them when they were created. */
module Provisioning {
  import opened Common
  import opened AgentRow

  datatype Operation =
    | Prepare
    | ReadStatus(workspace: string)
    | ReadService(service: string, running: bool)
    | Create(kind: Kind)
    | Start(service: string)
    | Destroy(target: Instance)
    | Record(taken: set<Instance>)

  datatype Reply = Done | Created(name: string) | Exists(name: string) | Absent | Reported(report: Report) | Failed

  /** One daemon call, with the row, what the agent had created in this verb, was refused the
      record of and held when the call was made, and what other agents recorded when its result
      was recorded. */
  datatype Call = Call(
    op: Operation,
    reply: Reply,
    row: Row,
    made: set<Instance>,
    refused: set<Instance>,
    held: set<Instance>,
    elsewhere: set<Instance>)

  /** The calls of one verb, oldest first. */
  datatype Log = Nothing | Then(before: Log, call: Call)

  /** The logs of a run's verbs, oldest first. */
  datatype History = NoVerbs | AndThen(before: History, calls: Log)

  predicate Extends(history: History, earlier: History) {
    history == earlier || (history.AndThen? && Extends(history.before, earlier))
  }

  lemma {:induction false} ExtendsOn(history: History, middle: History, earlier: History)
    requires Extends(history, middle) && Extends(middle, earlier)
    ensures Extends(history, earlier)
  {
    if history != middle { ExtendsOn(history.before, middle, earlier); }
  }

  datatype Failure =
    | Conflicting(i: Instance, elsewhere: set<Instance>)
    | RecordRefused(i: Instance)
    | OtherFailure

  datatype Outcome = Rendered(service: string) | RenderFailed(failure: Failure)

  datatype Inspection = Unreadable | Refused | Gone | Verified(report: Report)

  datatype Verb = Provision | Adopt | Replace | Reprovision | Deprovision | Rename

  predicate Succeeded(c: Call) {
    c.reply.Done? || c.reply.Absent? || c.reply.Reported? || (c.reply.Created? && c.reply.name != "")
  }

  predicate AllSucceeded(calls: Log) {
    calls.Then? ==> Succeeded(calls.call) && AllSucceeded(calls.before)
  }

  predicate Destroys(calls: Log) {
    calls.Then? && (calls.call.op.Destroy? || Destroys(calls.before))
  }

  predicate DestroysServicesOnly(calls: Log) {
    calls.Then? ==>
      && (calls.call.op.Destroy? ==> calls.call.op.target.kind.Service?)
      && DestroysServicesOnly(calls.before)
  }

  predicate Occurs(calls: Log, c: Call) {
    calls.Then? && (calls.call == c || Occurs(calls.before, c))
  }

  // ---- What the calls of a verb showed ---------------------------------------------------

  /** The instances a create returned while another agent recorded them, those a create was refused
      for that nobody else recorded, those confirmed gone, the last status read, whether a render was
      prepared, and whether one was attempted before. */
  datatype Tally = Tally(
    refused: set<Instance>,
    unclaimed: set<Instance>,
    confirmed: set<Instance>,
    read: Option<Call>,
    prepared: bool,
    rash: bool)

  const NONE_YET := Tally({}, {}, {}, None, false, false)

  function Count(t: Tally, c: Call): Tally {
    match c.op
    case Prepare => Asked(t, c.op, c.reply.Done?)
    case Create(kind) => Attempted(t.(rash := t.rash || !t.prepared), kind, c)
    case Destroy(i) => if c.reply.Done? then t.(confirmed := t.confirmed + {i}) else t
    case ReadStatus(_) => t.(read := Some(c))
    case _ => t
  }

  function Asked(t: Tally, op: Operation, ok: bool): Tally {
    if op.Prepare? && ok then t.(prepared := true) else t
  }

  function Attempted(t: Tally, kind: Kind, c: Call): Tally {
    if c.reply.Created? && c.reply.name != "" && Instance(kind, c.reply.name) in c.elsewhere
    then t.(refused := t.refused + {Instance(kind, c.reply.name)})
    else if c.reply.Exists? && c.reply.name != ""
    then t.(unclaimed := t.unclaimed + Unless(Instance(kind, c.reply.name), c.elsewhere))
    else t
  }

  function Unless(i: Instance, elsewhere: set<Instance>): set<Instance> {
    if i in elsewhere then {} else {i}
  }

  function TallyOf(calls: Log): Tally {
    if calls.Nothing? then NONE_YET else Count(TallyOf(calls.before), calls.call)
  }

  /** What a create returned while another agent recorded it. */
  function RefusedRecords(calls: Log): set<Instance> {
    TallyOf(calls).refused
  }

  /** What a create was refused for, with a 409, that no other agent recorded. */
  function Unclaimed(calls: Log): set<Instance> {
    TallyOf(calls).unclaimed
  }

  /** What the daemon confirmed it destroyed. */
  function Confirmed(calls: Log): set<Instance> {
    TallyOf(calls).confirmed
  }

  /** What a rendering that ended this way adds to the tally. */
  function Ended(t: Tally, r: Outcome): Tally {
    if r.Rendered? then t
    else match r.failure
      case Conflicting(i, elsewhere) => t.(unclaimed := t.unclaimed + Unless(i, elsewhere))
      case RecordRefused(i) => t.(refused := t.refused + {i})
      case OtherFailure => t
  }

  function ConflictOf(r: Row): set<Instance> {
    if r.conflict.Conflict? then {Instance(r.conflict.kind, r.conflict.name)} else {}
  }

  /** The workspace a recorded conflict involves: itself, or the one a conflicting service mounts. */
  function Inspected(r: Row): string
    requires r.conflict.Conflict?
  {
    if r.conflict.kind.Workspace? then r.conflict.name else r.workspace
  }

  /** What a status read says of a conflict. */
  ghost function Judged(r: Row, rt: Runtime, c: Call): Inspection
    requires r.conflict.Conflict?
  {
    match c.reply
    case Reported(report) => if Own(r, rt, report, c.elsewhere) then Verified(report) else Refused
    case Absent => Gone
    case _ => Unreadable
  }

  /** The conflict of this row was judged by the one status read of these calls, which asked for the
      workspace it involves; without one nothing was asked and it was refused. */
  ghost predicate Judges(calls: Log, r: Row, rt: Runtime, found: Inspection)
    requires r.conflict.Conflict?
  {
    var read := TallyOf(calls).read;
    if Inspected(r) == "" then read.None? && found.Refused?
    else
      && read.Some? && read.value.op == ReadStatus(Inspected(r)) && found == Judged(r, rt, read.value)
      && (found.Verified? ==> found.report.name == Inspected(r))
  }

  /** The one status read of these calls reported this, and showed it to be the agent's own. */
  ghost predicate Vouched(calls: Log, r: Row, rt: Runtime, report: Report) {
    var read := TallyOf(calls).read;
    r.conflict.Conflict? && read.Some? && read.value.reply == Reported(report) && Own(r, rt, report, read.value.elsewhere)
  }

  // ---- What the log says is held ----------------------------------------------------------

  /** What the daemon returned or the row adopted and nobody confirmed gone, and those of it whose
      record was refused and never made since. */
  datatype Book = Book(held: set<Instance>, refused: set<Instance>)

  function After(b: Book, c: Call): Book {
    if c.op.Create? && c.reply.Created? && c.reply.name != "" then
      var i := Instance(c.op.kind, c.reply.name);
      Book(b.held + {i}, if i in c.elsewhere then b.refused + {i} else b.refused - {i})
    else if c.op.Destroy? && c.reply.Done? then Book(b.held - {c.op.target}, b.refused - {c.op.target})
    else if c.op.Record? then Book(b.held + c.op.taken, b.refused - c.op.taken)
    else b
  }

  function BookOf(start: Book, calls: Log): Book {
    if calls.Nothing? then start else After(BookOf(start, calls.before), calls.call)
  }

  function BookAt(history: History): Book {
    if history.NoVerbs? then Book({}, {}) else BookOf(BookAt(history.before), history.calls)
  }

  /** Only a create whose record was refused adds to the refused. */
  lemma {:induction false} RefusedByCreates(start: Book, calls: Log)
    ensures BookOf(start, calls).refused <= start.refused + RefusedRecords(calls)
  {
    if calls.Then? { RefusedByCreates(start, calls.before); }
  }

  lemma {:induction false} RefusedEver(history: History)
    ensures BookAt(history).refused <= EverRefused(history)
  {
    if history.AndThen? {
      RefusedEver(history.before);
      RefusedByCreates(BookAt(history.before), history.calls);
    }
  }

  function EverRefused(history: History): set<Instance> {
    if history.NoVerbs? then {} else EverRefused(history.before) + RefusedRecords(history.calls)
  }

  /** The last thing the daemon did was to start this service, or to report it running. */
  predicate Started(calls: Log, service: string) {
    calls.Then? && calls.call.reply.Done? && (calls.call.op == Start(service) || calls.call.op == ReadService(service, true))
  }

  /** The daemon's last answer refused a create because this instance exists. */
  predicate Answered409(calls: Log, conflict: Conflict)
    requires conflict.Conflict?
  {
    calls.Then? && calls.call.op == Create(conflict.kind) && calls.call.reply == Exists(conflict.name)
  }

  lemma SomeKind(names: map<Kind, string>)
    ensures names == map[] || Workspace in names || Service in names
  {
    if Workspace !in names && Service !in names {
      forall kind: Kind ensures kind !in names { assert kind.Workspace? || kind.Service?; }
    }
  }

  /** A destroy targets what this agent records or this verb created, and a workspace goes
      only when no service recorded or created here is still held. */
  ghost predicate SafeDestroy(c: Call) {
    c.op.Destroy? ==>
      && c.op.target in Recorded(c.row) + c.made
      && (c.op.target.kind.Workspace? ==> NoServiceHeld(Recorded(c.row) + c.made, c.held))
  }

  ghost predicate NoServiceHeld(instances: set<Instance>, held: set<Instance>) {
    forall i :: i in instances && i.kind.Service? ==> i !in held
  }

  lemma ServiceGone(row: Row, workspace: string, service: string, gone: string, held: set<Instance>)
    requires (row.service == "" || row.service == gone) && (service == "" || service == gone)
    requires gone != "" ==> Instance(Service, gone) !in held
    ensures NoServiceHeld(Recorded(row) + (Named(Workspace, workspace) + Named(Service, service)), held)
  {
  }

  lemma WithoutBoth(s: set<Instance>, a: set<Instance>, b: set<Instance>)
    ensures s - a - b == s - (a + b)
  {
  }

  lemma JoinBoth(s: set<Instance>, a: set<Instance>, b: set<Instance>)
    ensures s + a + b == s + (a + b)
  {
  }

  /** Whenever the daemon is called the process may stop: the row has its shape and nothing held
      is forgotten. */
  ghost predicate Interruptible(c: Call, rt: Runtime) {
    Shape(c.row, rt) && Kept(c.row.workspace, c.row.service, c.held, c.refused)
  }

  /** Instances recorded by this agent are never recorded elsewhere, so a destroy reaches
      another agent's instance only when this very verb had created it. */
  ghost predicate SparesOthers(c: Call, elsewhere: set<Instance>) {
    c.op.Destroy? && elsewhere !! Recorded(c.row) && c.op.target in elsewhere ==> c.op.target in c.made
  }

  /** Every call of a log that started with this book is safe, and made with what the calls before
      it left held and refused. */
  ghost predicate SafeLog(calls: Log, rt: Runtime, start: Book) {
    calls.Then? ==>
      && SafeDestroy(calls.call) && Interruptible(calls.call, rt)
      && Book(calls.call.held, calls.call.refused) == BookOf(start, calls.before)
      && SafeLog(calls.before, rt, start)
  }

  ghost predicate SafeHistory(history: History, rt: Runtime) {
    history.AndThen? ==> SafeHistory(history.before, rt) && SafeLog(history.calls, rt, BookAt(history.before))
  }

  lemma {:induction false} SafeLogSparesOthers(calls: Log, rt: Runtime, start: Book, c: Call, elsewhere: set<Instance>)
    requires SafeLog(calls, rt, start) && Occurs(calls, c)
    ensures SafeDestroy(c) && Interruptible(c, rt) && SparesOthers(c, elsewhere)
  {
    if calls.call != c {
      SafeLogSparesOthers(calls.before, rt, start, c, elsewhere);
    }
  }

  /** When a verb fails after creating `i`, the row still records it unless its destroy was
      confirmed -- exactly when no other agent recorded it at creation. */
  lemma ForgottenExactlyWhenRecordedElsewhere(before: Row, i: Instance, elsewhere: set<Instance>, confirmed: bool)
    requires before.lifecycle.Provisioning? && before.conflict.NoConflict? && i.name != ""
    requires (if i.kind.Workspace? then before.workspace else before.service) == ""
    ensures var carried := MarkCreated(before, i);
            var stored := if i in elsewhere then before else carried;
            var gone := if confirmed then {i} else {};
            var after := SaveFailed(stored, carried, gone, NoConflict);
            && ({i} - gone <= Recorded(after) <==> i !in elsewhere || confirmed)
            && Recorded(after) <= Recorded(before) + {i} - gone
  {
  }

  /** An operator that lost a workspace behind agent B's back creates it again for agent A;
      B still records it, so A may not, and A's rollback fails: A's row forgets it. */
  lemma RefusedRecordIsForgotten()
    ensures var i := Instance(Workspace, "ws");
            var started := MarkProvisioning(Row(Draft, Stopped, "", "", NoConflict));
            var after := SaveFailed(started, MarkCreated(started, i), {}, NoConflict);
            i !in Recorded(after) && after.lifecycle.Ready? && after.run.Error?
  {
  }

  predicate NoneRecorded(instances: set<Instance>, row: Row) {
    && (row.workspace != "" ==> Instance(Workspace, row.workspace) !in instances)
    && (row.service != "" ==> Instance(Service, row.service) !in instances)
  }

  lemma RefusedAreNotRecorded(row: Row, held: set<Instance>, refused: set<Instance>, some: set<Instance>)
    requires Kept(row.workspace, row.service, held, refused) && some <= refused
    ensures NoneRecorded(some, row)
  {
  }

  /** The conflicting instance with what mounts it, once it verified as the agent's own. */
  function Claimed(row: Row, found: Inspection): set<Instance> {
    if row.conflict.Conflict? && found.Verified? then
      (if row.conflict.kind.Workspace? then Named(Workspace, found.report.name) else {}) + Named(Service, Mounting(found.report))
    else {}
  }

  /** What an adoption records. */
  function Adopted(report: Report): set<Instance> {
    Named(Workspace, report.name) + Named(Service, Mounting(report))
  }

  /** What verified as a conflict's instance is there under its name, and nothing else is recorded
      where it would be. */
  lemma VerifiedFits(calls: Log, r: Row, rt: Runtime, found: Inspection)
    requires r.conflict.Conflict? && Shape(r, rt) && Judges(calls, r, rt, found) && found.Verified?
    ensures found.report.name == Inspected(r) != "" && r.service == "" && (r.workspace == "" || r.workspace == found.report.name)
    ensures Mounting(found.report) != "" ==> rt.rendersService
    ensures r.conflict.kind.Service? ==> Mounting(found.report) == r.conflict.name
  {
  }

  /** The service over a workspace, as far as an agent may have one. */
  function Mounting(report: Report): string {
    if report.services != [] then report.services[0] else ""
  }

  class Agent {
    const runtime: Runtime
    var row: Row
    var agent: Row
    ghost var held: set<Instance>
    var names: map<Kind, string>
    ghost var refused: set<Instance>
    ghost var calls: Log          // of the verb under way, or of the last one
    ghost var history: History   // of the verbs before it

    /** Every call of this verb was safe, and what is held and refused is what the log says. */
    ghost predicate Safe()
      reads this
    {
      SafeLog(calls, runtime, BookAt(history)) && Book(held, refused) == BookOf(BookAt(history), calls)
    }

    /** Whenever no verb runs, even after one was stopped: the row has its shape, nothing held is
        forgotten, every call made was safe, and the log accounts for what is held and refused. */
    ghost predicate Recoverable()
      reads this
    {
      && Shape(row, runtime) && Kept(row.workspace, row.service, held, refused)
      && Safe() && SafeHistory(history, runtime)
    }

    /** Between verbs that ran to their end nothing recorded is stale either, so what is held is
        exactly what is recorded and what was refused. */
    ghost predicate Valid()
      reads this
    {
      Recoverable() && !InProgress(row) && Fresh(row.workspace, row.service, held)
    }

    constructor (runtime: Runtime)
      requires runtime.inProcess ==> !runtime.rendersService
      ensures Valid() && held == {} && calls == Nothing && refused == {}
      ensures this.runtime == runtime && row == Row(Draft, Stopped, "", "", NoConflict)
    {
      this.runtime := runtime;
      row := Row(Draft, Stopped, "", "", NoConflict);
      agent := Row(Draft, Stopped, "", "", NoConflict);
      names := map[];
      held, refused, calls, history := {}, {}, Nothing, NoVerbs;
    }

    /** A process that starts after another stopped at a call, just before it or just after a
        reply that no record follows. */
    constructor Resume(runtime: Runtime, made: Log, replied: bool, history: History)
      requires made.Then? && SafeLog(made, runtime, BookAt(history)) && SafeHistory(history, runtime)
      requires replied ==> !made.call.op.Create? && !made.call.op.Record?
      ensures Recoverable() && this.runtime == runtime && row == made.call.row && this.history == history
      ensures calls == if replied then made else made.before
    {
      var stopped := made.call;
      this.runtime := runtime;
      row, agent, names := stopped.row, stopped.row, map[];
      if stopped.op.Destroy? {
        DestroyKeeps(stopped.row.workspace, stopped.row.service, stopped.held, stopped.refused, stopped.op.target);
      }
      calls, this.history := if replied then made else made.before, history;
      var book := BookOf(BookAt(history), if replied then made else made.before);
      held, refused := book.held, book.refused;
    }

    // ---- The daemon and the other agents --------------------------------------

    /** The instances other agents record at this moment: anything this row does not. */
    method RecordedElsewhere() returns (elsewhere: set<Instance>)
      ensures elsewhere !! Recorded(row)
    {
      elsewhere := *;
      elsewhere := elsewhere - Recorded(row);
    }

    /** What the verb under way has created. */
    ghost function Made(): set<Instance>
      reads this
    {
      Named(Workspace, Name(Workspace)) + Named(Service, Name(Service))
    }

    function Name(kind: Kind): string
      reads this
    {
      if kind in names then names[kind] else ""
    }

    /** Others than those created in this verb are held from their record on. */
    ghost method Take(taken: set<Instance>)
      modifies `calls, `held, `refused
      ensures calls == Then(old(calls), Call(Record(taken), Done, row, Made(), old(refused), old(held), {}))
      ensures held == old(held) + taken && refused == old(refused) - taken
      ensures TallyOf(calls) == TallyOf(old(calls))
      ensures AllSucceeded(calls) <==> AllSucceeded(old(calls))
      ensures Destroys(calls) <==> Destroys(old(calls))
    {
      Log(Record(taken), Done, {});
      held, refused := held + taken, refused - taken;
    }

    ghost method Log(op: Operation, reply: Reply, elsewhere: set<Instance>)
      modifies `calls
      ensures calls == Then(old(calls), Call(op, reply, row, Made(), refused, held, elsewhere))
    {
      calls := Then(calls, Call(op, reply, row, Made(), refused, held, elsewhere));
    }

    /** Any call that neither creates nor destroys. */
    method Ask(op: Operation) returns (ok: bool)
      requires !op.Create? && !op.Destroy? && !op.Record? && !op.ReadStatus?
      modifies `calls
      ensures calls == Then(old(calls), Call(op, if ok then Done else Failed, row, Made(), refused, held, {}))
      ensures TallyOf(calls) == Asked(TallyOf(old(calls)), op, ok)
      ensures AllSucceeded(calls) <==> AllSucceeded(old(calls)) && ok
      ensures Destroys(calls) <==> Destroys(old(calls))
      ensures DestroysServicesOnly(calls) <==> DestroysServicesOnly(old(calls))
    {
      ok := *;
      Log(op, if ok then Done else Failed, {});
    }

    /** A create call; a returned instance is recorded in the same step. The unique
        constraints refuse the record exactly when another agent records that instance:
        then only the in-memory agent carries the name. */
    method CreateAndRecord(kind: Kind) returns (reply: Reply, elsewhere: set<Instance>)
      requires agent == row && row.lifecycle.Provisioning? && kind !in names
      requires Kept(row.workspace, row.service, held, refused) && (if kind.Workspace? then row.workspace else row.service) == ""
      modifies `calls, `held, `names, `refused, `row, `agent
      ensures (reply.Created? || reply.Exists? || reply.Failed?) && elsewhere !! Recorded(old(row)) && Kept(row.workspace, row.service, held, refused)
      ensures old(Fresh(row.workspace, row.service, held)) ==> Fresh(row.workspace, row.service, held)
      ensures calls == Then(old(calls), Call(Create(kind), reply, old(row), old(Made()), old(refused), old(held), elsewhere))
      ensures !(reply.Created? && reply.name != "") ==>
                row == old(row) && agent == old(agent) && held == old(held) && names == old(names) && refused == old(refused)
      ensures reply.Created? && reply.name != "" ==>
                var i := Instance(kind, reply.name);
                && held == old(held) + {i} && names == old(names)[kind := reply.name]
                && Made() == old(Made()) + {i}
                && agent == MarkCreated(old(row), i)
                && row == (if i in elsewhere then old(row) else agent)
                && refused == (if i in elsewhere then old(refused) + {i} else old(refused) - {i})
    {
      reply := *;
      if !reply.Created? && !reply.Exists? { reply := Failed; }
      elsewhere := RecordedElsewhere();
      Log(Create(kind), reply, elsewhere);
      if reply.Created? && reply.name != "" {
        var i := Instance(kind, reply.name);
        CreateKeeps(row, held, refused, i, i in elsewhere);
        held := held + {i};
        names := names[kind := reply.name];
        agent := MarkCreated(agent, i);
        if i in elsewhere {
          refused := refused + {i};
        } else {
          refused := refused - {i};
          row := agent;
        }
      }
    }

    /** An instance the daemon reports absent counts as destroyed; any other failure leaves
        it held. */
    method DestroyInstance(i: Instance) returns (confirmed: bool)
      modifies `calls, `held, `refused
      ensures calls == Then(old(calls), Call(Destroy(i), if confirmed then Done else Failed, row, Made(), old(refused), old(held), {}))
      ensures TallyOf(calls) == TallyOf(old(calls)).(confirmed := Confirmed(old(calls)) + if confirmed then {i} else {})
      ensures AllSucceeded(calls) <==> AllSucceeded(old(calls)) && confirmed
      ensures Destroys(calls)
      ensures DestroysServicesOnly(calls) <==> DestroysServicesOnly(old(calls)) && i.kind.Service?
      ensures held == if confirmed then old(held) - {i} else old(held)
      ensures refused == if confirmed then old(refused) - {i} else old(refused)
    {
      confirmed := *;
      Log(Destroy(i), if confirmed then Done else Failed, {});
      if confirmed { held, refused := held - {i}, refused - {i}; }
    }

    // ---- Steps shared by the verbs ----------------------------------------------

    /** Destroy one instance, if it is named. */
    method DestroyNamed(i: Instance) returns (gone: set<Instance>, ok: bool)
      requires Safe() && Shape(row, runtime) && Kept(row.workspace, row.service, held, refused)
      requires i.name != "" ==> i in Recorded(row) + Made() && (i.kind.Workspace? ==> NoServiceHeld(Recorded(row) + Made(), held))
      modifies `calls, `held, `refused
      ensures Safe() && TallyOf(calls) == TallyOf(old(calls)).(confirmed := Confirmed(old(calls)) + gone)
      ensures Kept(row.workspace, row.service, held, refused)
      ensures ok ==> held == old(held) - Named(i.kind, i.name) && refused == old(refused) - Named(i.kind, i.name)
      ensures ok ==> gone == Named(i.kind, i.name)
      ensures !ok ==> held == old(held) && refused == old(refused) && gone == {}
      ensures AllSucceeded(calls) <==> AllSucceeded(old(calls)) && ok
      ensures i.name == "" ==> ok && calls == old(calls)
      ensures i.name != "" ==> Destroys(calls)
      ensures DestroysServicesOnly(old(calls)) && (i.name == "" || i.kind.Service?) ==> DestroysServicesOnly(calls)
    {
      gone, ok := {}, true;
      if i.name != "" {
        DestroyKeeps(row.workspace, row.service, held, refused, i);
        ok := DestroyInstance(i);
        if ok { gone := {i}; }
      }
    }

    /** Destroy the service, then the workspace it mounts; stop at the first failure. */
    method DestroyBoth(service: string, workspace: string) returns (gone: set<Instance>, ok: bool)
      requires Safe() && Shape(row, runtime) && Kept(row.workspace, row.service, held, refused)
      requires service != "" ==> Instance(Service, service) in Recorded(row) + Made()
      requires workspace != "" ==> Instance(Workspace, workspace) in Recorded(row) + Made()
      requires workspace != "" ==> (row.service == "" || row.service == service) && (Name(Service) == "" || Name(Service) == service)
      modifies `calls, `held, `refused
      ensures Safe() && TallyOf(calls) == TallyOf(old(calls)).(confirmed := Confirmed(old(calls)) + gone)
      ensures held == old(held) - gone && refused == old(refused) - gone && Kept(row.workspace, row.service, held, refused)
      ensures ok ==> gone == Named(Service, service) + Named(Workspace, workspace)
      ensures !ok ==> gone == {} || (workspace != "" && gone == Named(Service, service))
      ensures AllSucceeded(calls) <==> AllSucceeded(old(calls)) && ok
      ensures service == "" && workspace == "" ==> calls == old(calls)
      ensures workspace == "" && DestroysServicesOnly(old(calls)) ==> DestroysServicesOnly(calls)
      ensures service != "" || workspace != "" ==> Destroys(calls)
    {
      gone, ok := DestroyNamed(Instance(Service, service));
      if ok {
        var more;
        if workspace != "" { ServiceGone(row, Name(Workspace), Name(Service), service, held); }
        more, ok := DestroyNamed(Instance(Workspace, workspace));
        if ok {
          WithoutBoth(old(held), gone, more);
          WithoutBoth(old(refused), gone, more);
          JoinBoth(Confirmed(old(calls)), gone, more);
          gone := gone + more;
        }
      }
    }

    /** A rendering verb under way, possibly just refused the record of what it created:
        then the in-memory agent carries a name that the row does not. */
    ghost predicate Rendering()
      reads this
    {
      && Safe() && SafeHistory(history, runtime) && Kept(row.workspace, row.service, held, refused)
      && !runtime.inProcess
      && row.lifecycle.Provisioning? && row.conflict.NoConflict?
      && agent.lifecycle.Provisioning? && agent.conflict.NoConflict? && agent.run == row.run
      && (agent.service != "" ==> agent.workspace != "" && runtime.rendersService)
      && (Name(Workspace) == "" || Name(Workspace) == agent.workspace) && (Name(Service) == "" || Name(Service) == agent.service)
      && Drift(Workspace, row.workspace, agent.workspace) && Drift(Service, row.service, agent.service)
      && (Workspace in names ==> Name(Service) == agent.service)
      && (forall kind :: kind in names ==> names[kind] != "")
      && (row.service != "" ==> row.workspace != "")
    }

    ghost predicate Drift(kind: Kind, stored: string, carried: string)
      reads this
    {
      stored == carried || (stored == "" && Instance(kind, carried) in refused * Made())
    }

    /** The failures a rendering verb can meet in its present state. */
    ghost predicate Explains(failure: Failure)
      reads this
    {
      match failure
      case Conflicting(i, _) => i.name != "" && agent == row && Name(i.kind) == "" &&
        (if i.kind.Workspace? then agent.workspace == "" else agent.workspace != "" && agent.service == "" && runtime.rendersService)
      case _ => true
    }

    /** Undo what the verb created, service before workspace; report what is confirmed gone. */
    method RollBack() returns (gone: set<Instance>)
      requires Rendering()
      modifies `calls, `held, `refused
      ensures Safe() && TallyOf(calls) == TallyOf(old(calls)).(confirmed := Confirmed(old(calls)) + gone)
      ensures held == old(held) - gone && refused == old(refused) - gone && gone <= Made()
      ensures Kept(row.workspace, row.service, held, refused) && gone !! held && refused <= old(refused)
      ensures old(Fresh(row.workspace, row.service, held)) ==> Fresh(row.workspace, row.service, held + gone)
      ensures Instance(Workspace, agent.workspace) in gone ==> Named(Service, agent.service) <= gone
      ensures names != map[] ==> Destroys(calls)
      ensures names == map[] ==> calls == old(calls)
      ensures AllSucceeded(calls) ==> AllSucceeded(old(calls))
      ensures Workspace !in names && DestroysServicesOnly(old(calls)) ==> DestroysServicesOnly(calls)
    {
      gone := {};
      if names != map[] {
        SomeKind(names);
        var ok;
        gone, ok := DestroyBoth(Name(Service), Name(Workspace));
      }
    }

    /** Record a failed verb. A 409 over an instance no agent records becomes the recorded
        conflict and what the verb created stays; anything else rolls the verb back. */
    method Fail(failure: Failure)
      requires Rendering() && Explains(failure)
      modifies `calls, `held, `refused, `row, `agent
      ensures Recoverable() && !InProgress(row) && row.run.Error?
      ensures TallyOf(calls) == TallyOf(old(calls)).(confirmed := Confirmed(calls)) && refused <= old(refused)
      ensures (row.workspace == "" || row.workspace == old(row.workspace)) && (row.service == "" || row.service == old(row.service))
      ensures old(Fresh(row.workspace, row.service, held)) ==> Fresh(row.workspace, row.service, held)
      ensures ConflictOf(row) == if failure.Conflicting? then Unless(failure.i, failure.elsewhere) else {}
      ensures row.conflict.Conflict? ==> calls == old(calls) && held == old(held) && Recorded(row) == Recorded(old(row))
      ensures row.conflict.NoConflict? && names != map[] ==> Destroys(calls)
      ensures row.conflict.NoConflict? && names == map[] ==> calls == old(calls)
      ensures AllSucceeded(calls) ==> AllSucceeded(old(calls))
      ensures Workspace !in names ==> row.workspace == old(row.workspace)
      ensures Workspace !in names && DestroysServicesOnly(old(calls)) ==> DestroysServicesOnly(calls)
      ensures names == map[] ==> held == old(held) && refused == old(refused) && row.workspace == old(row.workspace) && row.service == old(row.service)
    {
      if failure.Conflicting? && !Records(agent, failure.i) && failure.i !in failure.elsewhere {
        row := SaveFailed(row, agent, {}, Conflict(failure.i.kind, failure.i.name));
        agent := MarkFailed(agent, {}, Conflict(failure.i.kind, failure.i.name));
      } else {
        UndoAndRecord();
      }
    }

    /** Roll the verb back and record its failure. */
    method UndoAndRecord()
      requires Rendering()
      modifies `calls, `held, `refused, `row, `agent
      ensures Recoverable() && !InProgress(row) && row.run.Error? && row.conflict.NoConflict?
      ensures TallyOf(calls) == TallyOf(old(calls)).(confirmed := Confirmed(calls)) && refused <= old(refused)
      ensures (row.workspace == "" || row.workspace == old(row.workspace)) && (row.service == "" || row.service == old(row.service))
      ensures old(Fresh(row.workspace, row.service, held)) ==> Fresh(row.workspace, row.service, held)
      ensures names != map[] ==> Destroys(calls)
      ensures names == map[] ==> calls == old(calls) && held == old(held) && refused == old(refused)
      ensures names == map[] ==> row.workspace == old(row.workspace) && row.service == old(row.service)
      ensures AllSucceeded(calls) ==> AllSucceeded(old(calls))
      ensures Workspace !in names ==> row.workspace == old(row.workspace)
      ensures Workspace !in names && DestroysServicesOnly(old(calls)) ==> DestroysServicesOnly(calls)
    {
      var gone := RollBack();
      RecordFailure(gone);
    }

    /** Save a failure without a conflict: the row forgets exactly the names confirmed gone. */
    method RecordFailure(gone: set<Instance>)
      requires Shape(row.(lifecycle := Provisioning), runtime) && !runtime.inProcess
      requires Kept(row.workspace, row.service, held, refused) && gone !! held
      requires (row.workspace == "" || row.workspace == agent.workspace) && (row.service == "" || row.service == agent.service)
      requires Instance(Workspace, agent.workspace) in gone ==> agent.service == "" || Instance(Service, agent.service) in gone
      requires row.conflict.Conflict? ==> row.workspace == agent.workspace && Instance(Workspace, agent.workspace) !in gone
      modifies `row, `agent
      ensures Shape(row, runtime) && !InProgress(row) && row.run.Error? && row.conflict == old(row.conflict)
      ensures Kept(row.workspace, row.service, held, refused) && Recorded(row) == Recorded(old(row)) - gone
      ensures Fresh(old(row.workspace), old(row.service), held + gone) ==> Fresh(row.workspace, row.service, held)
      ensures row.workspace == if Instance(Workspace, old(row.workspace)) in gone then "" else old(row.workspace)
      ensures row.service == if Instance(Service, old(row.service)) in gone then "" else old(row.service)
      ensures old(agent.workspace) != "" && Instance(Workspace, old(agent.workspace)) !in gone ==> row.lifecycle.Ready?
    {
      FailKeeps(row, agent, gone, held, refused);
      FailShapes(row, agent, gone, runtime);
      row := SaveFailed(row, agent, gone, NoConflict);
      agent := MarkFailed(agent, gone, NoConflict);
    }

    /** Render the service over the recorded workspace; workspace-only runtimes render none. */
    method RenderService() returns (r: Outcome)
      requires Rendering() && agent == row && row.workspace != "" && row.service == "" && Service !in names
      modifies `calls, `held, `names, `refused, `row, `agent
      ensures Rendering()
      ensures r.RenderFailed? ==> Explains(r.failure)
      ensures r.RenderFailed? && r.failure.Conflicting? ==>
                r.failure.i.kind.Service? && Answered409(calls, Conflict(r.failure.i.kind, r.failure.i.name))
      ensures r.Rendered? ==>
                && agent == row == old(row).(service := r.service)
                && (r.service != "" <==> runtime.rendersService)
                && Made() == old(Made()) + Named(Service, r.service)
                && held == old(held) + Named(Service, r.service)
                && (r.service != "" ==> Started(calls, r.service))
      ensures AllSucceeded(old(calls)) ==> (r.Rendered? <==> AllSucceeded(calls) && agent == row)
      ensures Destroys(calls) <==> Destroys(old(calls))
      ensures DestroysServicesOnly(old(calls)) ==> DestroysServicesOnly(calls)
      ensures row.workspace == old(row.workspace) && Name(Workspace) == old(Name(Workspace))
      ensures TallyOf(calls) == Ended(TallyOf(old(calls)), r).(prepared := TallyOf(calls).prepared)
      ensures TallyOf(old(calls)).prepared ==> TallyOf(calls).prepared
      ensures agent != row <==> r.RenderFailed? && r.failure.RecordRefused?
      ensures agent != row ==> r.failure.i in refused
      ensures old(Fresh(row.workspace, row.service, held)) ==> Fresh(row.workspace, row.service, held)
    {
      if !runtime.rendersService {
        return Rendered("");
      }
      var ok := Ask(Prepare);
      if !ok { return RenderFailed(OtherFailure); }
      r := CreateService();
      if r.Rendered? {
        ok := Ask(Start(r.service));
        if !ok { r := RenderFailed(OtherFailure); }
      }
    }

    /** The create of the service and its record. */
    method CreateService() returns (r: Outcome)
      requires Rendering() && agent == row && row.workspace != "" && row.service == "" && Service !in names && runtime.rendersService
      requires TallyOf(calls).prepared
      modifies `calls, `held, `names, `refused, `row, `agent
      ensures Rendering()
      ensures r.RenderFailed? ==> Explains(r.failure)
      ensures r.RenderFailed? && r.failure.Conflicting? ==>
                r.failure.i.kind.Service? && Answered409(calls, Conflict(r.failure.i.kind, r.failure.i.name))
      ensures r.Rendered? ==>
                && agent == row == old(row).(service := r.service) && r.service != ""
                && Made() == old(Made()) + Named(Service, r.service) && held == old(held) + Named(Service, r.service)
      ensures AllSucceeded(old(calls)) ==> (r.Rendered? <==> AllSucceeded(calls) && agent == row)
      ensures Destroys(calls) <==> Destroys(old(calls))
      ensures DestroysServicesOnly(old(calls)) ==> DestroysServicesOnly(calls)
      ensures row.workspace == old(row.workspace) && Name(Workspace) == old(Name(Workspace))
      ensures TallyOf(calls) == Ended(TallyOf(old(calls)), r)
      ensures agent != row <==> r.RenderFailed? && r.failure.RecordRefused?
      ensures agent != row ==> r.failure.i in refused
      ensures old(Fresh(row.workspace, row.service, held)) ==> Fresh(row.workspace, row.service, held)
    {
      var reply, elsewhere := CreateAndRecord(Service);
      if reply.Exists? && reply.name != "" {
        r := RenderFailed(Conflicting(Instance(Service, reply.name), elsewhere));
      } else if !reply.Created? || reply.name == "" {
        r := RenderFailed(OtherFailure);
      } else if agent != row {
        r := RenderFailed(RecordRefused(Instance(Service, reply.name)));
      } else {
        r := Rendered(reply.name);
      }
    }

    /** Judge the workspace a recorded conflict involves: the conflicting one, or the one a
        conflicting service mounts. The report carries the name that was asked for. */
    method InspectConflict() returns (r: Inspection)
      requires agent.conflict.Conflict? && Safe() && Shape(row, runtime) && Kept(row.workspace, row.service, held, refused)
      requires TallyOf(calls).read.None?
      modifies `calls
      ensures Safe() && TallyOf(calls) == TallyOf(old(calls)).(read := TallyOf(calls).read)
      ensures Judges(calls, agent, runtime, r) && (r.Verified? ==> Vouched(calls, agent, runtime, r.report))
      ensures TallyOf(calls).read.Some? ==> TallyOf(calls).read.value.elsewhere !! Recorded(row)
      ensures Destroys(calls) <==> Destroys(old(calls))
      ensures AllSucceeded(calls) <==> AllSucceeded(old(calls)) && !r.Unreadable?
    {
      var workspace := Inspected(agent);
      if workspace == "" {
        return Refused;
      }
      var reply, elsewhere := ReadWorkspace(workspace);
      match reply
      case Reported(report) =>
        OwnExactlyWhen(agent, runtime, report, elsewhere);
        r := if NotOurs(agent, runtime, report, elsewhere) then Refused else Verified(report);
      case Absent =>
        r := Gone;
      case _ =>
        r := Unreadable;
    }

    /** The daemon's report of a workspace, or that there is none. */
    method ReadWorkspace(workspace: string) returns (reply: Reply, elsewhere: set<Instance>)
      modifies `calls
      ensures calls == Then(old(calls), Call(ReadStatus(workspace), reply, row, Made(), refused, held, elsewhere))
      ensures reply.Reported? ==> reply.report.name == workspace
      ensures reply.Reported? || reply.Absent? || reply.Failed?
      ensures elsewhere !! Recorded(row)
    {
      reply := *;
      if reply.Reported? {
        reply := Reported(reply.report.(name := workspace));
      } else if !reply.Absent? {
        reply := Failed;
      }
      elsewhere := RecordedElsewhere();
      Log(ReadStatus(workspace), reply, elsewhere);
    }

    /** Take the row as it is under the lock, with nothing created yet. */
    method Begin()
      requires Recoverable()
      modifies `agent, `names, `calls, `history
      ensures Recoverable() && agent == row && names == map[] && calls == Nothing && Made() == {}
      ensures history == AndThen(old(history), old(calls)) && BookAt(history).refused == refused
    {
      agent, names := row, map[];
      history, calls := AndThen(history, calls), Nothing;
    }

    // ---- The verbs ------------------------------------------------------------------

    method Provision(renderable: bool, catalogued: bool) returns (ok: bool)
      requires Recoverable()
      modifies this
      ensures Recoverable() && (old(Valid()) ==> Valid()) && history == AndThen(old(history), old(calls))
      ensures ok ==> MayProvision(old(row), renderable)
      ensures !MayProvision(old(row), renderable) ==> row == old(row) && calls == Nothing && held == old(held)
      ensures ok ==> row.lifecycle.Ready? && row.run.Running? && AllSucceeded(calls) && !Destroys(calls)
      ensures ok ==> Made() == Recorded(row) && held == old(held) + Recorded(row)
      ensures ok ==> (row.workspace != "" <==> !runtime.inProcess) && (row.service != "" <==> runtime.rendersService)
      ensures ok && row.service != "" ==> Started(calls, row.service)
      ensures runtime.inProcess && !ok ==> row == old(row) && calls == Nothing
      ensures MayProvision(old(row), renderable) && !runtime.inProcess && !ok ==>
                row.run.Error? && (!AllSucceeded(calls) || RefusedRecords(calls) != {})
      ensures !ok && Made() != {} && row.conflict.NoConflict? ==> Destroys(calls)
      ensures row.conflict.Conflict? && old(row.conflict).NoConflict? ==>
                Answered409(calls, row.conflict) && Recorded(row) == Made() && !Destroys(calls)
      ensures MayProvision(old(row), renderable) && !runtime.inProcess ==> ConflictOf(row) == Unclaimed(calls)
      ensures !TallyOf(calls).rash
      ensures refused <= old(refused) + RefusedRecords(calls) && NoneRecorded(RefusedRecords(calls), row)
    {
      Begin();
      if !MayProvision(agent, renderable) || (runtime.inProcess && !catalogued) {
        return false;
      }
      agent := MarkProvisioning(agent);
      row := agent;
      if runtime.inProcess {
        agent := MarkProvisioned(agent, "", "");
        row := agent;
        return true;
      }
      ok := Ask(Prepare);
      if !ok {
        Fail(OtherFailure);
        return;
      }
      ok := RenderOrFail();
      RefusedByCreates(BookAt(history), calls);
    }

    /** Create the workspace, then the service over it. */
    method RenderAgent() returns (r: Outcome)
      requires Rendering() && agent == row && Recorded(row) == {} && names == map[]
      requires AllSucceeded(calls) && !Destroys(calls) && TallyOf(calls) == NONE_YET.(prepared := true)
      modifies `calls, `held, `names, `refused, `row, `agent
      ensures Rendering() && !Destroys(calls)
      ensures r.RenderFailed? ==> Explains(r.failure)
      ensures r.RenderFailed? && r.failure.Conflicting? ==>
                Answered409(calls, Conflict(r.failure.i.kind, r.failure.i.name)) && Recorded(row) == Made()
      ensures r.Rendered? ==>
                && agent == row && row.workspace != "" && row.service == r.service
                && (r.service != "" <==> runtime.rendersService)
                && Made() == Recorded(row) && held == old(held) + Recorded(row)
                && (r.service != "" ==> Started(calls, r.service))
      ensures r.Rendered? <==> AllSucceeded(calls) && agent == row
      ensures TallyOf(calls) == Ended(TallyOf(old(calls)), r)
      ensures agent != row <==> r.RenderFailed? && r.failure.RecordRefused?
      ensures agent != row ==> r.failure.i in refused
      ensures Fresh(row.workspace, row.service, held)
    {
      var reply, elsewhere := CreateAndRecord(Workspace);
      r := RenderFailed(OtherFailure);
      if reply.Exists? && reply.name != "" {
        r := RenderFailed(Conflicting(Instance(Workspace, reply.name), elsewhere));
      } else if reply.Created? && reply.name != "" {
        if agent != row { r := RenderFailed(RecordRefused(Instance(Workspace, reply.name))); } else { r := RenderService(); }
      }
    }

    /** Render, and record either what was rendered or the failure. */
    method RenderOrFail() returns (ok: bool)
      requires Rendering() && agent == row && Recorded(row) == {} && names == map[]
      requires AllSucceeded(calls) && !Destroys(calls) && TallyOf(calls) == NONE_YET.(prepared := true)
      modifies `calls, `held, `names, `refused, `row, `agent
      ensures Valid()
      ensures ok ==> row.lifecycle.Ready? && row.run.Running? && AllSucceeded(calls) && !Destroys(calls)
      ensures ok ==> Made() == Recorded(row) && held == old(held) + Recorded(row)
      ensures ok ==> row.workspace != "" && row.conflict.NoConflict? && (row.service != "" <==> runtime.rendersService)
      ensures ok && row.service != "" ==> Started(calls, row.service)
      ensures !ok ==> row.run.Error? && (!AllSucceeded(calls) || RefusedRecords(calls) != {})
      ensures !ok && Made() != {} && row.conflict.NoConflict? ==> Destroys(calls)
      ensures row.conflict.Conflict? ==>
                Answered409(calls, row.conflict) && Recorded(row) == Made() && !Destroys(calls)
      ensures ConflictOf(row) == Unclaimed(calls) && NoneRecorded(RefusedRecords(calls), row) && !TallyOf(calls).rash
    {
      var r := RenderAgent();
      if agent != row { RefusedAreNotRecorded(row, held, refused, RefusedRecords(calls)); }
      if r.RenderFailed? {
        Fail(r.failure);
        return false;
      }
      agent := MarkProvisioned(agent, agent.workspace, r.service);
      row := agent;
      ok := true;
    }

    /** Record the verified conflicting instance as the agent's own and start its service if
        it is stopped. Nothing is created or destroyed, and no recorded name is overwritten. */
    method Adopt(hasTemplate: bool) returns (ok: bool, found: Inspection, elsewhere: set<Instance>)
      requires Recoverable()
      modifies this
      ensures Recoverable() && (old(Valid()) || row != old(row) ==> Valid()) && history == AndThen(old(history), old(calls))
      ensures ok ==> MayAdopt(old(row), hasTemplate)
      ensures MayAdopt(old(row), hasTemplate) ==> Judges(calls, old(row), runtime, found)
      ensures !MayAdopt(old(row), hasTemplate) ==> row == old(row) && calls == Nothing
      ensures MayAdopt(old(row), hasTemplate) ==>
                (row != old(row) <==> found.Verified? && Adopted(found.report) !! elsewhere)
      ensures row != old(row) ==> Vouched(calls, old(row), runtime, found.report)
      ensures row != old(row) ==> row.workspace == found.report.name && row.service == Mounting(found.report)
      ensures !Destroys(calls) && Made() == {} && refused == old(refused) - Recorded(row)
      ensures Recorded(old(row)) <= Recorded(row)
      ensures row == old(row) || row.conflict.NoConflict?
      ensures row == old(row) ==> !ok && held == old(held)
      ensures row != old(row) ==> old(row).conflict.Conflict? && held == old(held) + Recorded(row)
      ensures row != old(row) && old(row).conflict.kind.Workspace? ==> row.workspace == old(row).conflict.name
      ensures row != old(row) && old(row).conflict.kind.Service? ==> row.service == old(row).conflict.name
      ensures row != old(row) ==> (ok <==> AllSucceeded(calls))
      ensures ok ==> row.lifecycle.Ready? &&
                     row.run == (if runtime.rendersService && row.service == "" then Error else Running)
      ensures ok && row.service != "" ==> Started(calls, row.service)
      ensures row != old(row) && !ok ==> row.lifecycle.Ready? && row.run.Error?
    {
      found, elsewhere := FindAdoptable(hasTemplate);
      if !MayAdopt(row, hasTemplate) || !found.Verified? || elsewhere * Adopted(found.report) != {} {
        return false, found, elsewhere;
      }
      RecordAdopted(found.report.name, Mounting(found.report));
      ok := StartAdopted();
    }

    /** The checks of Adopt: the conflicting instance is there and is the agent's own; with it
        come the instances recorded elsewhere when it is to be recorded. */
    method FindAdoptable(hasTemplate: bool) returns (found: Inspection, elsewhere: set<Instance>)
      requires Recoverable()
      modifies `agent, `names, `calls, `history
      ensures Recoverable() && agent == row && names == map[] && history == AndThen(old(history), old(calls))
      ensures !Destroys(calls) && Made() == {} && elsewhere !! Recorded(row)
      ensures !MayAdopt(row, hasTemplate) ==> calls == Nothing
      ensures MayAdopt(row, hasTemplate) ==> Judges(calls, row, runtime, found)
      ensures MayAdopt(row, hasTemplate) && found.Verified? ==> AllSucceeded(calls)
    {
      Begin();
      found := Refused;
      if MayAdopt(agent, hasTemplate) {
        found := InspectConflict();
      }
      elsewhere := RecordedElsewhere();
    }

    /** Record the verified instance and what mounts it. */
    method RecordAdopted(workspace: string, service: string)
      requires Recoverable() && !InProgress(row) && agent == row && names == map[] && !runtime.inProcess && workspace != ""
      requires (row.workspace == "" || row.workspace == workspace) && row.service == "" && (service != "" ==> runtime.rendersService)
      modifies `calls, `held, `refused, `row, `agent
      ensures Rendering() && Fresh(row.workspace, row.service, held) && agent == row == MarkAdopting(old(row), workspace, service)
      ensures TallyOf(calls) == TallyOf(old(calls))
      ensures (AllSucceeded(calls) <==> AllSucceeded(old(calls))) && (Destroys(calls) <==> Destroys(old(calls)))
      ensures held == old(held) + Recorded(row) && refused == old(refused) - Recorded(row)
    {
      RecordKeeps(row, held, refused, workspace, service);
      Take(Named(Workspace, workspace) + Named(Service, service));
      agent := MarkAdopting(agent, workspace, service);
      row := agent;
    }

    /** The part of Adopt after its record: start a stopped service, then settle the row. */
    method StartAdopted() returns (ok: bool)
      requires Rendering() && agent == row && names == map[] && row.workspace != ""
      requires AllSucceeded(calls) && !Destroys(calls) && Fresh(row.workspace, row.service, held)
      modifies `calls, `held, `refused, `row, `agent
      ensures Valid() && !Destroys(calls) && held == old(held) && refused == old(refused)
      ensures Recorded(row) == Recorded(old(row)) && row.conflict.NoConflict? && row.lifecycle.Ready?
      ensures row.workspace == old(row.workspace) && row.service == old(row.service)
      ensures TallyOf(calls) == TallyOf(old(calls)) && (ok <==> AllSucceeded(calls))
      ensures row.run == (if ok && !(runtime.rendersService && row.service == "") then Running else Error)
      ensures ok && row.service != "" ==> Started(calls, row.service)
    {
      if row.service != "" {
        var running: bool := *;
        ok := Ask(ReadService(row.service, running));
        if ok && !running {
          ok := Ask(Start(row.service));
        }
        if !ok {
          Fail(OtherFailure);
          return;
        }
      }
      agent := if row.service == "" && runtime.rendersService
               then MarkFailed(agent, {}, NoConflict)
               else MarkProvisioned(agent, agent.workspace, agent.service);
      row := agent;
      ok := true;
    }

    /** Destroy what the row records, having first recorded a conflicting instance that
        verifies as this agent's; one that does not verify is left in place. */
    method Deprovision() returns (ok: bool, found: Inspection, elsewhere: set<Instance>)
      requires Recoverable()
      modifies this
      ensures Recoverable() && (old(Valid()) || ok ==> Valid()) && history == AndThen(old(history), old(calls))
      ensures refused <= old(refused) && Made() == {}
      ensures ok <==> MayDeprovision(old(row)) && AllSucceeded(calls) && elsewhere !! Claimed(old(row), found)
      ensures ok ==> row == Row(Deprovisioned, Stopped, "", "", NoConflict) && row == agent
      ensures ok ==> held <= old(held) - Recorded(old(row))
      ensures ok && !runtime.inProcess ==> Recorded(old(row)) + Claimed(old(row), found) <= Confirmed(calls)
      ensures Confirmed(calls) <= Recorded(old(row)) + Claimed(old(row), found)
      ensures found.Verified? ==> Vouched(calls, old(row), runtime, found.report)
      ensures MayDeprovision(old(row)) && !runtime.inProcess && old(row).conflict.Conflict? ==> Judges(calls, old(row), runtime, found)
      ensures old(row).conflict.NoConflict? ==> TallyOf(calls).read.None?
      ensures !MayDeprovision(old(row)) ==> row == old(row) && calls == Nothing
      ensures !ok && row == old(row) ==> held == old(held)
      ensures !ok && row != old(row) ==> row.lifecycle.Ready? && row.run.Error? && !AllSucceeded(calls)
    {
      Begin();
      found, elsewhere := Gone, {};
      if !MayDeprovision(agent) {
        return false, found, elsewhere;
      }
      if runtime.inProcess {
        agent := MarkDeprovisioned(MarkDeprovisioning(agent, "", ""));
        row := agent;
        return true, found, elsewhere;
      }
      var workspace, service := "", "";
      if agent.conflict.Conflict? {
        found := InspectConflict();
        if found.Unreadable? {
          return false, found, elsewhere;
        }
        if found.Verified? {
          VerifiedFits(calls, row, runtime, found);
          if agent.conflict.kind.Workspace? { workspace := found.report.name; }
          service := Mounting(found.report);
        }
      }
      elsewhere := RecordedElsewhere();
      if elsewhere * (Named(Workspace, workspace) + Named(Service, service)) != {} {
        return false, found, elsewhere;
      }
      ok := TearDown(workspace, service);
    }

    /** The part of Deprovision after its checks: record the verified instance, destroy
        everything recorded, and clear or correct the row. */
    method TearDown(workspace: string, service: string) returns (ok: bool)
      requires Recoverable() && agent == row && names == map[] && !runtime.inProcess && AllSucceeded(calls)
      requires workspace == "" || (row.conflict == Conflict(Workspace, workspace) && row.workspace == "")
      requires service == "" || (row.conflict.Conflict? && row.service == "" && runtime.rendersService)
      requires service != "" ==> workspace != "" || row.workspace != ""
      modifies `calls, `held, `refused, `row, `agent
      ensures Recoverable() && !InProgress(row) && (old(Fresh(row.workspace, row.service, held)) || ok ==> Valid()) && refused <= old(refused)
      ensures TallyOf(calls) == TallyOf(old(calls)).(confirmed := Confirmed(calls)) && (ok <==> AllSucceeded(calls))
      ensures Confirmed(calls) <= Confirmed(old(calls)) + Recorded(old(row)) + Named(Workspace, workspace) + Named(Service, service)
      ensures ok ==> row == Row(Deprovisioned, Stopped, "", "", NoConflict) && row == agent
      ensures ok ==> held <= old(held) - Recorded(old(row))
      ensures ok ==> Recorded(old(row)) + Named(Workspace, workspace) + Named(Service, service) <= Confirmed(calls)
      ensures !ok && row == old(row) ==> held == old(held)
      ensures !ok ==> row.lifecycle.Ready? && row.run.Error?
    {
      ghost var taken := Named(Workspace, workspace) + Named(Service, service);
      TakeKeeps(row, held, refused, workspace, service);
      Take(taken);
      agent := MarkDeprovisioning(agent, workspace, service);
      row := agent;
      assert Recorded(row) == Recorded(old(row)) + taken;
      var gone;
      ok, gone := DestroyRecorded();
    }

    /** Destroy everything the row records; clear the row, or correct it to what is left. */
    method DestroyRecorded() returns (ok: bool, gone: set<Instance>)
      requires agent == row && names == map[] && row.lifecycle.Deprovisioning? && AllSucceeded(calls)
      requires Shape(row.(lifecycle := if row.workspace == "" then Draft else Ready, run := Error), runtime)
      requires Kept(row.workspace, row.service, held, refused) && Safe() && SafeHistory(history, runtime)
      modifies `calls, `held, `refused, `row, `agent
      ensures Recoverable() && !InProgress(row) && (old(Fresh(row.workspace, row.service, held)) || ok ==> Valid())
      ensures held == old(held) - gone && refused == old(refused) - gone && gone <= Recorded(old(row))
      ensures TallyOf(calls) == TallyOf(old(calls)).(confirmed := Confirmed(old(calls)) + gone)
      ensures ok <==> AllSucceeded(calls)
      ensures ok ==> row == Row(Deprovisioned, Stopped, "", "", NoConflict) && row == agent
      ensures ok ==> gone == Recorded(old(row)) && gone <= Confirmed(calls)
      ensures !ok ==> Recorded(row) == Recorded(old(row)) - gone && row.conflict == old(row.conflict)
      ensures !ok ==> row.lifecycle.Ready? && row.run.Error?
    {
      gone, ok := DestroyBoth(agent.service, agent.workspace);
      if ok {
        ForgetKeeps(row.workspace, row.service, held, refused);
        agent := MarkDeprovisioned(agent);
        row := agent;
      } else {
        RecordFailure(gone);
      }
    }

    /** Teardown, then provision afresh; refused before it destroys anything when the agent
        could not be rendered again or the conflicting instance is not its own. */
    method Replace(renderable: bool) returns (ok: bool, found: Inspection, ghost first: Log)
      requires Recoverable()
      modifies this
      ensures Recoverable() && (old(Valid()) || ok ==> Valid()) && Extends(history, AndThen(old(history), old(calls)))
      ensures ok ==> MayReplace(old(row), renderable) && row.lifecycle.Ready? && row.run.Running? && row.conflict.NoConflict?
      ensures ok && row.service != "" ==> Started(calls, row.service)
      ensures !MayReplace(old(row), renderable) ==> found.Refused?
      ensures found.Unreadable? || found.Refused? ==> !ok && row == old(row) && held == old(held) && !Destroys(calls)
      ensures MayReplace(old(row), renderable) ==> Judges(first, old(row), runtime, found)
      ensures found.Verified? ==> Vouched(first, old(row), runtime, found.report)
      ensures MayReplace(old(row), renderable) ==>
                if found.Unreadable? || found.Refused? then calls == first
                else Extends(history, AndThen(AndThen(old(history), old(calls)), first))
      ensures refused <= old(refused) + RefusedRecords(calls)
    {
      Begin();
      if !MayReplace(agent, renderable) {
        return false, Refused, Nothing;
      }
      found := InspectConflict();
      first := calls;
      if found.Unreadable? || found.Refused? {
        return false, found, first;
      }
      var again, seen;
      ok, again, seen := Deprovision();
      if ok {
        ok := Provision(renderable, true);
      }
    }

    /** Destroy the recorded service and render it again over the recorded workspace. */
    method Reprovision(renderable: bool) returns (ok: bool)
      requires Recoverable()
      modifies this
      ensures Recoverable() && (old(Valid()) ==> Valid()) && history == AndThen(old(history), old(calls))
      ensures ok ==> MayReprovision(old(row), runtime, renderable)
      ensures !MayReprovision(old(row), runtime, renderable) ==> row == old(row) && calls == Nothing && held == old(held)
      ensures row.workspace == old(row.workspace)
      ensures DestroysServicesOnly(calls)
      ensures ok ==> row.lifecycle.Ready? && row.run.Running? && AllSucceeded(calls)
      ensures ok ==> row.service != "" && Made() == {Instance(Service, row.service)} && Started(calls, row.service)
      ensures ok ==> held == old(held) - Named(Service, old(row.service)) + {Instance(Service, row.service)}
      ensures MayReprovision(old(row), runtime, renderable) && !ok ==>
                row.run.Error? && row.lifecycle.Ready? && (!AllSucceeded(calls) || RefusedRecords(calls) != {})
      ensures MayReprovision(old(row), runtime, renderable) ==> ConflictOf(row) == Unclaimed(calls)
      ensures !TallyOf(calls).rash
      ensures refused <= old(refused) + RefusedRecords(calls)
    {
      Begin();
      if !MayReprovision(agent, runtime, renderable) {
        return false;
      }
      agent := MarkProvisioning(agent);
      row := agent;
      ok := Ask(Prepare);
      if ok { ok := DestroyService(); }
      if !ok {
        Fail(OtherFailure);
        return;
      }
      ok := RenderAgain();
      RefusedByCreates(BookAt(history), calls);
    }

    /** Destroy the recorded service, if there is one, and forget it once confirmed gone. */
    method DestroyService() returns (ok: bool)
      requires Rendering() && agent == row && names == map[] && AllSucceeded(calls) && DestroysServicesOnly(calls)
      modifies `calls, `held, `refused, `row, `agent
      ensures Rendering() && agent == row && DestroysServicesOnly(calls) && refused <= old(refused)
      ensures old(Fresh(row.workspace, row.service, held)) ==> Fresh(row.workspace, row.service, held)
      ensures TallyOf(calls) == TallyOf(old(calls)).(confirmed := Confirmed(calls)) && (ok <==> AllSucceeded(calls))
      ensures row == if ok then old(row).(service := "") else old(row)
      ensures held == if ok then old(held) - Named(Service, old(row.service)) else old(held)
    {
      ok := true;
      ForgetKeeps(row.workspace, row.service, held, refused);
      if agent.service != "" {
        DestroyKeeps(row.workspace, row.service, held, refused, Instance(Service, agent.service));
        ok := DestroyInstance(Instance(Service, agent.service));
        if ok {
          agent := MarkServiceDestroyed(agent);
          row := agent;
        }
      }
    }

    /** The part of Reprovision once no service is left over the workspace. */
    method RenderAgain() returns (ok: bool)
      requires Rendering() && agent == row && names == map[] && runtime.rendersService
      requires row.workspace != "" && row.service == ""
      requires AllSucceeded(calls) && DestroysServicesOnly(calls) && Unclaimed(calls) == {}
      modifies `calls, `held, `names, `refused, `row, `agent
      ensures Recoverable() && !InProgress(row) && row.workspace == old(row.workspace) && DestroysServicesOnly(calls)
      ensures old(Fresh(row.workspace, row.service, held)) ==> Fresh(row.workspace, row.service, held)
      ensures ok ==> row.lifecycle.Ready? && row.run.Running? && AllSucceeded(calls)
      ensures ok ==> row.service != "" && Made() == {Instance(Service, row.service)} && Started(calls, row.service)
      ensures ok ==> held == old(held) + {Instance(Service, row.service)}
      ensures !ok ==> row.run.Error? && row.lifecycle.Ready? && (!AllSucceeded(calls) || RefusedRecords(calls) != {})
      ensures ConflictOf(row) == Unclaimed(calls) && RefusedRecords(old(calls)) <= RefusedRecords(calls)
      ensures TallyOf(calls).rash == TallyOf(old(calls)).rash
    {
      var r := RenderService();
      if r.RenderFailed? {
        Fail(r.failure);
        return false;
      }
      agent := MarkProvisioned(agent, agent.workspace, r.service);
      row := agent;
      ok := true;
    }

    /** Renaming the agent clears a conflicting workspace, whose name derived from the old one. */
    method Rename()
      requires Recoverable()
      modifies `row, `agent
      ensures Recoverable() && (old(Valid()) ==> Valid()) && Recorded(row) == Recorded(old(row))
      ensures row == (if old(row).conflict.Conflict? && old(row).conflict.kind.Workspace?
                      then old(row).(conflict := NoConflict) else old(row))
    {
      if row.conflict.Conflict? && row.conflict.kind.Workspace? {
        row := row.(conflict := NoConflict);
      }
      agent := row;
    }

    /** Every run of verbs, whatever the daemon answers and wherever an earlier process stopped:
        nothing held is ever forgotten but what another agent recorded when it was created, and
        every destroy of the whole run was safe. From a row at rest, what is held at the end is
        exactly what is recorded and what was so refused; without a refused record the two agree. */
    method Drive(schedule: seq<Verb>, configured: seq<bool>)
      requires Recoverable() && |configured| == |schedule|
      modifies this
      ensures Recoverable() && (old(Valid()) ==> Valid())
      ensures SafeHistory(AndThen(history, calls), runtime) && Extends(history, old(history))
      ensures refused !! Recorded(row) && Book(held, refused) == BookAt(AndThen(history, calls))
      ensures old(Valid()) ==> held == Recorded(row) + refused
      ensures old(Valid()) && EverRefused(AndThen(history, calls)) == {} ==> held == Recorded(row)
    {
      for k := 0 to |schedule|
        invariant Recoverable() && (old(Valid()) ==> Valid()) && Extends(history, old(history))
      {
        var ok;
        ghost var before, made := history, calls;
        match schedule[k] {
        case Provision => ok := Provision(configured[k], configured[k]);
        case Adopt => var found, seen; ok, found, seen := Adopt(configured[k]);
        case Replace => var found; ghost var first; ok, found, first := Replace(configured[k]);
        case Reprovision => ok := Reprovision(configured[k]);
        case Deprovision => var found, seen; ok, found, seen := Deprovision();
        case Rename => Rename();
        }
        if Extends(history, AndThen(before, made)) { ExtendsOn(history, AndThen(before, made), before); }
        ExtendsOn(history, before, old(history));
      }
      RefusedEver(AndThen(history, calls));
      KeptMeans(row, held, refused);
    }
  }
}
