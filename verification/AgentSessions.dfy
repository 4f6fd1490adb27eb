/** The session row as an object whose methods run under the session lock, the worker's
    transcript sink, and the sessions of one in-process agent across its lifecycle. */
module AgentSessions {
  import opened Common
  import opened M = SessionMachine

  /** No turn but one is different. */
  ghost predicate OnlyTurn(before: Session, after: Session, i: nat) {
    && i < |before.turns| == |after.turns|
    && forall j :: 0 <= j < |before.turns| && j != i ==> after.turns[j] == before.turns[j]
  }

  /** A waiting turn runs, none before it waited and none was active; the session is busy with it. */
  ghost predicate Takes(before: Session, after: Session, i: nat) {
    && OnlyTurn(before, after, i) && before.turns[i].status.Pending? && after.turns[i].status.Running?
    && (forall j :: 0 <= j < i ==> !before.turns[j].status.Pending?) && (forall j :: 0 <= j < |before.turns| ==> !Active(before.turns[j]))
    && after.turns[i].usage == before.turns[i].usage && after.status.Busy?
    && after.usage == before.usage && after.replay == before.replay
  }

  /** The outcome's usage goes to the turn and is added to the session's; a success completes the
      turn, frees the session and leaves its state for the next turn, a failure fails both. */
  ghost predicate Stores(before: Session, after: Session, i: nat, o: Outcome) {
    && OnlyTurn(before, after, i) && after.turns[i].usage == o.usage
    && (forall key :: Get(after.usage, key) == Get(before.usage, key) + Get(o.usage, key))
    && match o
       case Success(_, state) => after.turns[i].status.Completed? && after.status.Idle? && after.replay == state
       case Failure(_) => after.turns[i].status.Failed? && after.status.Errored? && after.replay == before.replay
  }

  /** The turn is cancelled; an open session that was active with it is idle, and any other stays as
      it was, with its queued turns. */
  ghost predicate Stops(before: Session, after: Session, i: nat) {
    && OnlyTurn(before, after, i) && after.turns[i].status.Canceled? && after.turns[i].usage == before.turns[i].usage
    && after.status == (if before.turns[i].status.Pending? || before.status.Closed? then before.status else Idle)
    && after.usage == before.usage && after.replay == before.replay
  }

  class AgentSession {
    var status: SessionStatus
    var turns: seq<Turn>
    var usage: Usage
    var replay: string

    constructor ()
      ensures State() == START.session
    {
      status, turns, usage, replay := Idle, [], map[], "";
    }

    function State(): Session
      reads this
    {
      Session(status, turns, usage, replay)
    }

    /** Queue a prompt; the index of the new turn, unless the post is refused. */
    method PostTurn(canChat: bool) returns (index: Option<nat>)
      modifies this
      ensures State() == Post(old(State()), canChat)
      ensures index.Some? <==> canChat && !old(status).Closed? && !old(status).Parked?
      ensures index.Some? ==> index.value == |old(turns)| && |turns| == |old(turns)| + 1 && turns[..|old(turns)|] == old(turns)
      ensures index.Some? ==> turns[index.value].status.Pending? && turns[index.value].usage == map[]
      ensures index.None? ==> turns == old(turns)
      ensures status == old(status) && usage == old(usage) && replay == old(replay)
    {
      if status.Closed? || !canChat || status.Parked? {
        return None;
      }
      turns := turns + [Turn(Pending, map[])];
      index := Some(|turns| - 1);
    }

    /** Claim the oldest pending turn, never over an active one. */
    method ClaimTurn(canChat: bool) returns (claimed: Option<nat>)
      modifies this
      ensures State() == Claim(old(State()), canChat)
      ensures claimed == if canChat then Claimable(old(State())) else None
      ensures claimed.Some? ==> Takes(old(State()), State(), claimed.value)
      ensures claimed.None? && canChat ==> turns == old(turns) && usage == old(usage) && replay == old(replay)
    {
      if status.Closed? {
        return None;
      }
      var oldest: Option<nat> := None;
      for k := 0 to |turns|
        invariant State() == old(State())
        invariant forall i :: 0 <= i < k ==> !Active(turns[i])
        invariant oldest.None? ==> forall i :: 0 <= i < k ==> !turns[i].status.Pending?
        invariant oldest.Some? ==> oldest.value < k && turns[oldest.value].status.Pending?
        invariant oldest.Some? ==> forall i :: 0 <= i < oldest.value ==> !turns[i].status.Pending?
      {
        if Active(turns[k]) {
          return None;
        }
        if turns[k].status.Pending? && oldest.None? {
          oldest := Some(k);
        }
      }
      assert oldest == OldestPending(turns, 0);
      if oldest.None? {
        if status.Busy? || status.Parked? { status := Idle; }
        return None;
      }
      var i := oldest.value;
      turns, status := turns[i := turns[i].(status := Running)], Busy;
      if canChat {
        return Some(i);
      }
      var settled := SettleTurn(i, Failure(map[]));
      claimed := None;
    }

    /** Store one still-running turn's outcome; `enqueue` asks for the next delivery. */
    method SettleTurn(i: nat, outcome: Outcome) returns (enqueue: bool)
      modifies this
      ensures State() == Settle(old(State()), i, outcome)
      ensures i < |old(turns)| && old(turns)[i].status.Running? && !old(status).Closed? ==> Stores(old(State()), State(), i, outcome)
      ensures !(i < |old(turns)| && old(turns)[i].status.Running? && !old(status).Closed?) ==> State() == old(State())
      ensures enqueue <==> Settles(old(State()), i) && Enqueued(State()) == 1
    {
      if i >= |turns| || !turns[i].status.Running? || status.Closed? {
        return false;
      }
      usage := AddUsage(usage, outcome.usage);
      match outcome {
        case Success(spent, state) =>
          turns, status, replay := turns[i := Turn(Completed, spent)], Idle, state;
        case Failure(spent) =>
          turns, status := turns[i := Turn(Failed, spent)], Errored;
      }
      enqueue := HasPending(turns);
    }

    method CancelTurn(i: nat) returns (enqueue: bool)
      modifies this
      ensures State() == Cancel(old(State()), i)
      ensures i < |old(turns)| && Open(old(turns)[i]) ==> Stops(old(State()), State(), i)
      ensures !(i < |old(turns)| && Open(old(turns)[i])) ==> State() == old(State())
      ensures enqueue <==> Cancels(old(State()), i) && Enqueued(State()) == 1
    {
      if i >= |turns| || !Open(turns[i]) {
        return false;
      }
      if Active(turns[i]) && !status.Closed? { status := Idle; }
      turns := turns[i := turns[i].(status := Canceled)];
      enqueue := !status.Closed? && HasPending(turns);
    }

    /** Stop the active turn, if there is one. */
    method CancelActiveTurn() returns (enqueue: bool)
      requires OneActive(State())
      modifies this
      ensures OneActive(State()) && !HasActive(turns)
      ensures !HasActive(old(turns)) ==> State() == old(State())
      ensures forall i :: 0 <= i < |old(turns)| && Active(old(turns)[i]) ==> State() == Cancel(old(State()), i)
    {
      for k := 0 to |turns|
        invariant State() == old(State())
        invariant forall i :: 0 <= i < k ==> !Active(turns[i])
      {
        if Active(turns[k]) {
          CancelKeepsOneActive(State(), k);
          enqueue := CancelTurn(k);
          return;
        }
      }
      enqueue := false;
    }

    /** Cancel every open turn and close the conversation. */
    method CloseSession()
      modifies this
      ensures State() == Close(old(State()))
      ensures status.Closed? && |turns| == |old(turns)| && usage == old(usage) && replay == old(replay)
      ensures forall i :: 0 <= i < |turns| ==> turns[i].usage == old(turns)[i].usage
      ensures forall i :: 0 <= i < |turns| ==> turns[i].status == if Open(old(turns)[i]) then Canceled else old(turns)[i].status
    {
      for k := 0 to |turns|
        invariant |turns| == |old(turns)| && status == old(status) && usage == old(usage) && replay == old(replay)
        invariant forall i :: 0 <= i < k ==> turns[i] == CanceledOpen(old(turns))[i]
        invariant forall i :: k <= i < |turns| ==> turns[i] == old(turns)[i]
      {
        if Open(turns[k]) {
          turns := turns[k := turns[k].(status := Canceled)];
        }
      }
      assert turns == CanceledOpen(old(turns));
      status := Closed;
    }
  }

  /** Add the spent amounts key by key. */
  method AddUsage(usage: Usage, spent: Usage) returns (total: Usage)
    ensures total == Added(usage, spent)
  {
    total := usage;
    var left := spent.Keys;
    while left != {}
      invariant left <= spent.Keys
      invariant total.Keys == usage.Keys + (spent.Keys - left)
      invariant forall key :: key in total.Keys ==>
                  total[key] == Get(usage, key) + if key in left then 0 else Get(spent, key)
      decreases left
    {
      var key :| key in left;
      total := total[key := Get(total, key) + spent[key]];
      left := left - {key};
    }
  }

  // ---- The worker's transcript --------------------------------------------------------------

  /** Persists emitted updates in batches and observes Stop at each flush. The row's status
      may change between calls; the claiming worker is its only transcript writer. */
  class TurnUpdateSink<Update> {
    var stored: seq<Update>   // the turn's persisted transcript
    var pending: seq<Update>
    var status: TurnStatus    // of the row
    ghost var emitted: seq<Update>

    ghost predicate Valid()
      reads this
    {
      stored + pending == emitted
    }

    constructor ()
      ensures Valid() && emitted == [] && status.Running?
    {
      stored, pending, emitted, status := [], [], [], Running;
    }

    /** Flush: nothing emitted before Stop is lost, and the worker stops unless it still runs.
        A turn settled by someone else takes no more updates. */
    method Flush() returns (running: bool)
      requires Valid()
      modifies `stored, `pending
      ensures running <==> status.Running?
      ensures pending == [] && old(stored) <= stored <= emitted
      ensures status.Running? || status.Canceled? ==> Valid() && stored == emitted
      ensures !(status.Running? || status.Canceled?) ==> stored == old(stored)
    {
      if pending != [] && (status.Running? || status.Canceled?) {
        stored := stored + pending;
      }
      pending := [];
      running := status.Running?;
    }

    /** One emitted update; `due` when the flush interval has passed. */
    method Emit(u: Update, due: bool) returns (running: bool)
      requires Valid()
      modifies `stored, `pending, `emitted
      ensures emitted == old(emitted) + [u] && old(stored) <= stored <= emitted
      ensures running <==> !due || status.Running?
      ensures running || status.Canceled? ==> Valid()
      ensures due && (status.Running? || status.Canceled?) ==> stored == emitted
    {
      pending, emitted := pending + [u], emitted + [u];
      running := true;
      if due {
        running := Flush();
      }
    }
  }
}

/** Sessions of one in-process agent: starts, posts, deliveries, provisioning and teardown are
    separate transactions in any order. */
module InProcessAgents {
  import opened AgentRow
  import opened M = SessionMachine

  datatype State = State(row: Row, sessions: seq<Session>)

  datatype Event =
    | BeginProvision
    | FinishProvision
    | Teardown
    | Start
    | InSession(session: nat, event: M.Event)

  const FRESH := State(Row(Draft, Stopped, "", "", NoConflict), [])

  /** The agent may chat while it runs; session transactions read that from the agent row. */
  function Apply(s: Session, e: M.Event, canChat: bool): Session {
    match e
    case Posts(_) => Post(s, canChat)
    case Delivers(_) => Claim(s, canChat)
    case Duplicates => s
    case Settling(i, o) => Settle(s, i, o)
    case Parks(i) => Park(s, i)
    case Canceling(i) => Cancel(s, i)
    case Closes => Close(s)
  }

  function Next(st: State, e: Event): State {
    match e
    case BeginProvision =>
      if MayProvision(st.row, true) then st.(row := MarkProvisioning(st.row)) else st
    case FinishProvision =>
      if st.row.lifecycle.Provisioning? then st.(row := MarkProvisioned(st.row, "", "")) else st
    case Teardown =>
      if MayDeprovision(st.row)
      then State(MarkDeprovisioned(MarkDeprovisioning(st.row, "", "")),
                 seq(|st.sessions|, i requires 0 <= i < |st.sessions| =>
                   if st.sessions[i].status.Closed? then st.sessions[i] else Close(st.sessions[i])))
      else st
    case Start =>
      if st.row.run.Running? then st.(sessions := st.sessions + [START.session]) else st
    case InSession(k, event) =>
      if k < |st.sessions|
      then st.(sessions := st.sessions[k := Apply(st.sessions[k], event, st.row.run.Running?)])
      else st
  }

  function Reached(events: seq<Event>): State {
    if events == [] then FRESH else Next(Reached(events[..|events| - 1]), events[|events| - 1])
  }

  ghost predicate Quiet(s: Session) {
    s.status.Closed? && forall i :: 0 <= i < |s.turns| ==> !Open(s.turns[i])
  }

  ghost predicate Safe(st: State) {
    && (forall k :: 0 <= k < |st.sessions| ==> OneActive(st.sessions[k]))
    && (!st.row.run.Running? ==> forall k :: 0 <= k < |st.sessions| ==> Quiet(st.sessions[k]))
    && (st.row.run.Running? ==> st.row.lifecycle.Ready?)
  }

  lemma ApplyKeepsOneActive(s: Session, e: M.Event, canChat: bool)
    requires OneActive(s)
    ensures OneActive(Apply(s, e, canChat))
  {
    match e
    case Posts(_) => PostKeepsOneActive(s, canChat);
    case Delivers(_) =>
      if Claimable(s).Some? {
        var i := Claimable(s).value;
        ClaimStarts(s, i);
        if !canChat { SettleKeepsOneActive(Restatus(s, i, TurnStatus.Running, Busy), i, Failure(map[])); }
      }
    case Duplicates =>
    case Settling(i, o) => if Settles(s, i) { SettleKeepsOneActive(s, i, o); }
    case Parks(i) => ParkKeepsOneActive(s, i);
    case Canceling(i) => CancelKeepsOneActive(s, i);
    case Closes => CloseKeepsOneActive(s);
  }

  lemma QuietStays(s: Session, e: M.Event, canChat: bool)
    requires Quiet(s)
    ensures Apply(s, e, canChat) == s
  {
    assert CanceledOpen(s.turns) == s.turns;
  }

  lemma NextKeepsSafe(st: State, e: Event)
    requires Safe(st)
    ensures Safe(Next(st, e))
  {
    match e
    case InSession(k, event) => if k < |st.sessions| { InSessionKeepsSafe(st, k, event); }
    case Start => assert OneActive(START.session);
    case Teardown => TeardownKeepsSafe(st);
    case _ =>
  }

  lemma InSessionKeepsSafe(st: State, k: nat, event: M.Event)
    requires Safe(st) && k < |st.sessions|
    ensures Safe(Next(st, InSession(k, event)))
  {
    ApplyKeepsOneActive(st.sessions[k], event, st.row.run.Running?);
    if !st.row.run.Running? { QuietStays(st.sessions[k], event, false); }
  }

  lemma TeardownKeepsSafe(st: State)
    requires Safe(st)
    ensures Safe(Next(st, Teardown))
  {
    if MayDeprovision(st.row) {
      var after := Next(st, Teardown).sessions;
      forall k | 0 <= k < |after| ensures OneActive(after[k]) && Quiet(after[k]) {
        CloseKeepsOneActive(st.sessions[k]);
      }
    }
  }

  /** In every interleaving, an agent that is not running has only closed sessions, without
      an open turn. */
  lemma {:induction false} StoppedAgentIsQuiet(events: seq<Event>)
    ensures Safe(Reached(events))
  {
    if events != [] {
      StoppedAgentIsQuiet(events[..|events| - 1]);
      NextKeepsSafe(Reached(events[..|events| - 1]), events[|events| - 1]);
    }
  }

  /** What the transactions achieve: a row at rest provisions to a running one, which starts idle
      sessions and queues what is posted to an open one; teardown leaves a blank row that stopped,
      and every session with its open turns cancelled and its settled ones as they were. */
  lemma TransactionsWork(events: seq<Event>, k: nat)
    ensures var st := Reached(events);
            st.row.lifecycle.Draft? || st.row.lifecycle.Deprovisioned? ==>
              Next(Next(st, BeginProvision), FinishProvision).row.run.Running?
    ensures var st := Reached(events);
            st.row.run.Running? ==>
              && |Next(st, Start).sessions| == |st.sessions| + 1 && Next(st, Start).sessions[..|st.sessions|] == st.sessions
              && Next(st, Start).sessions[|st.sessions|] == Session(Idle, [], map[], "")
    ensures var st := Reached(events);
            st.row.run.Running? && k < |st.sessions| && !st.sessions[k].status.Closed? && !st.sessions[k].status.Parked? ==>
              Next(st, InSession(k, Posts(true))).sessions[k].turns == st.sessions[k].turns + [Turn(Pending, map[])]
    ensures var st, after := Reached(events), Next(Reached(events), Teardown);
            st.row.run.Running? ==>
              && after.row == Row(Deprovisioned, Stopped, "", "", NoConflict) && |after.sessions| == |st.sessions|
              && (k < |st.sessions| ==> Quiet(after.sessions[k]) && |after.sessions[k].turns| == |st.sessions[k].turns|)
              && (k < |st.sessions| ==> forall i :: 0 <= i < |st.sessions[k].turns| ==>
                    after.sessions[k].turns[i] == if Open(st.sessions[k].turns[i]) then st.sessions[k].turns[i].(status := Canceled) else st.sessions[k].turns[i])
  {
    StoppedAgentIsQuiet(events);
    RowIsInProcess(events);
    if Reached(events).row.run.Running? { TeardownKeepsSafe(Reached(events)); }
  }

  /** The row records no instance and no conflict. */
  lemma {:induction false} RowIsInProcess(events: seq<Event>)
    ensures var row := Reached(events).row;
            row.workspace == "" && row.service == "" && row.conflict.NoConflict? && !row.run.Error? && !row.run.Warning? &&
            (row.run.Running? ==> row.lifecycle.Ready?)
  {
    if events != [] { RowIsInProcess(events[..|events| - 1]); }
  }
}
