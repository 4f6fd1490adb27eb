/** An agent session and its turns: each transaction under the session lock is one step, and
    worker deliveries may come late, twice, or while a turn is already running. */
module SessionMachine {
  import opened Common

  datatype TurnStatus = Pending | Running | AwaitingApproval | Completed | Failed | Canceled

  datatype SessionStatus = Idle | Busy | Parked | Errored | Closed

  type Usage = map<string, int>

  /** The position of a turn in its session is its index. */
  datatype Turn = Turn(status: TurnStatus, usage: Usage)

  /** What a runtime returns; an approval request fails the turn like any other failure. */
  datatype Outcome = Success(usage: Usage, replay: string) | Failure(usage: Usage)

  datatype Session = Session(status: SessionStatus, turns: seq<Turn>, usage: Usage, replay: string)

  predicate Active(t: Turn) {
    t.status.Running? || t.status.AwaitingApproval?
  }

  predicate Open(t: Turn) {
    t.status.Pending? || Active(t)
  }

  predicate HasActive(turns: seq<Turn>) {
    exists i :: 0 <= i < |turns| && Active(turns[i])
  }

  predicate HasPending(turns: seq<Turn>) {
    exists i :: 0 <= i < |turns| && turns[i].status.Pending?
  }

  // ---- Transactions -------------------------------------------------------------------

  /** Refused on a closed session, while an approval is pending, or when the agent cannot chat. */
  predicate MayPost(s: Session, canChat: bool) {
    !s.status.Closed? && canChat && !s.status.Parked?
  }

  function Post(s: Session, canChat: bool): Session {
    if MayPost(s, canChat) then s.(turns := s.turns + [Turn(Pending, map[])]) else s
  }

  /** The lowest index at or after `k` whose turn is pending. */
  function OldestPending(turns: seq<Turn>, k: nat): (r: Option<nat>)
    requires k <= |turns|
    ensures r.None? ==> forall i :: k <= i < |turns| ==> !turns[i].status.Pending?
    ensures r.Some? ==> k <= r.value < |turns| && turns[r.value].status.Pending?
    ensures r.Some? ==> forall i :: k <= i < r.value ==> !turns[i].status.Pending?
    decreases |turns| - k
  {
    if k == |turns| then None
    else if turns[k].status.Pending? then Some(k)
    else OldestPending(turns, k + 1)
  }

  /** The turn a delivery would claim. */
  function Claimable(s: Session): Option<nat> {
    if s.status.Closed? || HasActive(s.turns) then None else OldestPending(s.turns, 0)
  }

  function Claim(s: Session, canChat: bool): Session {
    if s.status.Closed? || HasActive(s.turns) then s
    else match OldestPending(s.turns, 0)
      case None => if s.status.Busy? || s.status.Parked? then s.(status := Idle) else s
      case Some(i) =>
        var claimed := s.(turns := s.turns[i := s.turns[i].(status := Running)], status := Busy);
        if canChat then claimed else Settle(claimed, i, Failure(map[]))
  }

  function Get(u: Usage, key: string): int {
    if key in u then u[key] else 0
  }

  function Added(u: Usage, more: Usage): Usage {
    map key | key in u.Keys + more.Keys :: Get(u, key) + Get(more, key)
  }

  predicate Settles(s: Session, i: nat) {
    i < |s.turns| && s.turns[i].status.Running? && !s.status.Closed?
  }

  /** Only a still-running turn is settled; a closed session refuses the transition and the
      transaction is undone. */
  function Settle(s: Session, i: nat, o: Outcome): Session {
    if !Settles(s, i) then s
    else match o
      case Success(usage, replay) =>
        Session(Idle, s.turns[i := Turn(Completed, usage)], Added(s.usage, usage), replay)
      case Failure(usage) =>
        Session(Errored, s.turns[i := Turn(Failed, usage)], Added(s.usage, usage), s.replay)
  }

  /** A running turn waits for an approval, and its session with it. */
  function Park(s: Session, i: nat): Session {
    if Settles(s, i) then s.(status := Parked, turns := s.turns[i := s.turns[i].(status := AwaitingApproval)]) else s
  }

  predicate Cancels(s: Session, i: nat) {
    i < |s.turns| && Open(s.turns[i])
  }

  function Cancel(s: Session, i: nat): Session {
    if !Cancels(s, i) then s
    else s.(turns := s.turns[i := s.turns[i].(status := Canceled)],
            status := if Active(s.turns[i]) && !s.status.Closed? then Idle else s.status)
  }

  function CanceledOpen(turns: seq<Turn>): (r: seq<Turn>)
    ensures |r| == |turns|
    ensures forall i :: 0 <= i < |turns| ==>
              r[i] == if Open(turns[i]) then turns[i].(status := Canceled) else turns[i]
  {
    seq(|turns|, i requires 0 <= i < |turns| =>
                   if Open(turns[i]) then turns[i].(status := Canceled) else turns[i])
  }

  function Close(s: Session): Session {
    s.(status := Closed, turns := CanceledOpen(s.turns))
  }

  // ---- Runs -----------------------------------------------------------------------------

  datatype Event =
    | Posts(canChat: bool)
    | Delivers(canChat: bool)          // the broker hands one delivery to a worker
    | Duplicates                       // a redelivery, or a stray one
    | Settling(turn: nat, outcome: Outcome)  // by any worker, however late
    | Parks(turn: nat)
    | Canceling(turn: nat)
    | Closes

  /** A session with the broker's outstanding deliveries and what happened so far. */
  datatype Run = Run(
    session: Session,
    deliveries: nat,
    claims: seq<nat>,
    settled: seq<nat>,
    outcomes: map<nat, Outcome>)

  const START := Run(Session(Idle, [], map[], ""), 0, [], [], map[])

  /** `_enqueue_pending_turn`: one more delivery when queued work remains. */
  function Enqueued(s: Session): nat {
    if !s.status.Closed? && HasPending(s.turns) then 1 else 0
  }

  function Step(r: Run, e: Event): Run {
    var s := r.session;
    match e
    case Posts(canChat) =>
      r.(session := Post(s, canChat), deliveries := r.deliveries + if MayPost(s, canChat) then 1 else 0)
    case Delivers(canChat) =>
      if r.deliveries == 0 then r
      else
        var left := r.(session := Claim(s, canChat), deliveries := r.deliveries - 1);
        (match Claimable(s)
         case None => left
         case Some(i) =>
           if canChat then left.(claims := r.claims + [i])
           else left.(claims := r.claims + [i], settled := r.settled + [i],
                      deliveries := left.deliveries + Enqueued(left.session),
                      outcomes := r.outcomes[i := Failure(map[])]))
    case Duplicates => r.(deliveries := r.deliveries + 1)
    case Settling(i, o) =>
      if !Settles(s, i) then r
      else
        var after := Settle(s, i, o);
        r.(session := after, deliveries := r.deliveries + Enqueued(after), settled := r.settled + [i],
           outcomes := r.outcomes[i := o])
    case Parks(i) => r.(session := Park(s, i))
    case Canceling(i) =>
      if !Cancels(s, i) then r
      else r.(session := Cancel(s, i), deliveries := r.deliveries + Enqueued(Cancel(s, i)))
    case Closes => r.(session := Close(s))
  }

  function After(events: seq<Event>): Run {
    if events == [] then START else Step(After(events[..|events| - 1]), events[|events| - 1])
  }

  // ---- Invariants ---------------------------------------------------------------------------

  /** At most one active turn, projected onto the session status; none open once closed. */
  ghost predicate OneActive(s: Session) {
    && (forall i, j :: 0 <= i < j < |s.turns| ==> !(Active(s.turns[i]) && Active(s.turns[j])))
    && (forall i :: 0 <= i < |s.turns| && s.turns[i].status.Running? ==> s.status.Busy?)
    && (forall i :: 0 <= i < |s.turns| && s.turns[i].status.AwaitingApproval? ==> s.status.Parked?)
    && (s.status.Busy? || s.status.Parked? ==> HasActive(s.turns))
    && (s.status.Closed? ==> forall i :: 0 <= i < |s.turns| ==> !Open(s.turns[i]))
  }

  /** Queued work that nothing is running has a delivery on its way. */
  ghost predicate NoLostWork(r: Run) {
    !r.session.status.Closed? && HasPending(r.session.turns) && !HasActive(r.session.turns) ==> r.deliveries > 0
  }

  /** Claims go up; pending turns come after them; an active turn is the last one claimed. */
  ghost predicate ClaimsInOrder(r: Run) {
    var turns := r.session.turns;
    && (forall k, l :: 0 <= k < l < |r.claims| ==> r.claims[k] < r.claims[l])
    && (forall k :: 0 <= k < |r.claims| ==> r.claims[k] < |turns|)
    && (forall k, i :: 0 <= k < |r.claims| && 0 <= i < |turns| && turns[i].status.Pending? ==> r.claims[k] < i)
    && (forall i :: 0 <= i < |turns| && Active(turns[i]) ==> r.claims != [] && r.claims[|r.claims| - 1] == i)
    && (forall i :: 0 <= i < |turns| && (turns[i].status.Completed? || turns[i].status.Failed?) ==> i in r.claims)
  }

  /** A turn is settled once, and only settled turns carry usage. */
  ghost predicate SettledOnce(r: Run) {
    var turns := r.session.turns;
    && (forall k, l :: 0 <= k < l < |r.settled| ==> r.settled[k] != r.settled[l])
    && (forall i :: i in r.settled <==> 0 <= i < |turns| && (turns[i].status.Completed? || turns[i].status.Failed?))
    && (forall i :: 0 <= i < |turns| && i !in r.settled ==> turns[i].usage == map[])
  }

  function SettledTurn(o: Outcome): Turn {
    Turn(if o.Success? then Completed else Failed, o.usage)
  }

  /** Settled turns have the status and the usage of their outcomes. */
  ghost predicate OutcomesStand(r: Run) {
    forall i {:trigger StandsAs(r, i)} :: StandsAs(r, i)
  }

  predicate StandsAs(r: Run, i: nat) {
    && (i in r.outcomes <==> i in r.settled)
    && (i in r.outcomes ==> i < |r.session.turns| && r.session.turns[i] == SettledTurn(r.outcomes[i]))
  }

  function Total(turns: seq<Turn>, key: string): int {
    if turns == [] then 0 else Total(turns[..|turns| - 1], key) + Get(turns[|turns| - 1].usage, key)
  }

  /** Usage is conserved: the session's is the sum over its turns. */
  ghost predicate UsageConserved(s: Session) {
    forall key :: Get(s.usage, key) == Total(s.turns, key)
  }

  /** The highest completed index below `k`. */
  function LastCompleted(turns: seq<Turn>, k: nat): (r: Option<nat>)
    requires k <= |turns|
    ensures r.Some? ==> r.value < k && turns[r.value].status.Completed?
    ensures r.Some? ==> forall i :: r.value < i < k ==> !turns[i].status.Completed?
    ensures r.None? ==> forall i :: 0 <= i < k ==> !turns[i].status.Completed?
  {
    if k == 0 then None else if turns[k - 1].status.Completed? then Some(k - 1) else LastCompleted(turns, k - 1)
  }

  /** The replay state is that of the highest completed turn. */
  ghost predicate ReplayIsLast(r: Run) {
    match LastCompleted(r.session.turns, |r.session.turns|)
    case None => r.session.replay == ""
    case Some(i) => i in r.outcomes && r.outcomes[i].Success? && r.session.replay == r.outcomes[i].replay
  }

  ghost predicate Inv(r: Run) {
    && OneActive(r.session)
    && NoLostWork(r)
    && ClaimsInOrder(r)
    && SettledOnce(r)
    && UsageConserved(r.session)
    && ReplayIsLast(r)
  }

  // ---- Helpers ------------------------------------------------------------------------------------

  lemma {:induction false} TotalUpdate(turns: seq<Turn>, i: nat, t: Turn, key: string)
    requires i < |turns|
    ensures Total(turns[i := t], key) == Total(turns, key) - Get(turns[i].usage, key) + Get(t.usage, key)
  {
    var n := |turns| - 1;
    if i == n {
      assert turns[i := t][..n] == turns[..n];
    } else {
      assert turns[i := t][..n] == turns[..n][i := t];
      TotalUpdate(turns[..n], i, t, key);
    }
  }

  lemma {:induction false} TotalSame(a: seq<Turn>, b: seq<Turn>, key: string)
    requires |a| == |b| && forall i :: 0 <= i < |a| ==> a[i].usage == b[i].usage
    ensures Total(a, key) == Total(b, key)
  {
    if a != [] {
      TotalSame(a[..|a| - 1], b[..|b| - 1], key);
    }
  }

  lemma UsageKept(s: Session, turns: seq<Turn>)
    requires UsageConserved(s)
    requires |turns| == |s.turns| && forall i :: 0 <= i < |turns| ==> turns[i].usage == s.turns[i].usage
    ensures UsageConserved(s.(turns := turns))
  {
    forall key ensures Get(s.usage, key) == Total(turns, key) {
      TotalSame(turns, s.turns, key);
    }
  }

  lemma {:induction false} LastCompletedSame(a: seq<Turn>, b: seq<Turn>, k: nat)
    requires k <= |a| && k <= |b|
    requires forall i :: 0 <= i < k ==> (a[i].status.Completed? <==> b[i].status.Completed?)
    ensures LastCompleted(a, k) == LastCompleted(b, k)
  {
    if k > 0 {
      LastCompletedSame(a, b, k - 1);
    }
  }

  lemma StillActive(before: seq<Turn>, after: seq<Turn>)
    requires HasActive(before) && |before| <= |after|
    requires forall j :: 0 <= j < |before| && Active(before[j]) ==> Active(after[j])
    ensures HasActive(after)
  {
    var j :| 0 <= j < |before| && Active(before[j]);
    assert Active(after[j]);
  }

  // ---- Posting ------------------------------------------------------------------------------------------

  lemma PostKeepsOneActive(s: Session, canChat: bool)
    requires OneActive(s)
    ensures OneActive(Post(s, canChat))
  {
    if MayPost(s, canChat) && HasActive(s.turns) {
      StillActive(s.turns, Post(s, canChat).turns);
    }
  }

  lemma PostKeepsClaims(r: Run, canChat: bool)
    requires ClaimsInOrder(r)
    ensures ClaimsInOrder(Step(r, Posts(canChat)))
  {
  }

  lemma PostKeepsAccounts(r: Run, canChat: bool)
    requires SettledOnce(r) && UsageConserved(r.session) && ReplayIsLast(r)
    ensures var next := Step(r, Posts(canChat));
            SettledOnce(next) && UsageConserved(next.session) && ReplayIsLast(next)
  {
    if MayPost(r.session, canChat) {
      var before, after := r.session.turns, Post(r.session, canChat).turns;
      assert after[..|before|] == before;
      LastCompletedSame(before, after, |before|);
      forall i ensures i in r.settled <==>
                       0 <= i < |after| && (after[i].status.Completed? || after[i].status.Failed?)
      {
        assert 0 <= i < |before| ==> after[i] == before[i];
      }
    }
  }

  // ---- One turn changes its status --------------------------------------------------------------------------

  /** Turn `i` gets another status, none of which settles it; the session follows. */
  function Restatus(s: Session, i: nat, status: TurnStatus, session: SessionStatus): Session
    requires i < |s.turns|
  {
    s.(turns := s.turns[i := s.turns[i].(status := status)], status := session)
  }

  lemma RestatusKeepsAccounts(r: Run, i: nat, status: TurnStatus, session: SessionStatus)
    requires SettledOnce(r) && UsageConserved(r.session) && ReplayIsLast(r)
    requires i < |r.session.turns| && Open(r.session.turns[i]) && !status.Completed? && !status.Failed?
    ensures var next := r.(session := Restatus(r.session, i, status, session));
            SettledOnce(next) && UsageConserved(next.session) && ReplayIsLast(next)
  {
    var turns := Restatus(r.session, i, status, session).turns;
    UsageKept(r.session, turns);
    LastCompletedSame(r.session.turns, turns, |turns|);
  }

  lemma RestatusKeepsClaims(r: Run, i: nat, status: TurnStatus, session: SessionStatus)
    requires ClaimsInOrder(r) && i < |r.session.turns| && Open(r.session.turns[i])
    requires !status.Completed? && !status.Failed? && !status.Pending?
    requires status.Canceled? || Active(r.session.turns[i])
    ensures ClaimsInOrder(r.(session := Restatus(r.session, i, status, session)))
  {
  }

  lemma ParkKeepsOneActive(s: Session, i: nat)
    requires OneActive(s)
    ensures OneActive(Park(s, i))
  {
    if Settles(s, i) {
      assert Active(Park(s, i).turns[i]);
      forall j | 0 <= j < |s.turns| && j != i ensures !Active(Park(s, i).turns[j]) {
        assert Active(s.turns[i]);
      }
    }
  }

  lemma CancelKeepsOneActive(s: Session, i: nat)
    requires OneActive(s)
    ensures OneActive(Cancel(s, i))
  {
    if Cancels(s, i) {
      var next := Cancel(s, i);
      if Active(s.turns[i]) {
        forall j | 0 <= j < |s.turns| ensures !Active(next.turns[j]) { }
      } else if HasActive(s.turns) {
        StillActive(s.turns, next.turns);
      }
    }
  }

  lemma CancelKeepsWork(r: Run, i: nat)
    requires NoLostWork(r) && OneActive(r.session)
    ensures NoLostWork(Step(r, Canceling(i)))
  {
  }

  // ---- Claiming -----------------------------------------------------------------------------------------------

  lemma ClaimStarts(s: Session, i: nat)
    requires OneActive(s) && !s.status.Closed? && !HasActive(s.turns) && OldestPending(s.turns, 0) == Some(i)
    ensures OneActive(Restatus(s, i, Running, Busy))
  {
    assert Active(Restatus(s, i, Running, Busy).turns[i]);
  }

  lemma ClaimExtends(r: Run, i: nat)
    requires ClaimsInOrder(r) && !HasActive(r.session.turns) && OldestPending(r.session.turns, 0) == Some(i)
    ensures ClaimsInOrder(r.(session := Restatus(r.session, i, Running, Busy), claims := r.claims + [i]))
  {
  }

  // ---- Settling -----------------------------------------------------------------------------------------------

  lemma SettleKeepsOneActive(s: Session, i: nat, o: Outcome)
    requires OneActive(s) && Settles(s, i)
    ensures OneActive(Settle(s, i, o)) && !HasActive(Settle(s, i, o).turns)
  {
    forall j | 0 <= j < |s.turns| ensures !Active(Settle(s, i, o).turns[j]) {
      assert Active(s.turns[i]);
    }
  }

  lemma SettleKeepsClaims(r: Run, i: nat, o: Outcome)
    requires ClaimsInOrder(r) && Settles(r.session, i)
    ensures ClaimsInOrder(r.(session := Settle(r.session, i, o)))
  {
    assert Active(r.session.turns[i]);
  }

  lemma SettleKeepsSettled(r: Run, i: nat, o: Outcome)
    requires SettledOnce(r) && Settles(r.session, i)
    ensures SettledOnce(r.(session := Settle(r.session, i, o), settled := r.settled + [i]))
  {
    assert i !in r.settled;
  }

  lemma SettleConservesUsage(s: Session, i: nat, o: Outcome)
    requires UsageConserved(s) && Settles(s, i) && s.turns[i].usage == map[]
    ensures UsageConserved(Settle(s, i, o))
  {
    var after := Settle(s, i, o);
    forall key ensures Get(after.usage, key) == Total(after.turns, key) {
      TotalUpdate(s.turns, i, SettledTurn(o), key);
    }
  }

  /** A completing turn is the last one claimed, so no later turn has completed. */
  lemma SettleKeepsReplay(r: Run, i: nat, o: Outcome)
    requires ReplayIsLast(r) && ClaimsInOrder(r) && Settles(r.session, i)
    ensures ReplayIsLast(r.(session := Settle(r.session, i, o), outcomes := r.outcomes[i := o]))
  {
    var before, after := r.session.turns, Settle(r.session, i, o).turns;
    assert Active(before[i]);
    if o.Success? {
      assert forall j :: i < j < |before| ==> !before[j].status.Completed? by {
        assert forall k :: 0 <= k < |r.claims| ==> r.claims[k] <= i;
      }
      assert after[i].status.Completed? && forall j :: i < j < |after| ==> after[j] == before[j];
      assert LastCompleted(after, |after|) == Some(i);
    } else {
      LastCompletedSame(before, after, |after|);
    }
  }

  // ---- Every step, every run ------------------------------------------------------------------------------------

  /** The claimed state: turn `i` running, its delivery consumed. */
  function Claimed(r: Run, i: nat): Run
    requires i < |r.session.turns| && r.deliveries > 0
  {
    r.(session := Restatus(r.session, i, Running, Busy), claims := r.claims + [i], deliveries := r.deliveries - 1)
  }

  lemma ClaimKeeps(r: Run, i: nat)
    requires Inv(r) && r.deliveries > 0 && Claimable(r.session) == Some(i)
    ensures Inv(Claimed(r, i))
  {
    ClaimStarts(r.session, i);
    ClaimExtends(r, i);
    RestatusKeepsAccounts(r, i, Running, Busy);
    assert Active(Claimed(r, i).session.turns[i]);
  }

  /** A delivery claims, and settles at once when the agent cannot chat any more. */
  lemma DeliverClaims(r: Run, canChat: bool, i: nat)
    requires r.deliveries > 0 && Claimable(r.session) == Some(i)
    ensures Step(r, Delivers(canChat)) ==
            if canChat then Claimed(r, i) else Step(Claimed(r, i), Settling(i, Failure(map[])))
  {
  }

  lemma DeliverKeeps(r: Run, canChat: bool)
    requires Inv(r)
    ensures Inv(Step(r, Delivers(canChat)))
  {
    if r.deliveries > 0 && Claimable(r.session).Some? {
      var i := Claimable(r.session).value;
      DeliverClaims(r, canChat, i);
      ClaimKeeps(r, i);
      SettlingKeeps(Claimed(r, i), i, Failure(map[]));
    } else {
      UselessDeliveryKeeps(r, canChat);
    }
  }

  /** Nothing to claim: the delivery is consumed, and that loses no work. */
  lemma UselessDeliveryKeeps(r: Run, canChat: bool)
    requires Inv(r) && (r.deliveries == 0 || Claimable(r.session).None?)
    ensures Inv(Step(r, Delivers(canChat)))
  {
    UselessClaim(r.session, canChat);
  }

  lemma UselessClaim(s: Session, canChat: bool)
    requires OneActive(s)
    ensures Claimable(s).None? ==> Claim(s, canChat) == s && (s.status.Closed? || HasActive(s.turns) || !HasPending(s.turns))
  {
  }

  lemma SettlingKeeps(r: Run, i: nat, o: Outcome)
    requires Inv(r)
    ensures Inv(Step(r, Settling(i, o)))
  {
    if Settles(r.session, i) {
      SettleKeepsOneActive(r.session, i, o);
      SettleKeepsClaims(r, i, o);
      SettleKeepsSettled(r, i, o);
      SettleConservesUsage(r.session, i, o);
      SettleKeepsReplay(r, i, o);
    }
  }

  lemma ParkKeeps(r: Run, i: nat)
    requires Inv(r)
    ensures Inv(Step(r, Parks(i)))
  {
    if Settles(r.session, i) {
      ParkKeepsOneActive(r.session, i);
      RestatusKeepsClaims(r, i, AwaitingApproval, Parked);
      RestatusKeepsAccounts(r, i, AwaitingApproval, Parked);
      assert Active(Park(r.session, i).turns[i]);
    }
  }

  lemma CancelKeepsClaims(r: Run, i: nat)
    requires ClaimsInOrder(r)
    ensures ClaimsInOrder(Step(r, Canceling(i)))
  {
    if Cancels(r.session, i) {
      RestatusKeepsClaims(r, i, Canceled, Cancel(r.session, i).status);
    }
  }

  lemma CancelKeepsAccounts(r: Run, i: nat)
    requires SettledOnce(r) && UsageConserved(r.session) && ReplayIsLast(r)
    ensures var next := Step(r, Canceling(i));
            SettledOnce(next) && UsageConserved(next.session) && ReplayIsLast(next)
  {
    if Cancels(r.session, i) {
      RestatusKeepsAccounts(r, i, Canceled, Cancel(r.session, i).status);
    }
  }

  lemma CancelKeeps(r: Run, i: nat)
    requires Inv(r)
    ensures Inv(Step(r, Canceling(i)))
  {
    CancelKeepsOneActive(r.session, i);
    CancelKeepsWork(r, i);
    CancelKeepsClaims(r, i);
    CancelKeepsAccounts(r, i);
  }

  lemma CloseKeepsOneActive(s: Session)
    ensures OneActive(Close(s))
  {
  }

  lemma CloseKeepsClaims(r: Run)
    requires ClaimsInOrder(r)
    ensures ClaimsInOrder(Step(r, Closes))
  {
  }

  lemma CloseKeepsAccounts(r: Run)
    requires SettledOnce(r) && UsageConserved(r.session) && ReplayIsLast(r)
    ensures var next := Step(r, Closes);
            SettledOnce(next) && UsageConserved(next.session) && ReplayIsLast(next)
  {
    var next := Close(r.session);
    UsageKept(r.session, next.turns);
    LastCompletedSame(r.session.turns, next.turns, |next.turns|);
  }

  lemma CloseKeeps(r: Run)
    requires Inv(r)
    ensures Inv(Step(r, Closes))
  {
    CloseKeepsOneActive(r.session);
    CloseKeepsClaims(r);
    CloseKeepsAccounts(r);
  }

  lemma StepKeeps(r: Run, e: Event)
    requires Inv(r)
    ensures Inv(Step(r, e))
  {
    match e
    case Posts(canChat) =>
      PostKeepsOneActive(r.session, canChat);
      PostKeepsClaims(r, canChat);
      PostKeepsAccounts(r, canChat);
    case Delivers(canChat) => DeliverKeeps(r, canChat);
    case Duplicates =>
    case Settling(i, o) => SettlingKeeps(r, i, o);
    case Parks(i) => ParkKeeps(r, i);
    case Canceling(i) => CancelKeeps(r, i);
    case Closes => CloseKeeps(r);
  }

  /** In every run: one active turn at most, no lost work, claims in order, settled once,
      usage conserved, replay state of the last completed turn. */
  lemma {:induction false} RunsKeepInv(events: seq<Event>)
    ensures Inv(After(events))
  {
    if events != [] {
      RunsKeepInv(events[..|events| - 1]);
      StepKeeps(After(events[..|events| - 1]), events[|events| - 1]);
    } else {
      assert UsageConserved(START.session);
    }
  }

  /** What a reader of the session sees: busy or parked exactly while a turn is active. */
  lemma StatusProjectsActivity(events: seq<Event>)
    ensures var s := After(events).session;
            (s.status.Busy? || s.status.Parked? <==> HasActive(s.turns))
  {
    RunsKeepInv(events);
  }

  // ---- Outcomes stand ------------------------------------------------------------------------------

  lemma SettleKeepsOutcomes(r: Run, i: nat, o: Outcome)
    requires OutcomesStand(r)
    ensures OutcomesStand(Step(r, Settling(i, o)))
  {
    if Settles(r.session, i) {
      var next := Step(r, Settling(i, o));
      assert StandsAs(r, i);
      forall j: nat ensures StandsAs(next, j) { assert StandsAs(r, j); }
    }
  }

  /** Nothing that leaves settled turns alone changes what their outcomes say. */
  lemma OutcomesStay(r: Run, next: Run)
    requires OutcomesStand(r) && next.outcomes == r.outcomes && next.settled == r.settled
    requires |r.session.turns| <= |next.session.turns|
    requires forall i :: 0 <= i < |r.session.turns| && !Open(r.session.turns[i]) ==> next.session.turns[i] == r.session.turns[i]
    ensures OutcomesStand(next)
  {
    forall j: nat ensures StandsAs(next, j) { assert StandsAs(r, j); }
  }

  lemma DeliverKeepsOutcomes(r: Run, canChat: bool)
    requires OutcomesStand(r)
    ensures OutcomesStand(Step(r, Delivers(canChat)))
  {
    if r.deliveries > 0 && Claimable(r.session).Some? {
      var i := Claimable(r.session).value;
      DeliverClaims(r, canChat, i);
      OutcomesStay(r, Claimed(r, i));
      SettleKeepsOutcomes(Claimed(r, i), i, Failure(map[]));
    } else {
      OutcomesStay(r, Step(r, Delivers(canChat)));
    }
  }

  /** In every run a settled turn keeps the status and the usage of the outcome that settled it. */
  lemma {:induction false} RunsKeepOutcomes(events: seq<Event>)
    ensures OutcomesStand(After(events))
  {
    if events != [] {
      var before, e := After(events[..|events| - 1]), events[|events| - 1];
      RunsKeepOutcomes(events[..|events| - 1]);
      match e {
        case Delivers(canChat) => DeliverKeepsOutcomes(before, canChat);
        case Settling(i, o) => SettleKeepsOutcomes(before, i, o);
        case _ => OutcomesStay(before, Step(before, e));
      }
    } else {
      forall j: nat ensures StandsAs(START, j) { }
    }
  }

  // ---- Posted work -----------------------------------------------------------------------------

  /** The turn waits, or it was claimed and is active or settled. */
  ghost predicate Attended(r: Run, i: nat) {
    && i < |r.session.turns|
    && (r.session.turns[i].status.Pending? || (i in r.claims && (Active(r.session.turns[i]) || i in r.settled)))
  }

  lemma AttendedStep(r: Run, e: Event, i: nat)
    requires ClaimsInOrder(r) && Attended(r, i) && !e.Closes? && e != Canceling(i)
    ensures Attended(Step(r, e), i)
  {
    match e
    case Delivers(canChat) => AttendedDelivery(r, canChat, i);
    case Settling(j, _) => if Settles(r.session, j) { assert Active(r.session.turns[j]); }
    case Parks(j) => if Settles(r.session, j) { assert Active(r.session.turns[j]); }
    case _ =>
  }

  lemma AttendedDelivery(r: Run, canChat: bool, i: nat)
    requires ClaimsInOrder(r) && Attended(r, i)
    ensures Attended(Step(r, Delivers(canChat)), i)
  {
    if r.deliveries > 0 && Claimable(r.session).Some? {
      DeliverClaims(r, canChat, Claimable(r.session).value);
    }
  }

  lemma {:induction false} StaysAttended(events: seq<Event>, more: seq<Event>, i: nat)
    requires Attended(After(events), i) && forall e :: e in more ==> !e.Closes? && e != Canceling(i)
    ensures Attended(After(events + more), i)
    decreases |more|
  {
    if more == [] {
      assert events + more == events;
    } else {
      var n := |more| - 1;
      var before := events + more[..n];
      StaysAttended(events, more[..n], i);
      assert (events + more)[..|events + more| - 1] == before && (events + more)[|events + more| - 1] == more[n];
      RunsKeepInv(before);
      AttendedStep(After(before), more[n], i);
    }
  }

  /** An accepted post adds one last turn, waiting and without usage, and changes nothing else. */
  lemma PostAppends(events: seq<Event>)
    requires var s := After(events).session; !s.status.Closed? && !s.status.Parked?
    ensures var before, posted := After(events).session, After(events + [Posts(true)]).session;
            && |posted.turns| == |before.turns| + 1 && posted.turns[..|before.turns|] == before.turns
            && posted.turns[|before.turns|].status.Pending? && posted.turns[|before.turns|].usage == map[]
            && posted.status == before.status && posted.usage == before.usage && posted.replay == before.replay
  {
    assert (events + [Posts(true)])[..|events|] == events;
  }

  /** No posted turn is lost: in every run an accepted turn waits, or was claimed and is active or
      settled, until it is cancelled or the session closed. */
  lemma PostedIsAttended(events: seq<Event>, more: seq<Event>)
    requires var s := After(events).session; !s.status.Closed? && !s.status.Parked?
    requires var i := |After(events).session.turns|; forall e :: e in more ==> !e.Closes? && e != Canceling(i)
    ensures Attended(After(events + [Posts(true)] + more), |After(events).session.turns|)
  {
    PostAppends(events);
    StaysAttended(events + [Posts(true)], more, |After(events).session.turns|);
  }

  /** With nothing active and nothing waiting before it, a waiting turn has a delivery on its way,
      and the next one claims exactly it. */
  lemma NextDeliveryClaims(r: Run, i: nat)
    requires Inv(r) && !r.session.status.Closed? && !HasActive(r.session.turns)
    requires i < |r.session.turns| && r.session.turns[i].status.Pending?
    requires forall j :: 0 <= j < i ==> !r.session.turns[j].status.Pending?
    ensures r.deliveries > 0
    ensures var next := Step(r, Delivers(true));
            && next.claims == r.claims + [i] && next.session.status.Busy?
            && |next.session.turns| == |r.session.turns| && next.session.turns[i].status.Running?
            && forall j :: 0 <= j < |r.session.turns| && j != i ==> next.session.turns[j] == r.session.turns[j]
  {
    assert HasPending(r.session.turns);
    assert OldestPending(r.session.turns, 0) == Some(i);
  }

  /** The waiting turns from the `k`-th on, oldest first. */
  function WaitingFrom(turns: seq<Turn>, k: nat): (r: seq<nat>)
    requires k <= |turns|
    ensures forall i :: i in r <==> k <= i < |turns| && turns[i].status.Pending?
    decreases |turns| - k
  {
    if k == |turns| then []
    else if turns[k].status.Pending? then [k] + WaitingFrom(turns, k + 1)
    else WaitingFrom(turns, k + 1)
  }

  lemma {:induction false} WaitingSame(a: seq<Turn>, b: seq<Turn>, k: nat)
    requires k <= |a| == |b| && forall j :: k <= j < |a| ==> (a[j].status.Pending? <==> b[j].status.Pending?)
    ensures WaitingFrom(a, k) == WaitingFrom(b, k)
    decreases |a| - k
  {
    if k < |a| { WaitingSame(a, b, k + 1); }
  }

  lemma {:induction false} OldestWaits(turns: seq<Turn>, k: nat)
    requires k <= |turns|
    ensures OldestPending(turns, k) == if WaitingFrom(turns, k) == [] then None else Some(WaitingFrom(turns, k)[0])
    decreases |turns| - k
  {
    if k < |turns| && !turns[k].status.Pending? { OldestWaits(turns, k + 1); }
  }

  lemma {:induction false} ServedLeaves(before: seq<Turn>, after: seq<Turn>, k: nat, i: nat)
    requires k <= |before| == |after| && WaitingFrom(before, k) != [] && i == WaitingFrom(before, k)[0] && i < |before|
    requires !after[i].status.Pending? && forall j :: 0 <= j < |before| && j != i ==> after[j] == before[j]
    ensures WaitingFrom(after, k) == WaitingFrom(before, k)[1..]
    decreases |before| - k
  {
    if before[k].status.Pending? { WaitingSame(before, after, k + 1); } else { ServedLeaves(before, after, k + 1, i); }
  }

  function Continue(r: Run, events: seq<Event>): Run
    decreases events
  {
    if events == [] then r else Continue(Step(r, events[0]), events[1..])
  }

  /** Each delivery is worked to its end: the turn it claims settles before the next delivery. */
  function Served(waiting: seq<nat>, outcomes: seq<Outcome>): seq<Event>
    requires |outcomes| == |waiting|
  {
    if waiting == [] then []
    else [Delivers(true), Settling(waiting[0], outcomes[0])] + Served(waiting[1..], outcomes[1..])
  }

  /** The waiting turns were claimed and settled in order, each with its outcome, earlier outcomes
      stand, and nothing waits or is active. */
  ghost predicate Drained(r: Run, waiting: seq<nat>, outcomes: seq<Outcome>, after: Run)
    requires |outcomes| == |waiting|
  {
    && after.claims == r.claims + waiting && after.settled == r.settled + waiting
    && !HasPending(after.session.turns) && !HasActive(after.session.turns)
    && (forall i :: i in r.outcomes ==> i in after.outcomes && after.outcomes[i] == r.outcomes[i])
    && (forall k :: 0 <= k < |waiting| ==> waiting[k] in after.outcomes && after.outcomes[waiting[k]] == outcomes[k])
  }

  lemma DrainedOn(r: Run, worked: Run, waiting: seq<nat>, outcomes: seq<Outcome>, after: Run)
    requires |outcomes| == |waiting| && waiting != [] && Drained(worked, waiting[1..], outcomes[1..], after)
    requires worked.claims == r.claims + [waiting[0]] && worked.settled == r.settled + [waiting[0]]
    requires worked.outcomes == r.outcomes[waiting[0] := outcomes[0]] && waiting[0] !in r.outcomes
    ensures Drained(r, waiting, outcomes, after)
  {
    assert [waiting[0]] + waiting[1..] == waiting;
    assert r.claims + [waiting[0]] + waiting[1..] == r.claims + waiting;
    assert r.settled + [waiting[0]] + waiting[1..] == r.settled + waiting;
    forall k | 0 <= k < |waiting| ensures waiting[k] in after.outcomes && after.outcomes[waiting[k]] == outcomes[k] {
      if k > 0 { assert waiting[1..][k - 1] == waiting[k]; } else { assert waiting[0] in worked.outcomes; }
    }
  }

  /** The queue drains: when each delivery is worked to its end, the waiting turns are claimed in
      order, each settles with its own outcome, and nothing waits in the end. */
  lemma {:induction false} QueueDrains(r: Run, outcomes: seq<Outcome>)
    requires Inv(r) && OutcomesStand(r) && !r.session.status.Closed? && !HasActive(r.session.turns)
    requires |outcomes| == |WaitingFrom(r.session.turns, 0)|
    ensures var waiting := WaitingFrom(r.session.turns, 0);
            Drained(r, waiting, outcomes, Continue(r, Served(waiting, outcomes)))
    decreases |outcomes|
  {
    var waiting := WaitingFrom(r.session.turns, 0);
    if waiting != [] {
      var worked := Worked(r, waiting[0], outcomes[0]);
      OneIsServed(r, waiting[0], outcomes[0]);
      ServedFirst(r, waiting, outcomes);
      QueueDrains(worked, outcomes[1..]);
      DrainedOn(r, worked, waiting, outcomes, Continue(r, Served(waiting, outcomes)));
    } else {
      NothingWaits(r.session.turns);
    }
  }

  lemma NothingWaits(turns: seq<Turn>)
    ensures HasPending(turns) ==> WaitingFrom(turns, 0) != []
  {
    if i: nat :| i < |turns| && turns[i].status.Pending? { assert i in WaitingFrom(turns, 0); }
  }

  function Worked(r: Run, i: nat, o: Outcome): Run {
    Step(Step(r, Delivers(true)), Settling(i, o))
  }

  lemma ServedFirst(r: Run, waiting: seq<nat>, outcomes: seq<Outcome>)
    requires waiting != [] && |outcomes| == |waiting|
    ensures Continue(r, Served(waiting, outcomes)) ==
            Continue(Worked(r, waiting[0], outcomes[0]), Served(waiting[1..], outcomes[1..]))
  {
    var events, rest := Served(waiting, outcomes), Served(waiting[1..], outcomes[1..]);
    assert events == [Delivers(true)] + ([Settling(waiting[0], outcomes[0])] + rest);
    assert events[1..] == [Settling(waiting[0], outcomes[0])] + rest && events[1..][1..] == rest;
  }

  /** A claimed turn settles. */
  lemma SettlesClaimed(r: Run, i: nat, o: Outcome)
    requires Settles(r.session, i)
    ensures var after := Step(r, Settling(i, o));
            && after.claims == r.claims && after.settled == r.settled + [i] && after.outcomes == r.outcomes[i := o]
            && !after.session.status.Closed? && |after.session.turns| == |r.session.turns|
            && after.session.turns[i] == SettledTurn(o)
            && forall j :: 0 <= j < |r.session.turns| && j != i ==> after.session.turns[j] == r.session.turns[j]
  {
  }

  lemma NotSettledYet(r: Run, i: nat)
    requires OutcomesStand(r) && i < |r.session.turns| && r.session.turns[i].status.Pending?
    ensures i !in r.outcomes
  {
    assert StandsAs(r, i);
  }

  lemma OneIsServed(r: Run, i: nat, o: Outcome)
    requires Inv(r) && OutcomesStand(r) && !r.session.status.Closed? && !HasActive(r.session.turns)
    requires WaitingFrom(r.session.turns, 0) != [] && i == WaitingFrom(r.session.turns, 0)[0]
    ensures var after := Worked(r, i, o);
            && Inv(after) && OutcomesStand(after) && !after.session.status.Closed? && !HasActive(after.session.turns)
            && WaitingFrom(after.session.turns, 0) == WaitingFrom(r.session.turns, 0)[1..]
            && after.claims == r.claims + [i] && after.settled == r.settled + [i] && after.outcomes == r.outcomes[i := o]
            && i !in r.outcomes
  {
    assert i in WaitingFrom(r.session.turns, 0);
    OldestWaits(r.session.turns, 0);
    NotSettledYet(r, i);
    ServedOnce(r, i, o);
    StepKeeps(r, Delivers(true));
    StepKeeps(Step(r, Delivers(true)), Settling(i, o));
    DeliverKeepsOutcomes(r, true);
    SettleKeepsOutcomes(Step(r, Delivers(true)), i, o);
  }

  lemma ServedOnce(r: Run, i: nat, o: Outcome)
    requires OneActive(r.session) && NoLostWork(r) && !r.session.status.Closed? && !HasActive(r.session.turns)
    requires OldestPending(r.session.turns, 0) == Some(i) && WaitingFrom(r.session.turns, 0) != [] && i == WaitingFrom(r.session.turns, 0)[0]
    ensures var after := Worked(r, i, o);
            && !after.session.status.Closed? && !HasActive(after.session.turns)
            && WaitingFrom(after.session.turns, 0) == WaitingFrom(r.session.turns, 0)[1..]
            && after.claims == r.claims + [i] && after.settled == r.settled + [i] && after.outcomes == r.outcomes[i := o]
  {
    assert HasPending(r.session.turns);
    var claimed := Step(r, Delivers(true));
    assert Settles(claimed.session, i);
    SettlesClaimed(claimed, i, o);
    var after := Worked(r, i, o);
    assert forall j :: 0 <= j < |r.session.turns| && j != i ==> after.session.turns[j] == r.session.turns[j];
    ServedLeaves(r.session.turns, after.session.turns, 0, i);
    forall j | 0 <= j < |after.session.turns| ensures !Active(after.session.turns[j]) {
      assert j != i ==> !Active(r.session.turns[j]);
    }
  }

  lemma ClosedStep(r: Run, e: Event)
    requires r.session.status.Closed? && forall i :: 0 <= i < |r.session.turns| ==> !Open(r.session.turns[i])
    ensures Step(r, e).session == r.session
  {
    assert CanceledOpen(r.session.turns) == r.session.turns;
  }

  /** A closed session stays closed and never gains a turn or an open one, whatever stale
      settlements, cancellations, posts or deliveries arrive. */
  lemma {:induction false} ClosedForever(events: seq<Event>, more: seq<Event>)
    requires After(events).session.status.Closed?
    ensures After(events + more).session == After(events).session
    decreases |more|
  {
    if more == [] {
      assert events + more == events;
    } else {
      var n := |more| - 1;
      var before := events + more[..n];
      ClosedForever(events, more[..n]);
      assert (events + more)[..|events + more| - 1] == before;
      RunsKeepInv(before);
      ClosedStep(After(before), more[n]);
    }
  }
}
