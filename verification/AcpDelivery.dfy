/** One connection's delivery of a session's turns as an ordered, bracketed log. */
module AcpDelivery {

  datatype RowStatus = Unfinished | Completed | Failed | Canceled

  /** A turn row as observed; the index identifies the turn within its session, and the
      transcript is append-only. */
  datatype Row = Row(index: nat, status: RowStatus, updates: nat)

  datatype Delivery = Delivery(updates: nat, promptSent: bool, status: RowStatus, started: bool, acknowledged: bool)

  const NEW := Delivery(0, false, Unfinished, false, true)

  /** A notification. State notifications carry the turn they bracket, for the reader of the log. */
  datatype Note =
    | Prompt(turn: nat)
    | Opened(turn: nat)
    | Sent(turn: nat, position: nat)
    | Summary(turn: nat, upto: nat)
    | ErrorText(turn: nat)
    | Settled(turn: nat)
    | Reported

  // ---- The protocol, as a reader of the log -------------------------------------------------

  datatype Bracket = NoBracket | Bracket(turn: nat, next: nat)

  /** The turns whose row came as a summary, whether any state was told, and how often idleness was. */
  datatype Told = Told(summed: set<nat>, stated: bool, reports: nat)

  /** The open bracket with its next position, one more than the last turn opened, the prompts
      echoed, the turns settled with the position each had reached, and how things were told. */
  datatype Reader = Reader(open: Bracket, reach: nat, prompts: set<nat>, settled: map<nat, nat>, told: Told)

  const BLANK := Reader(NoBracket, 0, {}, map[], Told({}, false, 0))

  predicate MayRead(r: Reader, n: Note) {
    match n
    case Prompt(t) => t !in r.prompts && t !in r.settled
    case Opened(t) => r.open.NoBracket? && r.reach <= t && t in r.prompts
    case Sent(t, p) => r.open == Bracket(t, p)
    case Summary(t, _) => r.open == Bracket(t, 0)
    case ErrorText(t) => r.open.Bracket? && r.open.turn == t
    case Settled(t) => r.open.Bracket? && r.open.turn == t
    case Reported => r.open.NoBracket?
  }

  function Read(r: Reader, n: Note): Reader {
    match n
    case Prompt(t) => r.(prompts := r.prompts + {t})
    case Opened(t) => r.(open := Bracket(t, 0), reach := t + 1, told := r.told.(stated := true))
    case Sent(t, p) => r.(open := Bracket(t, p + 1))
    case Summary(t, upto) => r.(open := Bracket(t, upto), told := r.told.(summed := r.told.summed + {t}))
    case ErrorText(_) => r
    case Settled(t) =>
      Reader(NoBracket, r.reach, r.prompts, r.settled[t := if r.open.Bracket? then r.open.next else 0], r.told.(stated := true))
    case Reported => r.(told := Told(r.told.summed, true, r.told.reports + 1))
  }

  function ReadAll(log: seq<Note>): Reader {
    if log == [] then BLANK else Read(ReadAll(log[..|log| - 1]), log[|log| - 1])
  }

  predicate Accepted(log: seq<Note>) {
    log == [] || (Accepted(log[..|log| - 1]) && MayRead(ReadAll(log[..|log| - 1]), log[|log| - 1]))
  }

  lemma ReadAppend(log: seq<Note>, n: Note)
    ensures ReadAll(log + [n]) == Read(ReadAll(log), n)
    ensures Accepted(log + [n]) <==> Accepted(log) && MayRead(ReadAll(log), n)
  {
    assert (log + [n])[..|log|] == log;
  }

  // ---- What acceptance means ----------------------------------------------------------------------

  lemma {:induction false} ReaderFacts(log: seq<Note>)
    requires Accepted(log)
    ensures var r := ReadAll(log);
            && (r.open.Bracket? ==> r.open.turn < r.reach && r.open.turn !in r.settled)
            && (forall t :: t in r.settled ==> t < r.reach)
  {
    if log != [] { ReaderFacts(log[..|log| - 1]); }
  }

  lemma {:induction false} OpenedBefore(log: seq<Note>, i: nat)
    requires Accepted(log) && i < |log| && log[i].Opened?
    ensures var r := ReadAll(log); log[i].turn < r.reach && ((r.open.Bracket? && r.open.turn == log[i].turn) || log[i].turn in r.settled)
    decreases |log|
  {
    var n := |log| - 1;
    var before := ReadAll(log[..n]);
    ReaderFacts(log[..n]);
    if i < n {
      OpenedBefore(log[..n], i);
      if log[n].Opened? {
        assert before.open.NoBracket?;
      }
    }
  }

  lemma {:induction false} SettledByNote(log: seq<Note>, t: nat)
    requires t in ReadAll(log).settled
    ensures exists k :: 0 <= k < |log| && log[k] == Settled(t)
  {
    if log != [] {
      var n := |log| - 1;
      if t in ReadAll(log[..n]).settled {
        SettledByNote(log[..n], t);
        var k :| 0 <= k < n && log[..n][k] == Settled(t);
        assert log[k] == Settled(t);
      } else {
        assert log[n] == Settled(t);
      }
    }
  }

  lemma {:induction false} AcceptedPrefix(log: seq<Note>, n: nat)
    requires Accepted(log) && n <= |log|
    ensures Accepted(log[..n])
    decreases |log|
  {
    if n == |log| {
      assert log[..n] == log;
    } else {
      assert log[..|log| - 1][..n] == log[..n];
      AcceptedPrefix(log[..|log| - 1], n);
    }
  }

  /** Each bracket is closed by its own turn's settlement before the next one opens, and
      brackets open in index order. */
  lemma BracketsNeverOverlap(log: seq<Note>, i: nat, j: nat)
    requires Accepted(log) && i < j < |log| && log[i].Opened? && log[j].Opened?
    ensures log[i].turn < log[j].turn
    ensures exists k :: i < k < j && log[k] == Settled(log[i].turn)
  {
    AcceptedPrefix(log, j + 1);
    assert log[..j + 1][..j] == log[..j];
    var before := log[..j];
    OpenedBefore(before, i);
    var t := log[i].turn;
    assert t in ReadAll(before).settled;
    SettledByNote(before, t);
    var k :| 0 <= k < j && before[k] == Settled(t);
    SettlementFollows(log, i, k);
  }

  lemma SettlementFollows(log: seq<Note>, i: nat, k: nat)
    requires Accepted(log) && i < |log| && k < |log| && log[i].Opened? && log[k] == Settled(log[i].turn)
    ensures i < k
  {
    if k < i {
      AcceptedPrefix(log, i + 1);
      var before := log[..i];
      assert log[..i + 1][..i] == before && before[k] == log[k];
      SettledNoteCounts(before, k);
      AcceptedPrefix(log, i);
      ReaderFacts(before);
    }
  }

  lemma {:induction false} SettledNoteCounts(log: seq<Note>, k: nat)
    requires k < |log| && log[k].Settled?
    ensures log[k].turn in ReadAll(log).settled
    decreases |log|
  {
    var n := |log| - 1;
    if k < n { SettledNoteCounts(log[..n], k); }
  }

  predicate About(n: Note, t: nat) {
    !n.Reported? && n.turn == t
  }

  /** Nothing about a turn follows its settlement. */
  lemma NothingAfterSettlement(log: seq<Note>, i: nat, j: nat)
    requires Accepted(log) && i < j < |log| && log[i].Settled?
    ensures !About(log[j], log[i].turn)
  {
    AcceptedPrefix(log, j + 1);
    assert log[..j + 1][..j] == log[..j];
    var before := log[..j];
    AcceptedPrefix(log, j);
    assert before[i] == log[i];
    SettledNoteCounts(before, i);
    ReaderFacts(before);
  }

  /** A position of a turn was sent, by itself or inside a summary. */
  ghost predicate SentIn(log: seq<Note>, t: nat, p: nat) {
    exists k :: 0 <= k < |log| && Carries(log[k], t, p)
  }

  predicate Carries(n: Note, t: nat, p: nat) {
    n == Sent(t, p) || (n.Summary? && n.turn == t && p < n.upto)
  }

  lemma SentInPrefix(log: seq<Note>, n: nat, t: nat, p: nat)
    requires n <= |log| && SentIn(log[..n], t, p)
    ensures SentIn(log, t, p)
  {
    var k :| 0 <= k < n && Carries(log[..n][k], t, p);
    assert Carries(log[k], t, p);
  }

  /** How far the reader has seen a turn. */
  function Reached(r: Reader, t: nat): nat {
    if t in r.settled then r.settled[t]
    else if r.open.Bracket? && r.open.turn == t then r.open.next
    else 0
  }

  /** Nothing is skipped: every position below the one reached was sent. */
  lemma {:induction false} ReachedWasSent(log: seq<Note>, t: nat, p: nat)
    requires Accepted(log) && p < Reached(ReadAll(log), t)
    ensures SentIn(log, t, p)
    decreases |log|
  {
    if log != [] {
      var n := |log| - 1;
      ReaderFacts(log[..n]);
      if p < Reached(ReadAll(log[..n]), t) {
        ReachedWasSent(log[..n], t, p);
        SentInPrefix(log, n, t, p);
      } else {
        assert Carries(log[n], t, p);
      }
    }
  }

  /** Positions of one turn are sent once, in order and without a gap: when one is sent, every
      lower one was sent before it and it was not. */
  lemma PositionsAreContiguous(log: seq<Note>, j: nat, p: nat)
    requires Accepted(log) && j < |log| && log[j].Sent?
    ensures p < log[j].position ==> SentIn(log[..j], log[j].turn, p)
    ensures log[j].position <= p ==> !SentIn(log[..j], log[j].turn, p)
  {
    var t := log[j].turn;
    AcceptedPrefix(log, j + 1);
    assert log[..j + 1][..j] == log[..j];
    AcceptedPrefix(log, j);
    ReaderFacts(log[..j]);
    assert Reached(ReadAll(log[..j]), t) == log[j].position;
    if p < log[j].position {
      ReachedWasSent(log[..j], t, p);
    } else if SentIn(log[..j], t, p) {
      var k :| 0 <= k < j && Carries(log[..j][k], t, p);
      SentIsBelow(log[..j], k, t, p);
    }
  }

  lemma {:induction false} SentIsBelow(log: seq<Note>, k: nat, t: nat, p: nat)
    requires Accepted(log) && k < |log| && Carries(log[k], t, p)
    ensures p < Reached(ReadAll(log), t)
    decreases |log|
  {
    var n := |log| - 1;
    ReaderFacts(log[..n]);
    ReaderFacts(log);
    if k < n { SentIsBelow(log[..n], k, t, p); }
  }

  /** A turn whose bracket never opened has nothing but its prompt in the log. */
  lemma {:induction false} OnlyEchoed(log: seq<Note>, t: nat, k: nat)
    requires Accepted(log) && ReadAll(log).reach <= t && k < |log| && About(log[k], t)
    ensures log[k].Prompt?
    decreases |log|
  {
    var n := |log| - 1;
    ReaderFacts(log[..n]);
    if k < n { OnlyEchoed(log[..n], t, k); }
  }

  /** Why turns must first be observed in index order: once a later turn was opened, the bracket
      of an earlier one cannot open. */
  lemma LateTurnCannotOpen(log: seq<Note>, i: nat, t: nat)
    requires Accepted(log) && i < |log| && log[i].Opened? && t < log[i].turn
    ensures !Accepted(log + [Opened(t)])
  {
    OpenedBefore(log, i);
    ReadAppend(log, Opened(t));
  }

  // ---- The attachment --------------------------------------------------------------------------------

  method Least(s: set<nat>) returns (m: nat)
    requires s != {}
    ensures m in s && forall x :: x in s ==> m <= x
  {
    m :| m in s;
    var rest := s - {m};
    while rest != {}
      invariant m in s && rest <= s && forall x :: x in s && x !in rest ==> m <= x
      decreases rest
    {
      var x :| x in rest;
      if x < m { m := x; }
      rest := rest - {x};
    }
  }

  /** The log grew by notes about turn `t` only. */
  ghost predicate OnlyAbout(before: seq<Note>, after: seq<Note>, t: nat)
    decreases |after|
  {
    var n := |after| - 1;
    if |after| <= |before| then before == after
    else About(after[n], t) && OnlyAbout(before, after[..n], t)
  }

  /** About the turns in `waiting`, the log grew by nothing but the echo of their prompts. */
  ghost predicate Spares(before: seq<Note>, after: seq<Note>, waiting: set<nat>)
    decreases |after|
  {
    var n := |after| - 1;
    if |after| <= |before| then before == after
    else Harmless(after[n], waiting) && Spares(before, after[..n], waiting)
  }

  predicate Harmless(n: Note, waiting: set<nat>) {
    n.Prompt? || n.Reported? || n.turn !in waiting
  }

  lemma {:induction false} SparesMeans(before: seq<Note>, after: seq<Note>, waiting: set<nat>)
    requires Spares(before, after, waiting)
    ensures before <= after
    ensures forall k, t :: |before| <= k < |after| && t in waiting && About(after[k], t) ==> after[k].Prompt?
    decreases |after|
  {
    if |after| > |before| {
      var n := |after| - 1;
      SparesMeans(before, after[..n], waiting);
      assert forall k :: 0 <= k < n ==> after[..n][k] == after[k];
    }
  }

  lemma OnlyAboutAppend(before: seq<Note>, after: seq<Note>, n: Note, t: nat)
    requires OnlyAbout(before, after, t) && |before| <= |after| && About(n, t)
    ensures OnlyAbout(before, after + [n], t)
  {
    assert (after + [n])[..|after|] == after;
  }

  lemma {:induction false} OnlyAboutChain(a: seq<Note>, b: seq<Note>, c: seq<Note>, t: nat)
    requires OnlyAbout(a, b, t) && OnlyAbout(b, c, t)
    ensures OnlyAbout(a, c, t)
    decreases |c|
  {
    OnlyAboutGrows(a, b, t);
    if |c| > |b| { OnlyAboutChain(a, b, c[..|c| - 1], t); }
  }

  lemma {:induction false} OnlyAboutGrows(a: seq<Note>, b: seq<Note>, t: nat)
    requires OnlyAbout(a, b, t)
    ensures |a| <= |b|
    decreases |b|
  {
  }

  lemma SparesAppend(before: seq<Note>, after: seq<Note>, n: Note, waiting: set<nat>)
    requires Spares(before, after, waiting) && |before| <= |after| && Harmless(n, waiting)
    ensures Spares(before, after + [n], waiting)
  {
    assert (after + [n])[..|after|] == after;
  }

  lemma {:induction false} SparesChain(a: seq<Note>, b: seq<Note>, c: seq<Note>, t: nat, waiting: set<nat>)
    requires Spares(a, b, waiting) && OnlyAbout(b, c, t) && t !in waiting
    ensures Spares(a, c, waiting)
    decreases |c|
  {
    SparesMeans(a, b, waiting);
    if |c| > |b| { SparesChain(a, b, c[..|c| - 1], t, waiting); }
  }

  lemma {:induction false} SparesTwice(a: seq<Note>, b: seq<Note>, c: seq<Note>, waiting: set<nat>)
    requires Spares(a, b, waiting) && Spares(b, c, waiting)
    ensures Spares(a, c, waiting)
    decreases |c|
  {
    SparesMeans(a, b, waiting);
    if |c| > |b| { SparesTwice(a, b, c[..|c| - 1], waiting); }
  }

  /** What an attachment holds: a cursor per turn, the pending rows, the row last observed of each
      turn until it was settled, and what was sent since it attached or last replayed. */
  datatype Account = Account(turns: map<nat, Delivery>, pending: map<nat, Row>, latest: map<nat, Row>, log: seq<Note>)

  /** One turn of an account agrees with what the reader of its log has seen of that turn. */
  ghost predicate TurnAgrees(a: Account, t: nat)
    requires t in a.turns
  {
    Fits(t, a.turns[t], t in a.pending, ReadAll(a.log)) && Traced(t, a)
  }

  ghost predicate Fits(t: nat, d: Delivery, waits: bool, r: Reader) {
    && (waits <==> d.status.Unfinished?)
    && (d.status.Unfinished? && d.started ==> d.promptSent && d.acknowledged && r.open == Bracket(t, d.updates))
    && (d.status.Unfinished? && !d.started ==> d.updates == 0 && r.reach <= t && t !in r.settled)
    && (d.status.Unfinished? ==> (d.promptSent <==> t in r.prompts))
    && (!d.status.Unfinished? ==> d.promptSent)
    && (!d.status.Unfinished? && d.started ==> t in r.settled && r.settled[t] == d.updates)
  }

  /** A pending row is the last one observed and never behind its cursor; a turn settled here was
      settled with the status and the updates of the last row observed; no other turn has a row. */
  ghost predicate Traced(t: nat, a: Account)
    requires t in a.turns
  {
    && (t in a.pending ==>
          && t in a.latest && a.latest[t] == a.pending[t]
          && a.pending[t].index == t && a.turns[t].updates <= a.pending[t].updates)
    && (a.turns[t].started && !a.turns[t].status.Unfinished? ==>
          t in a.latest && a.latest[t].updates == a.turns[t].updates && a.latest[t].status == a.turns[t].status)
    && (t in a.latest ==> a.latest[t].index == t && (t in a.pending || a.turns[t].started))
  }

  ghost predicate Agrees(a: Account) {
    var r := ReadAll(a.log);
    && Accepted(a.log)
    && a.pending.Keys <= a.turns.Keys && a.latest.Keys <= a.turns.Keys
    && (forall t {:trigger TurnAgrees(a, t)} :: t in a.turns ==> TurnAgrees(a, t))
    && (r.open.Bracket? ==> r.open.turn in a.pending && a.turns[r.open.turn].started)
    && (r.reach > 0 ==> r.reach - 1 in a.turns)
    && r.prompts <= a.turns.Keys && r.settled.Keys <= a.turns.Keys
  }

  // ---- Steps of an account --------------------------------------------------------------------------

  /** Turns are first observed in index order, and a row only ever grows. */
  predicate Ordered(turns: map<nat, Delivery>, row: Row) {
    && (row.index !in turns ==> forall t :: t in turns ==> t < row.index)
    && (row.index in turns ==> turns[row.index].updates <= row.updates)
  }

  /** The rows pending once a row is observed. */
  function Noted(turns: map<nat, Delivery>, pending: map<nat, Row>, row: Row): map<nat, Row> {
    if row.index in turns && !turns[row.index].status.Unfinished? then pending else pending[row.index := row]
  }

  function Observed(a: Account, row: Row): Account {
    a.(turns := if row.index in a.turns then a.turns else a.turns[row.index := NEW],
       pending := Noted(a.turns, a.pending, row),
       latest := Noted(a.turns, a.latest, row))
  }

  lemma ObserveKeeps(a: Account, row: Row)
    requires Agrees(a) && Ordered(a.turns, row)
    ensures Agrees(Observed(a, row))
  {
    var after := Observed(a, row);
    if row.index in a.turns { assert TurnAgrees(a, row.index); }
    forall t | t in after.turns ensures TurnAgrees(after, t) {
      if t in a.turns { assert TurnAgrees(a, t); }
    }
  }

  lemma EchoKeeps(a: Account, t: nat)
    requires Agrees(a) && t in a.turns && !a.turns[t].promptSent
    ensures MayRead(ReadAll(a.log), Prompt(t))
    ensures Agrees(a.(turns := a.turns[t := a.turns[t].(promptSent := true)], log := a.log + [Prompt(t)]))
  {
    var after := a.(turns := a.turns[t := a.turns[t].(promptSent := true)], log := a.log + [Prompt(t)]);
    ReadAppend(a.log, Prompt(t));
    assert TurnAgrees(a, t) && t !in ReadAll(a.log).prompts;
    forall u | u in after.turns ensures TurnAgrees(after, u) {
      assert TurnAgrees(a, u);
      EchoFits(u, t, a.turns[u], u in a.pending, ReadAll(a.log));
    }
  }

  lemma EchoFits(u: nat, t: nat, d: Delivery, waits: bool, r: Reader)
    requires Fits(u, d, waits, r)
    ensures Fits(u, if u == t then d.(promptSent := true) else d, waits, Read(r, Prompt(t)))
  {
  }

  ghost predicate Earliest(pending: map<nat, Row>, t: nat) {
    t in pending && forall u :: u in pending ==> t <= u
  }

  lemma OpenKeeps(a: Account, t: nat)
    requires Agrees(a) && Earliest(a.pending, t) && a.turns[t].acknowledged && a.turns[t].promptSent && !a.turns[t].started
    ensures MayRead(ReadAll(a.log), Opened(t))
    ensures Agrees(a.(turns := a.turns[t := a.turns[t].(started := true)], log := a.log + [Opened(t)]))
  {
    var r := ReadAll(a.log);
    var after := a.(turns := a.turns[t := a.turns[t].(started := true)], log := a.log + [Opened(t)]);
    ReadAppend(a.log, Opened(t));
    ReaderFacts(a.log);
    assert TurnAgrees(a, t);
    assert r.open.NoBracket?;
    forall u | u in after.turns ensures TurnAgrees(after, u) { assert TurnAgrees(a, u); }
  }

  lemma SendKeeps(a: Account, t: nat, log: seq<Note>)
    requires Agrees(a) && t in a.pending && a.turns[t].started && Accepted(log)
    requires ReadAll(log) == ReadAll(a.log).(open := Bracket(t, a.pending[t].updates), told := ReadAll(log).told)
    ensures Agrees(a.(turns := a.turns[t := a.turns[t].(updates := a.pending[t].updates)], log := log))
  {
    var after := a.(turns := a.turns[t := a.turns[t].(updates := a.pending[t].updates)], log := log);
    assert TurnAgrees(a, t);
    forall u | u in after.turns ensures TurnAgrees(after, u) { assert TurnAgrees(a, u); }
  }

  /** An open bracket is where the cursor of its turn is. */
  lemma OpenOf(a: Account, t: nat)
    requires Agrees(a) && t in a.pending && a.turns[t].started
    ensures ReadAll(a.log).open == Bracket(t, a.turns[t].updates) && a.turns[t].status.Unfinished?
    ensures a.turns[t].updates <= a.pending[t].updates && a.turns[t].promptSent && a.turns[t].acknowledged
  {
    assert TurnAgrees(a, t);
  }

  lemma NewOf(a: Account, t: nat)
    requires Agrees(a) && t in a.pending
    ensures a.turns[t].status.Unfinished? && (!a.turns[t].started ==> a.turns[t].updates == 0)
  {
    assert TurnAgrees(a, t);
  }

  /** A settled turn was read as far as its cursor, which is as far as its last row. */
  lemma SettledOf(a: Account, t: nat)
    requires Agrees(a) && t in a.turns && a.turns[t].started && !a.turns[t].status.Unfinished?
    ensures t in ReadAll(a.log).settled && t in a.latest
    ensures ReadAll(a.log).settled[t] == a.turns[t].updates == a.latest[t].updates
  {
    assert TurnAgrees(a, t);
  }

  lemma ErrorKeeps(a: Account, t: nat)
    requires Agrees(a) && t in a.pending && a.turns[t].started
    ensures MayRead(ReadAll(a.log), ErrorText(t)) && Agrees(a.(log := a.log + [ErrorText(t)]))
  {
    var after := a.(log := a.log + [ErrorText(t)]);
    OpenOf(a, t);
    ReadAppend(a.log, ErrorText(t));
    forall u | u in after.turns ensures TurnAgrees(after, u) { assert TurnAgrees(a, u); }
  }

  function Concluded(a: Account, t: nat): Account
    requires t in a.turns && t in a.pending
  {
    a.(turns := a.turns[t := a.turns[t].(status := a.pending[t].status)], pending := a.pending - {t}, log := a.log + [Settled(t)])
  }

  /** Only a turn whose row was sent to its end may be settled. */
  lemma SettleKeeps(a: Account, t: nat)
    requires Agrees(a) && t in a.pending && a.turns[t].started && !a.pending[t].status.Unfinished?
    requires a.turns[t].updates == a.pending[t].updates
    ensures MayRead(ReadAll(a.log), Settled(t)) && Agrees(Concluded(a, t))
  {
    var after := Concluded(a, t);
    OpenOf(a, t);
    ReadAppend(a.log, Settled(t));
    ReaderFacts(a.log);
    assert TurnAgrees(a, t);
    forall u | u in after.turns ensures TurnAgrees(after, u) { assert TurnAgrees(a, u); }
  }

  lemma ReportKeeps(a: Account)
    requires Agrees(a) && a.pending == map[]
    ensures MayRead(ReadAll(a.log), Reported) && Agrees(a.(log := a.log + [Reported]))
  {
    var after := a.(log := a.log + [Reported]);
    ReadAppend(a.log, Reported);
    forall u | u in after.turns ensures TurnAgrees(after, u) { assert TurnAgrees(a, u); }
  }

  /** A finished turn seen for the first time is history. */
  lemma HistoryKeeps(a: Account, row: Row)
    requires Agrees(a) && row.index !in a.turns && !row.status.Unfinished?
    ensures Agrees(a.(turns := a.turns[row.index := Delivery(row.updates, true, row.status, false, true)]))
  {
    var after := a.(turns := a.turns[row.index := Delivery(row.updates, true, row.status, false, true)]);
    forall u | u in after.turns ensures TurnAgrees(after, u) { if u in a.turns { assert TurnAgrees(a, u); } }
  }

  /** A turn whose bracket is not open may be held back. */
  lemma HoldKeeps(a: Account, t: nat)
    requires Agrees(a) && t in a.turns && (a.turns[t].started ==> !a.turns[t].status.Unfinished?)
    ensures Agrees(a.(turns := a.turns[t := a.turns[t].(acknowledged := false)]))
  {
    var after := a.(turns := a.turns[t := a.turns[t].(acknowledged := false)]);
    forall u | u in after.turns ensures TurnAgrees(after, u) { assert TurnAgrees(a, u); }
  }

  lemma ReleaseKeeps(a: Account, t: nat)
    requires Agrees(a) && t in a.turns
    ensures Agrees(a.(turns := a.turns[t := a.turns[t].(acknowledged := true)]))
  {
    var after := a.(turns := a.turns[t := a.turns[t].(acknowledged := true)]);
    forall u | u in after.turns ensures TurnAgrees(after, u) { assert TurnAgrees(a, u); }
  }

  // ---- What accounts say about turns -----------------------------------------------------------------

  /** Rows in index order. */
  predicate Rising(rows: seq<Row>) {
    forall i, j :: 0 <= i < j < |rows| ==> rows[i].index < rows[j].index
  }

  function Toldness(log: seq<Note>): Told {
    ReadAll(log).told
  }

  /** The row of a turn comes as a summary when its bracket is opened in catching up by snapshot,
      and only then. */
  predicate SummedAs(a: Account, b: Account, t: nat, snapshot: bool) {
    && (t in Toldness(b.log).summed <==> t in Toldness(a.log).summed || (snapshot && OpensNow(a, b, t)))
    && (OpensNow(a, b, t) ==> Toldness(b.log).stated)
  }

  /** The turn was started on the way from the one account to the other. */
  predicate OpensNow(a: Account, b: Account, t: nat) {
    t in b.turns && b.turns[t].started && !(t in a.turns && a.turns[t].started)
  }

  ghost predicate Summarises(a: Account, b: Account, snapshot: bool) {
    forall t: nat {:trigger SummedAs(a, b, t, snapshot)} :: SummedAs(a, b, t, snapshot)
  }

  /** The turns held back are those of `waiting`. */
  ghost predicate HeldBack(turns: map<nat, Delivery>, waiting: set<nat>) {
    forall t {:trigger IsHeld(turns, waiting, t)} :: t in turns ==> IsHeld(turns, waiting, t)
  }

  predicate IsHeld(turns: map<nat, Delivery>, waiting: set<nat>, t: nat)
    requires t in turns
  {
    t in waiting <==> !turns[t].acknowledged
  }

  lemma HeldBackStays(turns: map<nat, Delivery>, waiting: set<nat>, t: nat, d: Delivery)
    requires HeldBack(turns, waiting) && (d.acknowledged <==> t !in waiting)
    ensures HeldBack(turns[t := d], waiting)
  {
    var after := turns[t := d];
    forall u | u in after ensures IsHeld(after, waiting, u) {
      if u != t { assert IsHeld(turns, waiting, u); }
    }
  }

  /** Every pending turn outside `rest` had its prompt echoed. */
  ghost predicate Echoed(turns: map<nat, Delivery>, pending: map<nat, Row>, rest: set<nat>) {
    forall t {:trigger Prompted(turns, t)} :: t in pending && t !in rest ==> Prompted(turns, t)
  }

  predicate Prompted(turns: map<nat, Delivery>, t: nat) {
    t in turns && turns[t].promptSent
  }

  lemma EchoedGrows(turns: map<nat, Delivery>, pending: map<nat, Row>, rest: set<nat>, t: nat, d: Delivery)
    requires Echoed(turns, pending, rest) && d.promptSent
    ensures Echoed(turns[t := d], pending, rest - {t})
  {
    forall u | u in pending && u !in rest - {t} ensures Prompted(turns[t := d], u) {
      if u != t { assert Prompted(turns, u); }
    }
  }

  /** The earliest pending turn waits for its acknowledgment, or its bracket is open and
      everything its unfinished row holds was sent. */
  ghost predicate FullySent(turns: map<nat, Delivery>, pending: map<nat, Row>) {
    forall t {:trigger Earliest(pending, t)} :: Earliest(pending, t) ==>
      && t in turns
      && (!turns[t].acknowledged ||
          (turns[t].started && pending[t].status.Unfinished? && turns[t].updates == pending[t].updates))
  }

  /** Turns that were pending and are no longer were settled with everything their rows held. */
  ghost predicate WhollySent(before: map<nat, Row>, after: map<nat, Row>, log: seq<Note>) {
    forall t {:trigger WasSent(log, t, before[t].updates)} :: t in before && t !in after ==> WasSent(log, t, before[t].updates)
  }

  /** The turn was settled at exactly this position. */
  predicate WasSent(log: seq<Note>, t: nat, upto: nat) {
    t in ReadAll(log).settled && ReadAll(log).settled[t] == upto
  }

  /** The account went on: rows left the pending ones only by their turns having been started. */
  ghost predicate Proceeds(a: Account, b: Account, snapshot: bool) {
    && Summarises(a, b, snapshot) && Toldness(b.log).reports == Toldness(a.log).reports
    && (Toldness(a.log).stated ==> Toldness(b.log).stated)
    && a.latest == b.latest && a.turns.Keys == b.turns.Keys
    && (forall t {:trigger Goes(a, b, t)} :: t in a.turns ==> Goes(a, b, t))
    && (forall t :: t in b.pending ==> t in a.pending && b.pending[t] == a.pending[t])
  }

  predicate Goes(a: Account, b: Account, t: nat)
    requires t in a.turns
  {
    && t in b.turns && (a.turns[t].started ==> b.turns[t].started) && (a.turns[t].promptSent ==> b.turns[t].promptSent)
    && (t in a.pending && t !in b.pending ==> b.turns[t].started)
  }

  lemma ProceedsOn(a: Account, b: Account, c: Account, snapshot: bool)
    requires Proceeds(a, b, snapshot) && Proceeds(b, c, snapshot)
    ensures Proceeds(a, c, snapshot)
  {
    forall t: nat ensures SummedAs(a, c, t, snapshot) {
      assert SummedAs(a, b, t, snapshot) && SummedAs(b, c, t, snapshot);
      if t in a.turns { assert Goes(a, b, t) && Goes(b, c, t); }
    }
    forall t | t in a.turns ensures Goes(a, c, t) {
      assert Goes(a, b, t) && Goes(b, c, t);
    }
  }

  lemma StaysAsItIs(a: Account, snapshot: bool)
    ensures Proceeds(a, a, snapshot)
  {
    forall t: nat ensures SummedAs(a, a, t, snapshot) { }
    forall t | t in a.turns ensures Goes(a, a, t) { }
  }

  /** What was told of one turn, as a summary when its bracket opened now by snapshot. */
  predicate ToldOf(t: nat, a: Account, b: Account, snapshot: bool) {
    && Toldness(b.log).reports == Toldness(a.log).reports && (Toldness(a.log).stated ==> Toldness(b.log).stated)
    && Toldness(b.log).summed ==
       (if snapshot && !(t in a.turns && a.turns[t].started) then Toldness(a.log).summed + {t} else Toldness(a.log).summed)
    && ((t in a.turns && a.turns[t].started) || Toldness(b.log).stated)
  }

  lemma ProceedsAt(a: Account, b: Account, t: nat, snapshot: bool)
    requires t in a.turns && t in b.turns && a.latest == b.latest && b.turns == a.turns[t := b.turns[t]] && b.turns[t].started && b.turns[t].promptSent
    requires b.pending == a.pending || b.pending == a.pending - {t}
    requires ToldOf(t, a, b, snapshot)
    ensures Proceeds(a, b, snapshot)
  {
    forall u: nat ensures SummedAs(a, b, u, snapshot) { }
    forall u | u in a.turns ensures Goes(a, b, u) { }
  }

  lemma ProceedsWhollySent(a: Account, b: Account, snapshot: bool)
    requires Agrees(a) && Agrees(b) && Proceeds(a, b, snapshot)
    ensures WhollySent(a.pending, b.pending, b.log)
  {
    forall t | t in a.pending && t !in b.pending ensures WasSent(b.log, t, a.pending[t].updates) {
      assert TurnAgrees(a, t) && Goes(a, b, t) && TurnAgrees(b, t);
    }
  }

  lemma WhollySentStays(before: map<nat, Row>, after: map<nat, Row>, log: seq<Note>, more: seq<Note>)
    requires WhollySent(before, after, log) && ReadAll(more).settled == ReadAll(log).settled
    ensures WhollySent(before, after, more)
  {
    forall t | t in before && t !in after ensures WasSent(more, t, before[t].updates) {
      assert WasSent(log, t, before[t].updates);
    }
  }

  /** A row waits with the pending ones, or everything it held was sent and its turn settled. */
  ghost predicate Delivered(row: Row, pending: map<nat, Row>, log: seq<Note>) {
    Waits(row, pending) || WasSent(log, row.index, row.updates)
  }

  predicate Waits(row: Row, pending: map<nat, Row>) {
    row.index in pending && pending[row.index] == row
  }

  lemma WaitingIsDelivered(row: Row, before: map<nat, Row>, after: map<nat, Row>, log: seq<Note>)
    requires Waits(row, before) && WhollySent(before, after, log)
    requires forall t :: t in after ==> t in before && after[t] == before[t]
    ensures Delivered(row, after, log)
  {
    if row.index !in after { assert WasSent(log, row.index, before[row.index].updates); }
  }

  /** Whether a row is to be followed when attaching: its turn is not settled here, and not one of
      the finished turns before the first unfinished one, which a new attachment skips. */
  ghost predicate Followed(rows: seq<Row>, i: nat, turns: map<nat, Delivery>, attaching: bool)
    requires i < |rows|
  {
    if rows[i].index in turns then turns[rows[i].index].status.Unfinished?
    else !(attaching && AllFinished(rows[..i + 1]))
  }

  predicate AllFinished(rows: seq<Row>) {
    rows == [] || (AllFinished(rows[..|rows| - 1]) && !rows[|rows| - 1].status.Unfinished?)
  }

  /** The turn is known to both or to neither, in the same way. */
  predicate SameTurn(a: map<nat, Delivery>, b: map<nat, Delivery>, t: nat) {
    if t in a then t in b && a[t] == b[t] else t !in b
  }

  /** The first `k` rows that are to be followed wait. */
  ghost predicate Met(rows: seq<Row>, k: nat, was: map<nat, Delivery>, attaching: bool, pending: map<nat, Row>)
    requires k <= |rows|
  {
    forall i {:trigger Followed(rows, i, was, attaching)} :: 0 <= i < k && Followed(rows, i, was, attaching) ==> Waits(rows[i], pending)
  }

  lemma MetMore(rows: seq<Row>, k: nat, was: map<nat, Delivery>, attaching: bool, before: map<nat, Row>, after: map<nat, Row>)
    requires k < |rows| && Rising(rows) && Met(rows, k, was, attaching, before)
    requires Followed(rows, k, was, attaching) ==> Waits(rows[k], after)
    requires forall t :: t in before && t != rows[k].index ==> t in after && after[t] == before[t]
    ensures Met(rows, k + 1, was, attaching, after)
  {
    forall i | 0 <= i < k + 1 && Followed(rows, i, was, attaching) ensures Waits(rows[i], after) {
      if i < k { assert Waits(rows[i], before); }
    }
  }

  /** The rows from the `k`-th on are still to come, about turns as they were. */
  ghost predicate Ahead(rows: seq<Row>, k: nat, was: map<nat, Delivery>, turns: map<nat, Delivery>) {
    forall i {:trigger Awaits(rows[i], was, turns)} :: k <= i < |rows| ==> Awaits(rows[i], was, turns)
  }

  predicate Awaits(row: Row, was: map<nat, Delivery>, turns: map<nat, Delivery>) {
    Ordered(turns, row) && SameTurn(was, turns, row.index)
  }

  lemma AheadStays(rows: seq<Row>, k: nat, was: map<nat, Delivery>, before: map<nat, Delivery>, after: map<nat, Delivery>)
    requires k < |rows| && Rising(rows) && Ahead(rows, k, was, before)
    requires after.Keys == before.Keys + {rows[k].index}
    requires forall t :: t in after && t != rows[k].index ==> after[t] == before[t]
    ensures Ahead(rows, k + 1, was, after)
  {
    forall i | k < i < |rows| ensures Awaits(rows[i], was, after) {
      assert Awaits(rows[i], was, before);
    }
  }

  /** Everything the rows of turns settled here held was sent. */
  ghost predicate Complete(a: Account) {
    forall t, p {:trigger SentIn(a.log, t, p)} ::
      t in a.turns && a.turns[t].started && !a.turns[t].status.Unfinished? && t in a.latest && 0 <= p < a.latest[t].updates ==>
        SentIn(a.log, t, p)
  }

  /** Nothing about a turn held back but its prompt was sent. */
  ghost predicate OnlyPrompts(a: Account) {
    forall t, k {:trigger About(a.log[k], t)} ::
      t in a.turns && a.turns[t].status.Unfinished? && !a.turns[t].acknowledged && 0 <= k < |a.log| && About(a.log[k], t) ==>
        a.log[k].Prompt?
  }

  /** An account that agrees with its log sent every position of every turn it settled, and
      nothing but the prompt of a turn held back. */
  lemma AgreesIsComplete(a: Account)
    requires Agrees(a)
    ensures Complete(a) && OnlyPrompts(a)
  {
    forall t, p | t in a.turns && a.turns[t].started && !a.turns[t].status.Unfinished? && t in a.latest && 0 <= p < a.latest[t].updates
      ensures SentIn(a.log, t, p)
    {
      SettledOf(a, t);
      ReachedWasSent(a.log, t, p);
    }
    forall t, k | t in a.turns && a.turns[t].status.Unfinished? && !a.turns[t].acknowledged && 0 <= k < |a.log| && About(a.log[k], t)
      ensures a.log[k].Prompt?
    {
      assert TurnAgrees(a, t);
      OnlyEchoed(a.log, t, k);
    }
  }

  /** What reaches an attachment; rows that would come out of order do not. */
  datatype Arrival =
    | Accepting(row: Row)
    | Acknowledging(turn: nat)
    | Delivering(row: Row)
    | Restoring(rows: seq<Row>, replay: bool)

  // ---- What an arrival does to an account ---------------------------------------------------------

  ghost function Held(turns: map<nat, Delivery>): set<nat> {
    set t | t in turns && !turns[t].acknowledged
  }

  /** The rows of an account still pending are among these, unchanged. */
  predicate KeptFrom(before: map<nat, Row>, after: map<nat, Row>) {
    forall t :: t in after ==> t in before && after[t] == before[t]
  }

  /** The rows that are to be followed among the first `k`, noted in order. */
  ghost function Followers(latest: map<nat, Row>, rows: seq<Row>, k: nat, was: map<nat, Delivery>, attaching: bool): map<nat, Row>
    requires k <= |rows|
  {
    if k == 0 then latest
    else
      var before := Followers(latest, rows, k - 1, was, attaching);
      if Followed(rows, k - 1, was, attaching) then before[rows[k - 1].index := rows[k - 1]] else before
  }

  ghost function Known(known: set<nat>, rows: seq<Row>, k: nat): set<nat>
    requires k <= |rows|
  {
    if k == 0 then known else Known(known, rows, k - 1) + {rows[k - 1].index}
  }

  /** The prompt is echoed, and the row waits for its acknowledgment. */
  predicate Accepts(a: Account, row: Row, b: Account) {
    b == Account(a.turns[row.index := NEW.(promptSent := true, acknowledged := false)], a.pending[row.index := row],
                 a.latest[row.index := row], a.log + [Prompt(row.index)])
  }

  /** The turn is released, and the rows go on from where they were. */
  ghost predicate Acknowledges(a: Account, t: nat, b: Account) {
    if t !in Held(a.turns) then b == a
    else
      && b.latest == a.latest && KeptFrom(a.pending, b.pending) && b.turns.Keys == a.turns.Keys && Streams(a, b)
      && HeldBack(b.turns, Held(a.turns) - {t}) && Spares(a.log, b.log, Held(a.turns) - {t})
  }

  /** The row is noted and its prompt echoed, and the rows go on from there. */
  ghost predicate Delivers(a: Account, row: Row, b: Account) {
    && b.latest == Noted(a.turns, a.latest, row) && KeptFrom(Noted(a.turns, a.pending, row), b.pending)
    && b.turns.Keys == a.turns.Keys + {row.index} && Prompted(b.turns, row.index) && Streams(a, b)
    && HeldBack(b.turns, Held(a.turns)) && Spares(a.log, b.log, Held(a.turns))
  }

  /** What was told is neither a summary nor that the session is idle. */
  predicate Streams(a: Account, b: Account) {
    Toldness(b.log).summed == Toldness(a.log).summed && Toldness(b.log).reports == Toldness(a.log).reports
  }

  /** A client that attached is told that the session is idle, once, when nothing is pending and no
      state was told; then it was told some state. */
  ghost predicate Idles(a: Account, b: Account, attached: bool) {
    && (Toldness(b.log).reports == Toldness(a.log).reports ||
        (attached && b.pending == map[] && !Toldness(a.log).stated && (forall t: nat :: !OpensNow(a, b, t)) &&
         Toldness(b.log).reports == Toldness(a.log).reports + 1))
    && (attached && b.pending == map[] ==> Toldness(b.log).stated)
  }

  lemma StreamsOn(a: Account, m: Account, b: Account)
    requires Toldness(m.log) == Toldness(a.log) && Proceeds(m, b, false)
    ensures Streams(a, b)
  {
    forall t: nat ensures t in Toldness(b.log).summed <==> t in Toldness(a.log).summed { assert SummedAs(m, b, t, false); }
  }

  /** The turns known before are started as they were, and no new one is. */
  ghost predicate StartedAlike(was: map<nat, Delivery>, turns: map<nat, Delivery>) {
    forall t {:trigger StartsAlike(was, turns, t)} :: StartsAlike(was, turns, t)
  }

  predicate StartsAlike(was: map<nat, Delivery>, turns: map<nat, Delivery>, t: nat) {
    (t in was && was[t].started) <==> (t in turns && turns[t].started)
  }

  lemma StartedAlikeOn(was: map<nat, Delivery>, before: map<nat, Delivery>, after: map<nat, Delivery>, i: nat)
    requires StartedAlike(was, before) && after.Keys == before.Keys + {i} && StartsAlike(before, after, i)
    requires forall t :: t in after && t != i ==> after[t] == before[t]
    ensures StartedAlike(was, after)
  {
    forall t: nat ensures StartsAlike(was, after, t) { assert StartsAlike(was, before, t); }
  }

  /** Echoing one more prompt. */
  lemma EchoingKeeps(turns: map<nat, Delivery>, pending: map<nat, Row>, t: nat, waiting: set<nat>, rest: set<nat>, was: map<nat, Delivery>)
    requires t in turns && FullySent(turns, pending)
    requires HeldBack(turns, waiting) && Echoed(turns, pending, rest) && StartedAlike(was, turns)
    ensures var after := turns[t := turns[t].(promptSent := true)];
            && FullySent(after, pending) && HeldBack(after, waiting) && Echoed(after, pending, rest - {t}) && StartedAlike(was, after)
  {
    var d := turns[t].(promptSent := true);
    assert IsHeld(turns, waiting, t);
    HeldBackStays(turns, waiting, t, d);
    EchoedGrows(turns, pending, rest, t, d);
    StartedAlikeOn(was, turns, turns[t := d], t);
  }

  lemma SummarisesTo(a: Account, b: Account, c: Account, snapshot: bool)
    requires Summarises(a, b, snapshot) && StartedAlike(b.turns, c.turns) && Toldness(c.log).summed == Toldness(b.log).summed
    requires Toldness(b.log).stated ==> Toldness(c.log).stated
    ensures Summarises(a, c, snapshot)
  {
    forall t: nat ensures SummedAs(a, c, t, snapshot) {
      assert SummedAs(a, b, t, snapshot) && StartsAlike(b.turns, c.turns, t);
    }
  }

  /** Caught up, the client may be told that the session is idle. */
  lemma IdlesAfter(a: Account, m: Account, b: Account, snapshot: bool, attached: bool)
    requires Summarises(a, m, snapshot) && Toldness(m.log).reports == Toldness(a.log).reports
    requires Toldness(a.log).stated ==> Toldness(m.log).stated
    requires b == if attached && m.pending == map[] && !Toldness(m.log).stated then m.(log := m.log + [Reported]) else m
    ensures Summarises(a, b, snapshot) && Idles(a, b, attached)
  {
    ReadAppend(m.log, Reported);
    forall t: nat ensures SummedAs(a, b, t, snapshot) && (OpensNow(a, b, t) ==> Toldness(m.log).stated) {
      assert SummedAs(a, m, t, snapshot);
    }
  }

  /** From accounts that start alike the same brackets open. */
  lemma SummarisesFrom(was: Account, a: Account, b: Account, snapshot: bool, attached: bool)
    requires StartedAlike(was.turns, a.turns) && Toldness(a.log) == Toldness(was.log)
    requires Summarises(a, b, snapshot) && Idles(a, b, attached)
    ensures Summarises(was, b, snapshot) && Idles(was, b, attached)
  {
    forall t: nat ensures OpensNow(was, b, t) <==> OpensNow(a, b, t) { assert StartsAlike(was.turns, a.turns, t); }
    forall t: nat ensures SummedAs(was, b, t, snapshot) {
      assert SummedAs(a, b, t, snapshot) && StartsAlike(was.turns, a.turns, t);
    }
  }

  /** The rows to be followed are noted, from scratch in a replay, and every prompt is echoed. */
  ghost predicate Restores(a: Account, rows: seq<Row>, replay: bool, b: Account) {
    var was := if replay then Account(map[], map[], map[], []) else a;
    var latest := Followers(was.latest, rows, |rows|, was.turns, !replay);
    && b.latest == latest
    && b.turns.Keys == Known(was.turns.Keys, rows, |rows|) && Echoed(b.turns, b.pending, {})
    && Summarises(was, b, !replay) && Idles(was, b, !replay && rows != [])
    && HeldBack(b.turns, Held(a.turns)) && Spares(was.log, b.log, Held(a.turns))
  }

  predicate InOrder(a: Account, arrival: Arrival) {
    match arrival
    case Accepting(row) => row.index !in a.turns && Ordered(a.turns, row)
    case Acknowledging(_) => true
    case Delivering(row) => Ordered(a.turns, row)
    case Restoring(rows, replay) => Rising(rows) && (replay || forall i :: 0 <= i < |rows| ==> Ordered(a.turns, rows[i]))
  }

  ghost predicate Took(a: Account, arrival: Arrival, b: Account) {
    if !InOrder(a, arrival) then b == a
    else match arrival
      case Accepting(row) => Accepts(a, row, b)
      case Acknowledging(t) => Acknowledges(a, t, b)
      case Delivering(row) => Delivers(a, row, b)
      case Restoring(rows, replay) => Restores(a, rows, replay, b)
  }

  /** The accounts of a run: each agrees with its log, its earliest pending turn is sent as far as
      its row goes unless it waits for its acknowledgment, and each arrival took it to the next. */
  ghost predicate Ran(states: seq<Account>, arrivals: seq<Arrival>) {
    && |states| == |arrivals| + 1
    && (forall k {:trigger Stands(states[k])} :: 0 <= k < |states| ==> Stands(states[k]))
    && (forall k {:trigger arrivals[k]} :: 0 <= k < |arrivals| ==> Took(states[k], arrivals[k], states[k + 1]))
  }

  ghost predicate Stands(a: Account) {
    Agrees(a) && FullySent(a.turns, a.pending)
  }

  lemma AcceptStands(a: Account, row: Row, b: Account)
    requires Stands(a) && row.index !in a.turns && Ordered(a.turns, row) && Accepts(a, row, b)
    ensures FullySent(b.turns, b.pending)
  {
    forall t | Earliest(b.pending, t) && t != row.index
      ensures t in b.turns && (!b.turns[t].acknowledged ||
                               (b.turns[t].started && b.pending[t].status.Unfinished? && b.turns[t].updates == b.pending[t].updates))
    {
      assert forall u :: u in a.pending ==> u in b.pending;
      assert t in a.pending && Earliest(a.pending, t);
    }
  }

  /** Nothing observed is lost: the row last observed of each turn waits, or all of it was sent and
      its turn settled. */
  lemma LatestIsDelivered(a: Account, t: nat)
    requires Agrees(a) && t in a.latest
    ensures a.latest[t].index == t && Delivered(a.latest[t], a.pending, a.log)
  {
    assert TurnAgrees(a, t);
  }

  lemma RanOn(states: seq<Account>, arrivals: seq<Arrival>, k: nat, next: Account)
    requires k < |arrivals| && Ran(states, arrivals[..k]) && Took(states[k], arrivals[k], next) && Stands(next)
    ensures Ran(states + [next], arrivals[..k + 1])
  {
    var after := states + [next];
    forall i | 0 <= i < |after| ensures Stands(after[i]) {
      if i < |states| { assert Stands(states[i]); }
    }
    forall i | 0 <= i < k + 1 ensures Took(after[i], arrivals[..k + 1][i], after[i + 1]) {
      if i < k { assert arrivals[..k + 1][i] == arrivals[..k][i]; }
    }
  }

  /** The rows an arrival brings. */
  predicate Brings(arrival: Arrival, row: Row) {
    match arrival
    case Accepting(r) => r == row
    case Acknowledging(_) => false
    case Delivering(r) => r == row
    case Restoring(rows, _) => row in rows
  }

  predicate Concerns(arrival: Arrival, t: nat) {
    match arrival
    case Accepting(r) => r.index == t
    case Acknowledging(_) => false
    case Delivering(r) => r.index == t
    case Restoring(rows, replay) => replay || exists i :: 0 <= i < |rows| && rows[i].index == t
  }

  lemma {:induction false} FollowersMeans(latest: map<nat, Row>, rows: seq<Row>, k: nat, was: map<nat, Delivery>, attaching: bool, t: nat)
    requires k <= |rows| && forall i :: 0 <= i < k ==> rows[i].index != t
    ensures var after := Followers(latest, rows, k, was, attaching);
            if t in latest then t in after && after[t] == latest[t] else t !in after
  {
    if k > 0 { FollowersMeans(latest, rows, k - 1, was, attaching, t); }
  }

  lemma {:induction false} FollowerIsLatest(latest: map<nat, Row>, rows: seq<Row>, k: nat, was: map<nat, Delivery>, attaching: bool, i: nat)
    requires i < k <= |rows| && Rising(rows) && Followed(rows, i, was, attaching)
    ensures Waits(rows[i], Followers(latest, rows, k, was, attaching))
  {
    if i < k - 1 { FollowerIsLatest(latest, rows, k - 1, was, attaching, i); }
  }

  /** The arrival changes nothing about what was last observed of turns it does not concern. */
  lemma LatestStays(a: Account, arrival: Arrival, b: Account, t: nat)
    requires Took(a, arrival, b) && !Concerns(arrival, t) && t in a.latest
    ensures t in b.latest && b.latest[t] == a.latest[t]
  {
    if arrival.Restoring? && InOrder(a, arrival) {
      FollowersMeans(a.latest, arrival.rows, |arrival.rows|, a.turns, true, t);
    }
  }

  /** A row that arrives in order is to be observed when its turn was not settled here, nor is
      part of the finished history that a new attachment skips. */
  ghost predicate ToObserve(a: Account, arrival: Arrival, row: Row) {
    match arrival
    case Accepting(_) => true
    case Acknowledging(_) => false
    case Delivering(_) => row.index in a.turns ==> a.turns[row.index].status.Unfinished?
    case Restoring(rows, replay) => exists i :: 0 <= i < |rows| && rows[i] == row && Followed(rows, i, if replay then map[] else a.turns, !replay)
  }

  lemma ArrivedIsLatest(a: Account, arrival: Arrival, b: Account, row: Row)
    requires Took(a, arrival, b) && InOrder(a, arrival) && Brings(arrival, row) && ToObserve(a, arrival, row)
    ensures Waits(row, b.latest)
  {
    if arrival.Restoring? {
      var rows, replay := arrival.rows, arrival.replay;
      var was := if replay then map[] else a.turns;
      var i :| 0 <= i < |rows| && rows[i] == row && Followed(rows, i, was, !replay);
      FollowerIsLatest(if replay then map[] else a.latest, rows, |rows|, was, !replay, i);
    }
  }

  /** Over every run: a row that arrived in order, until the next arrival about its turn, waits
      behind an earlier turn or for its acknowledgment, or its bracket is open and all it holds was
      sent, or its turn was settled with all it held. */
  lemma {:induction false} ArrivedIsDelivered(states: seq<Account>, arrivals: seq<Arrival>, i: nat, j: nat, row: Row)
    requires Ran(states, arrivals) && i < j < |states|
    requires InOrder(states[i], arrivals[i]) && Brings(arrivals[i], row) && ToObserve(states[i], arrivals[i], row)
    requires forall k :: i < k < j ==> !Concerns(arrivals[k], row.index)
    ensures Waits(row, states[j].latest) && Delivered(row, states[j].pending, states[j].log)
    ensures Earliest(states[j].pending, row.index) && row.index !in Held(states[j].turns) ==>
              ReadAll(states[j].log).open == Bracket(row.index, row.updates) && row.status.Unfinished?
    decreases j
  {
    assert Took(states[j - 1], arrivals[j - 1], states[j]);
    if j == i + 1 {
      ArrivedIsLatest(states[i], arrivals[i], states[j], row);
    } else {
      ArrivedIsDelivered(states, arrivals, i, j - 1, row);
      LatestStays(states[j - 1], arrivals[j - 1], states[j], row.index);
    }
    assert Stands(states[j]);
    LatestIsDelivered(states[j], row.index);
    if Earliest(states[j].pending, row.index) && row.index !in Held(states[j].turns) {
      assert TurnAgrees(states[j], row.index);
    }
  }

  class Attachment {
    var turns: map<nat, Delivery>
    var pending: map<nat, Row>
    var log: seq<Note>
    ghost var latest: map<nat, Row>

    ghost function Now(): Account
      reads this
    {
      Account(turns, pending, latest, log)
    }

    ghost predicate Valid()
      reads this
    {
      Agrees(Now())
    }

    constructor ()
      ensures Valid() && Drained() && turns == map[] && log == [] && latest == map[]
    {
      turns, pending, log, latest := map[], map[], [], map[];
    }

    method Send(n: Note)
      requires Accepted(log) && MayRead(ReadAll(log), n)
      modifies `log
      ensures log == old(log) + [n] && Accepted(log) && ReadAll(log) == Read(ReadAll(old(log)), n)
    {
      ReadAppend(log, n);
      log := log + [n];
    }

    /** Note a row, unless its turn was already settled here. */
    method Observe(row: Row)
      requires Valid() && Ordered(turns, row)
      modifies `turns, `pending, `latest
      ensures Valid() && Now() == Observed(old(Now()), row)
    {
      ObserveKeeps(Now(), row);
      if row.index !in turns {
        turns := turns[row.index := NEW];
      }
      if turns[row.index].status.Unfinished? {
        pending := pending[row.index := row];
        latest := latest[row.index := row];
      }
    }

    method EchoPrompt(t: nat)
      requires Valid() && t in turns
      modifies `turns, `log
      ensures Valid() && t in turns && turns[t] == old(turns)[t].(promptSent := true)
      ensures turns == old(turns)[t := turns[t]]
      ensures log == if old(turns)[t].promptSent then old(log) else old(log) + [Prompt(t)]
      ensures OnlyAbout(old(log), log, t)
      ensures ReadAll(log).settled == ReadAll(old(log)).settled && Toldness(log) == Toldness(old(log))
    {
      if !turns[t].promptSent {
        OnlyAboutAppend(log, log, Prompt(t), t);
        EchoKeeps(Now(), t);
        Send(Prompt(t));
        turns := turns[t := turns[t].(promptSent := true)];
      }
    }

    /** The bracket of the earliest pending turn, opened if it is not yet. */
    method OpenBracket(t: nat)
      requires Valid() && Earliest(pending, t) && turns[t].acknowledged && turns[t].promptSent
      modifies `turns, `log
      ensures Valid() && turns == old(turns)[t := old(turns)[t].(started := true)]
      ensures log == if old(turns)[t].started then old(log) else old(log) + [Opened(t)]
      ensures OnlyAbout(old(log), log, t) && Toldness(log).summed == Toldness(old(log)).summed
      ensures Toldness(log).reports == Toldness(old(log)).reports && (Toldness(old(log)).stated || !old(turns)[t].started ==> Toldness(log).stated)
    {
      if !turns[t].started {
        OnlyAboutAppend(log, log, Opened(t), t);
        OpenKeeps(Now(), t);
        Send(Opened(t));
        turns := turns[t := turns[t].(started := true)];
      }
    }

    /** Everything the row holds beyond the cursor, as a summary or position by position. */
    method Stream(t: nat, cursor: nat, upto: nat, summary: bool)
      requires Accepted(log) && ReadAll(log).open == Bracket(t, cursor) && cursor <= upto
      requires summary ==> cursor == 0
      modifies `log
      ensures Accepted(log) && OnlyAbout(old(log), log, t)
      ensures ReadAll(log) == ReadAll(old(log)).(open := Bracket(t, upto), told := Toldness(log))
      ensures Toldness(log) == Toldness(old(log)).(summed := Toldness(old(log)).summed + if summary then {t} else {})
      ensures summary ==> log == old(log) + [Summary(t, upto)]
      ensures !summary ==> |log| - |old(log)| == upto - cursor
      ensures !summary ==> forall k :: |old(log)| <= k < |log| ==> log[k] == Sent(t, cursor + k - |old(log)|)
    {
      if summary {
        OnlyAboutAppend(log, log, Summary(t, upto), t);
        Send(Summary(t, upto));
        return;
      }
      for position := cursor to upto
        invariant Accepted(log) && |log| - |old(log)| == position - cursor
        invariant OnlyAbout(old(log), log, t)
        invariant ReadAll(log) == ReadAll(old(log)).(open := Bracket(t, position)) && Toldness(log) == Toldness(old(log))
        invariant forall k :: |old(log)| <= k < |log| ==> log[k] == Sent(t, cursor + k - |old(log)|)
      {
        OnlyAboutAppend(old(log), log, Sent(t, position), t);
        Send(Sent(t, position));
      }
    }

    /** Send what the row of an open bracket holds and move its cursor there. */
    method SendRest(t: nat, summary: bool)
      requires Valid() && t in pending && turns[t].started && (summary ==> turns[t].updates == 0)
      modifies `turns, `log
      ensures Valid() && OnlyAbout(old(log), log, t)
      ensures Toldness(log) == Toldness(old(log)).(summed := Toldness(old(log)).summed + if summary then {t} else {})
      ensures turns == old(turns)[t := old(turns)[t].(updates := pending[t].updates)]
      ensures summary ==> log == old(log) + [Summary(t, pending[t].updates)]
      ensures !summary ==> |log| - |old(log)| == pending[t].updates - old(turns)[t].updates
      ensures !summary ==>
                forall k :: |old(log)| <= k < |log| ==> log[k] == Sent(t, old(turns)[t].updates + k - |old(log)|)
    {
      OpenOf(Now(), t);
      Stream(t, turns[t].updates, pending[t].updates, summary);
      SendKeeps(old(Now()), t, log);
      turns := turns[t := turns[t].(updates := pending[t].updates)];
    }

    /** Open the bracket of the earliest pending turn and send what its row holds so far. */
    method Advance(t: nat, snapshot: bool)
      requires Valid() && Earliest(pending, t) && turns[t].acknowledged
      modifies `turns, `log
      ensures Valid() && OnlyAbout(old(log), log, t) && ToldOf(t, old(Now()), Now(), snapshot)
      ensures turns == old(turns)[t := Delivery(pending[t].updates, true, Unfinished, true, true)]
    {
      NewOf(Now(), t);
      var opening := !turns[t].started;
      EchoAndOpen(t);
      ghost var ready := log;
      SendRest(t, snapshot && opening);
      OnlyAboutChain(old(log), ready, log, t);
    }

    method EchoAndOpen(t: nat)
      requires Valid() && Earliest(pending, t) && turns[t].acknowledged
      modifies `turns, `log
      ensures Valid() && OnlyAbout(old(log), log, t) && Toldness(log).summed == Toldness(old(log)).summed
      ensures Toldness(log).reports == Toldness(old(log)).reports && (Toldness(old(log)).stated || !old(turns)[t].started ==> Toldness(log).stated)
      ensures turns == old(turns)[t := old(turns)[t].(promptSent := true, started := true)]
    {
      EchoPrompt(t);
      ghost var echoed := log;
      OpenBracket(t);
      OnlyAboutChain(old(log), echoed, log, t);
    }

    /** The error of a failed turn is the last thing told of it before its settlement. */
    method Explain(t: nat)
      requires Valid() && t in pending && turns[t].started
      modifies `log
      ensures Valid() && OnlyAbout(old(log), log, t) && Toldness(log) == Toldness(old(log))
      ensures log == if pending[t].status.Failed? then old(log) + [ErrorText(t)] else old(log)
    {
      if pending[t].status.Failed? {
        OnlyAboutAppend(log, log, ErrorText(t), t);
        ErrorKeeps(Now(), t);
        Send(ErrorText(t));
      }
    }

    /** Close the bracket of a finished turn, once all of its row was sent. */
    method Conclude(t: nat)
      requires Valid() && t in pending && turns[t].started && !pending[t].status.Unfinished?
      requires turns[t].updates == pending[t].updates
      modifies `turns, `pending, `log
      ensures Valid() && OnlyAbout(old(log), log, t) && Toldness(log) == Toldness(old(log)).(stated := true)
      ensures log == (if old(pending)[t].status.Failed? then old(log) + [ErrorText(t)] else old(log)) + [Settled(t)]
      ensures turns == old(turns)[t := old(turns)[t].(status := old(pending)[t].status)]
      ensures pending == old(pending) - {t}
    {
      Explain(t);
      ghost var explained := Now();
      OnlyAboutAppend(old(log), log, Settled(t), t);
      SettleKeeps(explained, t);
      Send(Settled(t));
      turns := turns[t := turns[t].(status := pending[t].status)];
      pending := pending - {t};
      assert Now() == Concluded(explained, t);
    }

    ghost predicate Drained()
      reads this
    {
      FullySent(turns, pending)
    }

    ghost function Unacknowledged(): set<nat>
      reads this
    {
      Held(turns)
    }

    lemma HeldBackNow()
      ensures HeldBack(turns, Unacknowledged())
    {
      forall t | t in turns ensures IsHeld(turns, Unacknowledged(), t) { }
    }

    /** Bring one turn as far as its row goes: settled at the end of a finished row, else its
        bracket stays open at the end of the row. */
    method DrainOne(t: nat, snapshot: bool) returns (settled: bool)
      requires Valid() && Earliest(pending, t) && turns[t].acknowledged
      modifies `turns, `pending, `log
      ensures Valid() && OnlyAbout(old(log), log, t) && ToldOf(t, old(Now()), Now(), snapshot)
      ensures settled <==> !old(pending)[t].status.Unfinished?
      ensures settled ==> WasSent(log, t, old(pending)[t].updates)
      ensures !settled ==> ReadAll(log).open == Bracket(t, old(pending)[t].updates)
      ensures turns == old(turns)[t := Delivery(old(pending)[t].updates, true, old(pending)[t].status, true, true)]
      ensures pending == if settled then old(pending) - {t} else old(pending)
    {
      Advance(t, snapshot);
      settled := !pending[t].status.Unfinished?;
      if settled {
        ghost var before := log;
        Conclude(t);
        OnlyAboutChain(old(log), before, log, t);
        SettledOf(Now(), t);
      } else {
        OpenOf(Now(), t);
      }
    }

    /** The next turn, unless it waits for its acknowledgment: whether to go on after it. */
    method DrainNext(snapshot: bool, ghost start: seq<Note>, ghost waiting: set<nat>) returns (again: bool)
      requires Valid() && pending != map[] && Spares(start, log, waiting) && HeldBack(turns, waiting)
      modifies `turns, `pending, `log
      ensures Valid() && Spares(start, log, waiting) && (again || Drained())
      ensures again ==> pending.Keys < old(pending).Keys
      ensures HeldBack(turns, waiting) && Proceeds(old(Now()), Now(), snapshot)
    {
      var t := Least(pending.Keys);
      assert Earliest(pending, t);
      assert IsHeld(turns, waiting, t);
      if !turns[t].acknowledged {
        StaysAsItIs(Now(), snapshot);
        return false;
      }
      HeldBackStays(turns, waiting, t, Delivery(pending[t].updates, true, pending[t].status, true, true));
      again := DrainOne(t, snapshot);
      SparesChain(start, old(log), log, t, waiting);
      ProceedsAt(old(Now()), Now(), t, snapshot);
    }

    /** Settle each bracket before opening the next; nothing about an unacknowledged turn leaves,
        and each turn that leaves the pending rows had all of its row sent. */
    method Drain(snapshot: bool, ghost waiting: set<nat>)
      requires Valid() && HeldBack(turns, waiting)
      modifies `turns, `pending, `log
      ensures Valid() && Drained() && Spares(old(log), log, waiting) && HeldBack(turns, waiting)
      ensures Proceeds(old(Now()), Now(), snapshot) && WhollySent(old(pending), pending, log)
    {
      var again := true;
      StaysAsItIs(Now(), snapshot);
      while again && pending != map[]
        invariant Valid() && Spares(old(log), log, waiting) && (again || Drained())
        invariant HeldBack(turns, waiting) && Proceeds(old(Now()), Now(), snapshot)
        decreases again, pending.Keys
      {
        ghost var before := Now();
        again := DrainNext(snapshot, old(log), waiting);
        ProceedsOn(old(Now()), before, Now(), snapshot);
      }
      ProceedsWhollySent(old(Now()), Now(), snapshot);
    }

    // ---- What reaches the attachment --------------------------------------------------------------

    method Hold(t: nat)
      requires Valid() && t in turns && (turns[t].started ==> !turns[t].status.Unfinished?)
      modifies `turns
      ensures Valid() && turns == old(turns)[t := old(turns)[t].(acknowledged := false)]
    {
      HoldKeeps(Now(), t);
      turns := turns[t := turns[t].(acknowledged := false)];
    }

    /** A prompt was posted on this connection: echo it, and hold its output back until the
        response that carries its message id has left. */
    method AcceptPrompt(row: Row)
      requires Valid() && row.index !in turns && Ordered(turns, row)
      modifies `turns, `pending, `log, `latest
      ensures Valid() && (old(Drained()) ==> Drained())
      ensures row.index in Unacknowledged() && Waits(row, pending)
      ensures Accepts(old(Now()), row, Now())
    {
      Observe(row);
      Hold(row.index);
      EchoPrompt(row.index);
      if old(Drained()) { AcceptStands(old(Now()), row, Now()); }
    }

    /** The insertion response left: release the turn. */
    method Acknowledge(t: nat)
      requires Valid()
      modifies `turns, `pending, `log
      ensures Valid() && t !in Unacknowledged() && WhollySent(old(pending), pending, log)
      ensures old(Drained()) || t in old(Unacknowledged()) ==> Drained()
      ensures Acknowledges(old(Now()), t, Now())
    {
      if t in turns && !turns[t].acknowledged {
        ghost var waiting := Unacknowledged() - {t};
        ReleaseKeeps(Now(), t);
        turns := turns[t := turns[t].(acknowledged := true)];
        forall u | u in turns ensures IsHeld(turns, waiting, u) { }
        ghost var released := Now();
        Drain(false, waiting);
        StreamsOn(old(Now()), released, Now());
        assert t in turns ==> IsHeld(turns, waiting, t);
      }
    }

    /** Observe a row and echo its prompt. */
    method Note(row: Row, ghost waiting: set<nat>)
      requires Valid() && Ordered(turns, row) && HeldBack(turns, waiting) && (row.index !in turns ==> row.index !in waiting)
      modifies `turns, `pending, `log, `latest
      ensures Valid() && HeldBack(turns, waiting) && Spares(old(log), log, waiting) && Toldness(log) == Toldness(old(log))
      ensures turns.Keys == old(turns).Keys + {row.index} && Prompted(turns, row.index)
      ensures pending == Noted(old(turns), old(pending), row) && latest == Noted(old(turns), old(latest), row)
    {
      Observe(row);
      if row.index !in old(turns) { HeldBackStays(old(turns), waiting, row.index, NEW); }
      if !turns[row.index].promptSent { SparesAppend(log, log, Prompt(row.index), waiting); }
      assert IsHeld(turns, waiting, row.index);
      HeldBackStays(turns, waiting, row.index, turns[row.index].(promptSent := true));
      EchoPrompt(row.index);
    }

    /** The change feed reported a turn. */
    method Deliver(row: Row)
      requires Valid() && Ordered(turns, row)
      modifies `turns, `pending, `log, `latest
      ensures Valid() && Drained() && Delivers(old(Now()), row, Now())
      ensures WhollySent(Noted(old(turns), old(pending), row), pending, log)
      ensures (row.index in old(turns) ==> old(turns)[row.index].status.Unfinished?) ==> Delivered(row, pending, log)
    {
      ghost var waiting := Unacknowledged();
      HeldBackNow();
      Note(row, waiting);
      ghost var noted := Now();
      Drain(false, waiting);
      SparesTwice(old(log), noted.log, log, waiting);
      StreamsOn(old(Now()), noted, Now());
      assert Goes(noted, Now(), row.index);
      if row.index in latest { LatestIsDelivered(Now(), row.index); }
    }

    /** One row of the session while (re)attaching: history, or observed, and held back again
        if it was waiting for its acknowledgment. */
    method Reattach(row: Row, historical: bool, waiting: set<nat>)
      requires Valid() && Ordered(turns, row) && (historical ==> !row.status.Unfinished?)
      requires HeldBack(turns, waiting)
      modifies `turns, `pending, `latest
      ensures Valid() && HeldBack(turns, waiting) && turns.Keys == old(turns).Keys + {row.index}
      ensures StartsAlike(old(turns), turns, row.index)
      ensures forall t :: t in turns && t != row.index ==> turns[t] == old(turns)[t]
      ensures (if row.index in old(turns) then old(turns)[row.index].status.Unfinished? else !historical) ==> Waits(row, pending)
      ensures latest == if (if row.index in old(turns) then old(turns)[row.index].status.Unfinished? else !historical)
                        then old(latest)[row.index := row] else old(latest)
      ensures forall t :: t in old(pending) && t != row.index ==> t in pending && pending[t] == old(pending)[t]
    {
      if row.index in turns { assert IsHeld(turns, waiting, row.index); }
      Meet(row, historical);
      if row.index in waiting {
        Rehold(row.index, old(Now()));
      }
      HeldBackStays(old(turns), waiting, row.index, turns[row.index]);
      assert turns == old(turns)[row.index := turns[row.index]];
    }

    method Meet(row: Row, historical: bool)
      requires Valid() && Ordered(turns, row) && (historical ==> !row.status.Unfinished?)
      modifies `turns, `pending, `latest
      ensures Valid() && row.index in turns && turns == old(turns)[row.index := turns[row.index]]
      ensures if row.index in old(turns) then turns == old(turns) else turns[row.index].acknowledged && !turns[row.index].started
      ensures (if row.index in old(turns) then old(turns)[row.index].status.Unfinished? else !historical) ==> Waits(row, pending)
      ensures latest == if (if row.index in old(turns) then old(turns)[row.index].status.Unfinished? else !historical)
                        then old(latest)[row.index := row] else old(latest)
      ensures pending == old(pending) || pending == old(pending)[row.index := row]
    {
      if historical && row.index !in turns {
        HistoryKeeps(Now(), row);
        turns := turns[row.index := Delivery(row.updates, true, row.status, false, true)];
      } else {
        Observe(row);
      }
    }

    method Rehold(t: nat, ghost before: Account)
      requires Valid() && t in turns && (t in before.turns ==> turns == before.turns && !turns[t].acknowledged && Agrees(before))
      requires t !in before.turns ==> !turns[t].started
      modifies `turns
      ensures Valid() && turns == old(turns)[t := old(turns)[t].(acknowledged := false)]
    {
      assert TurnAgrees(Now(), t);
      Hold(t);
    }

    method ObserveAll(rows: seq<Row>, attaching: bool, waiting: set<nat>)
      requires Valid() && Rising(rows) && (forall i :: 0 <= i < |rows| ==> Ordered(turns, rows[i]))
      requires HeldBack(turns, waiting)
      modifies `turns, `pending, `latest
      ensures Valid() && HeldBack(turns, waiting)
      ensures turns.Keys == Known(old(turns).Keys, rows, |rows|) && StartedAlike(old(turns), turns)
      ensures latest == Followers(old(latest), rows, |rows|, old(turns), attaching)
      ensures Met(rows, |rows|, old(turns), attaching, pending)
    {
      var historical := attaching;
      forall t: nat ensures StartsAlike(turns, turns, t) { }
      for k := 0 to |rows|
        invariant Valid() && HeldBack(turns, waiting)
        invariant historical <==> attaching && AllFinished(rows[..k])
        invariant turns.Keys == Known(old(turns).Keys, rows, k)
        invariant latest == Followers(old(latest), rows, k, old(turns), attaching)
        invariant Ahead(rows, k, old(turns), turns) && StartedAlike(old(turns), turns)
        invariant Met(rows, k, old(turns), attaching, pending)
      {
        assert rows[..k + 1][..k] == rows[..k];
        historical := historical && !rows[k].status.Unfinished?;
        ghost var before, met := pending, turns;
        assert Awaits(rows[k], old(turns), turns);
        Reattach(rows[k], historical, waiting);
        MetMore(rows, k, old(turns), attaching, before, pending);
        AheadStays(rows, k, old(turns), met, turns);
        StartedAlikeOn(old(turns), met, turns, rows[k].index);
      }
      assert rows[..|rows|] == rows;
    }

    /** One of the echoes; `rest` are the turns still to be looked at. */
    method EchoOne(t: nat, ghost start: seq<Note>, ghost waiting: set<nat>, ghost rest: set<nat>, ghost was: map<nat, Delivery>)
      requires Valid() && Drained() && t in pending && Spares(start, log, waiting) && |start| <= |log|
      requires HeldBack(turns, waiting) && Echoed(turns, pending, rest) && StartedAlike(was, turns)
      modifies `turns, `log
      ensures Valid() && Drained() && Spares(start, log, waiting) && |start| <= |log|
      ensures HeldBack(turns, waiting) && Echoed(turns, pending, rest - {t}) && turns.Keys == old(turns).Keys
      ensures ReadAll(log).settled == ReadAll(old(log)).settled && Toldness(log) == Toldness(old(log))
      ensures StartedAlike(was, turns)
    {
      if !turns[t].promptSent { SparesAppend(start, log, Prompt(t), waiting); }
      EchoingKeeps(turns, pending, t, waiting, rest, was);
      EchoPrompt(t);
    }

    /** Echo the prompts of turns whose bracket could not open yet. */
    method EchoPending(ghost waiting: set<nat>)
      requires Valid() && Drained() && HeldBack(turns, waiting)
      modifies `turns, `log
      ensures Valid() && Drained() && Spares(old(log), log, waiting) && HeldBack(turns, waiting)
      ensures turns.Keys == old(turns).Keys && Echoed(turns, pending, {}) && StartedAlike(old(turns), turns)
      ensures ReadAll(log).settled == ReadAll(old(log)).settled && Toldness(log) == Toldness(old(log))
    {
      var rest := pending.Keys;
      forall t: nat ensures StartsAlike(turns, turns, t) { }
      while rest != {}
        invariant Valid() && Drained() && Spares(old(log), log, waiting) && |old(log)| <= |log|
        invariant rest <= pending.Keys && Echoed(turns, pending, rest)
        invariant turns.Keys == old(turns).Keys && HeldBack(turns, waiting) && StartedAlike(old(turns), turns)
        invariant ReadAll(log).settled == ReadAll(old(log)).settled && Toldness(log) == Toldness(old(log))
        decreases rest
      {
        var t := Least(rest);
        EchoOne(t, old(log), waiting, rest, old(turns));
        rest := rest - {t};
      }
    }

    /** A client that attached to a finished session is told so once. */
    method ReportIdle(ghost start: seq<Note>, ghost waiting: set<nat>)
      requires Valid() && pending == map[] && Spares(start, log, waiting)
      modifies `log
      ensures Valid() && Spares(start, log, waiting) && log == old(log) + [Reported]
      ensures ReadAll(log) == Read(ReadAll(old(log)), Reported)
    {
      SparesMeans(start, log, waiting);
      SparesAppend(start, log, Reported, waiting);
      ReportKeeps(Now());
      Send(Reported);
    }

    /** Drain, and echo the prompts that are left. */
    method DrainAndEcho(snapshot: bool, ghost waiting: set<nat>)
      requires Valid() && HeldBack(turns, waiting)
      modifies `turns, `pending, `log
      ensures Valid() && Drained() && Spares(old(log), log, waiting) && HeldBack(turns, waiting)
      ensures turns.Keys == old(turns).Keys && latest == old(latest)
      ensures Echoed(turns, pending, {}) && WhollySent(old(pending), pending, log) && KeptFrom(old(pending), pending)
      ensures Summarises(old(Now()), Now(), snapshot) && Toldness(log).reports == Toldness(old(log)).reports
      ensures Toldness(old(log)).stated ==> Toldness(log).stated
    {
      Drain(snapshot, waiting);
      ghost var drained := Now();
      EchoPending(waiting);
      SparesTwice(old(log), drained.log, log, waiting);
      SummarisesTo(old(Now()), drained, Now(), snapshot);
      WhollySentStays(old(pending), pending, drained.log, log);
    }

    /** Bring the client up to date with everything observed. */
    method CatchUp(snapshot: bool, mayReport: bool, ghost waiting: set<nat>)
      requires Valid() && HeldBack(turns, waiting)
      modifies `turns, `pending, `log
      ensures Valid() && Drained() && Spares(old(log), log, waiting) && HeldBack(turns, waiting)
      ensures turns.Keys == old(turns).Keys && latest == old(latest)
      ensures Echoed(turns, pending, {}) && WhollySent(old(pending), pending, log) && KeptFrom(old(pending), pending)
      ensures Summarises(old(Now()), Now(), snapshot) && Idles(old(Now()), Now(), mayReport)
    {
      DrainAndEcho(snapshot, waiting);
      ghost var caught := Now();
      if mayReport && pending == map[] && !Toldness(log).stated {
        ReportIdle(old(log), waiting);
      }
      IdlesAfter(old(Now()), caught, Now(), snapshot, mayReport);
      WhollySentStays(old(pending), pending, caught.log, log);
    }

    /** (Re)attach with every row of the session in index order. A replay starts the log anew
        and sends everything; otherwise the finished turns not seen before are history, and
        what is still open is caught up by snapshot. */
    method Restore(rows: seq<Row>, replay: bool)
      requires Valid() && Rising(rows)
      requires !replay ==> forall i :: 0 <= i < |rows| ==> Ordered(turns, rows[i])
      modifies `turns, `pending, `log, `latest
      ensures Valid() && Drained() && Restores(old(Now()), rows, replay, Now())
      ensures forall i :: 0 <= i < |rows| && Followed(rows, i, if replay then map[] else old(turns), !replay) ==>
                Delivered(rows[i], pending, log)
    {
      var waiting := set t | t in turns && !turns[t].acknowledged;
      HeldBackNow();
      if replay {
        turns, pending, log, latest := map[], map[], [], map[];
      }
      ghost var was, from := turns, Now();
      ObserveAll(rows, !replay, waiting);
      ghost var before, observed := pending, Now();
      CatchUp(!replay, !replay && rows != [], waiting);
      SummarisesFrom(from, observed, Now(), !replay, !replay && rows != []);
      forall i | 0 <= i < |rows| && Followed(rows, i, was, !replay) ensures Delivered(rows[i], pending, log) {
        WaitingIsDelivered(rows[i], before, pending, log);
      }
    }

    method Take(arrival: Arrival)
      requires Valid() && Drained()
      modifies `turns, `pending, `log, `latest
      ensures Valid() && Drained() && Took(old(Now()), arrival, Now())
    {
      match arrival {
        case Accepting(row) => if row.index !in turns && Ordered(turns, row) { AcceptPrompt(row); }
        case Acknowledging(t) => Acknowledge(t);
        case Delivering(row) => if Ordered(turns, row) { Deliver(row); }
        case Restoring(rows, replay) =>
          if Rising(rows) && (replay || forall i :: 0 <= i < |rows| ==> Ordered(turns, rows[i])) {
            Restore(rows, replay);
          }
      }
    }

    /** Every run: each arrival takes the account on as it should; at every point the log of the
        current epoch is one the protocol's reader accepts, every position of every turn settled in
        it was sent, and nothing but its prompt was sent of a turn held back. */
    method Drive(arrivals: seq<Arrival>) returns (ghost states: seq<Account>)
      requires Valid() && Drained()
      modifies `turns, `pending, `log, `latest
      ensures Valid() && Drained() && Accepted(log) && Complete(Now()) && OnlyPrompts(Now())
      ensures Ran(states, arrivals) && states[0] == old(Now()) && states[|arrivals|] == Now()
    {
      states := [Now()];
      for k := 0 to |arrivals|
        invariant Valid() && Drained() && |states| == k + 1
        invariant states[0] == old(Now()) && states[k] == Now() && Ran(states, arrivals[..k])
      {
        Take(arrivals[k]);
        RanOn(states, arrivals, k, Now());
        states := states + [Now()];
      }
      assert arrivals[..|arrivals|] == arrivals;
      AgreesIsComplete(Now());
    }
  }
}
