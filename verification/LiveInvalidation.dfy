/** Coalescing live changes: one flush per burst, closed by a quiet window and bounded by a
    longest wait. The reference machine decides when a burst is due from the times of its
    pushes; the class, with its buffer, timer and first time, keeps to it. */
module LiveInvalidation {
  import opened Common

  const LIVE_WINDOW_MS: real := 300.0
  const LIVE_MAX_WAIT_MS: real := 2000.0

  function Min(a: real, b: real): real { if a <= b then a else b }

  function Max(a: real, b: real): real { if a <= b then b else a }

  /** A change with the time it was pushed. */
  datatype Stamped<C> = Stamped(change: C, at: real)

  /** A burst that left the buffer: flushed by the timer, or dropped by a clear. */
  datatype Batch<C> = Batch(changes: seq<Stamped<C>>, at: real, flushed: bool)

  datatype Moment<C> = Moment(now: real, waiting: seq<Stamped<C>>, out: seq<Batch<C>>)

  datatype Event<C> = Push(change: C) | Clear | Tick(ms: real) | Fire

  function Due<C>(burst: seq<Stamped<C>>): real
    requires burst != []
  {
    Min(burst[|burst| - 1].at + LIVE_WINDOW_MS, burst[0].at + LIVE_MAX_WAIT_MS)
  }

  /** Ideal timers: time stops at a deadline until the timer has fired, been moved or been
      cleared, and a timer fires at its deadline only. */
  predicate Enabled<C>(m: Moment<C>, e: Event<C>) {
    match e
    case Push(_) => true
    case Clear => true
    case Tick(ms) => ms >= 0.0 && (m.waiting != [] ==> m.now + ms <= Due(m.waiting))
    case Fire => m.waiting != [] && m.now == Due(m.waiting)
  }

  function Step<C>(m: Moment<C>, e: Event<C>): Moment<C> {
    match e
    case Push(c) => m.(waiting := m.waiting + [Stamped(c, m.now)])
    case Clear => m.(waiting := [], out := m.out + [Batch(m.waiting, m.now, false)])
    case Tick(ms) => m.(now := m.now + ms)
    case Fire => m.(waiting := [], out := m.out + [Batch(m.waiting, m.now, true)])
  }

  predicate Legal<C>(m: Moment<C>, events: seq<Event<C>>)
    decreases |events|
  {
    events == [] || (Enabled(m, events[0]) && Legal(Step(m, events[0]), events[1..]))
  }

  function Run<C>(m: Moment<C>, events: seq<Event<C>>): Moment<C>
    decreases |events|
  {
    if events == [] then m else Run(Step(m, events[0]), events[1..])
  }

  // ---- Every run ------------------------------------------------------------------------------

  /** Pushes in time order, none after the burst fell due. */
  ghost predicate Burst<C>(burst: seq<Stamped<C>>) {
    forall i {:trigger Follows(burst, i)} :: 0 < i < |burst| ==> Follows(burst, i)
  }

  predicate Follows<C>(burst: seq<Stamped<C>>, i: nat)
    requires 0 < i < |burst|
  {
    burst[i - 1].at <= burst[i].at <= Due(burst[..i])
  }

  lemma BurstPrefix<C>(burst: seq<Stamped<C>>, n: nat)
    requires Burst(burst) && n <= |burst|
    ensures Burst(burst[..n])
  {
    var before := burst[..n];
    forall i | 0 < i < n ensures Follows(before, i) {
      assert Follows(burst, i) && before[..i] == burst[..i];
    }
  }

  /** A flush holds a whole burst, at the moment it falls due. */
  ghost predicate GoodBatch<C>(b: Batch<C>) {
    Burst(b.changes) && (b.flushed ==> b.changes != [] && b.at == Due(b.changes))
  }

  ghost predicate Inv<C>(m: Moment<C>) {
    && Burst(m.waiting)
    && (m.waiting != [] ==> m.waiting[|m.waiting| - 1].at <= m.now <= Due(m.waiting))
    && (forall b :: b in m.out ==> GoodBatch(b))
  }

  lemma StepKeeps<C>(m: Moment<C>, e: Event<C>)
    requires Inv(m) && Enabled(m, e)
    ensures Inv(Step(m, e))
  {
    if e.Push? {
      var after := m.waiting + [Stamped(e.change, m.now)];
      forall i | 0 < i < |after| ensures Follows(after, i) {
        assert after[..i] == m.waiting[..i];
        if i < |m.waiting| { assert Follows(m.waiting, i); } else { assert m.waiting[..i] == m.waiting; }
      }
      FirstIsEarliest(after, 0);
    }
  }

  lemma {:induction false} FirstIsEarliest<C>(burst: seq<Stamped<C>>, i: nat)
    requires Burst(burst) && i < |burst|
    ensures burst[0].at <= burst[i].at <= burst[|burst| - 1].at <= burst[0].at + LIVE_MAX_WAIT_MS
    ensures i > 0 ==> burst[i].at <= burst[i - 1].at + LIVE_WINDOW_MS
  {
    if |burst| > 1 {
      var n := |burst| - 1;
      BurstPrefix(burst, n);
      FirstIsEarliest(burst[..n], if i < n then i else n - 1);
      assert Follows(burst, n);
    }
  }

  lemma {:induction false} RunsKeepInv<C>(m: Moment<C>, events: seq<Event<C>>)
    requires Inv(m) && Legal(m, events)
    ensures Inv(Run(m, events))
    decreases |events|
  {
    if events != [] {
      StepKeeps(m, events[0]);
      RunsKeepInv(Step(m, events[0]), events[1..]);
    }
  }

  /** A flush is no later than 2000 ms after the first change of its burst and 300 ms after the
      last push, and one of the two bounds is met exactly. */
  lemma FlushIsInTime<C>(m: Moment<C>, b: Batch<C>, i: nat)
    requires Inv(m) && b in m.out && b.flushed && i < |b.changes|
    ensures b.changes[0].at <= b.changes[i].at <= b.changes[|b.changes| - 1].at <= b.at
    ensures b.at <= b.changes[0].at + 2000.0
    ensures b.at <= b.changes[|b.changes| - 1].at + 300.0
    ensures b.at == b.changes[0].at + 2000.0 || b.at == b.changes[|b.changes| - 1].at + 300.0
    ensures i > 0 ==> b.changes[i].at <= b.changes[i - 1].at + 300.0
  {
    FirstIsEarliest(b.changes, i);
  }

  /** No change is still waiting 2000 ms after it was pushed, nor any 300 ms after the last push. */
  lemma NothingWaitsLong<C>(m: Moment<C>, i: nat)
    requires Inv(m) && i < |m.waiting|
    ensures m.waiting[i].at <= m.now <= m.waiting[i].at + 2000.0
    ensures m.now <= m.waiting[|m.waiting| - 1].at + 300.0
  {
    FirstIsEarliest(m.waiting, i);
  }

  // ---- Each change leaves once -----------------------------------------------------------------

  /** The changes of batches, one after the other. */
  function Joined<C>(out: seq<Batch<C>>): seq<Stamped<C>> {
    if out == [] then [] else Joined(out[..|out| - 1]) + out[|out| - 1].changes
  }

  /** Every change accounted for, in the order pushed. */
  function Ledger<C>(m: Moment<C>): seq<Stamped<C>> {
    Joined(m.out) + m.waiting
  }

  /** What a run pushes, with the time of each push. */
  function Pushes<C>(m: Moment<C>, events: seq<Event<C>>): seq<Stamped<C>>
    decreases |events|
  {
    if events == [] then []
    else
      (if events[0].Push? then [Stamped(events[0].change, m.now)] else [])
      + Pushes(Step(m, events[0]), events[1..])
  }

  /** Over every run, the batches and the buffer hold exactly the pushed changes, each once, in
      the order pushed: a change is in one flush, or dropped by one clear, or waiting. */
  lemma {:induction false} EveryChangeLeavesOnce<C>(m: Moment<C>, events: seq<Event<C>>)
    ensures Ledger(Run(m, events)) == Ledger(m) + Pushes(m, events)
    decreases |events|
  {
    if events != [] {
      var next := Step(m, events[0]);
      assert events[0].Clear? || events[0].Fire? ==> next.out[..|next.out| - 1] == m.out;
      EveryChangeLeavesOnce(next, events[1..]);
    }
  }

  /** From an empty buffer, on every run: the i-th change pushed is the i-th to leave, and once
      2000 ms have passed since its push it has left. */
  lemma EveryChangeLeavesInTime<C>(start: real, events: seq<Event<C>>, i: nat)
    requires Legal(Moment(start, [], []), events) && i < |Pushes(Moment(start, [], []), events)|
    ensures var pushed := Pushes(Moment(start, [], []), events);
            var end := Run(Moment(start, [], []), events);
            && (i < |Joined(end.out)| ==> Joined(end.out)[i] == pushed[i])
            && (i >= |Joined(end.out)| ==> i - |Joined(end.out)| < |end.waiting| && end.waiting[i - |Joined(end.out)|] == pushed[i])
            && (end.now > pushed[i].at + 2000.0 ==> i < |Joined(end.out)|)
  {
    var idle: Moment<C> := Moment(start, [], []);
    var end := Run(idle, events);
    RunsKeepInv(idle, events);
    EveryChangeLeavesOnce(idle, events);
    assert Ledger(end) == Pushes(idle, events);
    var n := |Joined(end.out)|;
    if i >= n {
      assert Ledger(end)[i] == end.waiting[i - n];
      NothingWaitsLong(end, i - n);
    }
  }

  // ---- The buffer, the timer and the first time ----------------------------------------------------

  function Plain<C>(burst: seq<Stamped<C>>): (r: seq<C>)
    ensures |r| == |burst|
  {
    seq(|burst|, i requires 0 <= i < |burst| => burst[i].change)
  }

  lemma PlainMore<C>(burst: seq<Stamped<C>>, s: Stamped<C>)
    ensures Plain(burst + [s]) == Plain(burst) + [s.change]
  {
  }

  /** The delay the timer is set to on a push ends at the deadline of the reference machine; it
      is never negative, because nothing is pushed to a burst past its longest wait. */
  lemma PushDeadline<C>(m: Moment<C>, change: C)
    requires Inv(m)
    ensures var burst := Step(m, Event.Push(change)).waiting;
            var first := if m.waiting == [] then m.now else m.waiting[0].at;
            && burst != [] && burst[0].at == first
            && Due(burst) == Deadline(first, m.now)
  {
    var burst := m.waiting + [Stamped(change, m.now)];
    assert burst[|burst| - 1].at == m.now;
  }

  /** Buffer, timer and first time are set together or empty together, as the burst says. */
  ghost predicate Reflects<C>(changes: seq<C>, timer: Option<real>, firstAt: Option<real>, burst: seq<Stamped<C>>) {
    && changes == Plain(burst)
    && firstAt == (if burst == [] then None else Some(burst[0].at))
    && timer == (if burst == [] then None else Some(Due(burst)))
  }

  /** When the timer set on a push fires. */
  function Deadline(first: real, now: real): real {
    now + Max(0.0, Min(LIVE_WINDOW_MS, first + LIVE_MAX_WAIT_MS - now))
  }

  lemma PushReflects<C>(changes: seq<C>, timer: Option<real>, firstAt: Option<real>, m: Moment<C>, change: C)
    requires Inv(m) && Reflects(changes, timer, firstAt, m.waiting)
    ensures var first := if firstAt.None? then m.now else firstAt.value;
            Reflects(changes + [change], Some(Deadline(first, m.now)), Some(first), Step(m, Event.Push(change)).waiting)
  {
    PlainMore(m.waiting, Stamped(change, m.now));
    PushDeadline(m, change);
  }

  class Coalescer<C> {
    var changes: seq<C>
    var timer: Option<real>
    var firstAt: Option<real>
    var now: real
    ghost var moment: Moment<C>

    /** Buffer, timer and first time are set together or empty together, and say what the
        reference machine says. */
    ghost predicate Valid() reads this {
      Inv(moment) && now == moment.now && Reflects(changes, timer, firstAt, moment.waiting)
    }

    constructor (time: real)
      ensures Valid() && moment == Moment(time, [], [])
    {
      changes, timer, firstAt, now := [], None, None, time;
      moment := Moment(time, [], []);
    }

    method Push(change: C)
      requires Valid()
      modifies this
      ensures Valid() && moment == Step(old(moment), Event.Push(change))
      ensures changes == old(changes) + [change] && now == old(now)
      ensures firstAt == if old(changes) == [] then Some(now) else old(firstAt)
      ensures timer == Some(Min(now + 300.0, firstAt.value + 2000.0))
    {
      StepKeeps(moment, Event.Push(change));
      PushReflects(changes, timer, firstAt, moment, change);
      moment := Step(moment, Event.Push(change));
      changes := changes + [change];
      if firstAt.None? { firstAt := Some(now); }
      timer := Some(Deadline(firstAt.value, now));
    }

    /** The timer's callback, at its deadline. */
    method Flush() returns (batch: seq<C>)
      requires Valid() && timer == Some(now)
      modifies this
      ensures Valid() && moment == Step(old(moment), Fire) && Enabled(old(moment), Fire)
      ensures batch == Plain(old(moment).waiting) == old(changes) && batch != []
      ensures changes == [] && timer.None? && firstAt.None? && now == old(now)
    {
      StepKeeps(moment, Fire);
      moment := Step(moment, Fire);
      batch := changes;
      changes, timer, firstAt := [], None, None;
    }

    method Clear()
      requires Valid()
      modifies this
      ensures Valid() && moment == Step(old(moment), Event.Clear)
      ensures changes == [] && timer.None? && firstAt.None? && now == old(now)
    {
      StepKeeps(moment, Event.Clear);
      moment := Step(moment, Event.Clear);
      changes, timer, firstAt := [], None, None;
    }

    /** Time passes, up to the deadline if there is one. */
    method Tick(ms: real)
      requires Valid() && ms >= 0.0 && (timer.Some? ==> now + ms <= timer.value)
      modifies this
      ensures Valid() && moment == Step(old(moment), Event.Tick(ms))
      ensures changes == old(changes) && timer == old(timer) && firstAt == old(firstAt) && now == old(now) + ms
    {
      StepKeeps(moment, Event.Tick(ms));
      moment := Step(moment, Event.Tick(ms));
      now := now + ms;
    }

    /** Every legal run of the reference machine is a run of the object. */
    method Drive(script: seq<Event<C>>)
      requires Valid() && Legal(moment, script)
      modifies this
      ensures Valid() && moment == Run(old(moment), script)
      ensures (changes == []) == timer.None? && (changes == []) == firstAt.None?
      decreases |script|
    {
      if script != [] {
        match script[0] {
          case Push(c) => Push(c);
          case Clear => Clear();
          case Tick(ms) => Tick(ms);
          case Fire => var _ := Flush();
        }
        Drive(script[1..]);
      }
    }
  }
}
