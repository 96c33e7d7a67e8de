/**
  Runs of the timer queue: timers are made, deleted and checked in any order, under a clock that
  never runs backwards. A run is seen as its operations and the events that its checks return; in
  the specification every queued timer has an absolute deadline.
*/
module TimerRuns {
  import opened Options
  import opened Timers

  /** Op.Arm is newTimer and newOneShotTimer; a check reads the clock at t1 and again at t2. */
  datatype Op =
    | Arm(id: nat, duration: real, target: nat, oneShot: bool, clock: real)
    | Delete(id: nat)
    | Check(t1: real, t2: real)

  type Log = seq<Option<TimerEvent>>

  // ---------------------------------------------------------------------------
  // What callers promise
  // ---------------------------------------------------------------------------

  /** The clock and the live timers after one operation. */
  function NowAfter(now: real, op: Op): real {
    match op
    case Arm(_, _, _, _, clock) => clock
    case Delete(_) => now
    case Check(_, t2) => t2
  }

  function LiveAfter(live: set<nat>, op: Op): set<nat> {
    match op
    case Arm(id, _, _, _, _) => live + {id}
    case Delete(id) => live - {id}
    case Check(_, _) => live
  }

  /** The last reading of the clock. */
  function Now(clock: real, ops: seq<Op>): real {
    if ops == [] then clock else NowAfter(Now(clock, ops[..|ops| - 1]), ops[|ops| - 1])
  }

  /** The timers that were made and not deleted. */
  function Live(ops: seq<Op>): set<nat> {
    if ops == [] then {} else LiveAfter(Live(ops[..|ops| - 1]), ops[|ops| - 1])
  }

  /** Durations are positive, a new timer is none of the live ones, and the clock is monotone. */
  predicate Permits(now: real, live: set<nat>, op: Op) {
    match op
    case Arm(id, duration, _, _, clock) => id !in live && duration > 0.0 && now <= clock
    case Delete(_) => true
    case Check(t1, t2) => now <= t1 <= t2
  }

  predicate IsPermitted(clock: real, ops: seq<Op>) {
    forall i :: 0 <= i < |ops| ==> Permits(Now(clock, ops[..i]), Live(ops[..i]), ops[i])
  }

  // ---------------------------------------------------------------------------
  // The specification
  // ---------------------------------------------------------------------------

  /** The queued timers, each with its deadline for its time. */
  type State = map<nat, Timer>

  /** A check returns an event exactly if a deadline has passed, and for a timer with the earliest one. */
  predicate MayReturn(s: State, op: Op, event: Option<TimerEvent>) {
    match op
    case Check(t1, _) =>
      (match event
       case None => forall id :: id in s ==> t1 < s[id].time
       case Some(e) =>
         && e.timer in s && s[e.timer].time <= t1 && s[e.timer].timeout > 0.0
         && (forall id :: id in s ==> s[e.timer].time <= s[id].time)
         && e.target == s[e.timer].target && e.count == Count(s[e.timer].timeout, s[e.timer].time - t1))
    case _ => event == None
  }

  function Later(s: State, dt: real): State {
    map id | id in s :: Moved(s[id], -dt)
  }

  function After(s: State, op: Op, event: Option<TimerEvent>): State {
    match op
    case Arm(id, duration, target, oneShot, clock) => s[id := Timer(id, duration, clock + duration, target, oneShot)]
    case Delete(id) => s - {id}
    case Check(t1, t2) =>
      var checked := Later(s, t2 - t1);
      match event
      case None => checked
      case Some(e) =>
        if e.timer !in s || s[e.timer].oneShot then checked - {e.timer}
        else checked[e.timer := s[e.timer].(time := t2 + s[e.timer].timeout)]
  }

  function StateAfter(ops: seq<Op>, log: Log): State
    requires |log| == |ops|
  {
    if ops == [] then map[]
    else
      var n := |ops| - 1;
      After(StateAfter(ops[..n], log[..n]), ops[n], log[n])
  }

  /** The checks of the run return these events. */
  predicate IsRun(ops: seq<Op>, log: Log) {
    && |log| == |ops|
    && forall i :: 0 <= i < |ops| ==> MayReturn(StateAfter(ops[..i], log[..i]), ops[i], log[i])
  }

  // ---------------------------------------------------------------------------
  // What operations and events say of a timer
  // ---------------------------------------------------------------------------

  /** How the timer was made, if it has not been deleted since. */
  function MadeBy(ops: seq<Op>, id: nat): (made: Option<Op>)
    ensures made.Some? ==> made.value.Arm? && made.value.id == id
  {
    if ops == [] then None
    else
      var last := ops[|ops| - 1];
      if !last.Check? && last.id == id then (if last.Arm? then Some(last) else None)
      else MadeBy(ops[..|ops| - 1], id)
  }

  predicate IsOf(event: Option<TimerEvent>, id: nat) {
    event.Some? && event.value.timer == id
  }

  /** The sum of the counts that its events reported since it was made. */
  function Reported(ops: seq<Op>, log: Log, id: nat): nat
    requires |log| == |ops|
  {
    if ops == [] then 0
    else
      var n := |ops| - 1;
      if !ops[n].Check? && ops[n].id == id then 0
      else Reported(ops[..n], log[..n], id) + if IsOf(log[n], id) then log[n].value.count else 0
  }

  /** When it was last armed: when it was made, or at the end of the check that returned its last event. */
  function ArmedAt(ops: seq<Op>, log: Log, id: nat): real
    requires |log| == |ops|
  {
    if ops == [] then 0.0
    else
      var n := |ops| - 1;
      match ops[n]
      case Arm(armed, _, _, _, clock) => if armed == id then clock else ArmedAt(ops[..n], log[..n], id)
      case Delete(_) => ArmedAt(ops[..n], log[..n], id)
      case Check(_, t2) => if IsOf(log[n], id) then t2 else ArmedAt(ops[..n], log[..n], id)
  }

  // ---------------------------------------------------------------------------
  // Every run is on time
  // ---------------------------------------------------------------------------

  /** What is queued was made as it is and not deleted, is counted rightly, and is on time. */
  ghost predicate Accounts(ops: seq<Op>, log: Log, s: State, id: nat)
    requires |log| == |ops| && id in s
  {
    && MadeBy(ops, id).Some?
    && var made := MadeBy(ops, id).value;
    && made.Arm? && s[id] == Timer(id, made.duration, s[id].time, made.target, made.oneShot)
    && OnTime(s[id], 0.0, History(made.clock, ArmedAt(ops, log, id), Reported(ops, log, id)))
  }

  lemma AccountsAfterArm(ops: seq<Op>, log: Log, s: State, op: Op, id: nat)
    requires |log| == |ops| && op.Arm? && op.duration > 0.0
    requires id in s ==> Accounts(ops, log, s, id)
    requires id in After(s, op, None)
    ensures Accounts(ops + [op], log + [None], After(s, op, None), id)
  {
    var ops', log' := ops + [op], log + [None];
    assert ops'[..|ops|] == ops && log'[..|ops|] == log;
  }

  lemma AccountsAfterDelete(ops: seq<Op>, log: Log, s: State, op: Op, id: nat)
    requires |log| == |ops| && op.Delete?
    requires id in s ==> Accounts(ops, log, s, id)
    requires id in After(s, op, None)
    ensures Accounts(ops + [op], log + [None], After(s, op, None), id)
  {
    var ops', log' := ops + [op], log + [None];
    assert ops'[..|ops|] == ops && log'[..|ops|] == log;
  }

  lemma AccountsAfterCheck(ops: seq<Op>, log: Log, s: State, op: Op, event: Option<TimerEvent>, id: nat)
    requires |log| == |ops| && op.Check? && op.t1 <= op.t2 && MayReturn(s, op, event)
    requires id in s ==> Accounts(ops, log, s, id)
    requires id in After(s, op, event)
    ensures Accounts(ops + [op], log + [event], After(s, op, event), id)
  {
    hide OnTime, Count;
    var ops', log' := ops + [op], log + [event];
    assert ops'[..|ops|] == ops && log'[..|ops|] == log;
    var made := MadeBy(ops, id).value;
    var h := History(made.clock, ArmedAt(ops, log, id), Reported(ops, log, id));
    if IsOf(event, id) {
      FiringFromDeadline(s[id], h, op.t1, op.t2);
    } else {
      CountDownFromDeadline(s[id], h, op.t2 - op.t1);
    }
  }

  lemma CountDownFromDeadline(t: Timer, h: History, dt: real)
    requires OnTime(t, 0.0, h) && dt >= 0.0
    ensures OnTime(Moved(t, -dt), 0.0, h)
  {
  }

  lemma FiringFromDeadline(t: Timer, h: History, t1: real, t2: real)
    requires OnTime(t, 0.0, h) && t.time <= t1 <= t2
    ensures var n := Count(t.timeout, t.time - t1);
            && n >= 1
            && IsFiring(TimerEvent(t.id, t.target, n), Moved(t, t1), h, t1)
            && (!t.oneShot ==> OnTime(t.(time := t2 + t.timeout), 0.0, AfterFiring(h, n, t2)))
  {
    hide IsFiring, Count;
    FiringIsOnTime(Moved(t, t1), h, t1, t2);
  }

  lemma PrefixIsRun(clock: real, ops: seq<Op>, log: Log, n: nat)
    requires IsPermitted(clock, ops) && IsRun(ops, log) && n <= |ops|
    ensures IsPermitted(clock, ops[..n]) && IsRun(ops[..n], log[..n])
  {
    assert forall i :: 0 <= i < n ==> ops[..n][..i] == ops[..i] && log[..n][..i] == log[..i];
  }

  /** In every run, whatever is queued is accounted for. */
  lemma {:induction false} QueuedAreAccounted(clock: real, ops: seq<Op>, log: Log, id: nat)
    requires IsPermitted(clock, ops) && IsRun(ops, log) && id in StateAfter(ops, log)
    ensures Accounts(ops, log, StateAfter(ops, log), id)
    decreases |ops|
  {
    hide Accounts, MayReturn, After;
    var n := |ops| - 1;
    var s, op, event := StateAfter(ops[..n], log[..n]), ops[n], log[n];
    PrefixIsRun(clock, ops, log, n);
    if id in s {
      QueuedAreAccounted(clock, ops[..n], log[..n], id);
    }
    assert ops == ops[..n] + [op] && log == log[..n] + [event];
    assert Permits(Now(clock, ops[..n]), Live(ops[..n]), op) && MayReturn(s, op, event);
    match op
    case Arm(_, _, _, _, _) =>
      ReturnsNothing(s, op, event);
      AccountsAfterArm(ops[..n], log[..n], s, op, id);
    case Delete(_) =>
      ReturnsNothing(s, op, event);
      AccountsAfterDelete(ops[..n], log[..n], s, op, id);
    case Check(_, _) =>
      AccountsAfterCheck(ops[..n], log[..n], s, op, event, id);
  }

  lemma ReturnsNothing(s: State, op: Op, event: Option<TimerEvent>)
    requires MayReturn(s, op, event) && !op.Check?
    ensures event == None
  {
  }

  /**
    Every event of every run: it is for a timer that was made and not deleted since, and comes no
    earlier than the duration after it was last armed; it counts at least one period, and all periods
    counted since it was made fit into the time since then; a one-shot timer has had no other event.
  */
  lemma EventsAreOnTime(clock: real, ops: seq<Op>, log: Log, i: nat)
    requires IsPermitted(clock, ops) && IsRun(ops, log) && i < |ops| && log[i].Some?
    ensures ops[i].Check? && MadeBy(ops[..i], log[i].value.timer).Some?
    ensures var e, t1, made := log[i].value, ops[i].t1, MadeBy(ops[..i], log[i].value.timer).value;
            var reported := Reported(ops[..i], log[..i], e.timer);
            && made.Arm? && made.id == e.timer && e.target == made.target && e.count >= 1
            && ArmedAt(ops[..i], log[..i], e.timer) + made.duration <= t1
            && made.clock + (reported + e.count) as real * made.duration <= t1
            && (made.oneShot ==> reported == 0)
  {
    hide MadeBy, Reported, ArmedAt, StateAfter, Accounts;
    var s, e := StateAfter(ops[..i], log[..i]), log[i].value;
    PrefixIsRun(clock, ops, log, i);
    assert MayReturn(s, ops[i], log[i]);
    QueuedAreAccounted(clock, ops[..i], log[..i], e.timer);
    AccountedIsOnTime(ops[..i], log[..i], s, ops[i], e);
  }

  lemma AccountedIsOnTime(ops: seq<Op>, log: Log, s: State, op: Op, e: TimerEvent)
    requires |log| == |ops| && MayReturn(s, op, Some(e)) && e.timer in s && Accounts(ops, log, s, e.timer)
    ensures op.Check? && MadeBy(ops, e.timer).Some?
    ensures var made, reported := MadeBy(ops, e.timer).value, Reported(ops, log, e.timer);
            && e.target == made.target && e.count >= 1
            && ArmedAt(ops, log, e.timer) + made.duration <= op.t1
            && made.clock + (reported + e.count) as real * made.duration <= op.t1
            && (made.oneShot ==> reported == 0)
  {
    hide OnTime, Count, MadeBy, Reported, ArmedAt;
    var made := MadeBy(ops, e.timer).value;
    var h := History(made.clock, ArmedAt(ops, log, e.timer), Reported(ops, log, e.timer));
    EventFromDeadline(s[e.timer], h, op.t1, e);
  }

  lemma EventFromDeadline(t: Timer, h: History, t1: real, e: TimerEvent)
    requires OnTime(t, 0.0, h) && t.time <= t1 && t.timeout > 0.0 && e.count == Count(t.timeout, t.time - t1)
    ensures e.count >= 1 && h.armed + t.timeout <= t1
    ensures h.created + (h.counted + e.count) as real * t.timeout <= t1
    ensures t.oneShot ==> h.counted == 0
  {
    hide OnTime, Count;
    FiringFromDeadline(t, h, t1, t1);
    OneShotIsFirst(t, h);
  }

  lemma OneShotIsFirst(t: Timer, h: History)
    requires OnTime(t, 0.0, h)
    ensures t.oneShot ==> h.counted == 0
  {
  }

  lemma {:induction false} ClockIsMonotone(clock: real, ops: seq<Op>, i: nat)
    requires IsPermitted(clock, ops) && i <= |ops|
    ensures Now(clock, ops[..i]) <= Now(clock, ops)
    decreases |ops|
  {
    var n := |ops| - 1;
    if i == |ops| {
      assert ops[..i] == ops;
    } else {
      assert IsPermitted(clock, ops[..n]) by {
        assert forall k :: 0 <= k < n ==> ops[..n][..k] == ops[..k];
      }
      ClockIsMonotone(clock, ops[..n], i);
      assert ops[..n][..i] == ops[..i];
      assert Permits(Now(clock, ops[..n]), Live(ops[..n]), ops[n]);
    }
  }

  /**
    At the end of every run, the sum of what a timer's events have counted since it was made, times
    its period, is at most the time since then. This holds of fired one-shot timers too.
  */
  lemma {:induction false} ReportedFits(clock: real, ops: seq<Op>, log: Log, id: nat)
    requires IsPermitted(clock, ops) && IsRun(ops, log) && MadeBy(ops, id).Some?
    ensures var made := MadeBy(ops, id).value;
            made.Arm? && made.clock + Reported(ops, log, id) as real * made.duration <= Now(clock, ops)
    decreases |ops|
  {
    hide MayReturn, StateAfter, Reported, MadeBy, ArmedAt, Live, IsPermitted, IsRun, Permits;
    NothingMade(id);
    RunIsLogged(ops, log);
    var n := |ops| - 1;
    PrefixIsRun(clock, ops, log, n);
    LastIsPermitted(clock, ops);
    PermittedClock(Now(clock, ops[..n]), Live(ops[..n]), ops[n]);
    if ops[n].Check? || ops[n].id != id {
      if IsOf(log[n], id) {
        EventsAreOnTime(clock, ops, log, n);
        ReportedMore(ops, log, id);
      } else {
        ReportedStays(ops, log, id);
        ReportedFits(clock, ops[..n], log[..n], id);
        ClockIsMonotone(clock, ops, n);
      }
    } else {
      NothingReported(ops, log, id);
      assert Reported(ops, log, id) as real * ops[n].duration == 0.0;
    }
  }

  lemma NothingMade(id: nat)
    ensures MadeBy([], id) == None
  {
  }

  lemma ReportedMore(ops: seq<Op>, log: Log, id: nat)
    requires |log| == |ops| > 0
    requires var n := |ops| - 1; ops[n].Check? && IsOf(log[n], id)
    ensures var n := |ops| - 1; Reported(ops, log, id) == Reported(ops[..n], log[..n], id) + log[n].value.count
    ensures var n := |ops| - 1; MadeBy(ops, id) == MadeBy(ops[..n], id)
  {
  }

  lemma RunIsLogged(ops: seq<Op>, log: Log)
    requires IsRun(ops, log)
    ensures |log| == |ops|
  {
  }

  lemma PermittedClock(now: real, live: set<nat>, op: Op)
    requires Permits(now, live, op)
    ensures now <= NowAfter(now, op) && (op.Check? ==> op.t1 <= NowAfter(now, op))
  {
  }

  lemma LastIsPermitted(clock: real, ops: seq<Op>)
    requires IsPermitted(clock, ops) && ops != []
    ensures Permits(Now(clock, ops[..|ops| - 1]), Live(ops[..|ops| - 1]), ops[|ops| - 1])
  {
  }

  lemma ReportedStays(ops: seq<Op>, log: Log, id: nat)
    requires |log| == |ops| > 0
    requires var n := |ops| - 1; (ops[n].Check? || ops[n].id != id) && !IsOf(log[n], id)
    ensures var n := |ops| - 1; Reported(ops, log, id) == Reported(ops[..n], log[..n], id)
    ensures var n := |ops| - 1; MadeBy(ops, id) == MadeBy(ops[..n], id)
  {
  }

  lemma NothingReported(ops: seq<Op>, log: Log, id: nat)
    requires |log| == |ops| > 0
    requires var n := |ops| - 1; !ops[n].Check? && ops[n].id == id
    ensures Reported(ops, log, id) == 0
    ensures var n := |ops| - 1; MadeBy(ops, id).Some? ==> MadeBy(ops, id) == Some(ops[n])
  {
  }

  /** A timer is live if and only if it was made and not deleted since. */
  lemma {:induction false} LiveIsMade(ops: seq<Op>, id: nat)
    ensures id in Live(ops) <==> MadeBy(ops, id).Some?
    decreases |ops|
  {
    if ops != [] {
      LiveIsMade(ops[..|ops| - 1], id);
    }
  }

  lemma {:induction false} NotMadeAgain(ops: seq<Op>, d: nat, i: nat, id: nat)
    requires d < i <= |ops| && ops[d] == Delete(id)
    requires forall k :: d < k < i ==> !(ops[k].Arm? && ops[k].id == id)
    ensures MadeBy(ops[..i], id) == None
    decreases i
  {
    assert ops[..i][..i - 1] == ops[..i - 1] && ops[..i][i - 1] == ops[i - 1];
    if d < i - 1 {
      NotMadeAgain(ops, d, i - 1, id);
    }
  }

  /** After it is deleted, a timer has no event in the whole run, unless it is made again. */
  lemma DeletedNeverFires(clock: real, ops: seq<Op>, log: Log, d: nat, i: nat, id: nat)
    requires IsPermitted(clock, ops) && IsRun(ops, log) && d < i < |ops| && ops[d] == Delete(id)
    requires forall k :: d < k < i ==> !(ops[k].Arm? && ops[k].id == id)
    ensures !IsOf(log[i], id)
  {
    NotMadeAgain(ops, d, i, id);
    if log[i].Some? {
      EventsAreOnTime(clock, ops, log, i);
    }
  }

  /** No operation on a queued timer or on others brings its deadline forward. */
  lemma StepKeepsDeadline(s: State, op: Op, event: Option<TimerEvent>, id: nat)
    requires (op.Check? ==> op.t1 <= op.t2) && MayReturn(s, op, event)
    requires id in s && id in After(s, op, event) && !(op.Arm? && op.id == id)
    ensures s[id].time <= After(s, op, event)[id].time
  {
  }

  /** In every run, while a timer is not made anew, its deadline only moves back. */
  lemma {:induction false} DeadlinesMoveBack(clock: real, ops: seq<Op>, log: Log, i: nat, id: nat)
    requires IsPermitted(clock, ops) && IsRun(ops, log) && i <= |ops|
    requires forall k :: i <= k < |ops| ==> !(ops[k].Arm? && ops[k].id == id)
    requires id in StateAfter(ops, log)
    ensures id in StateAfter(ops[..i], log[..i])
    ensures StateAfter(ops[..i], log[..i])[id].time <= StateAfter(ops, log)[id].time
    decreases |ops|
  {
    hide MayReturn, After;
    if i == |ops| {
      assert ops[..i] == ops && log[..i] == log;
    } else {
      var n := |ops| - 1;
      var s := StateAfter(ops[..n], log[..n]);
      PrefixIsRun(clock, ops, log, n);
      assert Permits(Now(clock, ops[..n]), Live(ops[..n]), ops[n]) && MayReturn(s, ops[n], log[n]);
      QueuedBefore(s, ops[n], log[n], id);
      StepKeepsDeadline(s, ops[n], log[n], id);
      DeadlinesMoveBack(clock, ops[..n], log[..n], i, id);
      assert ops[..n][..i] == ops[..i] && log[..n][..i] == log[..i];
    }
  }

  lemma QueuedBefore(s: State, op: Op, event: Option<TimerEvent>, id: nat)
    requires id in After(s, op, event) && !(op.Arm? && op.id == id)
    ensures id in s
  {
  }

  // ---------------------------------------------------------------------------
  // Which timer fires, and when, exactly
  // ---------------------------------------------------------------------------

  /** It has had an event since it was made. */
  predicate HasFired(ops: seq<Op>, log: Log, id: nat)
    requires |log| == |ops|
  {
    ops != []
    && var n := |ops| - 1;
       (ops[n].Check? || ops[n].id != id) && (IsOf(log[n], id) || HasFired(ops[..n], log[..n], id))
  }

  /** The time that passed, since it was last armed, between the two readings of the clock of each check. */
  function Drift(ops: seq<Op>, log: Log, id: nat): real
    requires |log| == |ops|
  {
    if ops == [] then 0.0
    else
      var n := |ops| - 1;
      match ops[n]
      case Arm(armed, _, _, _, _) => if armed == id then 0.0 else Drift(ops[..n], log[..n], id)
      case Delete(_) => Drift(ops[..n], log[..n], id)
      case Check(t1, t2) => if IsOf(log[n], id) then 0.0 else Drift(ops[..n], log[..n], id) + (t2 - t1)
  }

  /** It was made and not deleted since, and if it is a one-shot timer it has not fired. */
  predicate Waits(ops: seq<Op>, log: Log, id: nat)
    requires |log| == |ops|
  {
    var made := MadeBy(ops, id);
    made.Some? && made.value.Arm? && !(made.value.oneShot && HasFired(ops, log, id))
  }

  /** When a waiting timer is due: its duration after it was last armed, and the drift. */
  function Due(ops: seq<Op>, log: Log, id: nat): real
    requires |log| == |ops| && Waits(ops, log, id)
  {
    ArmedAt(ops, log, id) + MadeBy(ops, id).value.duration + Drift(ops, log, id)
  }

  /** What the history says of a timer is what is queued. */
  ghost predicate IsAsQueued(ops: seq<Op>, log: Log, s: State, id: nat)
    requires |log| == |ops|
  {
    && (id in s <==> Waits(ops, log, id))
    && (id in s ==>
          var made := MadeBy(ops, id).value;
          s[id] == Timer(id, made.duration, Due(ops, log, id), made.target, made.oneShot))
  }

  lemma AsQueuedNext(ops: seq<Op>, log: Log, s: State, op: Op, event: Option<TimerEvent>, id: nat)
    requires |log| == |ops| && IsAsQueued(ops, log, s, id)
    requires MayReturn(s, op, event)
    ensures IsAsQueued(ops + [op], log + [event], After(s, op, event), id)
  {
    hide Count;
    var ops', log' := ops + [op], log + [event];
    assert ops'[..|ops|] == ops && log'[..|ops|] == log;
  }

  lemma NothingAsQueued(id: nat)
    ensures IsAsQueued([], [], map[], id)
  {
  }

  lemma RunUpTo(ops: seq<Op>, log: Log, n: nat)
    requires IsRun(ops, log) && n < |ops|
    ensures IsRun(ops[..n], log[..n]) && MayReturn(StateAfter(ops[..n], log[..n]), ops[n], log[n])
  {
    hide MayReturn, StateAfter;
    assert forall i :: 0 <= i < n ==> ops[..n][..i] == ops[..i] && log[..n][..i] == log[..i];
  }

  lemma {:induction false} QueuedExactly(ops: seq<Op>, log: Log, id: nat)
    requires IsRun(ops, log)
    ensures IsAsQueued(ops, log, StateAfter(ops, log), id)
    decreases |ops|
  {
    hide IsAsQueued, MayReturn, After, IsRun;
    RunIsLogged(ops, log);
    if ops == [] {
      NothingAsQueued(id);
    } else {
      var n := |ops| - 1;
      RunUpTo(ops, log, n);
      QueuedExactly(ops[..n], log[..n], id);
      AsQueuedNext(ops[..n], log[..n], StateAfter(ops[..n], log[..n]), ops[n], log[n], id);
      assert ops == ops[..n] + [ops[n]] && log == log[..n] + [log[n]];
    }
  }

  /**
    Every check of every run: it returns no event exactly if no waiting timer is due; and otherwise
    one for a timer that is due, none of the others being due earlier, with the number of periods
    that have ended since it was last due, the first one included.
  */
  lemma FiresExactly(ops: seq<Op>, log: Log, i: nat)
    requires IsRun(ops, log) && i < |ops| && ops[i].Check?
    ensures var before, was, t1 := ops[..i], log[..i], ops[i].t1;
            && (log[i] == None <==> forall id | Waits(before, was, id) :: t1 < Due(before, was, id))
            && (log[i].Some? ==>
                  var e := log[i].value;
                  && Waits(before, was, e.timer)
                  && var due, made := Due(before, was, e.timer), MadeBy(before, e.timer).value;
                  && due <= t1 && (forall id | Waits(before, was, id) :: due <= Due(before, was, id))
                  && e.target == made.target
                  && (e.count as real - 1.0) * made.duration <= t1 - due < e.count as real * made.duration)
  {
    hide StateAfter, MayReturn;
    var s := StateAfter(ops[..i], log[..i]);
    RunUpTo(ops, log, i);
    forall id: nat
      ensures IsAsQueued(ops[..i], log[..i], s, id)
    {
      QueuedExactly(ops[..i], log[..i], id);
    }
    if log[i] == None {
      NoneIsDue(ops[..i], log[..i], s, ops[i]);
    } else {
      EarliestIsDue(ops[..i], log[..i], s, ops[i], log[i].value);
    }
  }

  lemma NoneIsDue(ops: seq<Op>, log: Log, s: State, op: Op)
    requires |log| == |ops| && op.Check? && MayReturn(s, op, None)
    requires forall id: nat :: IsAsQueued(ops, log, s, id)
    ensures forall id | Waits(ops, log, id) :: op.t1 < Due(ops, log, id)
  {
    hide Waits, Due;
    forall id | Waits(ops, log, id)
      ensures op.t1 < Due(ops, log, id)
    {
      assert IsAsQueued(ops, log, s, id);
    }
  }

  lemma EarliestIsDue(ops: seq<Op>, log: Log, s: State, op: Op, e: TimerEvent)
    requires |log| == |ops| && op.Check? && MayReturn(s, op, Some(e))
    requires forall id: nat :: IsAsQueued(ops, log, s, id)
    ensures Waits(ops, log, e.timer)
    ensures var due, made := Due(ops, log, e.timer), MadeBy(ops, e.timer).value;
            && due <= op.t1 && (forall id | Waits(ops, log, id) :: due <= Due(ops, log, id))
            && e.target == made.target
            && (e.count as real - 1.0) * made.duration <= op.t1 - due < e.count as real * made.duration
  {
    hide Waits, Due, Count, MadeBy;
    var t := s[e.timer];
    assert IsAsQueued(ops, log, s, e.timer);
    CountMeasuresLateness(t.timeout, op.t1 - t.time);
    assert -(op.t1 - t.time) == t.time - op.t1;
    forall id | Waits(ops, log, id)
      ensures t.time <= Due(ops, log, id)
    {
      assert IsAsQueued(ops, log, s, id);
    }
  }

  // ---------------------------------------------------------------------------
  // The original's object
  // ---------------------------------------------------------------------------

  /** The timers are those of the specification, with the time left until their deadlines. */
  ghost predicate Holds(c: seq<Timer>, mark: real, s: State) {
    && (forall t :: t in c ==> t.id in s && s[t.id] == Moved(t, -mark))
    && (forall id :: id in s ==> s[id].id == id && Moved(s[id], mark) in c)
  }

  ghost predicate Represents(q: TimerQueue, s: State)
    reads q, q.queue
  {
    q.Valid() && Holds(q.queue.c, q.mark, s)
  }

  lemma HoldsOneMore(c: seq<Timer>, c': seq<Timer>, mark: real, s: State, t: Timer)
    requires Holds(c, mark, s) && t.id !in s && forall u :: u in c' <==> u in c || u == t
    ensures Holds(c', mark, s[t.id := Moved(t, -mark)])
  {
    assert Moved(Moved(t, -mark), mark) == t;
  }

  lemma HoldsOneLess(c: seq<Timer>, c': seq<Timer>, mark: real, s: State, id: nat)
    requires Holds(c, mark, s) && forall u :: u in c' <==> u in c && u.id != id
    ensures Holds(c', mark, s - {id})
  {
  }

  lemma HeldTimer(c: seq<Timer>, mark: real, s: State, t: Timer)
    requires Holds(c, mark, s) && t in c
    ensures t.id in s && s[t.id] == Moved(t, -mark)
  {
  }

  lemma HeldEntry(c: seq<Timer>, mark: real, s: State, id: nat)
    requires Holds(c, mark, s) && id in s
    ensures s[id].id == id && Moved(s[id], mark) in c
  {
  }

  lemma CountedTimer(c: seq<Timer>, mark: real, s: State, t1: real, t2: real, t: Timer)
    requires Holds(c, mark, s) && t in CountDown(c, t1 - mark)
    ensures t.id in s && Later(s, t2 - t1)[t.id] == Moved(t, -t2)
  {
    hide Holds, CountDown, Moved;
    var dt := t1 - mark;
    CountsDown(c, t, dt);
    MovedTwice(t, -dt, -mark);
    MovedTwice(t, -dt - mark, -(t2 - t1));
    HeldTimer(c, mark, s, Moved(t, -dt));
  }

  lemma CountedEntry(c: seq<Timer>, mark: real, s: State, t1: real, t2: real, id: nat)
    requires Holds(c, mark, s) && id in s
    ensures Moved(Later(s, t2 - t1)[id], t2) in CountDown(c, t1 - mark) && Later(s, t2 - t1)[id].id == id
  {
    hide Holds, CountDown, Moved;
    var dt := t1 - mark;
    HeldEntry(c, mark, s, id);
    CountsDown(c, Moved(Moved(s[id], mark), dt), dt);
    MovedTwice(s[id], mark, dt);
    MovedTwice(s[id], mark + dt, -dt);
    MovedTwice(s[id], -(t2 - t1), t2);
  }

  lemma HoldsLater(c: seq<Timer>, mark: real, s: State, t1: real, t2: real)
    requires Holds(c, mark, s)
    ensures Holds(CountDown(c, t1 - mark), t2, Later(s, t2 - t1))
  {
    hide Holds, CountDown, Moved, Later;
    LaterKeys(s, t2 - t1);
    var c', s' := CountDown(c, t1 - mark), Later(s, t2 - t1);
    forall t | t in c'
      ensures t.id in s' && s'[t.id] == Moved(t, -t2)
    {
      CountedTimer(c, mark, s, t1, t2, t);
    }
    forall id | id in s'
      ensures s'[id].id == id && Moved(s'[id], t2) in c'
    {
      CountedEntry(c, mark, s, t1, t2, id);
    }
    HoldsAll(c', t2, s');
  }

  lemma HoldsAll(c: seq<Timer>, mark: real, s: State)
    requires forall t :: t in c ==> t.id in s && s[t.id] == Moved(t, -mark)
    requires forall id :: id in s ==> s[id].id == id && Moved(s[id], mark) in c
    ensures Holds(c, mark, s)
  {
    hide Moved;
  }

  lemma LaterKeys(s: State, dt: real)
    ensures Later(s, dt).Keys == s.Keys
  {
  }

  lemma MovedTwice(t: Timer, a: real, b: real)
    ensures Moved(Moved(t, a), b) == Moved(t, a + b) && Moved(t, a).id == t.id
  {
  }

  /** The others are queued as before; the one that fired is armed again if it recurs. */
  lemma HoldsRequeued(c: seq<Timer>, c': seq<Timer>, mark: real, s: State, top: Timer)
    requires Holds(c, mark, s) && top in c && Requeued(c', c, top)
    ensures Holds(c', mark, if top.oneShot then s - {top.id} else s[top.id := Moved(top.(time := top.timeout), -mark)])
  {
    var again := top.(time := top.timeout);
    assert Moved(Moved(again, -mark), mark) == again;
  }

  lemma NothingExpired(c: seq<Timer>, mark: real, s: State, t1: real, t2: real)
    requires Holds(c, mark, s) && forall t :: t in c ==> t1 < mark + t.time
    ensures MayReturn(s, Check(t1, t2), None)
    ensures Holds(CountDown(c, t1 - mark), t2, After(s, Check(t1, t2), None))
  {
    hide CountDown, Holds, MayReturn;
    HoldsLater(c, mark, s, t1, t2);
    ReturnsNoEvent(c, mark, s, t1, t2);
  }

  lemma ReturnsNoEvent(c: seq<Timer>, mark: real, s: State, t1: real, t2: real)
    requires Holds(c, mark, s) && forall t :: t in c ==> t1 < mark + t.time
    ensures MayReturn(s, Check(t1, t2), None)
  {
    forall id | id in s
      ensures t1 < s[id].time
    {
      assert Moved(s[id], mark) in c;
    }
  }

  lemma EarliestExpired(c: seq<Timer>, c': seq<Timer>, mark: real, s: State, t1: real, t2: real, fired: Timer,
                        h: History, e: TimerEvent)
    requires Holds(c, mark, s) && fired in c && mark + fired.time <= t1
    requires forall t :: t in c ==> mark + fired.time <= mark + t.time
    requires IsFiring(e, Moved(fired, t1 - mark), h, t1)
    requires Requeued(c', CountDown(c, t1 - mark), Moved(fired, t1 - mark))
    ensures MayReturn(s, Check(t1, t2), Some(e)) && Holds(c', t2, After(s, Check(t1, t2), Some(e)))
  {
    hide Requeued, CountDown, Holds, MayReturn, IsFiring, Count;
    FiringCounts(e, Moved(fired, t1 - mark), h, t1);
    ReturnsEarliest(c, mark, s, t1, t2, fired, e);
    HoldsLater(c, mark, s, t1, t2);
    var top, counted := Moved(fired, t1 - mark), CountDown(c, t1 - mark);
    CountsDown(c, top, t1 - mark);
    assert Moved(top, -(t1 - mark)) == fired;
    HoldsRequeued(counted, c', t2, Later(s, t2 - t1), top);
    assert s[e.timer] == Moved(fired, -mark);
    assert Moved(top.(time := top.timeout), -t2) == s[e.timer].(time := t2 + s[e.timer].timeout);
  }

  lemma FiringCounts(e: TimerEvent, t: Timer, h: History, t1: real)
    requires IsFiring(e, t, h, t1)
    ensures e.timer == t.id && e.target == t.target && t.timeout > 0.0 && e.count == Count(t.timeout, t.time)
  {
  }

  lemma ReturnsEarliest(c: seq<Timer>, mark: real, s: State, t1: real, t2: real, fired: Timer, e: TimerEvent)
    requires Holds(c, mark, s) && fired in c && mark + fired.time <= t1 && fired.timeout > 0.0
    requires forall t :: t in c ==> mark + fired.time <= mark + t.time
    requires e.timer == fired.id && e.target == fired.target
    requires e.count == Count(fired.timeout, fired.time - (t1 - mark))
    ensures MayReturn(s, Check(t1, t2), Some(e)) && e.timer in s && s[e.timer] == Moved(fired, -mark)
  {
    hide Count, Holds;
    HeldTimer(c, mark, s, fired);
    assert fired.time - (t1 - mark) == s[fired.id].time - t1;
    forall id | id in s
      ensures s[e.timer].time <= s[id].time
    {
      HeldEntry(c, mark, s, id);
    }
  }

  lemma CountsDown(c: seq<Timer>, t: Timer, dt: real)
    ensures t in CountDown(c, dt) <==> Moved(t, -dt) in c
  {
    if t in CountDown(c, dt) {
      var i :| 0 <= i < |c| && CountDown(c, dt)[i] == t;
      assert Moved(t, -dt) == c[i];
    }
    if Moved(t, -dt) in c {
      var i :| 0 <= i < |c| && c[i] == Moved(t, -dt);
      assert CountDown(c, dt)[i] == t;
    }
  }

  method ArmTimer(q: TimerQueue, op: Op, ghost s: State)
    requires Represents(q, s) && op.Arm? && op.id !in s && Permits(q.now, q.timers, op)
    modifies q`timers, q`now, q`history, q.queue
    ensures Represents(q, After(s, op, None)) && q.now == op.clock && q.timers == old(q.timers) + {op.id}
  {
    hide Holds;
    ghost var before := q.queue.c;
    q.NewTimer(op.id, op.duration, op.target, op.oneShot, op.clock);
    ghost var made := Timer(op.id, op.duration, op.duration + (op.clock - q.mark), op.target, op.oneShot);
    HoldsOneMore(before, q.queue.c, q.mark, s, made);
    assert Moved(made, -q.mark) == Timer(op.id, op.duration, op.clock + op.duration, op.target, op.oneShot);
  }

  method DeleteTimer(q: TimerQueue, id: nat, ghost s: State)
    requires Represents(q, s)
    modifies q`timers, q.queue
    ensures Represents(q, After(s, Delete(id), None)) && q.timers == old(q.timers) - {id}
  {
    hide Holds;
    ghost var before := q.queue.c;
    q.DeleteTimer(id);
    HoldsOneLess(before, q.queue.c, q.mark, s, id);
  }

  method CheckTimers(q: TimerQueue, t1: real, t2: real, ghost s: State) returns (event: Option<TimerEvent>)
    requires Represents(q, s) && q.now <= t1 <= t2
    modifies q`mark, q`now, q`history, q.queue
    ensures MayReturn(s, Check(t1, t2), event) && Represents(q, After(s, Check(t1, t2), event)) && q.now == t2
  {
    hide Holds, IsFiring, Requeued, CountDown, MayReturn, After, Moved;
    ghost var before, mark, history, fired := q.queue.c, q.mark, q.history, Timer(0, 0.0, 0.0, 0, false);
    event, fired := q.HasTimerExpired(t1, t2);
    if event == None {
      NothingExpired(before, mark, s, t1, t2);
      if before == [] {
        NothingHeld(before, mark, s, t1, t2);
      }
    } else {
      EarliestExpired(before, q.queue.c, mark, s, t1, t2, fired, history[fired.id], event.value);
    }
  }

  lemma NothingHeld(c: seq<Timer>, mark: real, s: State, t1: real, t2: real)
    requires Holds(c, mark, s) && c == []
    ensures Holds(c, mark, After(s, Check(t1, t2), None))
  {
  }

  lemma QueuedIsLive(q: TimerQueue, s: State)
    requires Represents(q, s)
    ensures forall id :: id in s ==> id in q.timers
  {
    hide OnTime, IsQueue;
    forall id | id in s
      ensures id in q.timers
    {
      assert Moved(s[id], q.mark) in q.queue.c;
    }
  }

  method NewQueue(clock: real) returns (q: TimerQueue)
    ensures fresh(q) && fresh(q.queue) && Represents(q, map[]) && q.now == clock && q.timers == {}
  {
    hide OnTime, Holds;
    q := new TimerQueue(clock);
    NothingQueued(q.mark);
  }

  method Perform(q: TimerQueue, op: Op, ghost s: State) returns (event: Option<TimerEvent>)
    requires Represents(q, s) && Permits(q.now, q.timers, op)
    modifies q, q.queue
    ensures MayReturn(s, op, event) && Represents(q, After(s, op, event)) && q.queue == old(q.queue)
    ensures q.now == NowAfter(old(q.now), op) && q.timers == LiveAfter(old(q.timers), op)
  {
    hide After, Represents;
    QueuedIsLive(q, s);
    event := None;
    match op {
      case Arm(_, _, _, _, _) => ArmTimer(q, op, s);
      case Delete(id) => DeleteTimer(q, id, s);
      case Check(t1, t2) => event := CheckTimers(q, t1, t2, s);
    }
  }

  /**
    Every run of the timer queue: its checks return what the specification lets them return, so that
    all of the above holds of the events.
  */
  method Execute(clock: real, ops: seq<Op>) returns (q: TimerQueue, log: Log)
    requires IsPermitted(clock, ops)
    ensures IsRun(ops, log) && Represents(q, StateAfter(ops, log))
    ensures q.now == Now(clock, ops) && q.timers == Live(ops)
  {
    hide MayReturn, After, Represents, StateAfter, IsRun, Permits;
    q := NewQueue(clock);
    log := [];
    NothingRun();
    for i := 0 to |ops|
      invariant fresh(q) && fresh(q.queue)
      invariant |log| == i && IsRun(ops[..i], log) && Represents(q, StateAfter(ops[..i], log))
      invariant q.now == Now(clock, ops[..i]) && q.timers == Live(ops[..i])
    {
      assert ops[..i + 1][..i] == ops[..i] && ops[..i + 1][i] == ops[i];
      assert ops[..i] + [ops[i]] == ops[..i + 1];
      var event := Perform(q, ops[i], StateAfter(ops[..i], log));
      RunOneMore(ops[..i], log, ops[i], event);
      log := log + [event];
    }
    assert ops[..|ops|] == ops;
  }

  lemma NothingRun()
    ensures IsRun([], []) && StateAfter([], []) == map[]
  {
  }

  lemma NothingQueued(mark: real)
    ensures Holds([], mark, map[])
  {
  }

  lemma RunOneMore(ops: seq<Op>, log: Log, op: Op, event: Option<TimerEvent>)
    requires IsRun(ops, log) && MayReturn(StateAfter(ops, log), op, event)
    ensures IsRun(ops + [op], log + [event])
    ensures StateAfter(ops + [op], log + [event]) == After(StateAfter(ops, log), op, event)
  {
    var ops', log' := ops + [op], log + [event];
    assert forall i :: 0 <= i <= |ops| ==> ops'[..i] == ops[..i] && log'[..i] == log[..i];
    assert ops[..|ops|] == ops && log[..|log|] == log;
  }
}
