/**
  The timers of the event queue. Each queued timer stores the time left until it fires, relative
  to a stopwatch that every check resets; in absolute terms that has to respect the deadlines.
  Times are real numbers of seconds, the clock never runs backwards.
*/
module Timers {
  import opened Options

  datatype Timer = Timer(id: nat, timeout: real, time: real, target: nat, oneShot: bool)

  datatype TimerEvent = TimerEvent(timer: nat, target: nat, count: nat)

  // ---------------------------------------------------------------------------
  // How many periods an event stands for
  // ---------------------------------------------------------------------------

  /** Timer::fillEvent: the number of periods that ended, for a timer with `time` left. */
  function Count(timeout: real, time: real): int
    requires timeout > 0.0
  {
    if time <= 0.0 then ((timeout - time) / timeout).Floor else 0
  }

  lemma DivideBack(x: real, y: real)
    requires y > 0.0
    ensures x / y * y == x
  {
  }

  lemma ScaleOrder(a: real, b: real, y: real)
    requires y > 0.0
    ensures a <= b <==> a * y <= b * y
    ensures a < b <==> a * y < b * y
  {
  }

  /**
    For a timer that is `late` past its deadline the count is the number of whole periods that
    fit, the one that just ended included.
  */
  lemma CountMeasuresLateness(timeout: real, late: real)
    requires timeout > 0.0 && late >= 0.0
    ensures var n := Count(timeout, -late);
            n >= 1 && (n as real - 1.0) * timeout <= late < n as real * timeout
  {
    var q, n := (timeout - (-late)) / timeout, Count(timeout, -late);
    DivideBack(timeout - (-late), timeout);
    ScaleOrder(1.0, q, timeout);
    FloorScaled(q, n, timeout, timeout + late);
  }

  lemma ScaleGap(a: real, b: real, y: real, x: real, z: real)
    requires y > 0.0 && a * y == x && b * y == z
    ensures a < b ==> x < z
    ensures a <= b ==> x <= z
  {
    var gap := b - a;
    Distribute(gap, a, y);
    assert gap + a == b;
    assert gap * y == z - x;
    if gap > 0.0 {
      ProductPositive(gap, y);
    }
  }

  lemma ProductPositive(a: real, b: real)
    requires a > 0.0 && b > 0.0
    ensures a * b > 0.0
  {
  }

  lemma FloorScaled(q: real, n: int, y: real, x: real)
    requires y > 0.0 && n as real <= q < n as real + 1.0 && q * y == x
    ensures (n as real - 1.0) * y <= x - y < n as real * y
  {
    Distribute(n as real, 1.0, y);
    Distribute(n as real, -1.0, y);
    ScaleGap(n as real, q, y, n as real * y, x);
    ScaleGap(q, n as real + 1.0, y, x, n as real * y + y);
  }

  lemma Distribute(a: real, b: real, y: real)
    ensures (a + b) * y == a * y + b * y
  {
  }

  /**
    The event of a timer counts exactly one period if and only if it is less than one period late.
    This is so for one-shot timers too, although their documentation promises that the count is
    always 1.
  */
  lemma CountIsOne(timeout: real, late: real)
    requires timeout > 0.0 && late >= 0.0
    ensures Count(timeout, -late) == 1 <==> late < timeout
  {
    hide Count;
    CountMeasuresLateness(timeout, late);
    WithinOnePeriod(Count(timeout, -late), timeout, late);
  }

  lemma WithinOnePeriod(n: int, timeout: real, late: real)
    requires n >= 1 && timeout > 0.0 && (n as real - 1.0) * timeout <= late < n as real * timeout
    ensures n == 1 <==> late < timeout
  {
    if n == 1 {
      OneTimes(timeout);
    } else {
      var x := n as real - 1.0;
      AtLeastOnce(x, timeout);
      assert x * timeout <= late;
    }
  }

  lemma AtLeastOnce(x: real, y: real)
    requires y > 0.0 && x >= 1.0
    ensures y <= x * y
  {
    Distribute(x - 1.0, 1.0, y);
    OneTimes(y);
    if x > 1.0 {
      ProductPositive(x - 1.0, y);
    }
  }

  lemma OneTimes(x: real)
    ensures 1.0 * x == x
  {
  }

  /** A one-shot timer of one second that is checked three seconds after it was armed reports 3. */
  lemma OneShotCountThree()
    ensures Count(1.0, 1.0 - 3.0) == 3
  {
    assert 1.0 - (1.0 - 3.0) == 3.0 && 3.0 / 1.0 == 3.0;
  }

  // ---------------------------------------------------------------------------
  // The queue
  // ---------------------------------------------------------------------------

  ghost predicate TopIsLeast(c: seq<Timer>) {
    forall i :: 0 <= i < |c| ==> c[0].time <= c[i].time
  }

  ghost predicate DistinctIds(c: seq<Timer>) {
    forall i, j :: 0 <= i < j < |c| ==> c[i].id != c[j].id
  }

  function CountDown(c: seq<Timer>, dt: real): (d: seq<Timer>)
    ensures |d| == |c|
    ensures forall i :: 0 <= i < |c| ==> d[i] == c[i].(time := c[i].time - dt)
  {
    seq(|c|, i requires 0 <= i < |c| => c[i].(time := c[i].time - dt))
  }

  /** Some ids' timers, at most one each, a least one first: what the heap promises its users. */
  ghost predicate IsQueue(c: seq<Timer>) {
    TopIsLeast(c) && DistinctIds(c)
  }

  /** Counting all elements down by the same amount in place keeps the queue a queue. */
  lemma CountDownKeepsQueue(c: seq<Timer>, dt: real)
    requires IsQueue(c)
    ensures IsQueue(CountDown(c, dt))
  {
  }

  /**
    The priority queue. Its operations keep the elements in some order with a least one first;
    which order, and which of several least ones comes first, callers do not know.
  */
  class PriorityQueue {
    var c: seq<Timer>

    constructor ()
      ensures c == []
    {
      c := [];
    }

    /** What the standard library's heap operations do for this queue: bring a least element to the front. */
    method LeastToFront()
      requires DistinctIds(c)
      modifies this
      ensures IsQueue(c)
      ensures forall t :: t in c <==> t in old(c)
    {
      if c == [] {
        return;
      }
      var least, i := 0, 1;
      while i < |c|
        invariant c == old(c)
        invariant 0 <= least < i <= |c|
        invariant forall j :: 0 <= j < i ==> c[least].time <= c[j].time
      {
        if c[i].time < c[least].time {
          least := i;
        }
        i := i + 1;
      }
      ghost var before := c;
      c := c[0 := c[least]][least := c[0]];
      assert c[0] == before[least] && c[least] == before[0];
      assert forall j :: 0 < j < |c| && j != least ==> c[j] == before[j];
    }

    method Push(t: Timer)
      requires DistinctIds(c) && forall u :: u in c ==> u.id != t.id
      modifies this
      ensures IsQueue(c)
      ensures forall u :: u in c <==> u in old(c) || u == t
    {
      c := c + [t];
      LeastToFront();
    }

    method Pop()
      requires IsQueue(c) && c != []
      modifies this
      ensures IsQueue(c)
      ensures forall u :: u in old(c) ==> old(c)[0].time <= u.time
      ensures forall u :: u in c <==> u in old(c) && u.id != old(c)[0].id
    {
      c := c[1..];
      LeastToFront();
    }

    method Erase(i: nat)
      requires DistinctIds(c) && i < |c|
      modifies this
      ensures IsQueue(c)
      ensures forall u :: u in c <==> u in old(c) && u.id != old(c)[i].id
    {
      ghost var before := c;
      c := c[..i] + c[i + 1..];
      assert before == before[..i] + [before[i]] + before[i + 1..];
      assert forall j :: 0 <= j < |c| ==> c[j] == before[if j < i then j else j + 1];
      LeastToFront();
    }
  }

  // ---------------------------------------------------------------------------
  // Arming, deleting and checking timers
  // ---------------------------------------------------------------------------

  /** When a timer was made, when it was last armed, and how many periods its events have counted. */
  datatype History = History(created: real, armed: real, counted: nat)

  /**
    What holds of a queued timer whose time left is measured from `mark`: it does not fire before
    its duration has passed since it was armed, and the periods counted so far, with the one it is
    waiting for, fit between its creation and its deadline.
  */
  ghost predicate OnTime(t: Timer, mark: real, h: History) {
    && t.timeout > 0.0
    && h.armed + t.timeout <= mark + t.time
    && h.created + (h.counted as real + 1.0) * t.timeout <= mark + t.time
    && (t.oneShot ==> h.counted == 0)
  }

  /** Checking at `t1` and restarting the stopwatch at `t2` never brings a deadline forward. */
  lemma CountDownKeepsOnTime(t: Timer, mark: real, h: History, t1: real, t2: real)
    requires OnTime(t, mark, h) && t1 <= t2
    ensures OnTime(t.(time := t.time - (t1 - mark)), t2, h)
  {
  }

  function Moved(t: Timer, dt: real): Timer {
    t.(time := t.time - dt)
  }

  function AfterFiring(h: History, count: nat, rearmed: real): History {
    History(h.created, rearmed, h.counted + count)
  }

  /**
    What the event says of a timer that fires at t1 with `time` left, which is negative when it is
    late: its duration has passed since it was armed, the event counts at least one period, and
    all periods ever counted fit between its creation and t1.
  */
  ghost predicate IsFiring(event: TimerEvent, t: Timer, h: History, t1: real) {
    && event.timer == t.id && event.target == t.target
    && t.timeout > 0.0
    && event.count == Count(t.timeout, t.time)
    && event.count >= 1
    && h.armed + t.timeout <= t1
    && h.created + (h.counted + event.count) as real * t.timeout <= t1
  }

  /** The accounting of one firing at t1 of a timer that is then rearmed at t2. */
  lemma FiringIsOnTime(t: Timer, h: History, t1: real, t2: real)
    requires OnTime(t, t1, h) && t.time <= 0.0 && t1 <= t2
    ensures var n := Count(t.timeout, t.time);
            && n >= 1
            && IsFiring(TimerEvent(t.id, t.target, n), t, h, t1)
            && (!t.oneShot ==> OnTime(t.(time := t.timeout), t2, AfterFiring(h, n, t2)))
  {
    var n, k := Count(t.timeout, t.time) as real, h.counted as real;
    CountMeasuresLateness(t.timeout, -t.time);
    assert k + n == (k + 1.0) + (n - 1.0);
    Distribute(k + 1.0, n - 1.0, t.timeout);
    Distribute(k + n, 1.0, t.timeout);
  }

  /** Firing top leaves the other timers queued, and top itself with a full period if it recurs. */
  ghost predicate Requeued(after: seq<Timer>, before: seq<Timer>, top: Timer) {
    forall u :: u in after
                <==> (u in before && u.id != top.id) || (!top.oneShot && u == top.(time := top.timeout))
  }

  class TimerQueue {
    var mark: real
    var timers: set<nat>
    var queue: PriorityQueue
    ghost var now: real
    ghost var history: map<nat, History>

    ghost predicate Valid()
      reads this, queue
    {
      && IsQueue(queue.c)
      && mark <= now
      && (forall t :: t in queue.c ==> t.id in timers && t.id in history && OnTime(t, mark, history[t.id]))
    }

    ghost predicate Armed(id: nat)
      reads this, queue
    {
      exists t :: t in queue.c && t.id == id
    }

    /** The moment at which a check fires the timer. */
    ghost function Deadline(t: Timer): real
      reads this
    {
      mark + t.time
    }

    /** Time passes. */
    ghost method Wait(later: real)
      requires Valid() && now <= later
      modifies this`now
      ensures Valid() && now == later
    {
      now := later;
    }

    lemma ValidIsQueue()
      requires Valid()
      ensures IsQueue(queue.c)
      ensures forall t :: t in queue.c ==> t.id in history
    {
    }

    constructor (clock: real)
      ensures Valid() && fresh(queue) && queue.c == [] && timers == {} && now == clock
    {
      queue := new PriorityQueue();
      mark, now, timers, history := clock, clock, {}, map[];
    }

    /**
      newTimer and newOneShotTimer, at clock reading `clock`. The allocator never hands out the
      address of a timer that has not been deleted.
    */
    method NewTimer(id: nat, duration: real, target: nat, oneShot: bool, clock: real)
      requires Valid() && id !in timers && duration > 0.0 && now <= clock
      modifies this`timers, this`now, this`history, queue
      ensures Valid() && now == clock
      ensures timers == old(timers) + {id}
      ensures history == old(history)[id := History(clock, clock, 0)]
      ensures forall t :: t in queue.c
                          <==> t in old(queue.c) || t == Timer(id, duration, duration + (clock - mark), target, oneShot)
    {
      timers := timers + {id};
      queue.Push(Timer(id, duration, duration + (clock - mark), target, oneShot));
      now := clock;
      history := history[id := History(clock, clock, 0)];
    }

    /** deleteTimer: afterwards no check can fire this timer. */
    method DeleteTimer(id: nat)
      requires Valid()
      modifies this`timers, queue
      ensures Valid() && !Armed(id)
      ensures timers == old(timers) - {id}
      ensures forall t :: t in queue.c <==> t in old(queue.c) && t.id != id
    {
      var i := 0;
      while i < |queue.c|
        invariant 0 <= i <= |queue.c| && queue.c == old(queue.c)
        invariant forall j :: 0 <= j < i ==> queue.c[j].id != id
      {
        if queue.c[i].id == id {
          queue.Erase(i);
          break;
        }
        i := i + 1;
      }
      timers := timers - {id};
    }

    /** The in-place countdown at the start of hasTimerExpired. */
    method CountDownElapsed(t1: real, t2: real)
      requires Valid() && now <= t1 <= t2
      modifies this`mark, this`now, queue
      ensures Valid() && mark == t2 && now == t2
      ensures queue.c == CountDown(old(queue.c), t1 - old(mark))
      ensures queue.c != [] ==> queue.c[0].id in history && OnTime(queue.c[0], t1, history[queue.c[0].id])
    {
      hide OnTime, CountDown, IsQueue;
      ghost var before, start := queue.c, mark;
      var time := t1 - mark;
      mark := t2;
      now := t2;
      queue.c := CountDown(queue.c, time);
      CountDownKeepsQueue(before, time);
      forall t | t in before
        ensures OnTime(Moved(t, time), t2, history[t.id])
      {
        CountDownKeepsOnTime(t, start, history[t.id], t1, t2);
      }
      if before != [] {
        CountDownKeepsOnTime(before[0], start, history[before[0].id], t1, t1);
      }
    }

    /** The end of hasTimerExpired: the top timer, at or past its deadline, fires at clock reading t1. */
    method FireTop(ghost t1: real) returns (event: TimerEvent)
      requires Valid() && queue.c != [] && queue.c[0].time <= 0.0 && t1 <= mark
      requires queue.c[0].id in history && OnTime(queue.c[0], t1, history[queue.c[0].id])
      modifies this`history, queue
      ensures Valid()
      ensures IsFiring(event, old(queue.c)[0], old(history)[old(queue.c)[0].id], t1)
      ensures var top := old(queue.c)[0];
              && history == old(history)[top.id := AfterFiring(old(history)[top.id], event.count, mark)]
              && Requeued(queue.c, old(queue.c), top)
    {
      hide OnTime, Count;
      var timer := queue.c[0];
      ghost var h := history[timer.id];
      queue.Pop();
      FiringIsOnTime(timer, h, t1, mark);
      var count := Count(timer.timeout, timer.time);
      event := TimerEvent(timer.id, timer.target, count);
      timer := timer.(time := timer.timeout);
      history := history[timer.id := AfterFiring(h, count, mark)];
      if !timer.oneShot {
        queue.Push(timer);
      }
    }

    /**
      hasTimerExpired, which reads the clock at t1 and again, when it restarts the stopwatch, at t2.
      An event is returned exactly when some deadline has passed, and it is for a timer with the
      earliest deadline. The deadlines of the other timers move back by t2 - t1.
    */
    method HasTimerExpired(t1: real, t2: real) returns (event: Option<TimerEvent>, ghost fired: Timer)
      requires Valid() && now <= t1 <= t2
      modifies this`mark, this`now, this`history, queue
      ensures Valid() && now == t2
      ensures event.None? <==> forall t :: t in old(queue.c) ==> t1 < old(Deadline(t))
      ensures event.None? ==> history == old(history)
      ensures event.None? && old(queue.c) != [] ==> mark == t2 && queue.c == CountDown(old(queue.c), t1 - old(mark))
      ensures event.None? && old(queue.c) == [] ==> mark == old(mark) && queue.c == []
      ensures event.Some? ==>
                && fired in old(queue.c) && (forall t :: t in old(queue.c) ==> old(Deadline(fired)) <= old(Deadline(t)))
                && var top, h := Moved(fired, t1 - old(mark)), old(history)[fired.id];
                && IsFiring(event.value, top, h, t1)
                && mark == t2
                && history == old(history)[fired.id := AfterFiring(h, event.value.count, t2)]
                && Requeued(queue.c, CountDown(old(queue.c), t1 - old(mark)), top)
    {
      hide Valid, OnTime, IsFiring, IsQueue, AfterFiring, CountDown, Moved, Requeued;
      ValidIsQueue();
      event := None;
      fired := Timer(0, 0.0, 0.0, 0, false);
      if queue.c == [] {
        Wait(t2);
        return;
      }
      ghost var before, start := queue.c, mark;
      TopIsEarliest(before, start, t1);
      CountDownElapsed(t1, t2);
      if queue.c[0].time > 0.0 {
        return;
      }
      fired := before[0];
      var e := FireTop(t1);
      event := Some(e);
    }
  }

  lemma TopIsEarliest(c: seq<Timer>, mark: real, t1: real)
    requires IsQueue(c) && c != []
    ensures c[0] in c && forall t :: t in c ==> c[0].time <= t.time
    ensures CountDown(c, t1 - mark)[0] == Moved(c[0], t1 - mark)
    ensures Moved(c[0], t1 - mark).time > 0.0 <==> forall t :: t in c ==> t1 < mark + t.time
    ensures Moved(c[0], t1 - mark).id == c[0].id
  {
  }
}
