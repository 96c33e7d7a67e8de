/**
  The event queue: saved events in a table under reusable ids, and a buffer of ids. Seen from
  outside it is a plain first-in, first-out queue; the free list, the table and the deque are how
  it is made. One operation here is one critical section of the original; only getEvent has two, one
  that takes an id and one that removes its event.
*/
module EventQueue {
  import opened Options

  datatype Kind = UNKNOWN | QUIT | SYSTEM | TIMER | OTHER(code: nat)

  datatype Event = Event(kind: Kind, data: nat, immediate: bool)

  // ---------------------------------------------------------------------------
  // The plain queue
  // ---------------------------------------------------------------------------

  /**
    `pending` holds the events added before the loop started, `queued` the ones in the buffer,
    oldest first.
  */
  datatype Fifo = Fifo(ready: bool, pending: seq<Event>, queued: seq<Event>)

  /** What one step does besides changing the queue. */
  datatype Effect = Effect(delivered: seq<Event>, dispatched: seq<Event>, lost: seq<Event>)

  const NO_EFFECT := Effect([], [], [])

  /**
    One critical section. `refused` says that the installed buffer does not take the id, which a
    platform's buffer may do.
  */
  datatype Op =
    | Add(event: Event, refused: bool)
    | Start
    | Drain(refused: bool)
    | Get
    | SetBuffer

  predicate IsBogus(e: Event) {
    e.kind.UNKNOWN? || e.kind.SYSTEM? || e.kind.TIMER?
  }

  function ToBuffer(f: Fifo, e: Event, refused: bool): (Fifo, Effect) {
    if refused then (f, NO_EFFECT.(lost := [e])) else (f.(queued := f.queued + [e]), NO_EFFECT)
  }

  function Step(f: Fifo, op: Op): (Fifo, Effect) {
    match op
    case Add(e, refused) =>
      if IsBogus(e) then (f, NO_EFFECT)
      else if e.immediate then (f, NO_EFFECT.(dispatched := [e]))
      else if !f.ready then (f.(pending := f.pending + [e]), NO_EFFECT)
      else ToBuffer(f, e, refused)
    case Start => (f.(ready := true), NO_EFFECT)
    case Drain(refused) =>
      if !f.ready || f.pending == [] then (f, NO_EFFECT)
      else ToBuffer(f.(pending := f.pending[1..]), f.pending[0], refused)
    case Get =>
      if f.queued == [] then (f, NO_EFFECT)
      else (f.(queued := f.queued[1..]), NO_EFFECT.(delivered := [f.queued[0]]))
    case SetBuffer => (f.(queued := []), NO_EFFECT.(lost := f.queued))
  }

  function Join(a: Effect, b: Effect): Effect {
    Effect(a.delivered + b.delivered, a.dispatched + b.dispatched, a.lost + b.lost)
  }

  function Run(f: Fifo, ops: seq<Op>): (Fifo, Effect)
    decreases |ops|
  {
    if ops == [] then (f, NO_EFFECT)
    else
      var (g, e) := Step(f, ops[0]);
      var (h, e') := Run(g, ops[1..]);
      (h, Join(e, e'))
  }

  /** The event that op asks to be queued, if any. */
  function Asked(op: Op): seq<Event> {
    if op.Add? && !IsBogus(op.event) && !op.event.immediate then [op.event] else []
  }

  /** The events that ops asks to be queued, in order. */
  function AskedAll(ops: seq<Op>): seq<Event>
    decreases |ops|
  {
    if ops == [] then [] else Asked(ops[0]) + AskedAll(ops[1..])
  }

  const EMPTY := Fifo(false, [], [])

  function Held(f: Fifo): multiset<Event> {
    multiset(f.queued) + multiset(f.pending)
  }

  function Gone(e: Effect): multiset<Event> {
    multiset(e.delivered) + multiset(e.lost)
  }

  lemma FrontAndRest(s: seq<Event>)
    requires s != []
    ensures multiset(s) == multiset{s[0]} + multiset(s[1..])
  {
    assert s == [s[0]] + s[1..];
  }

  lemma AddConserves(f: Fifo, op: Op)
    requires op.Add?
    ensures var (g, e) := Step(f, op); Held(f) + multiset(Asked(op)) == Gone(e) + Held(g)
  {
  }

  lemma StepConserves(f: Fifo, op: Op)
    ensures var (g, e) := Step(f, op); Held(f) + multiset(Asked(op)) == Gone(e) + Held(g)
  {
    hide Step, Asked, Held, Gone;
    if op.Add? {
      AddConserves(f, op);
    } else {
      OtherConserves(f, op);
    }
  }

  lemma OtherConserves(f: Fifo, op: Op)
    requires !op.Add?
    ensures var (g, e) := Step(f, op); Held(f) + multiset(Asked(op)) == Gone(e) + Held(g)
  {
    if op.Drain? && f.ready && f.pending != [] {
      FrontAndRest(f.pending);
    } else if op.Get? && f.queued != [] {
      FrontAndRest(f.queued);
    }
  }

  lemma NothingGone(f: Fifo)
    ensures Held(f) + multiset([]) == Gone(NO_EFFECT) + Held(f)
  {
  }

  lemma GoneJoin(a: Effect, b: Effect)
    ensures Gone(Join(a, b)) == Gone(a) + Gone(b)
  {
  }

  /** Every event handed to the queue is delivered once, lost once, or still waiting: in any run. */
  lemma {:induction false} Conservation(f: Fifo, ops: seq<Op>)
    ensures var (g, e) := Run(f, ops); Held(f) + multiset(AskedAll(ops)) == Gone(e) + Held(g)
    decreases |ops|
  {
    hide Step, Asked, Held, Gone;
    if ops == [] {
      NothingGone(f);
    } else {
      var (g, e) := Step(f, ops[0]);
      var (h, e') := Run(g, ops[1..]);
      StepConserves(f, ops[0]);
      Conservation(g, ops[1..]);
      GoneJoin(e, e');
      assert Run(f, ops) == (h, Join(e, e'));
      var first, rest := multiset(Asked(ops[0])), multiset(AskedAll(ops[1..]));
      assert multiset(AskedAll(ops)) == first + rest;
      calc {
        Held(f) + multiset(AskedAll(ops));
        (Held(f) + first) + rest;
        (Gone(e) + Held(g)) + rest;
        Gone(e) + (Held(g) + rest);
        Gone(e) + (Gone(e') + Held(h));
        Gone(Join(e, e')) + Held(h);
      }
    }
  }

  // ---------------------------------------------------------------------------
  // What becomes of an event
  // ---------------------------------------------------------------------------

  /** The event that op wants dispatched at once, or queued. */
  function Request(op: Op, immediate: bool): seq<Event> {
    match op
    case Add(Event(QUIT, _, i), _) => if i == immediate then [op.event] else []
    case Add(Event(OTHER(_), _, i), _) => if i == immediate then [op.event] else []
    case _ => []
  }

  function Requests(ops: seq<Op>, immediate: bool): seq<Event>
    decreases |ops|
  {
    if ops == [] then [] else Request(ops[0], immediate) + Requests(ops[1..], immediate)
  }

  lemma StepMeetsRequest(f: Fifo, op: Op)
    ensures Step(f, op).1.dispatched == Request(op, true)
    ensures Asked(op) == Request(op, false)
  {
  }

  /**
    Over every run, the events dispatched are the immediate ones, in order, whatever the queue does
    with the others; unknown, system and timer events are neither dispatched nor queued.
  */
  lemma {:induction false} RequestsAreMet(f: Fifo, ops: seq<Op>)
    ensures Run(f, ops).1.dispatched == Requests(ops, true)
    ensures AskedAll(ops) == Requests(ops, false)
    decreases |ops|
  {
    hide Step, Asked, Request;
    if ops != [] {
      StepMeetsRequest(f, ops[0]);
      RequestsAreMet(Step(f, ops[0]).0, ops[1..]);
    }
  }

  predicate Refuses(op: Op) {
    (op.Add? || op.Drain?) && op.refused
  }

  /** Nothing is lost as long as the buffer takes every event and is not replaced. */
  lemma {:induction false} NothingLost(f: Fifo, ops: seq<Op>)
    requires forall i :: 0 <= i < |ops| ==> !Refuses(ops[i]) && ops[i] != SetBuffer
    ensures Run(f, ops).1.lost == []
    decreases |ops|
  {
    if ops != [] {
      NothingLost(Step(f, ops[0]).0, ops[1..]);
    }
  }

  /**
    A refusal loses one event: the one added, once the queue is ready, or the first one pending. A
    new buffer loses all that the old one held, and no pending ones.
  */
  lemma LossIsExact(f: Fifo, e: Event, refused: bool)
    ensures Step(f, SetBuffer).1.lost == f.queued && Step(f, SetBuffer).0 == f.(queued := [])
    ensures Step(f, Add(e, refused)).1.lost == if f.ready && refused then Request(Add(e, refused), false) else []
    ensures Step(f, Drain(refused)).1.lost == if f.ready && refused && f.pending != [] then [f.pending[0]] else []
    ensures Step(f, Start).1.lost == Step(f, Get).1.lost == []
  {
  }

  lemma RunCons(f: Fifo, op: Op, rest: seq<Op>)
    ensures var (g, e) := Step(f, op);
            var (h, e') := Run(g, rest);
            Run(f, [op] + rest) == (h, Join(e, e'))
  {
    assert ([op] + rest)[1..] == rest;
  }

  function Drains(ops: seq<Op>): (n: nat) {
    if ops == [] then 0 else Drains(ops[1..]) + if ops[0].Drain? then 1 else 0
  }

  /** The operations from the first start on. */
  function FromStart(ops: seq<Op>): (rest: seq<Op>)
    ensures |rest| <= |ops|
  {
    if ops == [] || ops[0].Start? then ops else FromStart(ops[1..])
  }

  /**
    Only what is asked for before the start has to wait for it, and each round of the loop after it
    moves one of these events on. The queue is ready from the start on.
  */
  lemma {:induction false} PendingExactly(f: Fifo, ops: seq<Op>)
    ensures Run(f, ops).0.ready == (f.ready || Start in ops)
    ensures var before := if f.ready then [] else Requests(ops[..|ops| - |FromStart(ops)|], false);
            var moved := Drains(if f.ready then ops else FromStart(ops));
            Run(f, ops).0.pending == Rest(f.pending + before, moved)
    decreases |ops|
  {
    hide Step, Request, Rest;
    if ops == [] {
      StillPending(f.pending);
    } else {
      var op, rest := ops[0], ops[1..];
      var g := Step(f, op).0;
      PendingExactly(g, rest);
      StepPending(f, op);
      assert op == Start || (Start in ops <==> Start in rest);
      assert f.pending + [] == f.pending && g.pending + [] == g.pending;
      if f.ready {
        RestOfRest(f.pending, if op.Drain? then 1 else 0, Drains(rest));
      } else if op.Start? {
        assert ops[..|ops| - |FromStart(ops)|] == [];
      } else {
        var k := |rest| - |FromStart(rest)|;
        assert ops[..k + 1][1..] == rest[..k];
        assert f.pending + Requests(ops[..k + 1], false) == g.pending + Requests(rest[..k], false);
      }
    }
  }

  /** What is left of s after n steps that each take the first element, if there is one. */
  function Rest(s: seq<Event>, n: nat): seq<Event> {
    if n < |s| then s[n..] else []
  }

  lemma StillPending(s: seq<Event>)
    ensures Rest(s + [], 0) == s
  {
  }

  lemma RestOfRest(s: seq<Event>, m: nat, n: nat)
    ensures Rest(Rest(s, m), n) == Rest(s, m + n)
    ensures Rest(s, 0) == s
  {
  }

  lemma StepPending(f: Fifo, op: Op)
    ensures var g := Step(f, op).0;
            && g.ready == (f.ready || op == Start)
            && g.pending == if !f.ready then f.pending + Request(op, false)
                            else Rest(f.pending, if op.Drain? then 1 else 0)
    ensures Step(f, Start).0.pending == f.pending
  {
  }

  /** Started or not, each getEvent delivers the oldest event of the buffer until none is left. */
  lemma {:induction false} GetsDeliver(f: Fifo, n: nat)
    ensures var (g, e) := Run(f, seq(n, _ => Get));
            && g == f.(queued := Rest(f.queued, n))
            && e == NO_EFFECT.(delivered := if n < |f.queued| then f.queued[..n] else f.queued)
    decreases n
  {
    hide Run;
    if n == 0 {
      RunNothing(f);
    } else {
      assert seq(n, _ => Get) == [Get] + seq(n - 1, _ => Get);
      RunCons(f, Get, seq(n - 1, _ => Get));
      GetsDeliver(Step(f, Get).0, n - 1);
    }
  }

  /** And nothing else delivers an event. */
  lemma {:induction false} GetsAloneDeliver(f: Fifo, ops: seq<Op>)
    requires Get !in ops
    ensures Run(f, ops).1.delivered == []
    decreases |ops|
  {
    if ops != [] {
      assert ops[0] != Get;
      GetsAloneDeliver(Step(f, ops[0]).0, ops[1..]);
    }
  }

  /** The loop moves the pending events behind the others, in order. */
  lemma {:induction false} DrainsMove(f: Fifo, n: nat)
    requires f.ready && n <= |f.pending|
    ensures Run(f, seq(n, _ => Drain(false)))
            == (Fifo(true, f.pending[n..], f.queued + f.pending[..n]), NO_EFFECT)
    decreases n
  {
    if n == 0 {
      assert f.pending[0..] == f.pending && f.queued + [] == f.queued;
    } else {
      assert seq(n, _ => Drain(false)) == [Drain(false)] + seq(n - 1, _ => Drain(false));
      RunCons(f, Drain(false), seq(n - 1, _ => Drain(false)));
      var g := Step(f, Drain(false)).0;
      DrainsMove(g, n - 1);
      assert g.queued + g.pending[..n - 1] == f.queued + f.pending[..n];
    }
  }

  // ---------------------------------------------------------------------------
  // Order
  // ---------------------------------------------------------------------------

  /** The waiting events in the order they will be delivered. */
  function Waiting(f: Fifo): seq<Event> {
    f.queued + f.pending
  }

  /** The buffer takes an event while another one from before the start has not been moved over. */
  ghost predicate Disturbs(f: Fifo, op: Op) {
    op.Add? && Asked(op) != [] && !op.refused && f.ready && exists p :: p in f.pending && p != op.event
  }

  /** No operation of the run disturbs the moving of the events from before the start. */
  ghost predicate Undisturbed(f: Fifo, ops: seq<Op>)
    decreases |ops|
  {
    ops == [] || (!Disturbs(f, ops[0]) && Undisturbed(Step(f, ops[0]).0, ops[1..]))
  }

  ghost predicate IsSubsequence(s: seq<Event>, t: seq<Event>)
    decreases |t|
  {
    if s == [] then true
    else if t == [] then false
    else (s[0] == t[0] && IsSubsequence(s[1..], t[1..])) || IsSubsequence(s, t[1..])
  }

  lemma {:induction false} SubsequenceRefl(s: seq<Event>)
    ensures IsSubsequence(s, s)
    decreases |s|
  {
    if s != [] {
      SubsequenceRefl(s[1..]);
    }
  }

  lemma {:induction false} SubsequenceSkip(a: seq<Event>, x: seq<Event>, b: seq<Event>)
    ensures IsSubsequence(a + b, a + x + b)
    decreases |a|, |x|
  {
    if a != [] {
      SubsequenceSkip(a[1..], x, b);
      assert (a + b)[1..] == a[1..] + b && (a + x + b)[1..] == a[1..] + x + b;
    } else if x != [] {
      SubsequenceSkip(a, x[1..], b);
      assert (a + x + b)[1..] == a + x[1..] + b;
    } else {
      SubsequenceRefl(b);
      assert a + b == b && a + x + b == b;
    }
  }

  lemma {:induction false} SubsequencePrepend(a: seq<Event>, s: seq<Event>, t: seq<Event>)
    requires IsSubsequence(s, t)
    ensures IsSubsequence(a + s, a + t)
    decreases |a|
  {
    if a == [] {
      assert a + s == s && a + t == t;
    } else {
      SubsequencePrepend(a[1..], s, t);
      assert (a + s)[1..] == a[1..] + s && (a + t)[1..] == a[1..] + t;
    }
  }

  lemma {:induction false} SubsequenceTrans(s: seq<Event>, t: seq<Event>, u: seq<Event>)
    requires IsSubsequence(s, t) && IsSubsequence(t, u)
    ensures IsSubsequence(s, u)
    decreases |u|
  {
    if s != [] && t != [] {
      if t[0] == u[0] && IsSubsequence(t[1..], u[1..]) {
        if s[0] == t[0] && IsSubsequence(s[1..], t[1..]) {
          SubsequenceTrans(s[1..], t[1..], u[1..]);
        } else {
          SubsequenceTrans(s, t[1..], u[1..]);
        }
      } else {
        SubsequenceTrans(s, t, u[1..]);
      }
    }
  }

  lemma {:induction false} SubsequenceAppend(s: seq<Event>, t: seq<Event>, a: seq<Event>)
    requires IsSubsequence(s, t)
    ensures IsSubsequence(s + a, t + a)
    decreases |t|
  {
    if t == [] {
      SubsequenceRefl(a);
      assert s + a == a && t + a == a;
    } else if s == [] {
      SubsequenceAppend(s, t[1..], a);
      assert (t + a)[1..] == t[1..] + a;
    } else {
      assert (t + a)[1..] == t[1..] + a && (s + a)[1..] == s[1..] + a;
      if s[0] == t[0] && IsSubsequence(s[1..], t[1..]) {
        SubsequenceAppend(s[1..], t[1..], a);
      } else {
        SubsequenceAppend(s, t[1..], a);
      }
    }
  }

  /** What comes out of a step, then waits, against what waited, then was asked for. */
  ghost predicate KeepsOrder(f: Fifo, asked: seq<Event>, e: Effect, g: Fifo) {
    var before, after := Waiting(f) + asked, e.delivered + Waiting(g);
    IsSubsequence(after, before) && (e.lost == [] ==> after == before)
  }

  lemma ToBufferKeepsOrder(f: Fifo, x: Event, refused: bool)
    ensures var (g, e) := ToBuffer(f, x, refused);
            IsSubsequence(Waiting(g), f.queued + [x] + f.pending)
            && (e.lost == [] ==> Waiting(g) == f.queued + [x] + f.pending)
  {
    SubsequenceSkip(f.queued, [x], f.pending);
    SubsequenceRefl(f.queued + [x] + f.pending);
  }

  lemma {:induction false} RotatedIsUniform(x: Event, s: seq<Event>)
    requires [x] + s == s + [x]
    ensures forall p :: p in s ==> p == x
  {
    if s != [] {
      var rest := s[1..];
      assert s == [s[0]] + rest;
      assert ([x] + s)[0] == s[0] && ([x] + s)[1..] == s && (s + [x])[1..] == rest + [x];
      RotatedIsUniform(x, rest);
    }
  }

  lemma Rotated(x: Event, s: seq<Event>)
    ensures [x] + s == s + [x] <==> forall p :: p in s ==> p == x
  {
    if [x] + s == s + [x] {
      RotatedIsUniform(x, s);
    }
    if forall p :: p in s ==> p == x {
      assert forall k :: 0 <= k < |s| ==> s[k] in s;
      assert [x] + s == s + [x];
    }
  }

  /** The buffer takes an event: the order is kept if and only if no other one is pending. */
  lemma TakenKeepsOrder(f: Fifo, x: Event)
    requires f.ready && Asked(Add(x, false)) != []
    ensures var (g, e) := Step(f, Add(x, false));
            KeepsOrder(f, [x], e, g) <==> forall p :: p in f.pending ==> p == x
  {
    hide IsSubsequence;
    var (g, e) := Step(f, Add(x, false));
    var before, after := Waiting(f) + [x], e.delivered + Waiting(g);
    assert before == f.queued + (f.pending + [x]) && after == f.queued + ([x] + f.pending);
    assert before[|f.queued|..] == f.pending + [x] && after[|f.queued|..] == [x] + f.pending;
    Rotated(x, f.pending);
    SubsequenceRefl(before);
  }

  lemma AddKeepsOrder(f: Fifo, x: Event, refused: bool)
    ensures var (g, e) := Step(f, Add(x, refused));
            KeepsOrder(f, Asked(Add(x, refused)), e, g) <==> !Disturbs(f, Add(x, refused))
  {
    hide IsSubsequence;
    var op := Add(x, refused);
    var (g, e) := Step(f, op);
    if Asked(op) != [] && f.ready && !refused {
      TakenKeepsOrder(f, x);
    } else {
      SubsequenceRefl(Waiting(f));
      SubsequenceSkip(Waiting(f), Asked(op), []);
      assert Waiting(f) + [] == Waiting(f) && Waiting(f) + Asked(op) + [] == Waiting(f) + Asked(op);
      SubsequenceRefl(Waiting(f) + Asked(op));
      assert e.delivered + Waiting(g) == Waiting(g);
      assert e.lost == [] ==> Waiting(g) == Waiting(f) + Asked(op);
      assert e.lost != [] ==> Waiting(g) == Waiting(f);
    }
  }

  lemma DrainKeepsOrder(f: Fifo, refused: bool)
    requires f.ready && f.pending != []
    ensures var (g, e) := Step(f, Drain(refused)); KeepsOrder(f, [], e, g)
  {
    hide IsSubsequence;
    ToBufferKeepsOrder(f.(pending := f.pending[1..]), f.pending[0], refused);
    var (g, e) := Step(f, Drain(refused));
    assert f.queued + [f.pending[0]] + f.pending[1..] == Waiting(f) + [] && e.delivered + Waiting(g) == Waiting(g);
  }

  lemma SetBufferKeepsOrder(f: Fifo)
    ensures var (g, e) := Step(f, SetBuffer); KeepsOrder(f, [], e, g)
  {
    hide IsSubsequence;
    SubsequenceSkip([], f.queued, f.pending);
    SubsequenceRefl(f.pending);
    assert [] + f.queued + f.pending == Waiting(f) + [] && [] + f.pending == f.pending;
  }

  /** A step keeps the order, but for what it loses, if and only if it does not disturb. */
  lemma StepKeepsOrder(f: Fifo, op: Op)
    ensures KeepsOrder(f, Asked(op), Step(f, op).1, Step(f, op).0) <==> !Disturbs(f, op)
  {
    hide IsSubsequence;
    if op.Add? {
      AddKeepsOrder(f, op.event, op.refused);
    } else if op.Drain? && f.ready && f.pending != [] {
      DrainKeepsOrder(f, op.refused);
    } else if op.SetBuffer? {
      SetBufferKeepsOrder(f);
    } else {
      var (g, e) := Step(f, op);
      SubsequenceRefl(Waiting(f));
      assert e.delivered + Waiting(g) == Waiting(f) && Waiting(f) + [] == Waiting(f);
    }
  }

  lemma OrderComposes(f: Fifo, a: seq<Event>, e: Effect, g: Fifo, a': seq<Event>, e': Effect, h: Fifo)
    requires KeepsOrder(f, a, e, g) && KeepsOrder(g, a', e', h)
    ensures KeepsOrder(f, a + a', Join(e, e'), h)
  {
    hide IsSubsequence;
    var s := e.delivered + (e'.delivered + Waiting(h));
    var t := e.delivered + (Waiting(g) + a');
    var u := Waiting(f) + a + a';
    SubsequencePrepend(e.delivered, e'.delivered + Waiting(h), Waiting(g) + a');
    SubsequenceAppend(e.delivered + Waiting(g), Waiting(f) + a, a');
    assert t == e.delivered + Waiting(g) + a';
    SubsequenceTrans(s, t, u);
    assert s == e.delivered + e'.delivered + Waiting(h) && u == Waiting(f) + (a + a');
  }

  /**
    First in, first out, in every undisturbed run: what is delivered, followed by what still
    waits, is what was added, in order, less what was lost.
  */
  lemma {:induction false} FirstInFirstOut(f: Fifo, ops: seq<Op>)
    requires Undisturbed(f, ops)
    ensures var (g, e) := Run(f, ops); IsSubsequence(e.delivered + Waiting(g), Waiting(f) + AskedAll(ops))
    ensures var (g, e) := Run(f, ops); e.lost == [] ==> e.delivered + Waiting(g) == Waiting(f) + AskedAll(ops)
    decreases |ops|
  {
    hide IsSubsequence, Step, Asked;
    if ops == [] {
      SubsequenceRefl(Waiting(f));
      assert Waiting(f) + [] == Waiting(f) && [] + Waiting(f) == Waiting(f);
    } else {
      var (g, e) := Step(f, ops[0]);
      var (h, e') := Run(g, ops[1..]);
      StepKeepsOrder(f, ops[0]);
      FirstInFirstOut(g, ops[1..]);
      OrderComposes(f, Asked(ops[0]), e, g, AskedAll(ops[1..]), e', h);
    }
  }

  /** An event that disturbs overtakes every event still pending. */
  lemma AddDuringDrainOvertakes(f: Fifo, op: Op)
    requires Disturbs(f, op)
    ensures Waiting(Step(f, op).0) == f.queued + [op.event] + f.pending
    ensures Waiting(Step(f, op).0) != Waiting(f) + [op.event]
  {
    var before, after := Waiting(f) + [op.event], f.queued + [op.event] + f.pending;
    assert before[|f.queued|..] == f.pending + [op.event] && after[|f.queued|..] == [op.event] + f.pending;
    Rotated(op.event, f.pending);
  }

  ghost predicate AllDistinct(s: seq<Event>) {
    forall i, j :: 0 <= i < j < |s| ==> s[i] != s[j]
  }

  /** Whatever a step without losses does, it only puts events between those that wait. */
  lemma StepInserts(f: Fifo, op: Op)
    requires Step(f, op).1.lost == []
    ensures var (g, e) := Step(f, op); IsSubsequence(Waiting(f), e.delivered + Waiting(g))
  {
    hide IsSubsequence, Waiting;
    var (g, e) := Step(f, op);
    SubsequenceRefl(Waiting(f));
    if Asked(op) != [] {
      if f.ready {
        SubsequenceSkip(f.queued, [op.event], f.pending);
        WaitingIs(f);
        WaitingIs(g);
        assert e.delivered + Waiting(g) == f.queued + [op.event] + f.pending;
      } else {
        SubsequenceSkip(Waiting(f), [op.event], []);
        WaitingIs(f);
        WaitingIs(g);
        assert Waiting(f) + [] == Waiting(f);
        assert e.delivered + Waiting(g) == Waiting(f) + [op.event] + [];
      }
    } else {
      WaitingIs(f);
      WaitingIs(g);
      assert e.delivered + Waiting(g) == Waiting(f);
    }
  }

  lemma WaitingIs(f: Fifo)
    ensures Waiting(f) == f.queued + f.pending
  {
  }

  /** In a run without losses, events that wait come out in the order in which they wait. */
  lemma {:induction false} RunInserts(f: Fifo, ops: seq<Op>)
    requires Run(f, ops).1.lost == []
    ensures var (g, e) := Run(f, ops); IsSubsequence(Waiting(f), e.delivered + Waiting(g))
    decreases |ops|
  {
    hide IsSubsequence, Step, Waiting;
    if ops == [] {
      SubsequenceRefl(Waiting(f));
      assert [] + Waiting(f) == Waiting(f);
    } else {
      var (g, e) := Step(f, ops[0]);
      var (h, e') := Run(g, ops[1..]);
      StepInserts(f, ops[0]);
      RunInserts(g, ops[1..]);
      SubsequencePrepend(e.delivered, Waiting(g), e'.delivered + Waiting(h));
      SubsequenceTrans(Waiting(f), e.delivered + Waiting(g), e.delivered + (e'.delivered + Waiting(h)));
      assert e.delivered + (e'.delivered + Waiting(h)) == e.delivered + e'.delivered + Waiting(h);
    }
  }

  /** Among distinct events, those of a subsequence are at increasing places. */
  lemma {:induction false} SubsequencePlaces(s: seq<Event>, t: seq<Event>, i: nat, j: nat, k: nat, l: nat)
    requires IsSubsequence(s, t) && AllDistinct(t)
    requires i < j < |s| && k < |t| && l < |t| && s[i] == t[k] && s[j] == t[l]
    ensures k < l
    decreases |t|
  {
    assert AllDistinct(t[1..]);
    if s[0] == t[0] && IsSubsequence(s[1..], t[1..]) {
      SubsequenceMembers(s[1..], t[1..], j - 1);
      if i > 0 {
        SubsequenceMembers(s[1..], t[1..], i - 1);
        SubsequencePlaces(s[1..], t[1..], i - 1, j - 1, k - 1, l - 1);
      }
    } else {
      SubsequenceMembers(s, t[1..], i);
      SubsequenceMembers(s, t[1..], j);
      SubsequencePlaces(s, t[1..], i, j, k - 1, l - 1);
    }
  }

  lemma {:induction false} SubsequenceMembers(s: seq<Event>, t: seq<Event>, i: nat)
    requires IsSubsequence(s, t) && i < |s|
    ensures s[i] in t
    decreases |t|
  {
    if s[0] == t[0] && IsSubsequence(s[1..], t[1..]) {
      if i > 0 {
        SubsequenceMembers(s[1..], t[1..], i - 1);
      }
    } else {
      SubsequenceMembers(s, t[1..], i);
    }
  }

  /** After a disturbance among distinct events the order cannot be restored. */
  lemma DisturbanceStays(f: Fifo, op: Op, rest: seq<Op>)
    requires Disturbs(f, op) && Step(f, op).1.lost == [] && Run(Step(f, op).0, rest).1.lost == []
    requires AllDistinct(Waiting(f) + ([op.event] + AskedAll(rest)))
    ensures var (h, e) := Run(Step(f, op).0, rest);
            e.delivered + Waiting(h) != Waiting(f) + ([op.event] + AskedAll(rest))
  {
    hide IsSubsequence, Run, Asked;
    var g, t := Step(f, op).0, Waiting(f) + ([op.event] + AskedAll(rest));
    var (h, e) := Run(g, rest);
    AddDuringDrainOvertakes(f, op);
    RunInserts(g, rest);
    if e.delivered + Waiting(h) == t {
      var q := |f.queued|;
      assert Waiting(g)[q] == op.event == t[q + |f.pending|] && Waiting(g)[q + 1] == f.pending[0] == t[q];
      SubsequencePlaces(Waiting(g), t, q, q + 1, q + |f.pending|, q);
      assert false;
    }
  }

  /**
    Among distinct events and without losses, a run is first in, first out if and only if it is
    undisturbed.
  */
  lemma {:induction false} FirstInFirstOutExactly(f: Fifo, ops: seq<Op>)
    requires Run(f, ops).1.lost == [] && AllDistinct(Waiting(f) + AskedAll(ops))
    ensures var (g, e) := Run(f, ops);
            e.delivered + Waiting(g) == Waiting(f) + AskedAll(ops) <==> Undisturbed(f, ops)
    decreases |ops|
  {
    hide IsSubsequence, Step, Asked, Disturbs, Waiting;
    if ops == [] {
      assert Waiting(f) + [] == Waiting(f) && [] + Waiting(f) == Waiting(f);
    } else {
      var op, rest := ops[0], ops[1..];
      var (g, e) := Step(f, op);
      var (h, e') := Run(g, rest);
      var asked := Asked(op);
      assert e.delivered + e'.delivered + Waiting(h) == e.delivered + (e'.delivered + Waiting(h));
      assert Waiting(f) + (asked + AskedAll(rest)) == Waiting(f) + asked + AskedAll(rest);
      if Disturbs(f, op) {
        DisturbsAdds(f, op);
        DisturbanceStays(f, op, rest);
      } else {
        StepKeepsOrder(f, op);
        assert e.delivered + Waiting(g) == Waiting(f) + asked;
        OrderCancels(e.delivered, Waiting(g), Waiting(f) + asked, AskedAll(rest), e'.delivered + Waiting(h));
        FirstInFirstOutExactly(g, rest);
      }
    }
  }

  lemma DisturbsAdds(f: Fifo, op: Op)
    requires Disturbs(f, op)
    ensures Asked(op) == [op.event] && Step(f, op).1 == NO_EFFECT
  {
  }

  lemma OrderCancels(a: seq<Event>, b: seq<Event>, c: seq<Event>, d: seq<Event>, r: seq<Event>)
    requires a + b == c && AllDistinct(c + d)
    ensures AllDistinct(b + d)
    ensures a + r == c + d <==> r == b + d
  {
    assert c + d == a + (b + d);
    assert (c + d)[|a|..] == b + d && (a + r)[|a|..] == r;
  }

  // ---------------------------------------------------------------------------
  // Ids
  // ---------------------------------------------------------------------------

  const ID_RANGE: nat := 0x1_0000_0000

  ghost predicate NoDuplicates(ids: seq<nat>) {
    forall i, j :: 0 <= i < j < |ids| ==> ids[i] != ids[j]
  }

  /** Ids in the table and free ids are disjoint and together exactly 0, 1, ..., k - 1. */
  ghost predicate IdsPartition(events: map<nat, Event>, free: seq<nat>) {
    && NoDuplicates(free)
    && (forall id :: id in free ==> id !in events)
    && (forall id :: id in events || id in free ==> id < |events| + |free|)
    && (forall id :: 0 <= id < |events| + |free| ==> id in events || id in free)
  }

  /** The id save_event picks: the last one freed, else the size of the table as a 32-bit word. */
  function NextId(events: map<nat, Event>, free: seq<nat>): nat {
    if free != [] then free[|free| - 1] else |events| % ID_RANGE
  }

  /** The id is unused in exactly the states with a free id or fewer than 2^32 saved events. */
  lemma NextIdIsUnused(events: map<nat, Event>, free: seq<nat>)
    requires IdsPartition(events, free)
    ensures NextId(events, free) !in events <==> free != [] || |events| < ID_RANGE
  {
    if free == [] && |events| >= ID_RANGE {
      assert |events| % ID_RANGE < |events|;
    }
  }

  lemma LastOfDistinct(ids: seq<nat>)
    requires NoDuplicates(ids) && ids != []
    ensures var id, rest := ids[|ids| - 1], ids[..|ids| - 1];
            && NoDuplicates(rest) && id !in rest
            && forall k :: k in ids <==> k in rest || k == id
  {
    var id, rest := ids[|ids| - 1], ids[..|ids| - 1];
    assert ids == rest + [id];
    assert forall i :: 0 <= i < |rest| ==> rest[i] == ids[i] != id;
  }

  lemma ReuseId(events: map<nat, Event>, free: seq<nat>, e: Event)
    requires IdsPartition(events, free) && free != []
    ensures var id := free[|free| - 1]; id !in events && IdsPartition(events[id := e], free[..|free| - 1])
  {
    var id, rest := free[|free| - 1], free[..|free| - 1];
    LastOfDistinct(free);
    hide NoDuplicates;
    assert |events[id := e]| == |events| + 1;
  }

  lemma FreshId(events: map<nat, Event>, e: Event)
    requires IdsPartition(events, [])
    ensures |events| !in events && IdsPartition(events[|events| := e], [])
  {
    assert |events[|events| := e]| == |events| + 1;
  }

  lemma ReleaseId(events: map<nat, Event>, free: seq<nat>, id: nat)
    requires IdsPartition(events, free) && id in events
    ensures IdsPartition(events - {id}, free + [id])
  {
    var rest := events - {id};
    assert events == rest[id := events[id]];
    assert |rest| == |events| - 1;
  }

  /** The saved events of the buffered ids; the buffer keeps its newest id at the front. */
  ghost function Saved(events: map<nat, Event>, queue: seq<nat>): (s: seq<Event>)
    requires forall id :: id in queue ==> id in events
    ensures |s| == |queue|
    ensures forall i :: 0 <= i < |queue| ==> s[i] == events[queue[|queue| - 1 - i]]
  {
    seq(|queue|, i requires 0 <= i < |queue| => events[queue[|queue| - 1 - i]])
  }

  lemma SavedAgrees(events: map<nat, Event>, events': map<nat, Event>, queue: seq<nat>)
    requires forall id :: id in queue ==> id in events && id in events' && events[id] == events'[id]
    ensures Saved(events, queue) == Saved(events', queue)
  {
  }

  lemma SavedPushed(events: map<nat, Event>, queue: seq<nat>, id: nat)
    requires id in events && forall k :: k in queue ==> k in events
    ensures forall k :: k in [id] + queue ==> k in events
    ensures Saved(events, [id] + queue) == Saved(events, queue) + [events[id]]
  {
  }

  lemma SavedPopped(events: map<nat, Event>, queue: seq<nat>)
    requires queue != [] && forall k :: k in queue ==> k in events
    ensures forall k :: k in queue[..|queue| - 1] ==> k in events
    ensures Saved(events, queue) == [events[queue[|queue| - 1]]] + Saved(events, queue[..|queue| - 1])
  {
  }

  lemma NothingSaved(events: map<nat, Event>)
    ensures Saved(events, []) == []
  {
  }

  /** The oldest id and its event are taken away, the others still belong together. */
  lemma OldestRemoved(events: map<nat, Event>, queue: seq<nat>)
    requires queue != [] && NoDuplicates(queue) && |queue| == |events| && forall id :: id in queue <==> id in events
    ensures var id, rest := queue[|queue| - 1], queue[..|queue| - 1];
            && id in events && NoDuplicates(rest) && |rest| == |events - {id}|
            && (forall k :: k in rest <==> k in events - {id})
            && Saved(events, queue) == [events[id]] + Saved(events - {id}, rest)
  {
    hide NoDuplicates, Saved;
    var id, rest := queue[|queue| - 1], queue[..|queue| - 1];
    LastOfDistinct(queue);
    SavedPopped(events, queue);
    assert events == (events - {id})[id := events[id]];
    SavedAgrees(events, events - {id}, rest);
  }

  // ---------------------------------------------------------------------------
  // The original's objects
  // ---------------------------------------------------------------------------

  /** A deque of ids; addEvent pushes at the front and getEvent pops at the back. */
  class SimpleEventQueueBuffer {
    var queue: seq<nat>
    var queueReady: bool

    ghost predicate Valid()
      reads this
    {
      queueReady == (queue != [])
    }

    constructor ()
      ensures Valid() && queue == []
    {
      queue, queueReady := [], false;
    }

    /** The id popped, or None (the original's kNone) when the buffer is not ready. */
    method GetEvent() returns (dataID: Option<nat>)
      requires Valid()
      modifies this
      ensures Valid()
      ensures old(queue) == [] ==> dataID == None && queue == []
      ensures old(queue) != [] ==>
                dataID == Some(old(queue)[|old(queue)| - 1]) && queue == old(queue)[..|old(queue)| - 1]
    {
      if !queueReady {
        return None;
      }
      dataID := Some(queue[|queue| - 1]);
      queue := queue[..|queue| - 1];
      queueReady := queue != [];
    }

    method AddEvent(dataID: nat) returns (taken: bool)
      requires Valid()
      modifies this
      ensures Valid() && taken
      ensures queue == [dataID] + old(queue)
    {
      queue := [dataID] + queue;
      if !queueReady {
        queueReady := true;
      }
      taken := true;
    }

    method IsEmpty() returns (empty: bool)
      requires Valid()
      ensures empty == (queue == [])
    {
      empty := !queueReady;
    }
  }

  class EventQueue {
    var events: map<nat, Event>
    var oldEventIDs: seq<nat>
    var buffer: SimpleEventQueueBuffer
    var pending: seq<Event>
    var isReady: bool

    ghost predicate Valid()
      reads this, buffer
    {
      && buffer.Valid()
      && IdsPartition(events, oldEventIDs)
      && NoDuplicates(buffer.queue)
      && (forall id :: id in buffer.queue <==> id in events)
      && |buffer.queue| == |events|
    }

    /** The plain queue this object stands for. */
    ghost function View(): Fifo
      reads this, buffer
      requires Valid()
    {
      Fifo(isReady, pending, Saved(events, buffer.queue))
    }

    constructor ()
      ensures Valid() && View() == EMPTY && fresh(buffer)
    {
      buffer := new SimpleEventQueueBuffer();
      events, oldEventIDs, pending, isReady := map[], [], [], false;
    }

    method SaveEvent(event: Event) returns (id: nat)
      requires IdsPartition(events, oldEventIDs)
      requires oldEventIDs != [] || |events| < ID_RANGE
      modifies this`events, this`oldEventIDs
      ensures IdsPartition(events, oldEventIDs)
      ensures id !in old(events) && events == old(events)[id := event]
    {
      hide IdsPartition;
      if oldEventIDs != [] {
        ReuseId(events, oldEventIDs, event);
        id := oldEventIDs[|oldEventIDs| - 1];
        oldEventIDs := oldEventIDs[..|oldEventIDs| - 1];
      } else {
        FreshId(events, event);
        id := |events| % ID_RANGE;
      }
      events := events[id := event];
    }

    /** The event saved under id, or None (a default event) if there is none. */
    method RemoveEvent(id: nat) returns (event: Option<Event>)
      requires IdsPartition(events, oldEventIDs)
      modifies this`events, this`oldEventIDs
      ensures IdsPartition(events, oldEventIDs)
      ensures id !in old(events) ==> event == None && events == old(events)
      ensures id in old(events) ==> event == Some(old(events)[id]) && events == old(events) - {id}
    {
      hide IdsPartition;
      if id !in events {
        return None;
      }
      ReleaseId(events, oldEventIDs, id);
      event := Some(events[id]);
      events := events - {id};
      oldEventIDs := oldEventIDs + [id];
    }

    /** The buffer may refuse the id; the event is then taken out of the table again. */
    method AddEventToBuffer(event: Event, refused: bool) returns (ghost effect: Effect)
      requires Valid() && (oldEventIDs != [] || |events| < ID_RANGE)
      modifies this`events, this`oldEventIDs, buffer
      ensures Valid()
      ensures (View(), effect) == ToBuffer(old(View()), event, refused)
    {
      ghost var queue := buffer.queue;
      var id := SaveEvent(event);
      SavedAgrees(old(events), events, queue);
      var added := false;
      if !refused {
        added := buffer.AddEvent(id);
        SavedPushed(events, queue, id);
      }
      effect := NO_EFFECT;
      if !added {
        var removed := RemoveEvent(id);
        SavedAgrees(old(events), events, queue);
        effect := NO_EFFECT.(lost := [event]);
      }
    }

    /** EventQueue::add_event; a dispatched event is handed to its handler at once. */
    method AddEvent(event: Event, refused: bool) returns (dispatched: Option<Event>, ghost effect: Effect)
      requires Valid() && (oldEventIDs != [] || |events| < ID_RANGE)
      modifies this`events, this`oldEventIDs, this`pending, buffer
      ensures Valid()
      ensures (View(), effect) == Step(old(View()), Add(event, refused))
      ensures dispatched == if effect.dispatched == [] then None else Some(effect.dispatched[0])
    {
      dispatched, effect := None, NO_EFFECT;
      if event.kind.UNKNOWN? || event.kind.SYSTEM? || event.kind.TIMER? {
        return;
      }
      if event.immediate {
        dispatched, effect := Some(event), NO_EFFECT.(dispatched := [event]);
      } else if !isReady {
        pending := pending + [event];
      } else {
        effect := AddEventToBuffer(event, refused);
      }
    }

    /** The start of EventQueue::loop. */
    method StartLoop()
      requires Valid()
      modifies this`isReady
      ensures Valid() && View() == Step(old(View()), Start).0
    {
      isReady := true;
    }

    /** One round of the loop that moves the pending events over; `more` says that there was one. */
    method DrainOne(refused: bool) returns (more: bool, ghost effect: Effect)
      requires Valid() && isReady && (oldEventIDs != [] || |events| < ID_RANGE)
      modifies this`events, this`oldEventIDs, this`pending, buffer
      ensures Valid()
      ensures (View(), effect) == Step(old(View()), Drain(refused))
      ensures more == (old(pending) != [])
    {
      more, effect := pending != [], NO_EFFECT;
      if more {
        var event := pending[0];
        effect := AddEventToBuffer(event, refused);
        pending := pending[1..];
      }
    }

    /** EventQueue::getEvent when it does not wait: the oldest event, if the buffer has one. */
    method GetEvent() returns (event: Option<Event>, ghost effect: Effect)
      requires Valid()
      modifies this`events, this`oldEventIDs, buffer
      ensures Valid()
      ensures (View(), effect) == Step(old(View()), Get)
      ensures event == if effect.delivered == [] then None else Some(effect.delivered[0])
    {
      hide IdsPartition, NoDuplicates, Saved;
      effect := NO_EFFECT;
      var empty := buffer.IsEmpty();
      if empty {
        NothingSaved(events);
        return None, effect;
      }
      OldestRemoved(events, buffer.queue);
      var dataID := buffer.GetEvent();
      event := RemoveEvent(dataID.value);
      effect := NO_EFFECT.(delivered := [event.value]);
    }

    /** EventQueue::set_buffer: the saved events and all ids go with the old buffer. */
    method SetBuffer() returns (ghost effect: Effect)
      requires Valid()
      modifies this`events, this`oldEventIDs, this`buffer
      ensures Valid() && fresh(buffer)
      ensures (View(), effect) == Step(old(View()), Op.SetBuffer)
    {
      effect := NO_EFFECT.(lost := Saved(events, buffer.queue));
      events, oldEventIDs := map[], [];
      buffer := new SimpleEventQueueBuffer();
    }

    /** Any one critical section; the draining only runs once the queue is ready. */
    method Perform(op: Op) returns (ghost effect: Effect)
      requires Valid() && |events| < ID_RANGE
      modifies this, buffer
      ensures Valid() && (buffer == old(buffer) || fresh(buffer))
      ensures (View(), effect) == Step(old(View()), op)
    {
      effect := NO_EFFECT;
      match op {
        case Add(event, refused) =>
          var dispatched;
          dispatched, effect := AddEvent(event, refused);
        case Start =>
          StartLoop();
        case Drain(refused) =>
          if isReady {
            var more;
            more, effect := DrainOne(refused);
          }
        case Get =>
          var event;
          event, effect := GetEvent();
        case SetBuffer =>
          effect := SetBuffer();
      }
    }
  }

  lemma JoinAssociates(a: Effect, b: Effect, c: Effect)
    ensures Join(Join(a, b), c) == Join(a, Join(b, c))
    ensures Join(NO_EFFECT, a) == a && Join(a, NO_EFFECT) == a
  {
  }

  lemma {:induction false} RunSnoc(f: Fifo, ops: seq<Op>, op: Op)
    ensures var (g, e) := Run(f, ops);
            var (h, e') := Step(g, op);
            Run(f, ops + [op]) == (h, Join(e, e'))
    decreases |ops|
  {
    hide Step, Join;
    if ops == [] {
      assert ops + [op] == [op] && [op][1..] == [];
      JoinAssociates(Step(f, op).1, NO_EFFECT, NO_EFFECT);
    } else {
      assert (ops + [op])[0] == ops[0] && (ops + [op])[1..] == ops[1..] + [op];
      var (g, e) := Step(f, ops[0]);
      RunSnoc(g, ops[1..], op);
      JoinAssociates(e, Run(g, ops[1..]).1, Step(Run(g, ops[1..]).0, op).1);
    }
  }

  /**
    A run of any length on the original's objects, from a new queue: it ends in the plain queue's
    state with the plain queue's effects, unless it ever holds so many events that the ids run out.
  */
  method Execute(ops: seq<Op>) returns (q: EventQueue, ghost effect: Effect)
    requires forall i :: 0 <= i < |ops| ==> |Run(EMPTY, ops[..i]).0.queued| < ID_RANGE
    ensures q.Valid()
    ensures (q.View(), effect) == Run(EMPTY, ops)
  {
    hide Step, Join, Run;
    q := new EventQueue();
    effect := NO_EFFECT;
    assert Run(EMPTY, []) == (EMPTY, NO_EFFECT) by { RunNothing(EMPTY); }
    for i := 0 to |ops|
      invariant q.Valid() && fresh(q) && fresh(q.buffer)
      invariant (q.View(), effect) == Run(EMPTY, ops[..i])
    {
      RunSnoc(EMPTY, ops[..i], ops[i]);
      assert ops[..i] + [ops[i]] == ops[..i + 1];
      ghost var e := q.Perform(ops[i]);
      effect := Join(effect, e);
    }
    assert ops[..|ops|] == ops;
  }

  lemma RunNothing(f: Fifo)
    ensures Run(f, []) == (f, NO_EFFECT)
  {
  }
}
