/**
  The client's end of the protocol: messages from the server are handled in batches, and mouse
  motion in a batch is held back until some other input needs the cursor in place. Coordinates are
  unbounded integers and the screen does not clamp the cursor.
*/
module ServerProxy {

  datatype Point = Point(x: int, y: int)

  function Plus(p: Point, d: Point): Point {
    Point(p.x + d.x, p.y + d.y)
  }

  function Minus(p: Point, q: Point): Point {
    Point(p.x - q.x, p.y - q.y)
  }

  const ORIGIN := Point(0, 0)

  /** Messages, with those that the proxy treats alike for motion and parsing taken together. */
  datatype Message =
    | MouseMove(to: Point)
    | MouseRelMove(d: Point)
    | Input(code: nat)       // wheel, key down, up and repeat, button down and up
    | Enter(at: Point)
    | Leave
    | SetOptions
    | InfoAck
    | Quiet                  // query info, reset options, keep alive, no-op
    | Session(code: nat)     // clipboard, screen saver, file transfer
    | Hangup                 // close, protocol error
    | Refusal                // incompatible, busy, unknown client
    | Garbage                // incomplete, unknown or malformed

  /** What the proxy calls on the client. */
  datatype Call = Move(to: Point) | RelMove(d: Point) | Forward(code: nat) | EnterAt(at: Point) | LeaveScreen

  /** A message and the stream's answer, while it is handled, whether more input is ready. */
  datatype Arrival = Arrival(message: Message, ready: bool)

  // ---------------------------------------------------------------------------
  // The proxy as a function of its state
  // ---------------------------------------------------------------------------

  datatype State = State(handshake: bool, compress: bool, compressRel: bool, mouse: Point, delta: Point, ignore: bool)

  const INITIAL := State(true, false, false, ORIGIN, ORIGIN, false)

  function Pending(st: State): seq<Call> {
    (if st.compress then [Move(st.mouse)] else []) + (if st.compressRel then [RelMove(st.delta)] else [])
  }

  function Flushed(st: State): State {
    st.(compress := false, compressRel := false, delta := if st.compressRel then ORIGIN else st.delta)
  }

  datatype Outcome = Outcome(st: State, calls: seq<Call>, open: bool)

  function Step(st: State, a: Arrival): Outcome {
    var m := a.message;
    if m.Hangup? then Outcome(st, [], false)
    else if m.Quiet? then Outcome(st, [], true)
    else if m.InfoAck? then Outcome(st.(ignore := false), [], true)
    else if m.SetOptions? then Outcome(st.(handshake := false), [], true)
    else if st.handshake then Outcome(st, [], false)
    else match m
      case MouseMove(to) =>
        if st.compress || (!st.ignore && a.ready) then
          Outcome(st.(compress := true, compressRel := false, mouse := to, delta := ORIGIN), [], true)
        else Outcome(st, if st.ignore then [] else [Move(to)], true)
      case MouseRelMove(d) =>
        if st.compressRel || (!st.ignore && a.ready) then
          Outcome(st.(compressRel := true, delta := Plus(st.delta, d)), [], true)
        else Outcome(st, if st.ignore then [] else [RelMove(d)], true)
      case Input(code) => Outcome(Flushed(st), Pending(st) + [Forward(code)], true)
      case Enter(at) => Outcome(st.(compress := false, compressRel := false, delta := ORIGIN), [EnterAt(at)], true)
      case Leave => Outcome(Flushed(st), Pending(st) + [LeaveScreen], true)
      case Session(_) => Outcome(st, [], true)
      case _ => Outcome(st, [], false)
  }

  /** A batch: messages until none is left or the connection is given up; then what is pending is sent. */
  function Deliver(st: State, batch: seq<Arrival>): Outcome
    decreases |batch|
  {
    if batch == [] then Outcome(Flushed(st), Pending(st), true)
    else
      var o := Step(st, batch[0]);
      if !o.open then o
      else
        var rest := Deliver(o.st, batch[1..]);
        rest.(calls := o.calls + rest.calls)
  }

  /** What holds between any two messages. */
  predicate Consistent(st: State) {
    && (!st.compressRel ==> st.delta == ORIGIN)
    && (st.ignore ==> !st.compress && !st.compressRel)
    && (st.handshake ==> !st.compress && !st.compressRel)
  }

  predicate Idle(st: State) {
    !st.compress && !st.compressRel && st.delta == ORIGIN
  }

  lemma StepKeepsConsistent(st: State, a: Arrival)
    requires Consistent(st)
    ensures Consistent(Step(st, a).st)
  {
  }

  /** Nothing is pending after a batch that ends normally, so a change of the screen may stop motion then. */
  lemma {:induction false} NothingPendingBetweenBatches(st: State, batch: seq<Arrival>)
    requires Consistent(st)
    ensures Consistent(Deliver(st, batch).st)
    ensures Deliver(st, batch).open ==> Idle(Deliver(st, batch).st)
    ensures Deliver(st, batch).open ==> Consistent(Deliver(st, batch).st.(ignore := true))
    decreases |batch|
  {
    if batch != [] {
      StepKeepsConsistent(st, batch[0]);
      NothingPendingBetweenBatches(Step(st, batch[0]).st, batch[1..]);
    }
  }

  // ---------------------------------------------------------------------------
  // The reference: every motion is delivered at once
  // ---------------------------------------------------------------------------

  function DirectStep(st: State, a: Arrival): Outcome {
    match a.message
    case MouseMove(to) =>
      if st.handshake then Outcome(st, [], false) else Outcome(st, if st.ignore then [] else [Move(to)], true)
    case MouseRelMove(d) =>
      if st.handshake then Outcome(st, [], false) else Outcome(st, if st.ignore then [] else [RelMove(d)], true)
    case _ => Step(st, a)
  }

  function DeliverDirectly(st: State, batch: seq<Arrival>): Outcome
    decreases |batch|
  {
    if batch == [] then Outcome(st, [], true)
    else
      var o := DirectStep(st, batch[0]);
      if !o.open then o
      else
        var rest := DeliverDirectly(o.st, batch[1..]);
        rest.(calls := o.calls + rest.calls)
  }

  // ---------------------------------------------------------------------------
  // What can be observed
  // ---------------------------------------------------------------------------

  datatype Observation = Observation(call: Call, cursor: Point)

  function Moved(p: Point, c: Call): Point {
    match c
    case Move(to) => to
    case RelMove(d) => Plus(p, d)
    case EnterAt(at) => at
    case _ => p
  }

  function Cursor(p: Point, calls: seq<Call>): Point
    decreases |calls|
  {
    if calls == [] then p else Cursor(Moved(p, calls[0]), calls[1..])
  }

  /** The calls other than motion, each with the position of the cursor at that call. */
  function Observe(p: Point, calls: seq<Call>): seq<Observation>
    decreases |calls|
  {
    if calls == [] then []
    else
      (if calls[0].Move? || calls[0].RelMove? then [] else [Observation(calls[0], Moved(p, calls[0]))])
      + Observe(Moved(p, calls[0]), calls[1..])
  }

  lemma {:induction false} ObserveConcat(p: Point, a: seq<Call>, b: seq<Call>)
    ensures Cursor(p, a + b) == Cursor(Cursor(p, a), b)
    ensures Observe(p, a + b) == Observe(p, a) + Observe(Cursor(p, a), b)
    decreases |a|
  {
    if a == [] {
      assert a + b == b;
    } else {
      assert (a + b)[1..] == a[1..] + b;
      ObserveConcat(Moved(p, a[0]), a[1..], b);
    }
  }

  /** Where the cursor would be if what is pending were sent now. */
  function Settled(st: State, p: Point): Point {
    Plus(if st.compress then st.mouse else p, if st.compressRel then st.delta else ORIGIN)
  }

  // ---------------------------------------------------------------------------
  // What compression loses
  // ---------------------------------------------------------------------------

  /** A motion is forwarded directly while motion of the other kind is pending. */
  predicate Mixes(st: State, a: Arrival) {
    && !st.handshake && !st.ignore && !a.ready
    && ((a.message.MouseMove? && !st.compress && st.compressRel)
        || (a.message.MouseRelMove? && !st.compressRel && st.compress))
  }

  /**
    The displacement, after a step, of the cursor that the user should see from the one the
    compressed motion will produce.
  */
  function NextLoss(st: State, loss: Point, a: Arrival): Point {
    if st.handshake then loss
    else match a.message
      case MouseMove(_) =>
        if st.ignore then loss
        else if Mixes(st, a) then Minus(ORIGIN, st.delta)
        else ORIGIN
      case MouseRelMove(d) => if Mixes(st, a) then Plus(loss, d) else loss
      case Enter(_) => ORIGIN
      case _ => loss
  }

  predicate IsObserved(st: State, m: Message) {
    !st.handshake && (m.Input? || m.Leave? || m.Enter?)
  }

  /** The loss at each observation of a batch, and at its end. */
  function Losses(st: State, loss: Point, batch: seq<Arrival>): (seq<Point>, Point)
    decreases |batch|
  {
    if batch == [] || !Step(st, batch[0]).open then ([], loss)
    else
      var next := NextLoss(st, loss, batch[0]);
      var (rest, last) := Losses(Step(st, batch[0]).st, next, batch[1..]);
      ((if IsObserved(st, batch[0].message) then [next] else []) + rest, last)
  }

  function Shifted(obs: seq<Observation>, losses: seq<Point>): (r: seq<Observation>)
    requires |losses| == |obs|
    ensures |r| == |obs|
    ensures forall i :: 0 <= i < |obs| ==> r[i] == Observation(obs[i].call, Plus(obs[i].cursor, losses[i]))
  {
    seq(|obs|, i requires 0 <= i < |obs| => Observation(obs[i].call, Plus(obs[i].cursor, losses[i])))
  }

  /** The reference's state: it never holds motion back. */
  function Direct(st: State): State {
    State(st.handshake, false, false, ORIGIN, ORIGIN, st.ignore)
  }

  lemma PendingSettles(st: State, p: Point)
    ensures Cursor(p, Pending(st)) == Settled(st, p)
    ensures Observe(p, Pending(st)) == []
    ensures Settled(Flushed(st), Settled(st, p)) == Settled(st, p)
  {
    var m := if st.compress then [Move(st.mouse)] else [];
    var r := if st.compressRel then [RelMove(st.delta)] else [];
    ObserveConcat(p, m, r);
  }

  /**
    One step seen from outside: the compressing proxy makes `calls` with the cursor at p, the
    reference makes `direct` with the cursor displaced by `loss` from the settled one; afterwards
    the displacement is `next`, and an observation, if there is one, is the same call with the
    cursor displaced by `next`.
  */
  ghost predicate Tracks(p: Point, calls: seq<Call>, now: Point, ref: Point, direct: seq<Call>, next: Point,
                         call: seq<Call>) {
    && |call| <= 1
    && Cursor(ref, direct) == Plus(now, next)
    && Observe(p, calls) == (if call == [] then [] else [Observation(call[0], now)])
    && Observe(ref, direct) == (if call == [] then [] else [Observation(call[0], Plus(now, next))])
  }

  function ObservedCall(st: State, m: Message): (c: seq<Call>)
    ensures |c| == if IsObserved(st, m) then 1 else 0
  {
    if !IsObserved(st, m) then []
    else match m
      case Input(code) => [Forward(code)]
      case Leave => [LeaveScreen]
      case Enter(at) => [EnterAt(at)]
      case _ => []
  }

  ghost predicate StepTracks(st: State, p: Point, loss: Point, a: Arrival) {
    var o, d := Step(st, a), DirectStep(Direct(st), a);
    && d.open && d.st == Direct(o.st)
    && Tracks(p, o.calls, Settled(o.st, Cursor(p, o.calls)), Plus(Settled(st, p), loss), d.calls,
              NextLoss(st, loss, a), ObservedCall(st, a.message))
  }

  lemma MoveTracks(st: State, p: Point, loss: Point, a: Arrival)
    requires Consistent(st) && Step(st, a).open && (a.message.MouseMove? || a.message.MouseRelMove?)
    ensures StepTracks(st, p, loss, a)
  {
    var o, d := Step(st, a), DirectStep(Direct(st), a);
    assert |o.calls| <= 1 && |d.calls| <= 1;
    assert o.calls != [] ==> o.calls[1..] == [];
    assert d.calls != [] ==> d.calls[1..] == [];
  }

  lemma ForwardTracks(st: State, p: Point, loss: Point, a: Arrival)
    requires Consistent(st) && !st.handshake && (a.message.Input? || a.message.Leave?)
    ensures StepTracks(st, p, loss, a)
  {
    var call := ObservedCall(st, a.message);
    ObserveConcat(p, Pending(st), call);
    PendingSettles(st, p);
    var d := DirectStep(Direct(st), a);
    assert Pending(Direct(st)) == [] && d.calls == call;
    assert call[1..] == [];
  }

  lemma OtherTracks(st: State, p: Point, loss: Point, a: Arrival)
    requires Consistent(st) && Step(st, a).open
    requires !a.message.MouseMove? && !a.message.MouseRelMove? && !a.message.Input? && !a.message.Leave?
    ensures StepTracks(st, p, loss, a)
  {
    var calls := Step(st, a).calls;
    assert calls != [] ==> calls[1..] == [];
  }

  /** One message: the reference cursor is the settled one displaced by the loss, before and after. */
  lemma StepLoss(st: State, p: Point, loss: Point, a: Arrival)
    requires Consistent(st) && Step(st, a).open
    ensures StepTracks(st, p, loss, a)
  {
    if a.message.MouseMove? || a.message.MouseRelMove? {
      MoveTracks(st, p, loss, a);
    } else if a.message.Input? || a.message.Leave? {
      ForwardTracks(st, p, loss, a);
    } else {
      OtherTracks(st, p, loss, a);
    }
  }

  lemma StepCloses(st: State, a: Arrival)
    requires !Step(st, a).open
    ensures Step(st, a) == Outcome(st, [], false) && DirectStep(Direct(st), a) == Outcome(Direct(st), [], false)
  {
  }

  lemma EndOfBatch(st: State, p: Point, loss: Point)
    ensures Deliver(st, []).calls == Pending(st) && DeliverDirectly(Direct(st), []).calls == []
    ensures DeliverDirectly(Direct(st), []).st == Direct(Deliver(st, []).st)
    ensures Observe(p, Pending(st)) == [] && Cursor(p, Pending(st)) == Settled(st, p)
    ensures Observe(p, []) == [] && Cursor(p, []) == p
    ensures Losses(st, loss, []) == ([], loss)
  {
    PendingSettles(st, p);
  }

  lemma ShiftedConcat(a: seq<Observation>, l: seq<Point>, b: seq<Observation>, m: seq<Point>)
    requires |a| == |l| && |b| == |m|
    ensures Shifted(a + b, l + m) == Shifted(a, l) + Shifted(b, m)
  {
  }

  /**
    A whole batch, whatever the messages and the answers about more input: the two deliveries make
    the same observable calls, and the cursor the user should see is, at each of them and at the
    end, the one compression produces displaced by the loss.
  */
  lemma {:induction false} BatchLoss(st: State, p: Point, loss: Point, batch: seq<Arrival>)
    requires Consistent(st)
    ensures var o, d := Deliver(st, batch), DeliverDirectly(Direct(st), batch);
            var ref, (losses, last) := Plus(Settled(st, p), loss), Losses(st, loss, batch);
            && o.open == d.open && d.st == Direct(o.st)
            && |losses| == |Observe(p, o.calls)|
            && Observe(ref, d.calls) == Shifted(Observe(p, o.calls), losses)
            && (o.open ==> Cursor(ref, d.calls) == Plus(Cursor(p, o.calls), last))
    decreases |batch|
  {
    hide Step, DirectStep, Settled, Observe, Cursor, Pending, Flushed, NextLoss, IsObserved, Consistent, ObservedCall;
    if batch == [] {
      EndOfBatch(st, p, loss);
      EndOfBatch(st, Plus(Settled(st, p), loss), loss);
    } else if !Step(st, batch[0]).open {
      StepCloses(st, batch[0]);
      EndOfBatch(st, p, loss);
      EndOfBatch(st, Plus(Settled(st, p), loss), loss);
    } else {
      var a, ref := batch[0], Plus(Settled(st, p), loss);
      var o, d, next := Step(st, a), DirectStep(Direct(st), a), NextLoss(st, loss, a);
      var p' := Cursor(p, o.calls);
      StepLoss(st, p, loss, a);
      StepKeepsConsistent(st, a);
      BatchLoss(o.st, p', next, batch[1..]);
      ObserveConcat(p, o.calls, Deliver(o.st, batch[1..]).calls);
      ObserveConcat(ref, d.calls, DeliverDirectly(d.st, batch[1..]).calls);
      ShiftedConcat(Observe(p, o.calls), if IsObserved(st, a.message) then [next] else [],
                    Observe(p', Deliver(o.st, batch[1..]).calls), Losses(o.st, next, batch[1..]).0);
    }
  }

  /** One batch, after which the shape of the screen may change. */
  datatype Round = Round(batch: seq<Arrival>, shapeChanges: bool)

  function Between(st: State, round: Round): State {
    if round.shapeChanges then st.(ignore := true) else st
  }

  function DeliverRounds(st: State, rounds: seq<Round>): Outcome
    decreases |rounds|
  {
    if rounds == [] then Outcome(st, [], true)
    else
      var o := Deliver(st, rounds[0].batch);
      if !o.open then o
      else
        var rest := DeliverRounds(Between(o.st, rounds[0]), rounds[1..]);
        rest.(calls := o.calls + rest.calls)
  }

  function DeliverRoundsDirectly(st: State, rounds: seq<Round>): Outcome
    decreases |rounds|
  {
    if rounds == [] then Outcome(st, [], true)
    else
      var o := DeliverDirectly(st, rounds[0].batch);
      if !o.open then o
      else
        var rest := DeliverRoundsDirectly(Between(o.st, rounds[0]), rounds[1..]);
        rest.(calls := o.calls + rest.calls)
  }

  /** The loss at each observation of a session, and at its end; it is carried from batch to batch. */
  function RoundLosses(st: State, loss: Point, rounds: seq<Round>): (seq<Point>, Point)
    decreases |rounds|
  {
    if rounds == [] then ([], loss)
    else
      var o, (losses, last) := Deliver(st, rounds[0].batch), Losses(st, loss, rounds[0].batch);
      if !o.open then (losses, last)
      else
        var (more, end) := RoundLosses(Between(o.st, rounds[0]), last, rounds[1..]);
        (losses + more, end)
  }

  lemma BetweenDirect(st: State, round: Round)
    requires Consistent(st) && Consistent(st.(ignore := true)) && Idle(st)
    ensures Between(Direct(st), round) == Direct(Between(st, round))
    ensures Consistent(Between(st, round)) && Idle(Between(st, round))
  {
  }

  lemma IdleIsSettled(st: State, p: Point)
    requires Idle(st)
    ensures Settled(st, p) == p
  {
  }

  /** Over a whole session the same holds as for one batch: what is lost in one is still lost in the next. */
  lemma {:induction false} SessionLoss(st: State, p: Point, loss: Point, rounds: seq<Round>)
    requires Consistent(st) && Idle(st)
    ensures var o, d := DeliverRounds(st, rounds), DeliverRoundsDirectly(Direct(st), rounds);
            var ref, (losses, last) := Plus(p, loss), RoundLosses(st, loss, rounds);
            && o.open == d.open && d.st == Direct(o.st)
            && |losses| == |Observe(p, o.calls)|
            && Observe(ref, d.calls) == Shifted(Observe(p, o.calls), losses)
            && (o.open ==> Cursor(ref, d.calls) == Plus(Cursor(p, o.calls), last))
    decreases |rounds|
  {
    hide Deliver, DeliverDirectly, Losses, Observe, Cursor, Settled, Between, Consistent, Idle, Direct;
    if rounds == [] {
      NothingObserved(p);
      NothingObserved(Plus(p, loss));
    } else {
      var round, more := rounds[0], rounds[1..];
      var o, d := Deliver(st, round.batch), DeliverDirectly(Direct(st), round.batch);
      var (losses, last) := Losses(st, loss, round.batch);
      IdleIsSettled(st, p);
      BatchLoss(st, p, loss, round.batch);
      if o.open {
        NothingPendingBetweenBatches(st, round.batch);
        BetweenDirect(o.st, round);
        var next, p' := Between(o.st, round), Cursor(p, o.calls);
        SessionLoss(next, p', last, more);
        ObserveConcat(p, o.calls, DeliverRounds(next, more).calls);
        ObserveConcat(Plus(p, loss), d.calls, DeliverRoundsDirectly(Direct(next), more).calls);
        ShiftedConcat(Observe(p, o.calls), losses,
                      Observe(p', DeliverRounds(next, more).calls), RoundLosses(next, last, more).0);
      }
    }
  }

  lemma NothingObserved(p: Point)
    ensures Observe(p, []) == [] && Cursor(p, []) == p
  {
  }

  /** A session shows nothing of the compression exactly when it has no loss where it is looked at. */
  lemma SessionObservableExactly(st: State, p: Point, rounds: seq<Round>)
    requires Consistent(st) && Idle(st)
    ensures var o, d := DeliverRounds(st, rounds), DeliverRoundsDirectly(Direct(st), rounds);
            var (losses, last) := RoundLosses(st, ORIGIN, rounds);
            (Observe(p, d.calls) == Observe(p, o.calls) && (o.open ==> Cursor(p, d.calls) == Cursor(p, o.calls)))
            <==> (forall i :: 0 <= i < |losses| ==> losses[i] == ORIGIN) && (o.open ==> last == ORIGIN)
  {
    hide DeliverRounds, DeliverRoundsDirectly, RoundLosses, Observe, Cursor, Direct, Idle, Consistent;
    assert Plus(p, ORIGIN) == p;
    SessionLoss(st, p, ORIGIN, rounds);
    ShiftedByNothing(Observe(p, DeliverRounds(st, rounds).calls), RoundLosses(st, ORIGIN, rounds).0);
  }

  /** The mixing never happens in the batch. */
  predicate NeverMixes(st: State, batch: seq<Arrival>)
    decreases |batch|
  {
    batch == [] || (!Mixes(st, batch[0]) && (Step(st, batch[0]).open ==> NeverMixes(Step(st, batch[0]).st, batch[1..])))
  }

  lemma {:induction false} NoMixingNoLoss(st: State, batch: seq<Arrival>)
    requires NeverMixes(st, batch)
    ensures var (losses, last) := Losses(st, ORIGIN, batch);
            last == ORIGIN && forall i :: 0 <= i < |losses| ==> losses[i] == ORIGIN
    decreases |batch|
  {
    if batch != [] && Step(st, batch[0]).open {
      assert NextLoss(st, ORIGIN, batch[0]) == ORIGIN;
      NoMixingNoLoss(Step(st, batch[0]).st, batch[1..]);
    }
  }

  lemma ShiftedByNothing(obs: seq<Observation>, losses: seq<Point>)
    requires |losses| == |obs|
    ensures Shifted(obs, losses) == obs <==> forall i :: 0 <= i < |losses| ==> losses[i] == ORIGIN
  {
    if Shifted(obs, losses) == obs {
      forall i | 0 <= i < |losses|
        ensures losses[i] == ORIGIN
      {
        assert Shifted(obs, losses)[i].cursor == Plus(obs[i].cursor, losses[i]);
      }
    }
  }

  /**
    Compression is unobservable in every batch in which no motion is forwarded directly while motion
    of the other kind is pending: the cursor is in the same place at every key, button, wheel,
    enter and leave, and at the end of the batch.
  */
  lemma CompressionUnobservable(st: State, p: Point, batch: seq<Arrival>)
    requires Consistent(st) && Idle(st) && NeverMixes(st, batch)
    ensures var o, d := Deliver(st, batch), DeliverDirectly(Direct(st), batch);
            && o.open == d.open
            && Observe(p, d.calls) == Observe(p, o.calls)
            && (o.open ==> Cursor(p, d.calls) == Cursor(p, o.calls))
  {
    hide Deliver, DeliverDirectly, Losses, Observe, Cursor, NeverMixes, Direct;
    assert Plus(Settled(st, p), ORIGIN) == p;
    BatchLoss(st, p, ORIGIN, batch);
    NoMixingNoLoss(st, batch);
    ShiftedByNothing(Observe(p, Deliver(st, batch).calls), Losses(st, ORIGIN, batch).0);
  }

  /** In general a batch shows nothing of the compression exactly when it has no loss where it is looked at. */
  lemma ObservableExactly(st: State, p: Point, batch: seq<Arrival>)
    requires Consistent(st) && Idle(st)
    ensures var o, d := Deliver(st, batch), DeliverDirectly(Direct(st), batch);
            var (losses, last) := Losses(st, ORIGIN, batch);
            (Observe(p, d.calls) == Observe(p, o.calls) && (o.open ==> Cursor(p, d.calls) == Cursor(p, o.calls)))
            <==> (forall i :: 0 <= i < |losses| ==> losses[i] == ORIGIN) && (o.open ==> last == ORIGIN)
  {
    hide Deliver, DeliverDirectly, Losses, Observe, Cursor, Direct;
    assert Plus(Settled(st, p), ORIGIN) == p;
    BatchLoss(st, p, ORIGIN, batch);
    ShiftedByNothing(Observe(p, Deliver(st, batch).calls), Losses(st, ORIGIN, batch).0);
  }

  /**
    The condition is needed: an absolute move that is held back, a relative one with no more input
    ready, and a key. The relative move goes out first and is lost.
  */
  lemma MixingIsObservable(p: Point, to: Point, d: Point, code: nat)
    requires d != ORIGIN
    ensures var st := INITIAL.(handshake := false);
            var batch := [Arrival(MouseMove(to), true), Arrival(MouseRelMove(d), false), Arrival(Input(code), false)];
            && !NeverMixes(st, batch)
            && Observe(p, Deliver(st, batch).calls) == [Observation(Forward(code), to)]
            && Observe(p, DeliverDirectly(st, batch).calls) == [Observation(Forward(code), Plus(to, d))]
            && Plus(to, d) != to
  {
    hide Deliver, DeliverDirectly, Observe, NeverMixes;
    var st := INITIAL.(handshake := false);
    var a, b, c := Arrival(MouseMove(to), true), Arrival(MouseRelMove(d), false), Arrival(Input(code), false);
    var held := Step(st, a).st;
    assert [a, b, c] == [a] + [b, c] && [b, c] == [b] + [c] && [c] == [c] + [];
    DeliveredFirst(st, a, [b, c]);
    DeliveredFirst(held, b, [c]);
    DeliveredFirst(held, c, []);
    NothingDelivered(Step(held, c).st);
    DeliveredDirectlyFirst(st, a, [b, c]);
    DeliveredDirectlyFirst(st, b, [c]);
    DeliveredDirectlyFirst(st, c, []);
    NothingDelivered(st);
    MixesSecond(st, a, b, [c]);
    assert Deliver(st, [a, b, c]).calls == [RelMove(d), Move(to), Forward(code)];
    assert DeliverDirectly(st, [a, b, c]).calls == [Move(to), RelMove(d), Forward(code)];
    ObserveThree(p, RelMove(d), Move(to), Forward(code));
    ObserveThree(p, Move(to), RelMove(d), Forward(code));
  }

  lemma DeliveredFirst(st: State, a: Arrival, rest: seq<Arrival>)
    requires Step(st, a).open
    ensures Deliver(st, [a] + rest).calls == Step(st, a).calls + Deliver(Step(st, a).st, rest).calls
  {
    hide Step;
    assert ([a] + rest)[1..] == rest;
  }

  lemma DeliveredDirectlyFirst(st: State, a: Arrival, rest: seq<Arrival>)
    requires DirectStep(st, a).open
    ensures DeliverDirectly(st, [a] + rest).calls
            == DirectStep(st, a).calls + DeliverDirectly(DirectStep(st, a).st, rest).calls
  {
    hide DirectStep;
    assert ([a] + rest)[1..] == rest;
  }

  lemma NothingDelivered(st: State)
    ensures Deliver(st, []).calls == Pending(st) && DeliverDirectly(st, []).calls == []
  {
  }

  lemma MixesSecond(st: State, a: Arrival, b: Arrival, rest: seq<Arrival>)
    requires Step(st, a).open && Mixes(Step(st, a).st, b)
    ensures !NeverMixes(st, [a] + ([b] + rest))
  {
    hide Step, Mixes;
    assert ([a] + ([b] + rest))[1..] == [b] + rest;
  }

  lemma ObserveThree(p: Point, a: Call, b: Call, c: Call)
    requires (a.Move? || a.RelMove?) && (b.Move? || b.RelMove?) && c.Forward?
    ensures Observe(p, [a, b, c]) == [Observation(c, Moved(Moved(p, a), b))]
  {
    assert [a, b, c][1..] == [b, c] && [b, c][1..] == [c] && [c][1..] == [];
    var q := Moved(p, a);
    var r := Moved(q, b);
    assert Observe(r, [c]) == [Observation(c, r)];
    assert Observe(q, [b, c]) == [Observation(c, r)];
  }

  // ---------------------------------------------------------------------------
  // What a session is to show
  // ---------------------------------------------------------------------------

  datatype Happening = Got(message: Message) | ShapeChange

  function Messages(batch: seq<Arrival>): (h: seq<Happening>)
    ensures |h| == |batch|
    ensures forall i :: 0 <= i < |h| ==> h[i] == Got(batch[i].message)
  {
    seq(|batch|, i requires 0 <= i < |batch| => Got(batch[i].message))
  }

  /** All that happens in the session, in order. */
  function Script(rounds: seq<Round>): seq<Happening>
    decreases |rounds|
  {
    if rounds == [] then []
    else Messages(rounds[0].batch) + (if rounds[0].shapeChanges then [ShapeChange] else []) + Script(rounds[1..])
  }

  /** Until the server has sent its options. */
  predicate InHandshake(past: seq<Happening>) {
    Got(SetOptions) !in past
  }

  /** The shape of the screen has changed and the server has not acknowledged it since. */
  ghost predicate Unacknowledged(past: seq<Happening>) {
    exists i :: 0 <= i < |past| && past[i] == ShapeChange && Got(InfoAck) !in past[i..]
  }

  /** The messages that end the session when they come after `past`. */
  predicate Ends(past: seq<Happening>, m: Message) {
    match m
    case Hangup => true
    case Quiet => false
    case InfoAck => false
    case SetOptions => false
    case Refusal => true
    case Garbage => true
    case MouseMove(_) => InHandshake(past)
    case MouseRelMove(_) => InHandshake(past)
    case Input(_) => InHandshake(past)
    case Enter(_) => InHandshake(past)
    case Leave => InHandshake(past)
    case Session(_) => InHandshake(past)
  }

  /** What m, coming after `past`, is to do on the screen when it does not end the session. */
  ghost function Due(past: seq<Happening>, m: Message): seq<Call> {
    match m
    case MouseMove(to) => if Unacknowledged(past) then [] else [Move(to)]
    case MouseRelMove(d) => if Unacknowledged(past) then [] else [RelMove(d)]
    case Input(code) => [Forward(code)]
    case Enter(at) => [EnterAt(at)]
    case Leave => [LeaveScreen]
    case _ => []
  }

  /** What is due from happening i of the script on, and whether the session goes on to its end. */
  ghost function DueFrom(script: seq<Happening>, i: nat): (seq<Call>, bool)
    requires i <= |script|
    decreases |script| - i
  {
    if i == |script| then ([], true)
    else if script[i].ShapeChange? then DueFrom(script, i + 1)
    else if Ends(script[..i], script[i].message) then ([], false)
    else
      var (rest, open) := DueFrom(script, i + 1);
      (Due(script[..i], script[i].message) + rest, open)
  }

  /** The state tells what it has to about the past; nothing is held back. */
  ghost predicate Remembers(st: State, past: seq<Happening>) {
    && st == Direct(st)
    && (st.handshake <==> InHandshake(past))
    && (st.ignore <==> Unacknowledged(past))
  }

  lemma UnacknowledgedNext(past: seq<Happening>, next: Happening)
    ensures Unacknowledged(past + [next])
            <==> next == ShapeChange || (next != Got(InfoAck) && Unacknowledged(past))
  {
    var all := past + [next];
    if next == ShapeChange {
      assert all[|past|] == ShapeChange && all[|past|..] == [ShapeChange];
    } else {
      if Unacknowledged(past) && next != Got(InfoAck) {
        var i :| 0 <= i < |past| && past[i] == ShapeChange && Got(InfoAck) !in past[i..];
        assert all[i] == ShapeChange && all[i..] == past[i..] + [next];
      }
      if Unacknowledged(all) {
        var i :| 0 <= i < |all| && all[i] == ShapeChange && Got(InfoAck) !in all[i..];
        assert all[i..] == past[i..] + [next] && past[i] == ShapeChange;
      }
    }
  }

  lemma InHandshakeNext(past: seq<Happening>, next: Happening)
    ensures InHandshake(past + [next]) <==> next != Got(SetOptions) && InHandshake(past)
  {
  }

  lemma StepFollows(st: State, past: seq<Happening>, a: Arrival)
    requires Remembers(st, past)
    ensures var o := DirectStep(st, a);
            && (o.open <==> !Ends(past, a.message))
            && (o.open ==> o.calls == Due(past, a.message) && Remembers(o.st, past + [Got(a.message)]))
            && (!o.open ==> o.calls == [])
  {
    UnacknowledgedNext(past, Got(a.message));
    InHandshakeNext(past, Got(a.message));
    hide Unacknowledged, InHandshake;
    assert Pending(st) == [] && Flushed(st) == st;
  }

  lemma {:induction false} BatchFollows(st: State, script: seq<Happening>, i: nat, batch: seq<Arrival>)
    requires i + |batch| <= |script| && Remembers(st, script[..i])
    requires forall k :: 0 <= k < |batch| ==> script[i + k] == Got(batch[k].message)
    ensures var o := DeliverDirectly(st, batch);
            var (due, open) := DueFrom(script, i + |batch|);
            && (o.open ==> Remembers(o.st, script[..i + |batch|]) && DueFrom(script, i) == (o.calls + due, open))
            && (!o.open ==> DueFrom(script, i) == (o.calls, false))
    decreases |batch|
  {
    hide DirectStep, Remembers, Due, Ends;
    if batch == [] {
      NothingDueYet(st, DueFrom(script, i).0);
    } else {
      var o, m := DirectStep(st, batch[0]), batch[0].message;
      assert script[i + 0] == Got(m);
      StepFollows(st, script[..i], batch[0]);
      if o.open {
        assert script[..i + 1] == script[..i] + [Got(m)];
        BatchFollows(o.st, script, i + 1, batch[1..]);
        var rest, due := DeliverDirectly(o.st, batch[1..]), DueFrom(script, i + |batch|).0;
        assert o.calls + (rest.calls + due) == (o.calls + rest.calls) + due;
      }
    }
  }

  lemma NothingDueYet(st: State, due: seq<Call>)
    ensures DeliverDirectly(st, []) == Outcome(st, [], true) && [] + due == due
  {
  }

  lemma ShapeFollows(st: State, past: seq<Happening>)
    requires Remembers(st, past)
    ensures Remembers(st.(ignore := true), past + [ShapeChange])
  {
    UnacknowledgedNext(past, ShapeChange);
    InHandshakeNext(past, ShapeChange);
  }

  lemma {:induction false} RoundsFollow(st: State, past: seq<Happening>, rounds: seq<Round>)
    requires Remembers(st, past)
    ensures var o := DeliverRoundsDirectly(st, rounds);
            (o.calls, o.open) == DueFrom(past + Script(rounds), |past|)
    decreases |rounds|
  {
    hide DeliverDirectly, Remembers, DueFrom, Script, Between;
    if rounds == [] {
      NothingFollows(past);
    } else {
      var round, script := rounds[0], past + Script(rounds);
      var i, j := RoundParts(past, rounds);
      BatchFollows(st, script, |past|, round.batch);
      var o := DeliverDirectly(st, round.batch);
      if o.open {
        BetweenFollows(o.st, script, i, round);
        RoundsFollow(Between(o.st, round), script[..j], rounds[1..]);
      }
    }
  }

  lemma NothingFollows(past: seq<Happening>)
    ensures DueFrom(past + Script([]), |past|) == ([], true)
  {
  }

  lemma BetweenFollows(st: State, script: seq<Happening>, i: nat, round: Round)
    requires i <= |script| && Remembers(st, script[..i])
    requires round.shapeChanges ==> i < |script| && script[i] == ShapeChange
    ensures var j := if round.shapeChanges then i + 1 else i;
            Remembers(Between(st, round), script[..j]) && DueFrom(script, i) == DueFrom(script, j)
  {
    hide Remembers;
    if round.shapeChanges {
      ShapeFollows(st, script[..i]);
      assert script[..i] + [ShapeChange] == script[..i + 1];
    }
  }

  /** Where the messages of the first round end, and where the next one starts. */
  lemma RoundParts(past: seq<Happening>, rounds: seq<Round>) returns (i: nat, j: nat)
    requires rounds != []
    ensures var script, round := past + Script(rounds), rounds[0];
            && i == |past| + |round.batch|
            && j == (if round.shapeChanges then i + 1 else i)
            && j <= |script|
            && script[..|past|] == past
            && (forall k :: 0 <= k < |round.batch| ==> script[|past| + k] == Got(round.batch[k].message))
            && (round.shapeChanges ==> script[i] == ShapeChange)
            && script == script[..j] + Script(rounds[1..])
  {
    var h := Messages(rounds[0].batch);
    var changed := if rounds[0].shapeChanges then [ShapeChange] else [];
    assert past + Script(rounds) == past + h + changed + Script(rounds[1..]);
    i := |past| + |rounds[0].batch|;
    j := if rounds[0].shapeChanges then i + 1 else i;
    assert (past + h + changed) == (past + Script(rounds))[..j];
  }

  /** What is on the screen at the start of a session: nothing has happened yet. */
  lemma NothingHappened()
    ensures Remembers(INITIAL, [])
  {
  }

  /**
    From the start of any session, delivering directly does what is due: nothing but the options ends
    the handshake, motion is ignored exactly while a change of the shape is unacknowledged, and the
    session ends exactly with a message that ends it.
  */
  lemma DirectIsDue(rounds: seq<Round>)
    ensures var o := DeliverRoundsDirectly(INITIAL, rounds);
            (o.calls, o.open) == DueFrom(Script(rounds), 0)
  {
    NothingHappened();
    RoundsFollow(INITIAL, [], rounds);
    assert [] + Script(rounds) == Script(rounds);
  }

  /**
    And so does the proxy, which compresses motion, but for the cursor, which falls short of where
    it is due by what is lost; it is there exactly if nothing has been lost.
  */
  lemma SessionIsDue(p: Point, rounds: seq<Round>)
    ensures var o, (due, open) := DeliverRounds(INITIAL, rounds), DueFrom(Script(rounds), 0);
            var (losses, last) := RoundLosses(INITIAL, ORIGIN, rounds);
            && o.open == open
            && |losses| == |Observe(p, o.calls)|
            && Observe(p, due) == Shifted(Observe(p, o.calls), losses)
            && (open ==> Cursor(p, due) == Plus(Cursor(p, o.calls), last))
  {
    hide DeliverRounds, DeliverRoundsDirectly, RoundLosses, Observe, Cursor, DueFrom;
    DirectIsDue(rounds);
    SessionLoss(INITIAL, p, ORIGIN, rounds);
    assert Plus(p, ORIGIN) == p && Direct(INITIAL) == INITIAL;
  }

  /** After an acknowledgment the next motion arrives, ignored before or not, with more input ready or not. */
  lemma AcknowledgedMotionArrives(st: State, p: Point, to: Point, d: Point, ready: bool)
    requires Consistent(st) && Idle(st) && !st.handshake
    ensures Cursor(p, Deliver(st, [Arrival(InfoAck, ready), Arrival(MouseMove(to), ready)]).calls) == to
    ensures Cursor(p, Deliver(st, [Arrival(InfoAck, ready), Arrival(MouseRelMove(d), ready)]).calls) == Plus(p, d)
  {
    AcknowledgedThen(st, p, Arrival(MouseMove(to), ready), to);
    AcknowledgedThen(st, p, Arrival(MouseRelMove(d), ready), Plus(p, d));
  }

  lemma AcknowledgedThen(st: State, p: Point, a: Arrival, place: Point)
    requires Consistent(st) && Idle(st) && !st.handshake
    requires a.message == MouseMove(place) || (a.message.MouseRelMove? && place == Plus(p, a.message.d))
    ensures Cursor(p, Deliver(st, [Arrival(InfoAck, a.ready), a]).calls) == place
  {
    var ack := Arrival(InfoAck, a.ready);
    var heard := Step(st, ack).st;
    assert [ack, a] == [ack] + [a] && [a] == [a] + [];
    DeliveredFirst(st, ack, [a]);
    DeliveredFirst(heard, a, []);
    NothingDelivered(Step(heard, a).st);
    hide Deliver;
    PendingSettles(Step(heard, a).st, Cursor(p, Step(heard, a).calls));
    ObserveConcat(p, Step(heard, a).calls, Pending(Step(heard, a).st));
  }

  /** Absolute motion with more input after it becomes one call, to the last position. */
  lemma {:induction false} MovesBecomeOne(st: State, batch: seq<Arrival>)
    requires batch != [] && !st.handshake && !st.compressRel && st.delta == ORIGIN
    requires forall i :: 0 <= i < |batch| ==> batch[i].message.MouseMove?
    requires st.compress || (!st.ignore && batch[0].ready)
    ensures Deliver(st, batch).calls == [Move(batch[|batch| - 1].message.to)]
    decreases |batch|
  {
    var next := Step(st, batch[0]).st;
    assert next.compress && Step(st, batch[0]).calls == [];
    if |batch| == 1 {
      assert Deliver(next, batch[1..]).calls == [Move(next.mouse)];
    } else {
      MovesBecomeOne(next, batch[1..]);
    }
  }

  /** The sum of relative motion. */
  function Sum(batch: seq<Arrival>): Point
    decreases |batch|
  {
    if batch == [] then ORIGIN
    else Plus(if batch[0].message.MouseRelMove? then batch[0].message.d else ORIGIN, Sum(batch[1..]))
  }

  /** Relative motion with more input after it becomes one call, with all of it added up. */
  lemma {:induction false} RelativeMovesBecomeOne(st: State, batch: seq<Arrival>)
    requires batch != [] && !st.handshake && !st.compress
    requires forall i :: 0 <= i < |batch| ==> batch[i].message.MouseRelMove?
    requires st.compressRel || (!st.ignore && batch[0].ready)
    ensures Deliver(st, batch).calls == [RelMove(Plus(st.delta, Sum(batch)))]
    decreases |batch|
  {
    var next := Step(st, batch[0]).st;
    assert next.compressRel && Step(st, batch[0]).calls == [];
    if |batch| == 1 {
      assert Deliver(next, batch[1..]).calls == [RelMove(next.delta)];
      assert Sum(batch) == Plus(batch[0].message.d, Sum([]));
    } else {
      RelativeMovesBecomeOne(next, batch[1..]);
    }
  }

  /** Motion held back is not sent any more when the pointer enters, or when the session ends. */
  lemma HeldMotionIsDropped(st: State, a: Arrival, at: Point, end: Message, ready: bool)
    requires Consistent(st) && Idle(st) && !st.handshake && !st.ignore
    requires (a.message.MouseMove? || a.message.MouseRelMove?) && a.ready
    requires end.Hangup? || end.Refusal? || end.Garbage?
    ensures Deliver(st, [a, Arrival(Enter(at), ready)]).calls == [EnterAt(at)]
    ensures Deliver(st, [a, Arrival(end, ready)]).calls == [] && !Deliver(st, [a, Arrival(end, ready)]).open
  {
    var held, enter := Step(st, a).st, Arrival(Enter(at), ready);
    assert [a, enter] == [a] + [enter] && [enter] == [enter] + [];
    DeliveredFirst(st, a, [enter]);
    DeliveredFirst(held, enter, []);
    NothingDelivered(Step(held, enter).st);
    assert [a, Arrival(end, ready)][1..] == [Arrival(end, ready)];
    assert Deliver(held, [Arrival(end, ready)]) == Step(held, Arrival(end, ready));
  }

  // ---------------------------------------------------------------------------
  // The original's object
  // ---------------------------------------------------------------------------

  function After(made: seq<Call>, rest: Outcome): Outcome {
    rest.(calls := made + rest.calls)
  }

  lemma DeliverStep(st: State, batch: seq<Arrival>, made: seq<Call>)
    requires batch != []
    ensures var o := Step(st, batch[0]);
            After(made, Deliver(st, batch))
            == if o.open then After(made + o.calls, Deliver(o.st, batch[1..])) else Outcome(o.st, made + o.calls, false)
  {
    hide Step;
    var o := Step(st, batch[0]);
    var rest := Deliver(o.st, batch[1..]);
    assert made + (o.calls + rest.calls) == made + o.calls + rest.calls;
  }

  lemma DeliverNothing(st: State, made: seq<Call>)
    ensures After(made, Deliver(st, [])) == Outcome(Flushed(st), made + Pending(st), true)
  {
  }

  /** The result of parsing one message. */
  datatype Result = Okay | Unknown | Disconnect

  class ServerProxy {
    var parsingHandshake: bool
    var compressMouse: bool
    var compressMouseRelative: bool
    var mouse: Point
    var delta: Point
    var ignoreMouse: bool
    var calls: seq<Call>       // what has been called on the client, oldest first

    ghost function View(): State
      reads this
    {
      State(parsingHandshake, compressMouse, compressMouseRelative, mouse, delta, ignoreMouse)
    }

    constructor ()
      ensures View() == INITIAL && calls == []
      ensures Consistent(View())
    {
      parsingHandshake := true;
      compressMouse, compressMouseRelative := false, false;
      mouse, delta := ORIGIN, ORIGIN;
      ignoreMouse := false;
      calls := [];
    }

    method FlushCompressedMouse()
      modifies this
      ensures View() == Flushed(old(View())) && calls == old(calls) + Pending(old(View()))
    {
      if compressMouse {
        compressMouse := false;
        calls := calls + [Move(mouse)];
      }
      if compressMouseRelative {
        compressMouseRelative := false;
        calls := calls + [RelMove(delta)];
        delta := ORIGIN;
      }
    }

    method OnMouseMove(to: Point, ready: bool)
      requires !parsingHandshake
      modifies this
      ensures var o := Step(old(View()), Arrival(MouseMove(to), ready));
              View() == o.st && calls == old(calls) + o.calls
    {
      var ignore := ignoreMouse;
      if !ignore && !compressMouse && ready {
        compressMouse := true;
      }
      if compressMouse {
        compressMouseRelative := false;
        ignore := true;
        mouse := to;
        delta := ORIGIN;
      }
      if !ignore {
        calls := calls + [Move(to)];
      }
    }

    method OnMouseRelativeMove(d: Point, ready: bool)
      requires !parsingHandshake
      modifies this
      ensures var o := Step(old(View()), Arrival(MouseRelMove(d), ready));
              View() == o.st && calls == old(calls) + o.calls
    {
      var ignore := ignoreMouse;
      if !ignore && !compressMouseRelative && ready {
        compressMouseRelative := true;
      }
      if compressMouseRelative {
        ignore := true;
        delta := Plus(delta, d);
      }
      if !ignore {
        calls := calls + [RelMove(d)];
      }
    }

    method OnEnter(at: Point)
      requires !parsingHandshake
      modifies this
      ensures var o := Step(old(View()), Arrival(Enter(at), false));
              View() == o.st && calls == old(calls) + o.calls
    {
      compressMouse, compressMouseRelative := false, false;
      delta := ORIGIN;
      calls := calls + [EnterAt(at)];
    }

    /** The key, button and wheel handlers, which first bring the mouse up to date; leave does so too. */
    method OnInput(call: Call)
      modifies this
      ensures View() == Flushed(old(View())) && calls == old(calls) + (Pending(old(View())) + [call])
    {
      FlushCompressedMouse();
      calls := calls + [call];
    }

    /** parseHandshakeMessage. */
    method ParseHandshakeMessage(m: Message) returns (r: Result)
      requires parsingHandshake
      modifies this
      ensures var o := Step(old(View()), Arrival(m, false));
              View() == o.st && calls == old(calls) + o.calls && (r.Okay? <==> o.open)
    {
      r := Okay;
      match m {
        case Quiet =>
        case InfoAck => ignoreMouse := false;
        case SetOptions => parsingHandshake := false;
        case Hangup => r := Disconnect;
        case Refusal => r := Disconnect;
        case _ => r := Unknown;
      }
    }

    /** parseMessage. */
    method ParseMessage(a: Arrival) returns (r: Result)
      requires !parsingHandshake
      modifies this
      ensures var o := Step(old(View()), a);
              View() == o.st && calls == old(calls) + o.calls && (r.Okay? <==> o.open)
    {
      r := Okay;
      match a.message {
        case MouseMove(to) => OnMouseMove(to, a.ready);
        case MouseRelMove(d) => OnMouseRelativeMove(d, a.ready);
        case Input(code) => OnInput(Forward(code));
        case Enter(at) => OnEnter(at);
        case Leave => OnInput(LeaveScreen);
        case SetOptions =>
        case InfoAck => ignoreMouse := false;
        case Quiet =>
        case Session(_) =>
        case Hangup => r := Disconnect;
        case Refusal => r := Unknown;
        case Garbage => r := Unknown;
      }
    }

    /** handle_data: the messages of one batch; `open` is false when the client was told to disconnect. */
    method HandleData(batch: seq<Arrival>) returns (open: bool)
      modifies this
      ensures var o := Deliver(old(View()), batch);
              View() == o.st && calls == old(calls) + o.calls && open == o.open
    {
      hide Step, Deliver, Flushed, Pending;
      var i := 0;
      ghost var start, before := View(), calls;
      assert batch[0..] == batch;
      while i < |batch|
        invariant 0 <= i <= |batch|
        invariant After(calls, Deliver(View(), batch[i..])) == After(before, Deliver(start, batch))
      {
        assert batch[i..][0] == batch[i] && batch[i..][1..] == batch[i + 1..];
        DeliverStep(View(), batch[i..], calls);
        var r: Result;
        if parsingHandshake {
          HandshakeIgnoresReady(View(), batch[i]);
          r := ParseHandshakeMessage(batch[i].message);
        } else {
          r := ParseMessage(batch[i]);
        }
        if !r.Okay? {
          return false;
        }
        i := i + 1;
      }
      assert batch[i..] == [];
      DeliverNothing(View(), calls);
      FlushCompressedMouse();
      return true;
    }

    /** onInfoChanged: motion is ignored until the server acknowledges the new screen shape. */
    method OnInfoChanged()
      modifies this
      ensures View() == old(View()).(ignore := true) && calls == old(calls)
    {
      ignoreMouse := true;
    }
  }

  lemma HandshakeIgnoresReady(st: State, a: Arrival)
    requires st.handshake
    ensures Step(st, a) == Step(st, Arrival(a.message, false))
  {
  }
}
