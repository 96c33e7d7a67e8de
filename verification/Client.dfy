/**
  The client's connection: connecting, the handshake, losing the connection, and suspending and
  resuming the computer. The original keeps a stream, a timer, a proxy for the server and the event
  handlers it has installed; the phases below are what these stand for.
*/
module Client {

  // ---------------------------------------------------------------------------
  // The connection as a state machine
  // ---------------------------------------------------------------------------

  /**
    Connecting is Dialing, until the socket is connected, and Greeting, until the server's hello;
    connected is Handshaking, until the server's options, and Running.
  */
  datatype Phase = Idle | Dialing | Greeting | Handshaking | Running

  datatype Session = Session(phase: Phase, suspended: bool, resume: bool)

  const START := Session(Idle, false, false)

  /** What the stream's input turns out to be. */
  datatype Data = Harmless | Options | Closing

  datatype StreamEvent =
    | SocketConnected | SecureConnected | ConnectionFailed | SocketDisconnected
    | InputReady | OutputError | InputShutdown | OutputShutdown | StopRetry

  /**
    What happens to the client. `works` says that a connection attempt does not fail at once;
    `hello` that the server's greeting is acceptable.
  */
  datatype Event =
    | Connect(works: bool)
    | Disconnect
    | Suspend
    | Resume(works: bool)
    | Stream(event: StreamEvent, hello: bool, data: Data)
    | ConnectTimeout
    | KeepAliveAlarm

  predicate IsConnected(s: Session) {
    s.phase.Handshaking? || s.phase.Running?
  }

  /** The connection is reported encrypted although the hello has been exchanged. */
  predicate ReportsTooLate(s: Session, crypto: bool, e: Event) {
    crypto && e.Stream? && e.event.SecureConnected? && IsConnected(s)
  }

  function Attempt(s: Session, works: bool): Session {
    s.(phase := if works then Dialing else Idle)
  }

  /** connect() with a stream, while suspended, and otherwise. */
  function Connected(s: Session, works: bool): Session {
    if !s.phase.Idle? then s
    else if s.suspended then s.(resume := true)
    else Attempt(s, works)
  }

  /** One event; an event that no handler is installed for changes nothing. */
  function Step(s: Session, crypto: bool, e: Event): Session {
    match e
    case Connect(works) => Connected(s, works)
    case Disconnect => s.(phase := Idle, resume := false)
    case Suspend => Session(Idle, true, IsConnected(s))
    case Resume(works) =>
      var awake := s.(suspended := false, resume := false);
      if s.resume then Connected(awake, works) else awake
    case Stream(SocketConnected, _, _) => if s.phase.Dialing? && !crypto then s.(phase := Greeting) else s
    case Stream(SecureConnected, _, _) => if s.phase.Dialing? && crypto then s.(phase := Greeting) else s
    case Stream(ConnectionFailed, _, _) => if s.phase.Dialing? then s.(phase := Idle) else s
    case Stream(InputReady, hello, data) => Input(s, hello, data)
    case Stream(StopRetry, _, _) => s
    case Stream(_, _, _) => if s.phase.Greeting? || IsConnected(s) then s.(phase := Idle) else s
    case ConnectTimeout => if s.phase.Dialing? || s.phase.Greeting? then s.(phase := Idle) else s
    case KeepAliveAlarm => if IsConnected(s) then s.(phase := Idle) else s
  }

  function Input(s: Session, hello: bool, data: Data): Session {
    if s.phase.Greeting? then s.(phase := if hello then Handshaking else Idle)
    else if IsConnected(s) then
      match data
      case Harmless => s
      case Options => s.(phase := Running)
      case Closing => s.(phase := Idle)
    else s
  }

  function Run(s: Session, crypto: bool, es: seq<Event>): Session
    decreases |es|
  {
    if es == [] then s else Run(Step(s, crypto, es[0]), crypto, es[1..])
  }

  lemma {:induction false} RunSnoc(s: Session, crypto: bool, es: seq<Event>, e: Event)
    ensures Run(s, crypto, es + [e]) == Step(Run(s, crypto, es), crypto, e)
    decreases |es|
  {
    if es == [] {
      assert es + [e] == [e] && [e][1..] == [];
    } else {
      assert (es + [e])[1..] == es[1..] + [e];
      RunSnoc(Step(s, crypto, es[0]), crypto, es[1..], e);
    }
  }

  /** While the computer is suspended there is no stream, and only then a connection is promised. */
  predicate Coherent(s: Session) {
    (s.suspended ==> s.phase.Idle?) && (s.resume ==> s.suspended)
  }

  lemma {:induction false} AlwaysCoherent(crypto: bool, es: seq<Event>)
    ensures Coherent(Run(START, crypto, es))
    decreases |es|
  {
    if es != [] {
      var init, e := es[..|es| - 1], es[|es| - 1];
      assert es == init + [e];
      AlwaysCoherent(crypto, init);
      RunSnoc(START, crypto, init, e);
    }
  }

  // ---------------------------------------------------------------------------
  // What leads from phase to phase
  // ---------------------------------------------------------------------------

  /** The other end, or the way to it, is gone. */
  predicate IsLoss(e: Event) {
    && e.Stream?
    && (e.event.SocketDisconnected? || e.event.OutputError? || e.event.InputShutdown? || e.event.OutputShutdown?)
  }

  predicate IsInput(e: Event) {
    e.Stream? && e.event.InputReady?
  }

  /** The events that end each phase with the connection. */
  predicate Quits(p: Phase, e: Event) {
    || e.Disconnect? || e.Suspend?
    || match p
       case Idle => false
       case Dialing => e.ConnectTimeout? || (e.Stream? && e.event.ConnectionFailed?)
       case Greeting => e.ConnectTimeout? || IsLoss(e) || (IsInput(e) && !e.hello)
       case Handshaking => e.KeepAliveAlarm? || IsLoss(e) || (IsInput(e) && e.data.Closing?)
       case Running => e.KeepAliveAlarm? || IsLoss(e) || (IsInput(e) && e.data.Closing?)
  }

  /** The event that leads from each phase to the next, from Idle when it finds the computer awake. */
  predicate Advances(crypto: bool, p: Phase, e: Event) {
    match p
    case Idle => (e.Connect? || e.Resume?) && e.works
    case Dialing => e.Stream? && (if crypto then e.event.SecureConnected? else e.event.SocketConnected?)
    case Greeting => IsInput(e) && e.hello
    case Handshaking => IsInput(e) && e.data.Options?
    case Running => false
  }

  function Next(p: Phase): Phase {
    match p
    case Idle => Dialing
    case Dialing => Greeting
    case Greeting => Handshaking
    case _ => Running
  }

  /** A connection is attempted: connect() while awake, or the end of a suspension with a promise. */
  predicate Awake(s: Session, e: Event) {
    if e.Resume? then s.resume else !s.suspended
  }

  /** From each phase the way leads to the next one or back to Idle, with exactly these events. */
  lemma Transitions(s: Session, crypto: bool, e: Event)
    requires Coherent(s)
    ensures var p, q := s.phase, Step(s, crypto, e).phase;
            && (q == p || q == Next(p) || q == Idle)
            && (q.Idle? && !p.Idle? <==> Quits(p, e) && !p.Idle?)
            && (q == Next(p) != p <==> Advances(crypto, p, e) && (p.Idle? ==> Awake(s, e)))
  {
  }

  /** Event i of the run leads into phase p. */
  predicate Enters(crypto: bool, es: seq<Event>, i: nat, p: Phase)
    requires i < |es|
  {
    var before := Run(START, crypto, es[..i]);
    && Next(before.phase) == p != before.phase
    && Advances(crypto, before.phase, es[i]) && (before.phase.Idle? ==> Awake(before, es[i]))
  }

  /** Nothing after event i leads out of phase p. */
  predicate StaysSince(crypto: bool, es: seq<Event>, i: nat, p: Phase) {
    forall j :: i < j < |es| ==> !Quits(p, es[j]) && !Advances(crypto, p, es[j])
  }

  ghost predicate InPhase(crypto: bool, es: seq<Event>, p: Phase) {
    exists i: nat :: i < |es| && Enters(crypto, es, i, p) && StaysSince(crypto, es, i, p)
  }

  lemma InPhaseSnoc(crypto: bool, es: seq<Event>, e: Event, p: Phase)
    ensures InPhase(crypto, es + [e], p)
            <==> Enters(crypto, es + [e], |es|, p)
                 || (InPhase(crypto, es, p) && !Quits(p, e) && !Advances(crypto, p, e))
  {
    hide Quits, Advances, Run;
    var all := es + [e];
    forall i: nat | i < |es|
      ensures Enters(crypto, all, i, p) == Enters(crypto, es, i, p)
      ensures StaysSince(crypto, all, i, p)
              <==> StaysSince(crypto, es, i, p) && !Quits(p, e) && !Advances(crypto, p, e)
    {
      assert all[..i] == es[..i] && all[i] == es[i] && all[|es|] == e;
      assert forall j :: 0 <= j < |es| ==> all[j] == es[j];
    }
  }

  /**
    After any run, the connection is in a phase exactly if an event has led into it and none has led
    out of it since.
  */
  lemma {:induction false} PhaseExactly(crypto: bool, es: seq<Event>, p: Phase)
    requires !p.Idle?
    ensures Run(START, crypto, es).phase == p <==> InPhase(crypto, es, p)
    decreases |es|
  {
    hide Quits, Advances, Run, Step, Next;
    if es == [] {
      StartsIdle(crypto);
    } else {
      var init, e := es[..|es| - 1], es[|es| - 1];
      assert es == init + [e] && es[..|init|] == init;
      PhaseExactly(crypto, init, p);
      AlwaysCoherent(crypto, init);
      RunSnoc(START, crypto, init, e);
      InPhaseSnoc(crypto, init, e, p);
      PhaseNext(Run(START, crypto, init), crypto, e, p);
    }
  }

  lemma PhaseNext(s: Session, crypto: bool, e: Event, p: Phase)
    requires Coherent(s) && !p.Idle?
    ensures Step(s, crypto, e).phase == p
            <==> (Next(s.phase) == p != s.phase && Advances(crypto, s.phase, e) && (s.phase.Idle? ==> Awake(s, e)))
                 || (s.phase == p && !Quits(p, e) && !Advances(crypto, p, e))
  {
    Transitions(s, crypto, e);
  }

  predicate IsSuspended(es: seq<Event>) {
    exists i :: 0 <= i < |es| && es[i].Suspend? && forall j :: i < j < |es| ==> !es[j].Resume?
  }

  lemma {:induction false} SuspendedExactly(crypto: bool, es: seq<Event>)
    ensures Run(START, crypto, es).suspended <==> IsSuspended(es)
    decreases |es|
  {
    hide Run;
    if es == [] {
      StartsIdle(crypto);
    } else {
      var init, e := es[..|es| - 1], es[|es| - 1];
      assert es == init + [e];
      SuspendedExactly(crypto, init);
      RunSnoc(START, crypto, init, e);
      assert forall i :: 0 <= i < |init| ==> es[i] == init[i];
      assert es[|init|] == e;
    }
  }

  // ---------------------------------------------------------------------------
  // When resuming reconnects
  // ---------------------------------------------------------------------------

  /** Event i promises a connection: a suspension while connected, or connect() during a suspension. */
  predicate Promises(crypto: bool, es: seq<Event>, i: nat)
    requires i < |es|
  {
    var before := Run(START, crypto, es[..i]);
    (es[i].Suspend? && IsConnected(before)) || (es[i].Connect? && before.suspended)
  }

  predicate Cancels(e: Event) {
    e.Suspend? || e.Disconnect? || e.Resume?
  }

  predicate Promised(crypto: bool, es: seq<Event>) {
    exists i :: 0 <= i < |es| && Promises(crypto, es, i) && forall j :: i < j < |es| ==> !Cancels(es[j])
  }

  lemma PromisedSnoc(crypto: bool, es: seq<Event>, e: Event)
    ensures Promised(crypto, es + [e])
            <==> Promises(crypto, es + [e], |es|) || (Promised(crypto, es) && !Cancels(e))
  {
    var all := es + [e];
    assert forall i :: 0 <= i < |es| ==> all[..i] == es[..i] && all[i] == es[i];
    assert forall i :: 0 <= i < |es| ==> Promises(crypto, all, i) == Promises(crypto, es, i);
    if Promised(crypto, es) && !Cancels(e) {
      var i :| 0 <= i < |es| && Promises(crypto, es, i) && forall j :: i < j < |es| ==> !Cancels(es[j]);
      assert Promises(crypto, all, i) && forall j :: i < j < |all| ==> !Cancels(all[j]);
    }
    if Promised(crypto, all) {
      var i :| 0 <= i < |all| && Promises(crypto, all, i) && forall j :: i < j < |all| ==> !Cancels(all[j]);
      if i < |es| {
        assert !Cancels(all[|es|]);
        assert Promises(crypto, es, i) && forall j :: i < j < |es| ==> !Cancels(es[j]);
      }
    }
  }

  /**
    After any run the client will reconnect on resuming exactly when it was connected at the last
    suspension or connect() was called after it, with no disconnect() since.
  */
  lemma {:induction false} ReconnectsExactlyWhenPromised(crypto: bool, es: seq<Event>)
    ensures Run(START, crypto, es).resume <==> Promised(crypto, es)
    ensures var s := Run(START, crypto, es);
            s.suspended ==> (Step(s, crypto, Resume(true)).phase.Dialing? <==> Promised(crypto, es))
    decreases |es|
  {
    AlwaysCoherent(crypto, es);
    if es != [] {
      var init, e := es[..|es| - 1], es[|es| - 1];
      assert es == init + [e];
      ReconnectsExactlyWhenPromised(crypto, init);
      AlwaysCoherent(crypto, init);
      RunSnoc(START, crypto, init, e);
      PromisedSnoc(crypto, init, e);
      assert (init + [e])[..|init|] == init;
    }
  }

  // ---------------------------------------------------------------------------
  // The screen
  // ---------------------------------------------------------------------------

  /** Calls of enable (true) and disable (false) on the screen: they strictly alternate. */
  ghost predicate Alternates(log: seq<bool>) {
    forall i :: 0 <= i < |log| ==> log[i] == (i % 2 == 0)
  }

  /** The screen is enabled on the way into Running and disabled on the way out of it. */
  function ScreenCall(before: Phase, after: Phase): seq<bool> {
    if before.Running? == after.Running? then [] else [after.Running?]
  }

  /** The calls that a run makes. */
  function ScreenCalls(crypto: bool, es: seq<Event>): seq<bool>
    decreases |es|
  {
    if es == [] then []
    else
      var init := es[..|es| - 1];
      ScreenCalls(crypto, init) + ScreenCall(Run(START, crypto, init).phase, Run(START, crypto, es).phase)
  }

  /** In every run the screen is enabled and disabled in turn, and is enabled exactly while Running. */
  lemma {:induction false} ScreenAlternates(crypto: bool, es: seq<Event>)
    ensures Alternates(ScreenCalls(crypto, es))
    ensures |ScreenCalls(crypto, es)| % 2 == 1 <==> Run(START, crypto, es).phase.Running?
    decreases |es|
  {
    hide Run;
    if es == [] {
      StartsIdle(crypto);
    } else {
      ScreenAlternates(crypto, es[..|es| - 1]);
    }
  }

  lemma StartsIdle(crypto: bool)
    ensures Run(START, crypto, []) == START
  {
  }

  // ---------------------------------------------------------------------------
  // The original's object
  // ---------------------------------------------------------------------------

  datatype Handler = OnConnected | OnConnectionFailed | OnDisconnected | OnHello | OnOutputError | OnStopRetry | OnData

  /** The proxy for the server, by the parser it has installed. */
  datatype Proxy = NoProxy | HandshakeProxy | MessageProxy

  class Client {
    const crypto: bool
    var stream: bool
    var timer: bool
    var server: Proxy
    var ready: bool
    var suspended: bool
    var connectOnResume: bool
    var handlers: map<StreamEvent, Handler>   // installed for events of the stream
    var screenLog: seq<bool>

    function View(): Session
      reads this
    {
      Session(
        if !stream then Idle
        else if server.MessageProxy? then Running
        else if server.HandshakeProxy? then Handshaking
        else if InputReady in handlers then Greeting
        else Dialing,
        suspended, connectOnResume)
    }

    /** The handlers that belong to a phase. Those for the connected socket stay when it is encrypted. */
    function HandlersOf(phase: Phase): map<StreamEvent, Handler> {
      match phase
      case Idle => map[]
      case Dialing => map[if crypto then SecureConnected else SocketConnected := OnConnected]
                         [ConnectionFailed := OnConnectionFailed]
      case Greeting => WithConnection(Secure())
      case _ => WithConnection(Secure())[InputReady := OnData]
    }

    function Secure(): map<StreamEvent, Handler> {
      if crypto then map[SecureConnected := OnConnected] else map[]
    }

    static function WithConnection(h: map<StreamEvent, Handler>): map<StreamEvent, Handler> {
      h[SocketDisconnected := OnDisconnected][InputReady := OnHello][OutputError := OnOutputError]
       [InputShutdown := OnDisconnected][OutputShutdown := OnDisconnected][StopRetry := OnStopRetry]
    }

    /**
      At rest there is nothing, a stream and a timer, or a stream and a proxy, and the handlers are
      those of the phase; the screen is enabled exactly while the proxy has finished its handshake.
    */
    ghost predicate Valid()
      reads this
    {
      && (timer <==> stream && server.NoProxy?)
      && (!server.NoProxy? ==> stream)
      && handlers == HandlersOf(View().phase)
      && ready == server.MessageProxy?
      && Coherent(View())
      && Alternates(screenLog)
      && ready == (|screenLog| % 2 == 1)
    }

    constructor (enableCrypto: bool)
      ensures Valid() && View() == START && crypto == enableCrypto && screenLog == []
    {
      crypto := enableCrypto;
      stream, timer, server, ready := false, false, NoProxy, false;
      suspended, connectOnResume := false, false;
      handlers, screenLog := map[], [];
    }

    // Setting up and cleaning up. The asserts of the original are preconditions here.

    method SetupConnecting()
      requires stream
      modifies this`handlers
      ensures handlers == old(handlers)[if crypto then SecureConnected else SocketConnected := OnConnected]
                                       [ConnectionFailed := OnConnectionFailed]
    {
      if crypto {
        handlers := handlers[SecureConnected := OnConnected];
      } else {
        handlers := handlers[SocketConnected := OnConnected];
      }
      handlers := handlers[ConnectionFailed := OnConnectionFailed];
    }

    method SetupConnection()
      requires stream
      modifies this`handlers
      ensures handlers == WithConnection(old(handlers))
    {
      handlers := handlers[SocketDisconnected := OnDisconnected];
      handlers := handlers[InputReady := OnHello];
      handlers := handlers[OutputError := OnOutputError];
      handlers := handlers[InputShutdown := OnDisconnected];
      handlers := handlers[OutputShutdown := OnDisconnected];
      handlers := handlers[StopRetry := OnStopRetry];
    }

    method SetupScreen()
      requires server.NoProxy?
      modifies this`ready, this`server, this`handlers
      ensures !ready && server.HandshakeProxy? && handlers == old(handlers)[InputReady := OnData]
    {
      ready := false;
      server := HandshakeProxy;
      handlers := handlers[InputReady := OnData];
    }

    method SetupTimer()
      requires !timer
      modifies this`timer
      ensures timer
    {
      timer := true;
    }

    method CleanupTimer()
      modifies this`timer
      ensures !timer
    {
      if timer {
        timer := false;
      }
    }

    /** The handler for an encrypted connection is not among the ones removed. */
    method CleanupConnecting()
      modifies this`handlers
      ensures handlers == if stream then old(handlers) - {SocketConnected, ConnectionFailed} else old(handlers)
    {
      if stream {
        handlers := handlers - {SocketConnected};
        handlers := handlers - {ConnectionFailed};
      }
    }

    /** Deleting the stream removes whatever handlers it still has. */
    method CleanupStream()
      modifies this`stream, this`handlers
      ensures !stream && handlers == map[]
    {
      stream, handlers := false, map[];
    }

    method CleanupConnection()
      modifies this`stream, this`handlers
      ensures !stream
      ensures handlers == if old(stream) then map[] else old(handlers)
    {
      if stream {
        handlers := handlers - {InputReady, OutputError, InputShutdown, OutputShutdown, SocketDisconnected, StopRetry};
        CleanupStream();
      }
    }

    method CleanupScreen()
      requires Alternates(screenLog) && ready == (|screenLog| % 2 == 1) && (ready ==> !server.NoProxy?)
      modifies this`server, this`ready, this`screenLog, this`handlers
      ensures server.NoProxy? && !ready
      ensures Alternates(screenLog) && |screenLog| % 2 == 0
      ensures screenLog == old(screenLog) + if old(ready) then [false] else []
      ensures handlers == if old(server).NoProxy? then old(handlers) else old(handlers) - {InputReady}
    {
      if !server.NoProxy? {
        if ready {
          screenLog := screenLog + [false];
          ready := false;
        }
        handlers := handlers - {InputReady};
        server := NoProxy;
      }
    }

    // The events of the application

    /** connect(); `works` says that resolving, creating the socket and connecting throw nothing. */
    method DoConnect(works: bool)
      requires Valid()
      modifies this
      ensures Valid() && View() == Connected(old(View()), works)
      ensures screenLog == old(screenLog)
    {
      if stream {
        return;
      }
      if suspended {
        connectOnResume := true;
        return;
      }
      stream := true;
      SetupConnecting();
      SetupTimer();
      if !works {
        CleanupTimer();
        CleanupConnecting();
        CleanupStream();
      }
    }

    /** disconnect(), which a suspension calls too, when it has already noted that it has begun. */
    method DoDisconnect()
      requires Alternates(screenLog) && ready == (|screenLog| % 2 == 1) && (ready ==> !server.NoProxy?)
      requires !stream ==> handlers == map[]
      modifies this
      ensures !stream && !timer && server.NoProxy? && !ready && !connectOnResume && handlers == map[]
      ensures suspended == old(suspended)
      ensures Alternates(screenLog) && |screenLog| % 2 == 0
      ensures screenLog == old(screenLog) + if old(ready) then [false] else []
    {
      connectOnResume := false;
      CleanupTimer();
      CleanupScreen();
      CleanupConnecting();
      CleanupConnection();
    }

    method HandleSuspend()
      requires Valid()
      modifies this
      ensures Valid() && View() == Step(old(View()), crypto, Suspend)
      ensures screenLog == old(screenLog) + ScreenCall(old(View()).phase, View().phase)
    {
      suspended := true;
      var wasConnected := !server.NoProxy?;
      DoDisconnect();
      connectOnResume := wasConnected;
    }

    method HandleResume(works: bool)
      requires Valid()
      modifies this
      ensures Valid() && View() == Step(old(View()), crypto, Resume(works))
      ensures screenLog == old(screenLog) + ScreenCall(old(View()).phase, View().phase)
    {
      suspended := false;
      if connectOnResume {
        connectOnResume := false;
        DoConnect(works);
      }
    }

    // The handlers installed on the stream, the timer and the proxy

    /**
      The socket is connected. An encrypted one may report it again; once the proxy exists that
      installs the hello handler over the proxy's own, and the state is none of the phases.
    */
    method HandleConnected()
      requires Valid() && stream && (!crypto ==> View().phase.Dialing?)
      modifies this`handlers
      ensures Valid() <==> !IsConnected(old(View()))
      ensures Valid() ==> View() == old(View()).(phase := Greeting)
      ensures !Valid() ==> stream && !server.NoProxy? && InputReady in handlers && handlers[InputReady] == OnHello
    {
      ghost var connected := IsConnected(View());
      CleanupConnecting();
      assert !connected ==> handlers == Secure() || handlers == WithConnection(Secure());
      SetupConnection();
      assert connected ==> handlers[InputReady] == OnHello && HandlersOf(View().phase)[InputReady] == OnData;
    }

    method HandleConnectionFailed()
      requires Valid() && View().phase.Dialing?
      modifies this
      ensures Valid() && View() == old(View()).(phase := Idle)
      ensures screenLog == old(screenLog) + ScreenCall(old(View()).phase, View().phase)
    {
      CleanupTimer();
      CleanupConnecting();
      CleanupStream();
    }

    method HandleConnectTimeout()
      requires Valid() && timer
      modifies this
      ensures Valid() && View() == old(View()).(phase := Idle)
      ensures screenLog == old(screenLog) + ScreenCall(old(View()).phase, View().phase)
    {
      CleanupTimer();
      CleanupConnecting();
      CleanupConnection();
      CleanupStream();
    }

    /** handle_disconnected and handle_output_error. */
    method HandleDisconnected()
      requires Valid() && stream
      modifies this
      ensures Valid() && View() == old(View()).(phase := Idle)
      ensures screenLog == old(screenLog) + ScreenCall(old(View()).phase, View().phase)
    {
      CleanupTimer();
      CleanupScreen();
      CleanupConnection();
    }

    method HandleHello(hello: bool)
      requires Valid() && View().phase.Greeting?
      modifies this
      ensures Valid() && View() == Input(old(View()), hello, Harmless)
      ensures screenLog == old(screenLog) + ScreenCall(old(View()).phase, View().phase)
    {
      if !hello {
        CleanupTimer();
        CleanupConnection();
        return;
      }
      SetupScreen();
      CleanupTimer();
    }

    /** ServerProxy::handle_data, as far as the connection is concerned. */
    method HandleData(data: Data)
      requires Valid() && IsConnected(View())
      modifies this
      ensures Valid() && View() == Input(old(View()), true, data)
      ensures screenLog == old(screenLog) + ScreenCall(old(View()).phase, View().phase)
    {
      match data {
        case Harmless =>
        case Options =>
          if server.HandshakeProxy? {
            server := MessageProxy;
            HandshakeComplete();
          }
        case Closing =>
          DoDisconnect();
      }
    }

    method HandshakeComplete()
      requires Alternates(screenLog) && |screenLog| % 2 == 0
      modifies this`ready, this`screenLog
      ensures ready && Alternates(screenLog) && |screenLog| % 2 == 1
      ensures screenLog == old(screenLog) + [true]
    {
      ready := true;
      screenLog := screenLog + [true];
    }

    /**
      Any event, handled by the handler installed for it, if there is one. Only an encrypted
      connection that is reported again when the proxy exists leads out of the phases.
    */
    method Dispatch(e: Event)
      requires Valid()
      modifies this
      ensures Valid() <==> !ReportsTooLate(old(View()), crypto, e)
      ensures Valid() ==> View() == Step(old(View()), crypto, e)
      ensures screenLog == old(screenLog) + ScreenCall(old(View()).phase, View().phase)
      ensures !Valid() ==> stream && !server.NoProxy? && InputReady in handlers && handlers[InputReady] == OnHello
    {
      match e {
        case Connect(works) => DoConnect(works);
        case Disconnect => DoDisconnect();
        case Suspend => HandleSuspend();
        case Resume(works) => HandleResume(works);
        case ConnectTimeout =>
          if timer {
            HandleConnectTimeout();
          }
        case KeepAliveAlarm =>
          if !server.NoProxy? {
            DoDisconnect();
          }
        case Stream(event, hello, data) => DispatchStream(event, hello, data);
      }
    }

    /** Where a handler is installed, and for what. */
    lemma HandlerTells(event: StreamEvent)
      requires Valid() && event in handlers
      ensures stream
      ensures match handlers[event]
              case OnConnected =>
                event == (if crypto then SecureConnected else SocketConnected) && (!crypto ==> View().phase.Dialing?)
              case OnConnectionFailed => event.ConnectionFailed? && View().phase.Dialing?
              case OnHello => event.InputReady? && View().phase.Greeting?
              case OnData => event.InputReady? && IsConnected(View())
              case OnStopRetry => event.StopRetry?
              case _ =>
                && (View().phase.Greeting? || IsConnected(View()))
                && (event.SocketDisconnected? || event.OutputError? || event.InputShutdown? || event.OutputShutdown?)
    {
    }

    /** An event without a handler changes nothing. */
    lemma NoHandlerTells(event: StreamEvent, hello: bool, data: Data)
      requires Valid() && event !in handlers
      ensures Step(View(), crypto, Stream(event, hello, data)) == View()
      ensures !ReportsTooLate(View(), crypto, Stream(event, hello, data))
    {
    }

    /** An event of the stream. */
    method DispatchStream(event: StreamEvent, hello: bool, data: Data)
      requires Valid()
      modifies this
      ensures Valid() <==> !ReportsTooLate(old(View()), crypto, Stream(event, hello, data))
      ensures Valid() ==> View() == Step(old(View()), crypto, Stream(event, hello, data))
      ensures screenLog == old(screenLog) + ScreenCall(old(View()).phase, View().phase)
      ensures !Valid() ==> stream && !server.NoProxy? && InputReady in handlers && handlers[InputReady] == OnHello
    {
      hide Valid, HandlersOf;
      if event !in handlers {
        NoHandlerTells(event, hello, data);
      } else {
        HandlerTells(event);
        match handlers[event] {
          case OnConnected => HandleConnected();
          case OnConnectionFailed => HandleConnectionFailed();
          case OnDisconnected => HandleDisconnected();
          case OnOutputError => HandleDisconnected();
          case OnHello => HandleHello(hello);
          case OnData => HandleData(data);
          case OnStopRetry =>
        }
      }
    }
  }

  /**
    Every run of events from the start ends at rest in a phase of the state machine, with the calls
    on the screen that go with it. The socket of an encrypted stream reports the connection once.
  */
  method Execute(crypto: bool, es: seq<Event>) returns (c: Client)
    ensures c.Valid() && c.View() == Run(START, crypto, es)
    ensures c.screenLog == ScreenCalls(crypto, es)
  {
    hide Run, ScreenCalls;
    c := new Client(crypto);
    var reported := false;
    StartsIdle(crypto);
    NoScreenCalls(crypto);
    for i := 0 to |es|
      invariant fresh(c) && c.Valid() && c.crypto == crypto
      invariant c.View() == Run(START, crypto, es[..i]) && c.screenLog == ScreenCalls(crypto, es[..i])
      invariant crypto ==> (reported <==> !c.View().phase.Idle? && !c.View().phase.Dialing?)
    {
      RunSnoc(START, crypto, es[..i], es[i]);
      ScreenCallsSnoc(crypto, es[..i], es[i]);
      assert es[..i] + [es[i]] == es[..i + 1];
      var report := es[i].Stream? && es[i].event.SecureConnected?;
      if !(report && reported) {
        c.Dispatch(es[i]);
      }
      reported := c.stream && (reported || report);
      assert c.stream <==> !c.View().phase.Idle?;
    }
    assert es[..|es|] == es;
  }

  lemma NoScreenCalls(crypto: bool)
    ensures ScreenCalls(crypto, []) == []
  {
  }

  lemma ScreenCallsSnoc(crypto: bool, es: seq<Event>, e: Event)
    ensures var before, after := Run(START, crypto, es), Step(Run(START, crypto, es), crypto, e);
            ScreenCalls(crypto, es + [e]) == ScreenCalls(crypto, es) + ScreenCall(before.phase, after.phase)
  {
    hide Run, Step, ScreenCall;
    RunSnoc(START, crypto, es, e);
    assert (es + [e])[..|es|] == es;
  }

  /**
    What the handlers alone would do if a socket reported its connection again after the hello: the
    handler for that is never removed and installs the hello handler over the proxy's own, so that the
    next input would lead SetupScreen to a second proxy, which the original asserts never happens.
  */
  method SecondReportBreaksHandshake() returns (c: Client)
    ensures c.stream && !c.server.NoProxy?
    ensures InputReady in c.handlers && c.handlers[InputReady] == OnHello
  {
    c := new Client(true);
    c.Dispatch(Connect(true));
    assert c.View() == Session(Dialing, false, false);
    c.Dispatch(Stream(SecureConnected, true, Harmless));
    assert c.View() == Session(Greeting, false, false);
    c.Dispatch(Stream(InputReady, true, Harmless));
    assert c.View() == Session(Handshaking, false, false);
    c.Dispatch(Stream(SecureConnected, true, Harmless));
  }
}