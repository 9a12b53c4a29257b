/**
 The client's connection as a state machine: one step for each event the client reacts to, in any order. What the
 outside decides (whether a socket reads as open, whether a send goes through) comes with the event.
 */
module SdkConnection {
  import opened Wrappers

  datatype Config = Config(autoReconnect: bool, maxReconnectAttempts: nat, autoPing: bool)

  /**
   How a request was settled: by a response, by its timeout, at once without an open socket, by a send that
   threw, or by a teardown.
   */
  datatype Outcome = Answered(success: bool) | TimedOut | NotConnected | SendThrew | TornDown

  /**
   Sockets are numbered as they are made. `deadlines` are those with a connection timeout armed, `handshakes` gives the
   authentication request a socket waits for.
   */
  datatype Connection = Connection(
    ws: Option<nat>, made: nat, tornDown: set<nat>, deadlines: set<nat>, handshakes: map<nat, nat>,
    authenticated: bool, connecting: bool, connectPromise: bool, pinging: bool)

  /**
   `retried` and `exhaustions` count the reconnect attempts begun since the budget was last renewed, and the exhaustions
   announced since `connect` was last called.
   */
  datatype Budget = Budget(
    reconnectAttempts: nat, reconnectTimer: bool, manualClose: bool, exhaustedEmitted: bool, retried: nat,
    exhaustions: nat)

  /** Requests are numbered too; `outcomes` gives what each was settled with, every time it was. */
  datatype Requests = Requests(pending: set<nat>, nextId: nat, outcomes: map<nat, seq<Outcome>>)

  datatype State = State(conn: Connection, budget: Budget, requests: Requests)

  const Init :=
    State(Connection(None, 0, {}, {}, map[], false, false, false, false), Budget(0, false, false, false, 0, 0),
          Requests({}, 0, map[]))

  datatype Event =
    | Connect(open: bool, constructs: bool)
    | TimerFires(open: bool, constructs: bool)
    | Close
    | Opened(socket: nat, sent: bool)
    | AuthSettled(socket: nat)
    | Message(socket: nat, id: nat, success: bool)
    | SocketError(socket: nat)
    | SocketClosed(socket: nat, retriable: bool)
    | Deadline(socket: nat)
    | PingFailed
    | Send(open: bool, sent: bool)
    | RequestTimeout(id: nat)

  // ------------------------------------------------------------ parts of the steps

  function OutcomesOf(outcomes: map<nat, seq<Outcome>>, id: nat): seq<Outcome>
  {
    if id in outcomes then outcomes[id] else []
  }

  function Settle(r: Requests, id: nat, outcome: Outcome): Requests
  {
    r.(pending := r.pending - {id}, outcomes := r.outcomes[id := OutcomesOf(r.outcomes, id) + [outcome]])
  }

  function RejectAll(outcomes: map<nat, seq<Outcome>>, ids: set<nat>): map<nat, seq<Outcome>>
  {
    map id | id in outcomes.Keys + ids :: if id in ids then OutcomesOf(outcomes, id) + [TornDown] else outcomes[id]
  }

  function RejectPending(r: Requests): Requests
  {
    r.(pending := {}, outcomes := RejectAll(r.outcomes, r.pending))
  }

  function Schedule(c: Config, b: Budget): Budget
  {
    if b.manualClose || !c.autoReconnect || b.reconnectTimer then b
    else if b.reconnectAttempts >= c.maxReconnectAttempts then
      if b.exhaustedEmitted then b else b.(exhaustedEmitted := true, exhaustions := b.exhaustions + 1)
    else b.(reconnectAttempts := b.reconnectAttempts + 1, reconnectTimer := true)
  }

  function Drop(n: Connection, socket: nat): Connection
  {
    n.(tornDown := n.tornDown + {socket}, ws := if n.ws == Some(socket) then None else n.ws,
       connecting := false, authenticated := false, pinging := false, connectPromise := false)
  }

  function Down(s: State, socket: nat): State
  {
    s.(conn := Drop(s.conn, socket), requests := RejectPending(s.requests))
  }

  function Teardown(c: Config, s: State, socket: nat, shouldReconnect: bool): State
  {
    if socket in s.conn.tornDown then s
    else if shouldReconnect then Down(s, socket).(budget := Schedule(c, s.budget))
    else Down(s, socket)
  }

  function NewSocket(n: Connection): Connection
  {
    n.(ws := Some(n.made), made := n.made + 1, connectPromise := true, deadlines := n.deadlines + {n.made})
  }

  predicate Underway(n: Connection, open: bool)
  {
    (n.ws.Some? && open && n.authenticated) || n.connectPromise
  }

  function Begun(s: State): State
  {
    s.(conn := s.conn.(connecting := true), budget := s.budget.(manualClose := false, reconnectTimer := false))
  }

  /** A new attempt; a stale socket that is still there goes down first. The socket's constructor may throw. */
  function DoConnect(c: Config, s: State, open: bool, constructs: bool): State
  {
    if Underway(s.conn, open) then s
    else
      var ready := if s.conn.ws.Some? then Teardown(c, Begun(s), s.conn.ws.value, false) else Begun(s);
      if constructs then ready.(conn := NewSocket(ready.conn)) else ready
  }

  function SendMessage(n: Connection, r: Requests, open: bool, sent: bool): Requests
  {
    var id := r.nextId;
    if n.ws.None? || !open then r.(nextId := id + 1, outcomes := r.outcomes[id := [NotConnected]])
    else if !sent then r.(nextId := id + 1, outcomes := r.outcomes[id := [SendThrew]], pending := r.pending - {id})
    else r.(nextId := id + 1, outcomes := r.outcomes[id := []], pending := r.pending + {id})
  }

  predicate Live(n: Connection, socket: nat)
  {
    n.ws == Some(socket) && socket !in n.tornDown
  }

  function Undue(s: State, socket: nat): State
  {
    s.(conn := s.conn.(deadlines := s.conn.deadlines - {socket}))
  }

  function Authenticated(c: Config, s: State): State
  {
    s.(conn := s.conn.(connecting := false, authenticated := true, connectPromise := false,
                              pinging := s.conn.pinging || c.autoPing),
       budget := s.budget.(reconnectAttempts := 0, retried := 0))
  }

  /**
   What becomes an authentication error: a refusal, and also an error of another kind than the client's own, as a send
   throws it.
   */
  predicate IsAuthError(outcome: Outcome)
  {
    outcome == Answered(false) || outcome == SendThrew
  }

  /** The handshake's continuation once its request is settled. */
  function FinishHandshake(c: Config, s: State, socket: nat, outcome: Outcome): State
  {
    var done := s.(conn := s.conn.(handshakes := s.conn.handshakes - {socket}));
    if outcome == Answered(true) then
      if Live(s.conn, socket) then Authenticated(c, Undue(done, socket)) else done
    else Teardown(c, Undue(done, socket), socket, !IsAuthError(outcome))
  }

  // ------------------------------------------------------------------------- steps

  predicate Enabled(s: State, e: Event)
  {
    match e
    case TimerFires(_, _) => s.budget.reconnectTimer
    case Opened(socket, _) => socket < s.conn.made && socket !in s.conn.handshakes
    case AuthSettled(socket) => socket in s.conn.handshakes &&
      OutcomesOf(s.requests.outcomes, s.conn.handshakes[socket]) != []
    case Message(socket, _, _) => socket < s.conn.made
    case SocketError(socket) => socket < s.conn.made
    case SocketClosed(socket, _) => socket < s.conn.made
    case Deadline(socket) => socket in s.conn.deadlines
    case RequestTimeout(id) => id in s.requests.pending
    case _ => true
  }

  function Renewed(b: Budget): Budget
  {
    b.(reconnectAttempts := 0, retried := 0, exhaustedEmitted := false, exhaustions := 0)
  }

  function Fired(b: Budget): Budget
  {
    b.(reconnectTimer := false, retried := b.retried + 1)
  }

  function Step(c: Config, s: State, e: Event): State
    requires Enabled(s, e)
  {
    match e
    case Connect(open, constructs) => DoConnect(c, s.(budget := Renewed(s.budget)), open, constructs)
    case TimerFires(open, constructs) => DoConnect(c, s.(budget := Fired(s.budget)), open, constructs)
    case Close =>
      var closing := s.(conn := s.conn.(pinging := false),
                        budget := s.budget.(manualClose := true, reconnectTimer := false));
      if s.conn.ws.Some? then Teardown(c, closing, s.conn.ws.value, false) else closing
    case Opened(socket, sent) =>
      if Live(s.conn, socket) then
        s.(conn := s.conn.(handshakes := s.conn.handshakes[socket := s.requests.nextId]),
           requests := SendMessage(s.conn, s.requests, true, sent))
      else s
    case AuthSettled(socket) => FinishHandshake(c, s, socket, s.requests.outcomes[s.conn.handshakes[socket]][0])
    case Message(socket, id, success) =>
      if Live(s.conn, socket) && id in s.requests.pending
      then s.(requests := Settle(s.requests, id, Answered(success))) else s
    case SocketError(socket) =>
      if Live(s.conn, socket) then Teardown(c, Undue(s, socket), socket, !s.budget.manualClose) else s
    case SocketClosed(socket, retriable) =>
      if Live(s.conn, socket) then Teardown(c, Undue(s, socket), socket, !s.budget.manualClose && retriable) else s
    case Deadline(socket) => Teardown(c, Undue(s, socket), socket, true)
    case PingFailed => if s.conn.ws.Some? then Teardown(c, s, s.conn.ws.value, true) else s
    case Send(open, sent) => s.(requests := SendMessage(s.conn, s.requests, open, sent))
    case RequestTimeout(id) => s.(requests := Settle(s.requests, id, TimedOut))
  }

  ghost predicate IsRun(c: Config, s: State, es: seq<Event>)
    decreases |es|
  {
    es == [] || (Enabled(s, es[0]) && IsRun(c, Step(c, s, es[0]), es[1..]))
  }

  function Run(c: Config, s: State, es: seq<Event>): State
    requires IsRun(c, s, es)
    decreases |es|
  {
    if es == [] then s else Run(c, Step(c, s, es[0]), es[1..])
  }

  // -------------------------------------------------------------------- invariants

  /** At most one socket is not torn down, and it is the current one. */
  ghost predicate OneSocket(s: State)
  {
    && (s.conn.ws.Some? ==> s.conn.ws.value < s.conn.made)
    && (forall k: nat :: k in s.conn.tornDown <==> k < s.conn.made && s.conn.ws != Some(k))
  }

  /** A request is pending and unsettled, or settled exactly once; without a socket none is pending. */
  ghost predicate Accounted(s: State)
  {
    && (forall id: nat :: id in s.requests.outcomes <==> id < s.requests.nextId)
    && (forall id | id in s.requests.pending :: id in s.requests.outcomes && s.requests.outcomes[id] == [])
    && (forall id | id in s.requests.outcomes && id !in s.requests.pending :: |s.requests.outcomes[id]| == 1)
    && (s.conn.ws.None? ==> s.requests.pending == {})
  }

  /** A timer waits only without a socket; a socket is being connected, with its deadline armed, or authenticated. */
  ghost predicate Phased(s: State)
  {
    && (s.budget.reconnectTimer ==> s.conn.ws.None? && !s.budget.manualClose)
    && (s.conn.ws.Some? <==> s.conn.connectPromise || s.conn.authenticated)
    && !(s.conn.connectPromise && s.conn.authenticated)
    && (s.conn.connectPromise ==> s.conn.ws.value in s.conn.deadlines)
    && (s.conn.pinging ==> s.conn.authenticated)
    && (s.conn.ws.Some? ==> !s.budget.manualClose)
    && (forall k | k in s.conn.deadlines :: k < s.conn.made)
    && (forall k | k in s.conn.handshakes :: k < s.conn.made && s.conn.handshakes[k] < s.requests.nextId)
    && (s.conn.ws.Some? && s.conn.ws.value in s.conn.handshakes ==>
          OutcomesOf(s.requests.outcomes, s.conn.handshakes[s.conn.ws.value]) != [TornDown])
  }

  /** Retries stay within the budget, and exhaustion is announced at most once. */
  ghost predicate Budgeted(c: Config, s: State)
  {
    && s.budget.reconnectAttempts <= c.maxReconnectAttempts
    && s.budget.retried + (if s.budget.reconnectTimer then 1 else 0) <= s.budget.reconnectAttempts
    && s.budget.exhaustions == (if s.budget.exhaustedEmitted then 1 else 0)
  }

  ghost predicate Inv(c: Config, s: State)
  {
    OneSocket(s) && Accounted(s) && Phased(s) && Budgeted(c, s)
  }

  lemma DownKeepsInv(c: Config, s: State, socket: nat)
    requires Inv(c, s) && s.conn.ws == Some(socket)
    ensures Inv(c, Down(s, socket)) && Down(s, socket).conn.ws.None?
    ensures Down(Undue(s, socket), socket) == Undue(Down(s, socket), socket)
  {
  }

  lemma UndueKeepsInv(c: Config, s: State, socket: nat)
    requires Inv(c, s) && s.conn.ws != Some(socket)
    ensures Inv(c, Undue(s, socket))
  {
  }

  lemma ScheduleKeepsInv(c: Config, s: State)
    requires Inv(c, s) && s.conn.ws.None?
    ensures Inv(c, s.(budget := Schedule(c, s.budget)))
  {
  }

  /** The current socket goes down, or one that already has; its deadline may be disarmed first. */
  lemma TeardownKeepsInv(c: Config, s: State, socket: nat, retry: bool)
    requires Inv(c, s) && socket < s.conn.made
    ensures Inv(c, Teardown(c, s, socket, retry)) && Inv(c, Teardown(c, Undue(s, socket), socket, retry))
    ensures Teardown(c, s, socket, retry).conn.made == s.conn.made &&
            Teardown(c, s, socket, retry).conn.ws != Some(socket)
  {
    if s.conn.ws == Some(socket) {
      DownKeepsInv(c, s, socket);
      UndueKeepsInv(c, Down(s, socket), socket);
      ScheduleKeepsInv(c, Down(s, socket));
      ScheduleKeepsInv(c, Undue(Down(s, socket), socket));
    } else {
      UndueKeepsInv(c, s, socket);
    }
  }

  lemma ConnectKeepsInv(c: Config, s: State, open: bool, constructs: bool)
    requires Inv(c, s)
    ensures Inv(c, DoConnect(c, s, open, constructs))
  {
    if !Underway(s.conn, open) {
      var begun := Begun(s);
      if s.conn.ws.Some? {
        TeardownKeepsInv(c, begun, s.conn.ws.value, false);
      }
    }
  }

  lemma SendKeepsInv(c: Config, s: State, open: bool, sent: bool)
    requires Inv(c, s)
    ensures Inv(c, s.(requests := SendMessage(s.conn, s.requests, open, sent)))
  {
  }

  lemma SettleKeepsInv(c: Config, s: State, id: nat, outcome: Outcome)
    requires Inv(c, s) && id in s.requests.pending && outcome != TornDown
    ensures Inv(c, s.(requests := Settle(s.requests, id, outcome)))
  {
    assert [] + [outcome] == [outcome] && [outcome][0] != [TornDown][0];
  }

  lemma HandshakeKeepsInv(c: Config, s: State, socket: nat, outcome: Outcome)
    requires Inv(c, s) && socket in s.conn.handshakes
    ensures Inv(c, FinishHandshake(c, s, socket, outcome))
  {
    var done := s.(conn := s.conn.(handshakes := s.conn.handshakes - {socket}));
    assert Inv(c, done);
    if outcome == Answered(true) {
      assert Live(s.conn, socket) ==> Inv(c, Authenticated(c, Undue(done, socket)));
    } else {
      TeardownKeepsInv(c, done, socket, outcome != Answered(false));
    }
  }

  lemma LossKeepsInv(c: Config, s: State, e: Event)
    requires Inv(c, s) && Enabled(s, e) && (e.SocketError? || e.SocketClosed? || e.Deadline? || e.PingFailed?)
    ensures Inv(c, Step(c, s, e))
  {
    if e.PingFailed? {
      if s.conn.ws.Some? {
        TeardownKeepsInv(c, s, s.conn.ws.value, true);
      }
    } else {
      var retry := e.Deadline? || (!s.budget.manualClose && (e.SocketClosed? ==> e.retriable));
      TeardownKeepsInv(c, s, e.socket, retry);
    }
  }

  lemma OpenedKeepsInv(c: Config, s: State, socket: nat, sent: bool)
    requires Inv(c, s) && socket < s.conn.made && socket !in s.conn.handshakes
    ensures Inv(c, Step(c, s, Opened(socket, sent)))
  {
    if Live(s.conn, socket) {
      SendKeepsInv(c, s, true, sent);
      AwaitingKeepsInv(c, s.(requests := SendMessage(s.conn, s.requests, true, sent)), socket, s.requests.nextId);
    }
  }

  lemma AwaitingKeepsInv(c: Config, s: State, socket: nat, id: nat)
    requires Inv(c, s) && socket < s.conn.made && id < s.requests.nextId &&
             OutcomesOf(s.requests.outcomes, id) != [TornDown]
    ensures Inv(c, s.(conn := s.conn.(handshakes := s.conn.handshakes[socket := id])))
  {
  }

  lemma RequestKeepsInv(c: Config, s: State, e: Event)
    requires Inv(c, s) && Enabled(s, e) && (e.Opened? || e.Message? || e.Send? || e.RequestTimeout?)
    ensures Inv(c, Step(c, s, e))
  {
    if e.Send? {
      SendKeepsInv(c, s, e.open, e.sent);
    } else if e.RequestTimeout? {
      SettleKeepsInv(c, s, e.id, TimedOut);
    } else if e.Opened? {
      OpenedKeepsInv(c, s, e.socket, e.sent);
    } else if Live(s.conn, e.socket) && e.id in s.requests.pending {
      SettleKeepsInv(c, s, e.id, Answered(e.success));
    }
  }

  lemma TimerKeepsInv(c: Config, s: State, open: bool, constructs: bool)
    requires Inv(c, s) && s.budget.reconnectTimer
    ensures Inv(c, Step(c, s, TimerFires(open, constructs)))
  {
    ConnectKeepsInv(c, s.(budget := Fired(s.budget)), open, constructs);
  }

  lemma StepKeepsInv(c: Config, s: State, e: Event)
    requires Inv(c, s) && Enabled(s, e)
    ensures Inv(c, Step(c, s, e))
  {
    if e.Connect? {
      ConnectBudget(c, s, e.open, e.constructs);
    } else if e.TimerFires? {
      TimerKeepsInv(c, s, e.open, e.constructs);
    } else if e.Close? {
      CloseKeepsInv(c, s);
    } else if e.AuthSettled? {
      HandshakeKeepsInv(c, s, e.socket, s.requests.outcomes[s.conn.handshakes[e.socket]][0]);
    } else if e.Opened? || e.Message? || e.Send? || e.RequestTimeout? {
      RequestKeepsInv(c, s, e);
    } else {
      LossKeepsInv(c, s, e);
    }
  }

  /** `connect` renews the budget first, with the timer perhaps still armed. */
  lemma ConnectBudget(c: Config, s: State, open: bool, constructs: bool)
    requires Inv(c, s)
    ensures Inv(c, Step(c, s, Connect(open, constructs)))
  {
    var renewed := s.(budget := Renewed(s.budget));
    var disarmed := s.(budget := Renewed(s.budget).(reconnectTimer := false));
    if s.conn.ws.None? {
      assert DoConnect(c, renewed, open, constructs) == DoConnect(c, disarmed, open, constructs);
    }
    ConnectKeepsInv(c, disarmed, open, constructs);
  }

  lemma CloseKeepsInv(c: Config, s: State)
    requires Inv(c, s)
    ensures Inv(c, Step(c, s, Close))
    ensures Quiet(Step(c, s, Close))
  {
    if s.conn.ws.Some? {
      TeardownKeepsInv(c, s, s.conn.ws.value, false);
    }
  }

  lemma {:induction false} InvAlways(c: Config, s: State, es: seq<Event>)
    requires Inv(c, s) && IsRun(c, s, es)
    ensures Inv(c, Run(c, s, es))
    decreases |es|
  {
    if es != [] {
      StepKeepsInv(c, s, es[0]);
      InvAlways(c, Step(c, s, es[0]), es[1..]);
    }
  }

  /** Closed by hand: no socket, nothing pending, no timer armed. */
  predicate Quiet(s: State)
  {
    && s.budget.manualClose && s.conn.ws.None? && s.requests.pending == {} && !s.budget.reconnectTimer
    && !s.conn.connectPromise && !s.conn.authenticated && !s.conn.pinging
  }

  // -------------------------------------------------------------------- main results

  /** Every request made is pending or has been settled exactly once, in whatever order things happen. */
  lemma SettledExactlyOnce(c: Config, es: seq<Event>, id: nat)
    requires IsRun(c, Init, es) && id < Run(c, Init, es).requests.nextId
    ensures var s := Run(c, Init, es);
            && id in s.requests.outcomes
            && |s.requests.outcomes[id]| == if id in s.requests.pending then 0 else 1
  {
    InvAlways(c, Init, es);
  }

  /** In every run at most one socket is not torn down, the current one. */
  lemma OneLiveSocket(c: Config, es: seq<Event>, socket: nat)
    requires IsRun(c, Init, es) && socket < Run(c, Init, es).conn.made
    ensures socket in Run(c, Init, es).conn.tornDown <==> Run(c, Init, es).conn.ws != Some(socket)
  {
    InvAlways(c, Init, es);
  }

  /**
   In every run the retries since the last renewal stay within the budget, and exhaustion is announced once at most.
   */
  lemma RetriesAreBounded(c: Config, es: seq<Event>)
    requires IsRun(c, Init, es)
    ensures var s := Run(c, Init, es); s.budget.retried <= c.maxReconnectAttempts && s.budget.exhaustions <= 1
  {
    InvAlways(c, Init, es);
  }

  predicate Connects(es: seq<Event>)
  {
    exists e | e in es :: e.Connect?
  }

  /** After `close`, whatever comes in late, nothing is pending and nothing reconnects before the next `connect`. */
  lemma {:induction false} StaysQuiet(c: Config, s: State, es: seq<Event>)
    requires Inv(c, s) && Quiet(s) && IsRun(c, s, es) && !Connects(es)
    ensures Quiet(Run(c, s, es))
    decreases |es|
  {
    if es != [] {
      assert es[0] in es;
      StepKeepsInv(c, s, es[0]);
      QuietStep(c, s, es[0]);
      StaysQuiet(c, Step(c, s, es[0]), es[1..]);
    }
  }

  lemma QuietStep(c: Config, s: State, e: Event)
    requires Inv(c, s) && Quiet(s) && Enabled(s, e) && !e.Connect?
    ensures Quiet(Step(c, s, e))
  {
  }

  lemma CloseIsFinal(c: Config, before: seq<Event>, after: seq<Event>)
    requires IsRun(c, Init, before) && IsRun(c, Step(c, Run(c, Init, before), Close), after) && !Connects(after)
    ensures Quiet(Run(c, Step(c, Run(c, Init, before), Close), after))
  {
    InvAlways(c, Init, before);
    CloseKeepsInv(c, Run(c, Init, before));
    StaysQuiet(c, Step(c, Run(c, Init, before), Close), after);
  }

  /**
   Losing the socket for a reason worth retrying: a retry is armed, or the budget is used up and that was announced.
   */
  lemma LossIsRetried(c: Config, s: State, socket: nat)
    requires Inv(c, s) && s.conn.ws == Some(socket) && c.autoReconnect
    ensures var s' := Teardown(c, s, socket, true);
      if s.budget.reconnectAttempts < c.maxReconnectAttempts
      then s'.budget.reconnectTimer && s'.budget.reconnectAttempts == s.budget.reconnectAttempts + 1
      else !s'.budget.reconnectTimer && s'.budget.exhaustedEmitted && s'.budget.exhaustions == 1
  {
  }

  /**
   How an attempt ends once its authentication request is settled: accepted, it is connected with a fresh budget;
   otherwise it is over, and retried exactly when the request timed out, or found the socket closed, and a
   retry is left.
   */
  lemma HandshakeDecides(c: Config, s: State, socket: nat)
    requires Inv(c, s) && s.conn.ws == Some(socket) && s.conn.connectPromise && Enabled(s, AuthSettled(socket))
    ensures var outcome, s' := s.requests.outcomes[s.conn.handshakes[socket]][0], Step(c, s, AuthSettled(socket));
      && !s'.conn.connectPromise && (s'.conn.authenticated <==> outcome == Answered(true))
      && (s'.conn.pinging <==> s'.conn.authenticated && c.autoPing)
      && (s'.conn.authenticated ==>
            s'.conn.ws == Some(socket) && s'.budget.reconnectAttempts == 0 && socket !in s'.conn.deadlines)
      && (!s'.conn.authenticated ==> s'.conn.ws.None?)
      && (s'.budget.reconnectTimer <==>
            (outcome.TimedOut? || outcome.NotConnected?) && c.autoReconnect
            && s.budget.reconnectAttempts < c.maxReconnectAttempts)
  {
    assert OutcomesOf(s.requests.outcomes, s.conn.handshakes[socket]) != [TornDown];
  }

  /** An authentication request whose send throws ends the attempt for good, whatever budget is left. */
  lemma ThrowingSendIsNotRetried(c: Config, s: State, socket: nat)
    requires Inv(c, s) && s.conn.ws == Some(socket) && s.conn.connectPromise && socket !in s.conn.handshakes
    ensures var s' := Step(c, s, Opened(socket, false));
      Enabled(s', AuthSettled(socket)) && Quietly(Step(c, s', AuthSettled(socket)))
  {
  }

  /** No socket, no attempt and no retry, though nobody closed the client. */
  predicate Quietly(s: State)
  {
    s.conn.ws.None? && !s.conn.connectPromise && !s.budget.reconnectTimer && !s.budget.manualClose
  }

  predicate NoTryLeft(c: Config, b: Budget)
  {
    !c.autoReconnect || b.reconnectAttempts >= c.maxReconnectAttempts
  }

  /**
   The events that end it: a socket that cannot be made, by `connect` or by a retry; a handshake refused; and a loss of
   the socket that forbids a retry, or comes when none is left.
   */
  predicate GivesUp(c: Config, s: State, e: Event)
    requires Enabled(s, e)
  {
    match e
    case Connect(open, constructs) => !Underway(s.conn, open) && !constructs
    case TimerFires(_, constructs) => !constructs
    case AuthSettled(socket) =>
      var outcome := s.requests.outcomes[s.conn.handshakes[socket]][0];
      s.conn.ws == Some(socket) && outcome != Answered(true) && (IsAuthError(outcome) || NoTryLeft(c, s.budget))
    case SocketClosed(socket, retriable) => s.conn.ws == Some(socket) && (!retriable || NoTryLeft(c, s.budget))
    case SocketError(socket) => s.conn.ws == Some(socket) && NoTryLeft(c, s.budget)
    case Deadline(socket) => s.conn.ws == Some(socket) && NoTryLeft(c, s.budget)
    case PingFailed => s.conn.ws.Some? && NoTryLeft(c, s.budget)
    case _ => false
  }

  /** Exactly those events leave a client that was not closed without a socket, an attempt and a retry. */
  lemma GivesUpIff(c: Config, s: State, e: Event)
    requires Inv(c, s) && Enabled(s, e) && !Quietly(s)
    ensures Quietly(Step(c, s, e)) <==> GivesUp(c, s, e)
  {
  }

  ghost predicate NeverQuiet(c: Config, s: State, es: seq<Event>)
    requires IsRun(c, s, es)
    decreases |es|
  {
    !Quietly(s) && (es != [] ==> NeverQuiet(c, Step(c, s, es[0]), es[1..]))
  }

  ghost predicate NeverGivesUp(c: Config, s: State, es: seq<Event>)
    requires IsRun(c, s, es)
    decreases |es|
  {
    es != [] ==> !GivesUp(c, s, es[0]) && NeverGivesUp(c, Step(c, s, es[0]), es[1..])
  }

  /** So over a whole run: a client is at work or closed all along exactly when none of them comes. */
  lemma {:induction false} NeverQuietIff(c: Config, s: State, es: seq<Event>)
    requires Inv(c, s) && !Quietly(s) && IsRun(c, s, es)
    ensures NeverQuiet(c, s, es) <==> NeverGivesUp(c, s, es)
    decreases |es|
  {
    if es != [] {
      GivesUpIff(c, s, es[0]);
      StepKeepsInv(c, s, es[0]);
      if !Quietly(Step(c, s, es[0])) {
        NeverQuietIff(c, Step(c, s, es[0]), es[1..]);
      }
    }
  }

  /** A retry whose socket cannot be made leaves the flag of an attempt set as well. */
  lemma ThrowingConstructorStops(c: Config, s: State, open: bool)
    requires Inv(c, s) && s.budget.reconnectTimer
    ensures var s' := Step(c, s, TimerFires(open, false)); Quietly(s') && s'.conn.connecting
  {
  }

  /** An attempt cannot hang: its deadline stays armed until it succeeds or fails, and firing it fails it. */
  lemma AttemptsEnd(c: Config, s: State)
    requires Inv(c, s) && s.conn.connectPromise
    ensures Enabled(s, Deadline(s.conn.ws.value))
    ensures var s' := Step(c, s, Deadline(s.conn.ws.value));
            !s'.conn.connectPromise && s'.conn.ws.None? && s'.requests.pending == {}
  {
  }

  /** An old socket's deadline, closing or error does nothing to the connection that replaced it. */
  lemma OldSocketsAreInert(c: Config, s: State, e: Event, socket: nat)
    requires Inv(c, s) && socket < s.conn.made && s.conn.ws != Some(socket)
    requires e == Deadline(socket) || e == SocketError(socket) || (e.SocketClosed? && e.socket == socket)
    requires Enabled(s, e)
    ensures Step(c, s, e).conn.(deadlines := s.conn.deadlines) == s.conn && Step(c, s, e).(conn := s.conn) == s
  {
  }

  /**
   The `connecting` flag does not say whether an attempt is under way: replacing a stale socket clears it after it was
   set. It is right exactly when there was none to replace.
   */
  lemma ConnectingFlagIff(c: Config, s: State, open: bool)
    requires Inv(c, s) && !Underway(s.conn, open)
    ensures var s' := DoConnect(c, s, open, true); s'.conn.connectPromise && (s'.conn.connecting <==> s.conn.ws.None?)
  {
  }

  /** A ping of a closed connection that fails late takes down the connection made since. */
  lemma LatePingHitsNewSocket(c: Config, s: State, open: bool)
    requires Inv(c, s) && s.conn.ws.Some?
    ensures var s' := Step(c, Step(c, s, Close), Connect(open, true));
      && s'.conn.ws == Some(s.conn.made) && s'.conn.connectPromise
      && s.conn.made in Step(c, s', PingFailed).conn.tornDown && !Step(c, s', PingFailed).conn.connectPromise
  {
  }

  // ------------------------------------------------------ what requests are settled with

  /** The event takes the current socket down. */
  predicate TearsDown(s: State, e: Event)
    requires Enabled(s, e)
  {
    s.conn.ws.Some? &&
    match e
    case Connect(open, _) => !s.conn.connectPromise && !(open && s.conn.authenticated)
    case Close => true
    case PingFailed => true
    case AuthSettled(socket) =>
      s.conn.ws.value == socket && s.requests.outcomes[s.conn.handshakes[socket]][0] != Answered(true)
    case SocketError(socket) => s.conn.ws.value == socket
    case SocketClosed(socket, _) => s.conn.ws.value == socket
    case Deadline(socket) => s.conn.ws.value == socket
    case _ => false
  }

  /**
   What the event settles request `id` with, if it does: a response of the current socket with what it says, a timeout,
   the loss of the socket, or, as the request is made, what keeps it from being sent.
   */
  function Settlement(s: State, e: Event, id: nat): Option<Outcome>
    requires Enabled(s, e)
  {
    match e
    case Message(socket, answered, success) =>
      if answered == id && id in s.requests.pending && s.conn.ws == Some(socket) then Some(Answered(success)) else None
    case RequestTimeout(timedOut) => if timedOut == id then Some(TimedOut) else None
    case Send(open, sent) =>
      if id != s.requests.nextId then None
      else if s.conn.ws.None? || !open then Some(NotConnected)
      else if !sent then Some(SendThrew)
      else None
    case Opened(socket, sent) =>
      if id == s.requests.nextId && s.conn.ws == Some(socket) && !sent then Some(SendThrew) else None
    case _ => if id in s.requests.pending && TearsDown(s, e) then Some(TornDown) else None
  }

  function FirstSettlement(c: Config, s: State, es: seq<Event>, id: nat): Option<Outcome>
    requires IsRun(c, s, es)
    decreases |es|
  {
    if es == [] then None
    else if Settlement(s, es[0], id).Some? then Settlement(s, es[0], id)
    else FirstSettlement(c, Step(c, s, es[0]), es[1..], id)
  }

  function Listed(outcome: Option<Outcome>): seq<Outcome>
  {
    if outcome.None? then [] else [outcome.value]
  }

  lemma StepSettles(c: Config, s: State, e: Event, id: nat)
    requires Inv(c, s) && Enabled(s, e)
    ensures var before, after := OutcomesOf(s.requests.outcomes, id), OutcomesOf(Step(c, s, e).requests.outcomes, id);
      if before == [] then after == Listed(Settlement(s, e, id)) else after == before
  {
    var r := s.requests;
    assert id in r.pending ==> OutcomesOf(r.outcomes, id) == [] && id < r.nextId;
    assert [] + [TornDown] == [TornDown] && [] + [TimedOut] == [TimedOut];
    if e.Message? {
      assert [] + [Answered(e.success)] == [Answered(e.success)];
    }
  }

  lemma {:induction false} SettledStays(c: Config, s: State, es: seq<Event>, id: nat)
    requires Inv(c, s) && IsRun(c, s, es) && OutcomesOf(s.requests.outcomes, id) != []
    ensures OutcomesOf(Run(c, s, es).requests.outcomes, id) == OutcomesOf(s.requests.outcomes, id)
    decreases |es|
  {
    if es != [] {
      StepSettles(c, s, es[0], id);
      StepKeepsInv(c, s, es[0]);
      SettledStays(c, Step(c, s, es[0]), es[1..], id);
    }
  }

  lemma {:induction false} OutcomeIsFirstFrom(c: Config, s: State, es: seq<Event>, id: nat)
    requires Inv(c, s) && IsRun(c, s, es) && OutcomesOf(s.requests.outcomes, id) == []
    ensures OutcomesOf(Run(c, s, es).requests.outcomes, id) == Listed(FirstSettlement(c, s, es, id))
    decreases |es|
  {
    if es != [] {
      StepSettles(c, s, es[0], id);
      StepKeepsInv(c, s, es[0]);
      if Settlement(s, es[0], id).Some? {
        SettledStays(c, Step(c, s, es[0]), es[1..], id);
      } else {
        OutcomeIsFirstFrom(c, Step(c, s, es[0]), es[1..], id);
      }
    }
  }

  /** In every run a request is settled with exactly what the first event says that settles it. */
  lemma OutcomeIsFirst(c: Config, es: seq<Event>, id: nat)
    requires IsRun(c, Init, es)
    ensures OutcomesOf(Run(c, Init, es).requests.outcomes, id) == Listed(FirstSettlement(c, Init, es, id))
  {
    OutcomeIsFirstFrom(c, Init, es, id);
  }

  /** The event accepts the authentication of socket `socket`, the current one. */
  predicate Welcomes(s: State, e: Event, socket: nat)
  {
    && e.Message? && e.socket == socket && e.success && s.conn.ws == Some(socket)
    && socket in s.conn.handshakes && s.conn.handshakes[socket] == e.id && e.id in s.requests.pending
  }

  predicate Welcomed(c: Config, s: State, es: seq<Event>, socket: nat)
    requires IsRun(c, s, es)
    decreases |es|
  {
    es != [] && (Welcomes(s, es[0], socket) || Welcomed(c, Step(c, s, es[0]), es[1..], socket))
  }

  /** The socket is authenticated, or its authentication was accepted and the client is about to learn it. */
  predicate Greeted(s: State, socket: nat)
  {
    s.conn.ws == Some(socket) &&
    (s.conn.authenticated ||
     (socket in s.conn.handshakes && OutcomesOf(s.requests.outcomes, s.conn.handshakes[socket]) == [Answered(true)]))
  }

  lemma StepGreets(c: Config, s: State, e: Event, socket: nat)
    requires Inv(c, s) && Enabled(s, e) && Greeted(Step(c, s, e), socket)
    ensures Greeted(s, socket) || Welcomes(s, e, socket)
  {
    if socket in s.conn.handshakes {
      StepSettles(c, s, e, s.conn.handshakes[socket]);
    }
    StepSettles(c, s, e, s.requests.nextId);
  }

  lemma {:induction false} GreetedWasWelcomed(c: Config, s: State, es: seq<Event>, socket: nat)
    requires Inv(c, s) && IsRun(c, s, es) && Greeted(Run(c, s, es), socket)
    ensures Greeted(s, socket) || Welcomed(c, s, es, socket)
    decreases |es|
  {
    if es != [] {
      StepKeepsInv(c, s, es[0]);
      GreetedWasWelcomed(c, Step(c, s, es[0]), es[1..], socket);
      if Greeted(Step(c, s, es[0]), socket) {
        StepGreets(c, s, es[0], socket);
      }
    }
  }

  /** In every run an authenticated client has a current socket whose authentication request was accepted on it. */
  lemma AuthenticatedWasWelcomed(c: Config, es: seq<Event>)
    requires IsRun(c, Init, es) && Run(c, Init, es).conn.authenticated
    ensures var ws := Run(c, Init, es).conn.ws; ws.Some? && Welcomed(c, Init, es, ws.value)
  {
    InvAlways(c, Init, es);
    GreetedWasWelcomed(c, Init, es, Run(c, Init, es).conn.ws.value);
  }
  /** The budget starts anew: with `connect`, and with an accepted handshake of the current socket. */
  predicate Renews(s: State, e: Event)
    requires Enabled(s, e)
  {
    e.Connect? ||
    (e.AuthSettled? && s.conn.ws == Some(e.socket) &&
     s.requests.outcomes[s.conn.handshakes[e.socket]][0] == Answered(true))
  }

  /** How often the reconnect timer has fired since the budget last started anew, `n` times before the run. */
  function Retries(c: Config, s: State, es: seq<Event>, n: nat): nat
    requires IsRun(c, s, es)
    decreases |es|
  {
    if es == [] then n
    else
      var n' := if Renews(s, es[0]) then 0 else if es[0].TimerFires? then n + 1 else n;
      Retries(c, Step(c, s, es[0]), es[1..], n')
  }

  /** The retries counted are those begun, and an attempt is used up for each of them and for the one that is armed. */
  ghost predicate CountsRetries(s: State, n: nat)
  {
    && s.budget.retried == n
    && (!s.budget.manualClose ==> s.budget.reconnectAttempts == n + if s.budget.reconnectTimer then 1 else 0)
  }

  lemma StepCountsRetries(c: Config, s: State, e: Event, n: nat)
    requires Inv(c, s) && Enabled(s, e) && CountsRetries(s, n)
    ensures CountsRetries(Step(c, s, e), if Renews(s, e) then 0 else if e.TimerFires? then n + 1 else n)
  {
  }

  lemma {:induction false} RunCountsRetries(c: Config, s: State, es: seq<Event>, n: nat)
    requires Inv(c, s) && IsRun(c, s, es) && CountsRetries(s, n)
    ensures CountsRetries(Run(c, s, es), Retries(c, s, es, n))
    decreases |es|
  {
    if es != [] {
      StepCountsRetries(c, s, es[0], n);
      StepKeepsInv(c, s, es[0]);
      RunCountsRetries(c, Step(c, s, es[0]), es[1..],
                       if Renews(s, es[0]) then 0 else if es[0].TimerFires? then n + 1 else n);
    }
  }

  /**
   The budget in every run, by the events alone: the reconnect timer has fired at most `maxReconnectAttempts` times
   since `connect` or the last accepted handshake, and of a client not closed by hand exactly as many attempts are used
   up as that, and one more while the timer is armed.
   */
  lemma RetriesAreCounted(c: Config, es: seq<Event>)
    requires IsRun(c, Init, es)
    ensures var s, n := Run(c, Init, es), Retries(c, Init, es, 0);
      && n <= c.maxReconnectAttempts
      && (!s.budget.manualClose ==> s.budget.reconnectAttempts == n + if s.budget.reconnectTimer then 1 else 0)
  {
    InvAlways(c, Init, es);
    RunCountsRetries(c, Init, es, 0);
  }
}
