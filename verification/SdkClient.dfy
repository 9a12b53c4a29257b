/** The SDK client itself: its fields and the handlers that change them, each proved to take one step of the machine. */
module SdkClient {
  import opened Wrappers
  import opened Decimal
  import opened SdkConnection

  const NonReconnectCloseCodes: set<nat> := {1008, 1011}

  function MessageId(now: nat, counter: nat): string
  {
    Print(now) + "-" + Print(counter)
  }

  lemma {:induction false} SameTail(a: string, b: string, c: string, d: string)
    requires AllDigits(a) && AllDigits(c) && a + "-" + b == c + "-" + d
    ensures b == d
    decreases |a|
  {
    var left, right := a + "-" + b, c + "-" + d;
    HeadOf(a, b);
    HeadOf(c, d);
    if a == "" {
      assert c == "";
      assert left[1..] == b && right[1..] == d;
    } else {
      assert c != "";
      assert a[1..] + "-" + b == left[1..] && c[1..] + "-" + d == right[1..];
      SameTail(a[1..], b, c[1..], d);
    }
  }

  lemma HeadOf(a: string, b: string)
    requires AllDigits(a)
    ensures (a + "-" + b)[0] == '-' <==> a == ""
  {
    assert a != "" ==> (a + "-" + b)[0] == a[0] && a[0] in a;
  }

  /** Message ids never repeat, whatever the clock says. */
  lemma MessageIdsDiffer(now: nat, counter: nat, now': nat, counter': nat)
    requires counter != counter'
    ensures MessageId(now, counter) != MessageId(now', counter')
  {
    if MessageId(now, counter) == MessageId(now', counter') {
      SameTail(Print(now), Print(counter), Print(now'), Print(counter'));
      PrintInjective(counter, counter');
    }
  }

  class DucklingClient {
    const config: Config
    var ws: Option<nat>
    var made: nat
    var tornDown: set<nat>
    var deadlines: set<nat>
    var authenticated: bool
    var connecting: bool
    var connectPromise: bool
    var pinging: bool
    var reconnectAttempts: nat
    var reconnectTimer: bool
    var manualClose: bool
    var exhaustedEmitted: bool
    var pending: set<nat>
    var nextId: nat
    ghost var handshakes: map<nat, nat>
    ghost var outcomes: map<nat, seq<Outcome>>
    ghost var retried: nat
    ghost var exhaustions: nat

    ghost function Conn(): Connection
      reads this`ws, this`made, this`tornDown, this`deadlines, this`handshakes, this`authenticated, this`connecting,
            this`connectPromise, this`pinging
    {
      Connection(ws, made, tornDown, deadlines, handshakes, authenticated, connecting, connectPromise, pinging)
    }

    ghost function Retries(): Budget
      reads this`reconnectAttempts, this`reconnectTimer, this`manualClose, this`exhaustedEmitted, this`retried,
            this`exhaustions
    {
      Budget(reconnectAttempts, reconnectTimer, manualClose, exhaustedEmitted, retried, exhaustions)
    }

    ghost function Asked(): Requests
      reads this`pending, this`nextId, this`outcomes
    {
      Requests(pending, nextId, outcomes)
    }

    ghost function Abs(): State
      reads this
    {
      State(Conn(), Retries(), Asked())
    }

    ghost predicate Valid()
      reads this
    {
      Inv(config, Abs())
    }

    constructor (config: Config)
      ensures this.config == config && Abs() == Init && Valid()
    {
      this.config := config;
      ws, made, tornDown, deadlines := None, 0, {}, {};
      authenticated, connecting, connectPromise, pinging := false, false, false, false;
      reconnectAttempts, reconnectTimer, manualClose, exhaustedEmitted := 0, false, false, false;
      pending, nextId := {}, 0;
      handshakes, outcomes, retried, exhaustions := map[], map[], 0, 0;
    }

    method RejectPendingRequests()
      modifies this`pending, this`outcomes
      ensures Asked() == RejectPending(old(Asked()))
    {
      var todo := pending;
      assert outcomes == RejectAll(outcomes, pending - todo);
      while todo != {}
        invariant todo <= old(pending)
        invariant outcomes == RejectAll(old(outcomes), old(pending) - todo)
        decreases todo
      {
        var id :| id in todo;
        outcomes := outcomes[id := OutcomesOf(outcomes, id) + [TornDown]];
        todo := todo - {id};
      }
      assert old(pending) - todo == old(pending);
      pending := {};
    }

    method ScheduleReconnect()
      modifies this`reconnectAttempts, this`reconnectTimer, this`exhaustedEmitted, this`exhaustions
      ensures Retries() == Schedule(config, old(Retries()))
    {
      if manualClose || !config.autoReconnect || reconnectTimer {
        return;
      }
      if reconnectAttempts >= config.maxReconnectAttempts {
        if !exhaustedEmitted {
          exhaustedEmitted := true;
          exhaustions := exhaustions + 1;
        }
        return;
      }
      reconnectAttempts := reconnectAttempts + 1;
      reconnectTimer := true;
    }

    /** The part of a teardown every socket gets. */
    method DropSocket(socket: nat)
      modifies this`tornDown, this`ws, this`connecting, this`authenticated, this`pinging, this`connectPromise,
               this`pending, this`outcomes
      ensures Conn() == Drop(old(Conn()), socket) && Asked() == RejectPending(old(Asked()))
    {
      tornDown := tornDown + {socket};
      if ws == Some(socket) {
        ws := None;
      }
      connecting, authenticated, pinging := false, false, false;
      RejectPendingRequests();
      connectPromise := false;
    }

    method TeardownSocket(socket: nat, shouldReconnect: bool)
      modifies this
      ensures Abs() == Teardown(config, old(Abs()), socket, shouldReconnect)
    {
      if socket in tornDown {
        return;
      }
      DropSocket(socket);
      if shouldReconnect {
        ScheduleReconnect();
      }
    }

    method BeginAttempt()
      modifies this`manualClose, this`connecting, this`reconnectTimer
      ensures Conn() == old(Conn()).(connecting := true)
      ensures Retries() == old(Retries()).(manualClose := false, reconnectTimer := false)
    {
      manualClose := false;
      connecting := true;
      reconnectTimer := false;
    }

    method OpenSocket()
      modifies this`ws, this`made, this`connectPromise, this`deadlines
      ensures Conn() == NewSocket(old(Conn()))
    {
      ws, made, connectPromise, deadlines := Some(made), made + 1, true, deadlines + {made};
    }

    method InnerConnect(open: bool, constructs: bool)
      modifies this
      ensures Abs() == DoConnect(config, old(Abs()), open, constructs)
    {
      if ws.Some? && open && authenticated {
        return;
      }
      if connectPromise {
        return;
      }
      BeginAttempt();
      if ws.Some? {
        TeardownSocket(ws.value, false);
      }
      if constructs {
        OpenSocket();
      }
    }

    method Connect(open: bool, constructs: bool)
      requires Valid()
      modifies this
      ensures Valid() && Abs() == Step(config, old(Abs()), Event.Connect(open, constructs))
    {
      StepKeepsInv(config, Abs(), Event.Connect(open, constructs));
      RenewRetries();
      exhaustedEmitted := false;
      exhaustions := 0;
      InnerConnect(open, constructs);
    }

    method OnReconnectTimer(open: bool, constructs: bool)
      requires Valid() && reconnectTimer
      modifies this
      ensures Valid() && Abs() == Step(config, old(Abs()), TimerFires(open, constructs))
    {
      StepKeepsInv(config, Abs(), TimerFires(open, constructs));
      reconnectTimer := false;
      retried := retried + 1;
      InnerConnect(open, constructs);
    }

    method Close()
      requires Valid()
      modifies this
      ensures Valid() && Abs() == Step(config, old(Abs()), Event.Close)
    {
      StepKeepsInv(config, Abs(), Event.Close);
      manualClose, pinging := true, false;
      reconnectTimer := false;
      if ws.Some? {
        TeardownSocket(ws.value, false);
      }
    }

    /** The request's number is returned; it stays pending only if the message went out. */
    method SendRequest(open: bool, sent: bool) returns (id: nat)
      modifies this`nextId, this`pending, this`outcomes
      ensures id == old(nextId) && Asked() == SendMessage(Conn(), old(Asked()), open, sent)
    {
      id := nextId;
      nextId := nextId + 1;
      if ws.None? || !open {
        outcomes := outcomes[id := [NotConnected]];
        return;
      }
      pending := pending + {id};
      if sent {
        outcomes := outcomes[id := []];
      } else {
        pending := pending - {id};
        assert pending == old(pending) - {id};
        outcomes := outcomes[id := [SendThrew]];
      }
    }

    method Send(open: bool, sent: bool) returns (id: nat)
      requires Valid()
      modifies this
      ensures Valid() && Abs() == Step(config, old(Abs()), Event.Send(open, sent))
    {
      StepKeepsInv(config, Abs(), Event.Send(open, sent));
      id := SendRequest(open, sent);
    }

    method OnRequestTimeout(id: nat)
      requires Valid() && id in pending
      modifies this`pending, this`outcomes
      ensures Valid() && Abs() == Step(config, old(Abs()), RequestTimeout(id))
    {
      StepKeepsInv(config, Abs(), RequestTimeout(id));
      pending := pending - {id};
      outcomes := outcomes[id := OutcomesOf(outcomes, id) + [TimedOut]];
    }

    method OnOpen(socket: nat, sent: bool)
      requires Valid() && Enabled(Abs(), Opened(socket, sent))
      modifies this
      ensures Valid() && Abs() == Step(config, old(Abs()), Opened(socket, sent))
    {
      StepKeepsInv(config, Abs(), Opened(socket, sent));
      if ws != Some(socket) || socket in tornDown {
        return;
      }
      var id := SendRequest(true, sent);
      handshakes := handshakes[socket := id];
    }

    /** The handshake of `socket` succeeded: its deadline is off and `connect` resolves. */
    method Accept(socket: nat)
      modifies this`deadlines, this`connecting, this`authenticated, this`connectPromise
      ensures Conn() == old(Conn()).(deadlines := old(deadlines) - {socket}, connecting := false, authenticated := true,
                                     connectPromise := false)
    {
      deadlines := deadlines - {socket};
      connecting := false;
      authenticated := true;
      connectPromise := false;
    }

    method Authenticate(socket: nat)
      modifies this`deadlines, this`connecting, this`authenticated, this`connectPromise, this`pinging,
               this`reconnectAttempts, this`retried
      ensures Abs() == Authenticated(config, Undue(old(Abs()), socket))
    {
      Accept(socket);
      RenewRetries();
      if config.autoPing {
        pinging := true;
      }
    }

    method RenewRetries()
      modifies this`reconnectAttempts, this`retried
      ensures Retries() == old(Retries()).(reconnectAttempts := 0, retried := 0)
    {
      reconnectAttempts := 0;
      retried := 0;
    }

    /** The rest of the handshake, once its request is settled with `outcome`. */
    method OnAuthSettled(socket: nat, outcome: Outcome)
      requires Valid() && Enabled(Abs(), AuthSettled(socket)) && outcome == outcomes[handshakes[socket]][0]
      modifies this
      ensures Valid() && Abs() == Step(config, old(Abs()), AuthSettled(socket))
    {
      StepKeepsInv(config, Abs(), AuthSettled(socket));
      handshakes := handshakes - {socket};
      if outcome == Answered(true) {
        if ws == Some(socket) && socket !in tornDown {
          Authenticate(socket);
        }
      } else {
        deadlines := deadlines - {socket};
        TeardownSocket(socket, !IsAuthError(outcome));
      }
    }

    method OnMessage(socket: nat, id: nat, success: bool)
      requires Valid() && socket < made
      modifies this
      ensures Valid() && Abs() == Step(config, old(Abs()), Message(socket, id, success))
    {
      StepKeepsInv(config, Abs(), Message(socket, id, success));
      if ws != Some(socket) || socket in tornDown {
        return;
      }
      if id in pending {
        pending := pending - {id};
        outcomes := outcomes[id := OutcomesOf(outcomes, id) + [Answered(success)]];
      }
    }

    method OnError(socket: nat)
      requires Valid() && socket < made
      modifies this
      ensures Valid() && Abs() == Step(config, old(Abs()), SocketError(socket))
    {
      StepKeepsInv(config, Abs(), SocketError(socket));
      if ws != Some(socket) || socket in tornDown {
        return;
      }
      deadlines := deadlines - {socket};
      TeardownSocket(socket, !manualClose);
    }

    method OnClosed(socket: nat, code: nat)
      requires Valid() && socket < made
      modifies this
      ensures Valid() && Abs() == Step(config, old(Abs()), SocketClosed(socket, code != 1008 && code != 1011))
    {
      StepKeepsInv(config, Abs(), SocketClosed(socket, code !in NonReconnectCloseCodes));
      if ws != Some(socket) || socket in tornDown {
        return;
      }
      deadlines := deadlines - {socket};
      TeardownSocket(socket, !manualClose && code !in NonReconnectCloseCodes);
    }

    method OnDeadline(socket: nat)
      requires Valid() && socket in deadlines
      modifies this
      ensures Valid() && Abs() == Step(config, old(Abs()), Deadline(socket))
    {
      StepKeepsInv(config, Abs(), Deadline(socket));
      deadlines := deadlines - {socket};
      TeardownSocket(socket, true);
    }

    method OnPingFailed()
      requires Valid()
      modifies this
      ensures Valid() && Abs() == Step(config, old(Abs()), PingFailed)
    {
      StepKeepsInv(config, Abs(), PingFailed);
      if ws.Some? {
        TeardownSocket(ws.value, true);
      }
    }
  }
}
