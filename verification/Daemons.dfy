/** The privileged daemon, one critical section at a time: internal/service/daemon/daemon.go. */
module Daemons {
  import opened Bytes

  /** ipc.State */
  datatype Phase = Disconnected | Connecting | Connected | Disconnecting | Error

  datatype Gateway = Gateway(host: string, port: int)

  datatype Request = Request(cookie: string, host: string, port: int)

  datatype Refusal = NoCookie | AlreadyConnected | StillDisconnecting | NoGateway

  /** What Options.Connect returned: a fresh connection, or an error. */
  datatype DialResult = Opened(connection: nat) | DialFailed(message: string)

  /** The fields the mutex guards. Connections, watch contexts and connect contexts are known by
      number; a number stands for one pointer or one cancel function. */
  datatype Fields = Fields(
    state: Phase, lastError: string, gateway: Option<Gateway>,
    connection: Option<nat>, watching: Option<nat>, cancelConnect: Option<nat>)

  const NEW_FIELDS := Fields(Disconnected, "", None, None, None, None)

  function ChooseGateway(default: Gateway, request: Request): Gateway {
    Gateway(if request.host != "" then request.host else default.host,
            if request.port != 0 then request.port else default.port)
  }

  /** Why a connect request is turned away, if it is. */
  function Refuse(d: Fields, default: Gateway, request: Request): Option<Refusal> {
    if request.cookie == "" then Some(NoCookie)
    else if d.state == Connected || d.state == Connecting then Some(AlreadyConnected)
    else if d.state == Disconnecting then Some(StillDisconnecting)
    else if ChooseGateway(default, request).host == "" then Some(NoGateway)
    else None
  }

  /** The first critical section of connect, when it is not refused. */
  function Begin(d: Fields, default: Gateway, request: Request, attempt: nat): Fields {
    d.(state := Connecting, lastError := "", gateway := Some(ChooseGateway(default, request)),
       cancelConnect := Some(attempt))
  }

  predicate Aborted(d: Fields) {
    d.state == Disconnecting
  }

  /** The second critical section of connect. */
  function Finish(d: Fields, result: DialResult, watch: nat): Fields {
    var cleared := d.(cancelConnect := None);
    if Aborted(d) then cleared.(lastError := "")
    else
      match result
      case DialFailed(message) => cleared.(state := Error, lastError := message)
      case Opened(c) => cleared.(state := Connected, connection := Some(c), watching := Some(watch))
  }

  function Settle(d: Fields, state: Phase, lastError: string): Fields {
    d.(state := state, lastError := lastError)
  }

  /** The critical section of a watcher whose connection stopped. */
  function LoseConnection(d: Fields, connection: nat, cause: Option<string>): Fields {
    if d.connection != Some(connection) then d
    else
      match cause
      case Some(message) => d.(state := Error, lastError := message, connection := None)
      case None => d.(state := Disconnected, connection := None)
  }

  datatype DisconnectPlan =
    | CancelAttempt(attempt: nat)
    | NothingToClose(notConnected: bool)
    | CloseConnection(connection: nat, watch: Option<nat>)

  function PlanDisconnect(d: Fields): DisconnectPlan {
    if d.cancelConnect.Some? then CancelAttempt(d.cancelConnect.value)
    else if d.connection.None? then NothingToClose(d.state == Disconnected)
    else CloseConnection(d.connection.value, d.watching)
  }

  /** The first critical section of disconnect. */
  function StartDisconnect(d: Fields): Fields {
    match PlanDisconnect(d)
    case CancelAttempt(_) => d.(state := Disconnecting)
    case NothingToClose(_) => d
    case CloseConnection(_, _) => d.(watching := None, connection := None, state := Disconnecting)
  }

  /** The second critical section of disconnect, after Close returned. */
  function EndDisconnect(d: Fields, closeError: Option<string>): Fields {
    d.(state := Disconnected, lastError := if closeError.Some? then closeError.value else d.lastError)
  }

  class Daemon {
    const defaultGateway: Gateway
    var state: Phase
    var lastError: string
    var gateway: Option<Gateway>
    var connection: Option<nat>
    var watching: Option<nat>
    var cancelConnect: Option<nat>

    constructor (defaultGateway: Gateway)
      ensures View() == NEW_FIELDS && this.defaultGateway == defaultGateway
    {
      this.defaultGateway := defaultGateway;
      state, lastError, gateway := Disconnected, "", None;
      connection, watching, cancelConnect := None, None, None;
    }

    function View(): Fields
      reads this
    {
      Fields(state, lastError, gateway, connection, watching, cancelConnect)
    }

    /** Up to the point where the attempt leaves the lock to dial. */
    method BeginConnect(request: Request, attempt: nat) returns (refusal: Option<Refusal>)
      modifies this
      ensures refusal == Refuse(old(View()), defaultGateway, request)
      ensures View() == if refusal.Some? then old(View()) else Begin(old(View()), defaultGateway, request, attempt)
    {
      if request.cookie == "" {
        return Some(NoCookie);
      }
      match state {
        case Connected => return Some(AlreadyConnected);
        case Connecting => return Some(AlreadyConnected);
        case Disconnecting => return Some(StillDisconnecting);
        case Disconnected =>
        case Error =>
      }
      var target := defaultGateway;
      if request.host != "" {
        target := target.(host := request.host);
      }
      if request.port != 0 {
        target := target.(port := request.port);
      }
      if target.host == "" {
        return Some(NoGateway);
      }
      state := Connecting;
      lastError := "";
      gateway := Some(target);
      cancelConnect := Some(attempt);
      refusal := None;
    }

    method FinishConnect(result: DialResult, watch: nat) returns (aborted: bool)
      modifies this
      ensures aborted == Aborted(old(View()))
      ensures View() == Finish(old(View()), result, watch)
    {
      aborted := state == Disconnecting;
      cancelConnect := None;
      if aborted {
        lastError := "";
      } else if result.DialFailed? {
        state := Error;
        lastError := result.message;
      } else {
        connection := Some(result.connection);
        state := Connected;
        watching := Some(watch);
      }
    }

    method SettleState(state: Phase, lastError: string)
      modifies this`state, this`lastError
      ensures View() == Settle(old(View()), state, lastError)
    {
      this.state := state;
      this.lastError := lastError;
    }

    /** The watcher's critical section; `mine` tells it to go on and close the connection. */
    method ConnectionStopped(stopped: nat, cause: Option<string>) returns (mine: bool)
      modifies this`state, this`lastError, this`connection
      ensures mine <==> old(connection) == Some(stopped)
      ensures View() == LoseConnection(old(View()), stopped, cause)
    {
      if connection != Some(stopped) {
        return false;
      }
      match cause {
        case Some(message) =>
          state := Error;
          lastError := message;
        case None =>
          state := Disconnected;
      }
      connection := None;
      mine := true;
    }

    method BeginDisconnect() returns (plan: DisconnectPlan)
      modifies this`state, this`watching, this`connection
      ensures plan == PlanDisconnect(old(View()))
      ensures View() == StartDisconnect(old(View()))
    {
      if cancelConnect.Some? {
        state := Disconnecting;
        return CancelAttempt(cancelConnect.value);
      }
      if connection.None? {
        return NothingToClose(state == Disconnected);
      }
      plan := CloseConnection(connection.value, watching);
      watching := None;
      connection := None;
      state := Disconnecting;
    }

    method FinishDisconnect(closeError: Option<string>)
      modifies this`state, this`lastError
      ensures View() == EndDisconnect(old(View()), closeError)
    {
      state := Disconnected;
      if closeError.Some? {
        lastError := closeError.value;
      }
    }
  }
}
