/**
 * The process-wide Redis connection (src/config/redis.js): a client handle
 * and a readiness flag. Only the client's `ready` and `error` events move
 * the flag; `connect` installs the client but leaves the flag alone.
 */
module Redis {
  import opened Wrappers

  /** The client object `createClient` returns, as an opaque token. */
  datatype Handle = Handle(id: nat)

  /** The message of the error `getClient` throws. */
  const NotConnected: string := "Redis not connected"

  /** The two fields of the connection object. */
  datatype ConnState = ConnState(client: Option<Handle>, isConnected: bool)

  /** What can happen to the connection object. */
  datatype Event =
    | ConnectCalled(h: Handle)   // connect(): createClient, then connect and ping
    | Ready                      // the client's `ready` event
    | Error                      // the client's `error` event
    | QuitSucceeded              // disconnect() whose QUIT succeeded (or had no client)

  const Initial: ConnState := ConnState(None, false)

  /** The effect of one event on the connection's fields. */
  function Step(s: ConnState, ev: Event): ConnState
  {
    match ev
    case ConnectCalled(h) => s.(client := Some(h))
    case Ready => if s.client.Some? then s.(isConnected := true) else s
    case Error => s.(isConnected := false)
    case QuitSucceeded => if s.client.Some? then s.(isConnected := false) else s
  }

  /** The fields after a sequence of events, oldest first. */
  function Run(s: ConnState, evs: seq<Event>): ConnState
  {
    if |evs| == 0 then s else Step(Run(s, evs[..|evs| - 1]), evs[|evs| - 1])
  }

  /** The flag value set by the most recent event that sets it, if any. */
  function LastFlag(s: ConnState, evs: seq<Event>): Option<bool>
  {
    if |evs| == 0 then None
    else
      var before := Run(s, evs[..|evs| - 1]);
      match evs[|evs| - 1]
      case Ready => if before.client.Some? then Some(true) else LastFlag(s, evs[..|evs| - 1])
      case Error => Some(false)
      case QuitSucceeded => if before.client.Some? then Some(false) else LastFlag(s, evs[..|evs| - 1])
      case ConnectCalled(_) => LastFlag(s, evs[..|evs| - 1])
  }

  /**
   * Readiness is decided by the last `ready`, `error` or successful quit:
   * `connect` itself never changes it, and with none of those events the
   * flag keeps its starting value.
   */
  lemma {:induction false} RunReadiness(s: ConnState, evs: seq<Event>)
    ensures Run(s, evs).isConnected == match LastFlag(s, evs) case Some(b) => b case None => s.isConnected
  {
    if |evs| > 0 {
      RunReadiness(s, evs[..|evs| - 1]);
    }
  }

  /** A fresh connection object becomes ready only through a `ready` event. */
  lemma {:induction false} ReadyNeedsReadyEvent(evs: seq<Event>)
    ensures Run(Initial, evs).isConnected ==> exists i :: 0 <= i < |evs| && evs[i] == Ready
  {
    if |evs| > 0 {
      var init := evs[..|evs| - 1];
      ReadyNeedsReadyEvent(init);
      if Run(Initial, evs).isConnected && evs[|evs| - 1] != Ready {
        var i :| 0 <= i < |init| && init[i] == Ready;
        assert evs[i] == Ready;
      }
    }
  }

  /** Every event keeps the flag tied to an installed client. */
  lemma {:induction false} RunKeepsValid(s: ConnState, evs: seq<Event>)
    requires s.isConnected ==> s.client.Some?
    ensures Run(s, evs).isConnected ==> Run(s, evs).client.Some?
  {
    if |evs| > 0 {
      RunKeepsValid(s, evs[..|evs| - 1]);
    }
  }

  class RedisClient {
    var client: Option<Handle>
    var isConnected: bool

    /** The flag is only ever raised by an event of an installed client. */
    ghost predicate Valid()
      reads this
    {
      isConnected ==> client.Some?
    }

    function State(): ConnState
      reads this
    {
      ConnState(client, isConnected)
    }

    constructor ()
      ensures Valid()
      ensures State() == Initial
    {
      client := None;
      isConnected := false;
    }

    /**
     * Installs the client `h` from `createClient`, then connects and pings.
     * `failure` is what the transport reports for that connect and ping;
     * a failure is rethrown. Automatic reconnection is off.
     */
    method Connect(h: Handle, failure: Option<string>) returns (r: Result<Handle, string>)
      requires Valid()
      modifies this
      ensures Valid()
      ensures State() == Step(old(State()), ConnectCalled(h))
      ensures failure.None? ==> r == Success(h)
      ensures failure.Some? ==> r == Failure(failure.value)
    {
      client := Some(h);
      if failure.Some? {
        return Failure(failure.value);
      }
      return Success(h);
    }

    /** The installed client's `ready` event. */
    method OnReady()
      requires Valid()
      requires client.Some?
      modifies this
      ensures Valid()
      ensures State() == Step(old(State()), Ready)
    {
      isConnected := true;
    }

    /** The installed client's `error` event. */
    method OnError()
      requires Valid()
      modifies this
      ensures Valid()
      ensures State() == Step(old(State()), Error)
    {
      isConnected := false;
    }

    /**
     * Quits the installed client, if any; `quitFailure` is what the
     * transport reports for QUIT. A failed quit is rethrown before the
     * flag is cleared.
     */
    method Disconnect(quitFailure: Option<string>) returns (r: Outcome<string>)
      requires Valid()
      modifies this
      ensures Valid()
      ensures quitFailure.None? || old(client).None? ==> r == Pass && State() == Step(old(State()), QuitSucceeded)
      ensures quitFailure.Some? && old(client).Some? ==> r == Fail(quitFailure.value) && State() == old(State())
    {
      r := Pass;
      if client.Some? {
        if quitFailure.Some? {
          return Fail(quitFailure.value);
        }
        isConnected := false;
      }
    }

    /** The client, or the "Redis not connected" error while the flag is down. */
    method GetClient() returns (r: Result<Handle, string>)
      requires Valid()
      ensures r.Failure? <==> !isConnected
      ensures r.Failure? ==> r.error == NotConnected
      ensures r.Success? ==> Some(r.value) == client
    {
      if !isConnected {
        return Failure(NotConnected);
      }
      return Success(client.value);
    }

    /** The readiness flag, read without side effects. */
    method IsReady() returns (ready: bool)
      ensures ready == isConnected
    {
      return isConnected;
    }
  }
}
