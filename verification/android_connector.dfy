/** The macOS `AndroidConnector`: the pairing state and last signal reading
    held by the desktop, and the network callbacks modelled as events acting
    on it. Browsing, resolving and connecting are not performed here; their
    callbacks arrive as `Event`s. */
module AndroidConnector {
  import opened Wrappers
  import opened Pairing
  import opened DesktopSignal
  import ServiceResponse
  import opened BoundedInts

  /** A discovered Bonjour service: its instance name (the phone's name) and
      where to connect; the host name is absent until resolution supplies it. */
  datatype Service = Service(name: string, hostName: Option<string>, port: int)

  datatype Connector = Connector(
    signalQuality: SignalQuality,
    signalType: SignalType,
    localInterfaceName: Option<string>,
    unresolved: Option<Service>,
    resolved: Option<Service>)

  const Initial: Connector :=
    Connector(SignalQuality.NoSignal, SignalType.NoSignal, None, None, None)

  /** `pairingStatus`: paired with the resolved service's name exactly when a
      resolved service is stored. */
  function Status(c: Connector): (status: PairingStatus)
    ensures IsPaired(status) <==> c.resolved.Some?
    ensures c.resolved.Some? ==> PhoneName(status) == Some(c.resolved.value.name)
  {
    match c.resolved
    case Some(service) => Paired(service.name)
    case None => Unpaired
  }

  /** `resetState`: no signal, no resolved service, no interface name. */
  function ResetState(c: Connector): (r: Connector)
    ensures r.signalQuality == SignalQuality.NoSignal && r.signalType == SignalType.NoSignal
    ensures r.localInterfaceName == None && Status(r) == Unpaired
    ensures r.unresolved == c.unresolved
  {
    c.(signalQuality := SignalQuality.NoSignal, signalType := SignalType.NoSignal,
       resolved := None, localInterfaceName := None)
  }

  /** `pair()`: forgets the resolved service before browsing starts again, so
      the status is unpaired until a resolve callback arrives. */
  function Pair(c: Connector): (r: Connector)
    ensures Status(r) == Unpaired
    ensures r.signalQuality == c.signalQuality && r.signalType == c.signalType
    ensures r.localInterfaceName == c.localInterfaceName && r.unresolved == c.unresolved
  {
    c.(resolved := None)
  }

  /** The callbacks the connector receives. */
  datatype Event =
    | Found(service: Service)              // NetServiceBrowser didFind
    | Resolved(sender: Service)            // NetService didResolveAddress
    | Ready(interfaceName: Option<string>) // connection state .ready; `None` when the
                                           // path, its remote endpoint or its interface is nil
    | Waiting                              // connection state .waiting (refused)
    | OtherState                           // any other connection state
    | Received(data: Option<string>, complete: bool, failed: bool)  // receiveMessage

  /** Traps: the resolved service's host name and its port's conversion to a
      16-bit port when the fetch starts, the interface of a ready connection,
      a received message's data, and the decoding (`try!`/`!`). */
  datatype Trap =
    | MissingHostName
    | PortOutOfRange(port: int)
    | MissingInterface
    | MissingData
    | DecodeTrap(failure: ServiceResponse.DecodeFailure)

  function Handle(c: Connector, e: Event): (r: Result<Connector, Trap>)
    // Discovery: a found service is kept for resolution; pairing is unaffected.
    ensures e.Found? ==> r == Success(c.(unresolved := Some(e.service)))
    // Resolution stores the sender: paired with its name.
    ensures e.Resolved? ==> r.Success? && Status(r.value) == Paired(e.sender.name)
                            && r.value == c.(resolved := Some(e.sender))
    // Ready records the interface the connection uses; nothing else changes.
    // Without an interface the force-unwraps in `getInterfaceName` trap.
    ensures e.Ready? ==> (e.interfaceName.None? <==> r == Failure(MissingInterface))
    ensures e.Ready? && e.interfaceName.Some? ==> r == Success(c.(localInterfaceName := e.interfaceName))
    // Waiting (refused) loses the pairing.
    ensures e.Waiting? ==> r == Success(ResetState(c))
    ensures e.OtherState? ==> r == Success(c)
    // A message is decoded only when it is complete and without error.
    ensures e.Received? && (e.failed || !e.complete) ==> r == Success(c)
    ensures e.Received? && !e.failed && e.complete ==>
              && (e.data.None? <==> r == Failure(MissingData))
              && (e.data.Some? ==>
                    match ServiceResponse.Decode(e.data.value)
                    case Success(response) =>
                      r == Success(c.(signalQuality := response.quality, signalType := response.signalType))
                    case Failure(f) => r == Failure(DecodeTrap(f)))
  {
    match e
    case Found(service) => Success(c.(unresolved := Some(service)))
    case Resolved(sender) => Success(c.(resolved := Some(sender)))
    case Ready(name) =>
      if name.None? then Failure(MissingInterface) else Success(c.(localInterfaceName := name))
    case Waiting => Success(ResetState(c))
    case OtherState => Success(c)
    case Received(data, complete, failed) =>
      if failed || !complete then Success(c)
      else if data.None? then Failure(MissingData)
      else
        match ServiceResponse.Decode(data.value)
        case Failure(f) => Failure(DecodeTrap(f))
        case Success(response) =>
          Success(c.(signalQuality := response.quality, signalType := response.signalType))
  }

  /** The callbacks that can trap: a ready connection without an interface,
      and a message. */
  predicate MayTrap(e: Event) {
    e == Ready(None) || e.Received?
  }

  /** Callbacks delivered in order, stopping at the first trap. */
  function HandleAll(c: Connector, events: seq<Event>): (r: Result<Connector, Trap>)
    // A trap comes from a callback that can trap, never from the fetch's own unwraps.
    ensures r.Failure? ==> !r.error.MissingHostName? && !r.error.PortOutOfRange?
    ensures r.Failure? ==> exists i :: 0 <= i < |events| && MayTrap(events[i])
    ensures r == Failure(MissingInterface) ==> Ready(None) in events
    // Callbacks that cannot trap are all delivered.
    ensures (forall i :: 0 <= i < |events| ==> !MayTrap(events[i])) ==> r.Success?
    decreases |events|
  {
    if |events| == 0 then Success(c)
    else
      match Handle(c, events[0])
      case Failure(t) => Failure(t)
      case Success(c') => HandleAll(c', events[1..])
  }

  predicate DiscoveryEvent(e: Event) {
    e.Found? || e.Resolved?
  }

  /** Discovery callbacks never touch the signal or the interface name. */
  lemma {:induction false} DiscoveryKeepsSignal(c: Connector, events: seq<Event>)
    requires forall i :: 0 <= i < |events| ==> DiscoveryEvent(events[i])
    ensures HandleAll(c, events).Success?
    ensures HandleAll(c, events).value.signalQuality == c.signalQuality
    ensures HandleAll(c, events).value.signalType == c.signalType
    ensures HandleAll(c, events).value.localInterfaceName == c.localInterfaceName
    decreases |events|
  {
    if |events| > 0 {
      DiscoveryKeepsSignal(Handle(c, events[0]).value, events[1..]);
    }
  }

  /** The connector after `getSignal`, and whether it fetched. */
  datatype Outcome = Outcome(connector: Connector, fetched: bool)

  /** A port that converts to `NWEndpoint.Port` without trapping. */
  predicate PortInRange(port: int) {
    0 <= port <= UINT16_MAX
  }

  /** `fetchSignalFromAndroid`: connect to the resolved service (its host
      name is force-unwrapped, then its port converted to 16 bits) and
      deliver the connection's callbacks. */
  function Fetch(c: Connector, connection: seq<Event>): (r: Result<Outcome, Trap>)
    requires c.resolved.Some?
    ensures c.resolved.value.hostName.None? <==> r == Failure(MissingHostName)
    ensures c.resolved.value.hostName.Some? && !PortInRange(c.resolved.value.port) <==>
              r == Failure(PortOutOfRange(c.resolved.value.port))
    ensures c.resolved.value.hostName.Some? && PortInRange(c.resolved.value.port) ==>
              r == match HandleAll(c, connection)
                   case Success(c') => Success(Outcome(c', true))
                   case Failure(t) => Failure(t)
  {
    if c.resolved.value.hostName.None? then Failure(MissingHostName)
    else if !PortInRange(c.resolved.value.port) then Failure(PortOutOfRange(c.resolved.value.port))
    else
      match HandleAll(c, connection)
      case Failure(t) => Failure(t)
      case Success(c') => Success(Outcome(c', true))
  }

  /** `getSignal`: pair first when unpaired (with `discovery` the callbacks that
      arrive while waiting), give up if still unpaired, otherwise fetch (with
      `connection` the callbacks of the connection to the phone). */
  function GetSignal(c: Connector, discovery: seq<Event>, connection: seq<Event>): (r: Result<Outcome, Trap>)
    // Already paired: no pairing, straight to the fetch.
    ensures IsPaired(Status(c)) ==> r == Fetch(c, connection)
    // Otherwise pair; fetch only when the status is paired afterwards.
    ensures !IsPaired(Status(c)) ==>
              match HandleAll(Pair(c), discovery)
              case Failure(t) => r == Failure(t)
              case Success(c2) =>
                if IsPaired(Status(c2)) then r == Fetch(c2, connection)
                else r == Success(Outcome(c2, false))
    // Whatever happened, a fetch was made only from a paired state.
    ensures r.Success? && !r.value.fetched ==> Status(r.value.connector) == Unpaired
  {
    var start :=
      if IsPaired(Status(c)) then Success(c) else HandleAll(Pair(c), discovery);
    match start
    case Failure(t) => Failure(t)
    case Success(c2) =>
      if !IsPaired(Status(c2)) then Success(Outcome(c2, false))
      else Fetch(c2, connection)
  }

  /** When pairing does not succeed within the wait, nothing is fetched, the
      status stays unpaired and the last reading is kept. */
  lemma UnpairedSkipsFetch(c: Connector, discovery: seq<Event>, connection: seq<Event>)
    requires !IsPaired(Status(c))
    requires forall i :: 0 <= i < |discovery| ==> discovery[i].Found?
    ensures GetSignal(c, discovery, connection).Success?
    ensures !GetSignal(c, discovery, connection).value.fetched
    ensures Status(GetSignal(c, discovery, connection).value.connector) == Unpaired
    ensures GetSignal(c, discovery, connection).value.connector.signalQuality == c.signalQuality
    ensures GetSignal(c, discovery, connection).value.connector.signalType == c.signalType
  {
    DiscoveryKeepsSignal(Pair(c), discovery);
    FoundKeepsUnpaired(Pair(c), discovery);
  }

  lemma {:induction false} FoundKeepsUnpaired(c: Connector, events: seq<Event>)
    requires c.resolved.None?
    requires forall i :: 0 <= i < |events| ==> events[i].Found?
    ensures HandleAll(c, events).Success? && HandleAll(c, events).value.resolved.None?
    decreases |events|
  {
    if |events| > 0 {
      FoundKeepsUnpaired(Handle(c, events[0]).value, events[1..]);
    }
  }

  /** Starting unpaired, a found-and-resolved phone whose connection becomes
      ready and delivers its reading leaves the connector paired with that
      phone, on that interface, showing that reading. */
  lemma PairAndFetch(c: Connector, phone: Service, iface: string, data: string, response: ServiceResponse.Response)
    requires !IsPaired(Status(c))
    requires phone.hostName.Some? && PortInRange(phone.port)
    requires ServiceResponse.Decode(data) == Success(response)
    ensures GetSignal(c, [Found(phone), Resolved(phone)], [Ready(Some(iface)), Received(Some(data), true, false)])
            == Success(Outcome(Connector(response.quality, response.signalType, Some(iface), Some(phone), Some(phone)), true))
  {
    var c1 := Pair(c).(unresolved := Some(phone));
    var c2 := c1.(resolved := Some(phone));
    assert HandleAll(c1, [Resolved(phone)]) == HandleAll(c2, []);
    assert HandleAll(Pair(c), [Found(phone), Resolved(phone)]) == Success(c2);
    var c3 := c2.(localInterfaceName := Some(iface));
    var c4 := c3.(signalQuality := response.quality, signalType := response.signalType);
    assert Handle(c3, Received(Some(data), true, false)) == Success(c4);
    assert HandleAll(c3, [Received(Some(data), true, false)]) == HandleAll(c4, []);
    assert HandleAll(c2, [Ready(Some(iface)), Received(Some(data), true, false)])
           == HandleAll(c3, [Received(Some(data), true, false)]);
  }

  /** A refused connection while paired loses the pairing in the same call. */
  lemma RefusedConnectionUnpairs(c: Connector)
    requires IsPaired(Status(c)) && c.resolved.value.hostName.Some? && PortInRange(c.resolved.value.port)
    ensures GetSignal(c, [], [Waiting]) == Success(Outcome(ResetState(c), true))
    ensures Status(ResetState(c)) == Unpaired
  {
  }

  /** A connection that becomes ready without a known interface crashes the
      fetch, before any message is read. */
  lemma InterfaceUnknownTraps(c: Connector, later: seq<Event>)
    requires IsPaired(Status(c)) && c.resolved.value.hostName.Some? && PortInRange(c.resolved.value.port)
    ensures GetSignal(c, [], [Ready(None)] + later) == Failure(MissingInterface)
  {
    assert ([Ready(None)] + later)[0] == Ready(None);
  }
}
