/** One iteration of the desktop's background loop: fetch the signal, then
    let the session tracker see the pairing status and interface the
    connector ended up with. The sleep between iterations is not modelled. */
module BackgroundLoop {
  import opened Wrappers
  import opened Pairing
  import opened ByteCounter
  import AndroidConnector
  import SessionTracker

  datatype App = App(connector: AndroidConnector.Connector, tracker: SessionTracker.Tracker)

  datatype Trap = ConnectorTrap(connectorTrap: AndroidConnector.Trap) | TrackerTrap(trackerTrap: SessionTracker.Trap)

  /** `discovery` and `connection` are the callbacks delivered during
      `getSignal`; `sample` is the interface counter reading the tracker takes. */
  function Iteration(app: App, discovery: seq<AndroidConnector.Event>, connection: seq<AndroidConnector.Event>,
                     sample: Option<Counters>): (r: Result<App, Trap>)
    // A connector trap ends the iteration before the tracker runs.
    ensures AndroidConnector.GetSignal(app.connector, discovery, connection).Failure? <==> r.Failure? && r.error.ConnectorTrap?
    // Otherwise the tracker sees exactly the state `getSignal` left behind.
    ensures r.Success? ==>
              && AndroidConnector.GetSignal(app.connector, discovery, connection).Success?
              && var c := AndroidConnector.GetSignal(app.connector, discovery, connection).value.connector;
                 && r.value.connector == c
                 && SessionTracker.TrackSession(app.tracker, AndroidConnector.Status(c), c.localInterfaceName, sample).Success?
                 && r.value.tracker == SessionTracker.TrackSession(app.tracker, AndroidConnector.Status(c), c.localInterfaceName, sample).value.tracker
  {
    match AndroidConnector.GetSignal(app.connector, discovery, connection)
    case Failure(t) => Failure(ConnectorTrap(t))
    case Success(outcome) =>
      var c := outcome.connector;
      match SessionTracker.TrackSession(app.tracker, AndroidConnector.Status(c), c.localInterfaceName, sample)
      case Failure(t) => Failure(TrackerTrap(t))
      case Success(tick) => Success(App(c, tick.tracker))
  }

  /** The tracker's invariant survives every iteration that does not trap. */
  lemma IterationKeepsConsistent(app: App, discovery: seq<AndroidConnector.Event>,
                                 connection: seq<AndroidConnector.Event>, sample: Option<Counters>)
    requires SessionTracker.Consistent(app.tracker)
    ensures Iteration(app, discovery, connection, sample).Success? ==>
              SessionTracker.Consistent(Iteration(app, discovery, connection, sample).value.tracker)
  {
    var r := Iteration(app, discovery, connection, sample);
    if r.Success? {
      var c := AndroidConnector.GetSignal(app.connector, discovery, connection).value.connector;
      SessionTracker.TrackSessionKeepsConsistent(app.tracker, AndroidConnector.Status(c), c.localInterfaceName, sample);
    }
  }

  /** A phone that refuses the connection ends the running session in the
      same iteration: the connector is unpaired and the tracker starts over. */
  lemma RefusalEndsSession(app: App, sample: Option<Counters>)
    requires IsPaired(AndroidConnector.Status(app.connector))
    requires app.connector.resolved.value.hostName.Some?
    requires AndroidConnector.PortInRange(app.connector.resolved.value.port)
    requires app.tracker.sessionActive
    ensures Iteration(app, [], [AndroidConnector.Waiting], sample)
            == Success(App(AndroidConnector.ResetState(app.connector), SessionTracker.Initial))
  {
    AndroidConnector.RefusedConnectionUnpairs(app.connector);
  }
}
