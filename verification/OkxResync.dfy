// OKXFeedClient (src/l2_pipeline/feeds/okx.py): the event-driven resync. Snapshots arrive as pushes,
// one for every subscribe the exchange has received on the connection.
module OkxResync {
  import opened BookTypes
  import opened Engine
  import opened Synchronisation
  import opened SnapshotOutcome
  import opened Envelope

  /** Subscribing: the socket is current but the first subscribe is still being sent, and the engine
      has not been invalidated yet. */
  datatype Conn = Connecting | Subscribing | Reading | Backoff | Ended

  /** Throttled: asleep until the bucket has two tokens. Sending: between capturing the current
      socket and the end of the second send on it. */
  datatype Worker = Idle | Throttled | Sending(ws: int)

  datatype Client = Client(
    engine: EngineState, conn: Conn, worker: Worker, resyncNeeded: bool, retryCount: int,
    currentWs: Option<int>, wsCount: int, closedByClient: set<int>, pendingSnapshots: nat)

  const START := Client(INITIAL, Connecting, Idle, false, 0, None, 0, {}, 0)

  /** One atomic step. A snapshot push says which band its snapshot is complete for, and whether the
      close it may lead to succeeds; SubscribeRefused is the error message in place of a push. */
  datatype Action =
    | Handshake
    | ConnectFailed(escalate: bool)
    | Subscribed
    | Update(event: DiffEvent)
    | SnapshotPush(snapshot: SnapshotEvent, cover: Band, escalate: bool, closes: bool)
    | MalformedSnapshotPush
    | SubscribeRefused
    | Disconnected(escalate: bool)
    | BackoffOver
    | WorkerWakes(throttled: bool)
    | ThrottleOver
    | SendDone(arrived: bool)

  predicate Enabled(c: Client, a: Action) {
    match a
    case Handshake => c.conn == Connecting
    case ConnectFailed(_) => c.conn == Connecting || c.conn == Subscribing
    case Subscribed => c.conn == Subscribing
    case Update(_) => c.conn == Reading
    case SnapshotPush(_, _, _, _) => c.conn == Reading && c.pendingSnapshots > 0
    case MalformedSnapshotPush => c.conn == Reading && c.pendingSnapshots > 0
    case SubscribeRefused => c.conn == Reading && c.pendingSnapshots > 0
    case Disconnected(_) => c.conn == Reading
    case BackoffOver => c.conn == Backoff
    case WorkerWakes(_) => c.conn != Ended && c.worker == Idle && c.resyncNeeded
    case ThrottleOver => c.conn != Ended && c.worker == Throttled
    case SendDone(_) => c.conn != Ended && c.worker.Sending?
  }

  function Drop(c: Client, escalate: bool): Client {
    c.(conn := if escalate then Ended else Backoff)
  }

  /** The part of _request_resubscribe after the throttle. */
  function StartSending(c: Client): Client {
    c.(worker := match c.currentWs case None => Idle case Some(ws) => Sending(ws))
  }

  /** _handle_resync_result. */
  function HandleResult(limit: int, c: Client, status: ApplyStatus, closes: bool): Client {
    if status == Applied then c.(retryCount := 0)
    else
      var counted := c.(retryCount := c.retryCount + 1);
      if counted.retryCount >= limit then
        match c.currentWs
        case None => counted
        case Some(ws) => counted.(closedByClient := c.closedByClient + if closes then {ws} else {})
      else counted.(resyncNeeded := true)
  }

  function Step(limit: int, c: Client, a: Action): Client
    requires Enabled(c, a)
  {
    match a
    case Handshake =>
      c.(conn := Subscribing, currentWs := Some(c.wsCount), wsCount := c.wsCount + 1, pendingSnapshots := 0)
    case ConnectFailed(escalate) => Drop(c, escalate)
    case Subscribed =>
      c.(conn := Reading, engine := Invalidate(c.engine), retryCount := 0, pendingSnapshots := c.pendingSnapshots + 1)
    case Update(event) =>
      var (engine, status) := ApplyEvent(c.engine, event);
      c.(engine := engine, resyncNeeded := c.resyncNeeded || status == GapDetected)
    case SnapshotPush(snapshot, _, escalate, closes) =>
      var (engine, outcome) := LoadSnapshot(c.engine, snapshot);
      var taken := c.(engine := engine, pendingSnapshots := c.pendingSnapshots - 1);
      (match outcome
       case RaisedWhileLive => Drop(taken, escalate)
       case Returned(status) => HandleResult(limit, taken, status, closes))
    case MalformedSnapshotPush => c.(pendingSnapshots := c.pendingSnapshots - 1)
    case SubscribeRefused => c.(pendingSnapshots := c.pendingSnapshots - 1)
    case Disconnected(escalate) => Drop(c, escalate)
    case BackoffOver => c.(conn := Connecting, currentWs := None)
    case WorkerWakes(throttled) =>
      var cleared := c.(resyncNeeded := false);
      if c.engine.state == Live then cleared
      else if throttled then cleared.(worker := Throttled)
      else StartSending(cleared)
    case ThrottleOver => StartSending(c)
    case SendDone(arrived) =>
      var reached := arrived && c.currentWs == Some(c.worker.ws) && (c.conn == Reading || c.conn == Subscribing);
      c.(worker := Idle, pendingSnapshots := c.pendingSnapshots + if reached then 1 else 0)
  }

  ghost predicate Allowed(h: History, c: Client, a: Action) {
    && Enabled(c, a)
    && (a.Update? ==> Faithful(h, a.event))
    && (a.SnapshotPush? ==> TrueSnapshot(h, a.cover, a.snapshot))
  }

  ghost predicate AllowedRun(h: History, limit: int, c: Client, run: seq<Action>)
    decreases |run|
  {
    run == [] || (Allowed(h, c, run[0]) && AllowedRun(h, limit, Step(limit, c, run[0]), run[1..]))
  }

  ghost function After(h: History, limit: int, c: Client, run: seq<Action>): Client
    requires AllowedRun(h, limit, c, run)
    decreases |run|
  {
    if run == [] then c else After(h, limit, Step(limit, c, run[0]), run[1..])
  }

  /** The band of the snapshot the book was loaded from. */
  function CoverNext(c: Client, cover: Option<Band>, a: Action): Option<Band> {
    if a.SnapshotPush? then NextCover(c.engine, cover, Fetch(a.snapshot, a.cover)) else cover
  }

  ghost function CoverAfter(h: History, limit: int, c: Client, cover: Option<Band>, run: seq<Action>): Option<Band>
    requires AllowedRun(h, limit, c, run)
    decreases |run|
  {
    if run == [] then cover
    else CoverAfter(h, limit, Step(limit, c, run[0]), CoverNext(c, cover, run[0]), run[1..])
  }

  ghost predicate Inv(h: History, cover: Option<Band>, c: Client) {
    && SafeOn(h, cover, c.engine)
    && (c.conn == Reading || c.conn == Subscribing ==> c.currentWs == Some(c.wsCount - 1))
    && (c.worker.Sending? ==> c.worker.ws < c.wsCount)
    && (c.currentWs.Some? ==> c.currentWs.value < c.wsCount)
    && (c.conn == Connecting ==> c.currentWs == None)
    && (forall ws :: ws in c.closedByClient ==> ws < c.wsCount)
  }

  /** What a push leaves alone, and what it does to the engine. */
  lemma PushKeepsSockets(limit: int, c: Client, a: Action)
    requires a.SnapshotPush? && Enabled(c, a)
    ensures var next := Step(limit, c, a);
      && next.engine == LoadSnapshot(c.engine, a.snapshot).0
      && next.worker == c.worker && next.currentWs == c.currentWs && next.wsCount == c.wsCount
      && (next.conn == c.conn || next.conn == Backoff || next.conn == Ended)
      && forall ws :: ws in next.closedByClient ==> ws in c.closedByClient || Some(ws) == c.currentWs
  {
  }

  lemma StepKeepsInv(h: History, cover: Option<Band>, limit: int, c: Client, a: Action)
    requires Inv(h, cover, c) && Allowed(h, c, a)
    ensures Inv(h, CoverNext(c, cover, a), Step(limit, c, a))
  {
    match a
    case Update(event) => DeliverSafe(h, cover, c.engine, event);
    case SnapshotPush(snapshot, own, _, _) =>
      FetchSafe(h, cover, c.engine, snapshot, own);
      PushKeepsSockets(limit, c, a);
    case _ =>
  }

  /** Every interleaving keeps the book right on the band of the snapshot it was loaded from, errors
      and all. */
  lemma {:induction false} EveryInterleaving(h: History, cover: Option<Band>, limit: int, c: Client, run: seq<Action>)
    requires Inv(h, cover, c) && AllowedRun(h, limit, c, run)
    ensures Inv(h, CoverAfter(h, limit, c, cover, run), After(h, limit, c, run))
    decreases |run|
  {
    if run != [] {
      StepKeepsInv(h, cover, limit, c, run[0]);
      EveryInterleaving(h, CoverNext(c, cover, run[0]), limit, Step(limit, c, run[0]), run[1..]);
    }
  }

  /** What a step feeds to the engine: the subscribe on a new connection resets it, an update is
      delivered, and a snapshot push is fetched. */
  function InputsOf(a: Action): seq<Input> {
    match a
    case Subscribed => [Reset]
    case Update(event) => [Deliver(event)]
    case SnapshotPush(snapshot, cover, _, _) => [Fetch(snapshot, cover)]
    case _ => []
  }

  function AllInputs(run: seq<Action>): seq<Input> {
    if run == [] then [] else InputsOf(run[0]) + AllInputs(run[1..])
  }

  lemma StepRunsOnInputs(limit: int, c: Client, a: Action)
    requires Enabled(c, a)
    ensures Step(limit, c, a).engine == Run(c.engine, InputsOf(a))
  {
    if InputsOf(a) != [] {
      assert InputsOf(a)[1..] == [];
      assert Run(c.engine, InputsOf(a)) == Run(Handle(c.engine, InputsOf(a)[0]), []);
    }
  }

  /** The client adds nothing to the engine and takes nothing from it: along every interleaving it is
      the engine run on these inputs, in this order. */
  lemma {:induction false} EngineRunsOnInputs(h: History, limit: int, c: Client, run: seq<Action>)
    requires AllowedRun(h, limit, c, run)
    ensures After(h, limit, c, run).engine == Run(c.engine, AllInputs(run))
    decreases |run|
  {
    if run != [] {
      StepRunsOnInputs(limit, c, run[0]);
      EngineRunsOnInputs(h, limit, Step(limit, c, run[0]), run[1..]);
      RunConcat(c.engine, InputsOf(run[0]), AllInputs(run[1..]));
    }
  }

  /** The coupling rule: the first subscribe on a connection starts from nothing, whatever the engine
      held, with all retries ahead and one snapshot asked for. */
  lemma SubscribeStartsOver(limit: int, c: Client)
    requires c.conn == Subscribing
    ensures var next := Step(limit, c, Subscribed);
      && next.engine.book == EMPTY_BOOK && next.engine.buffer == [] && next.engine.lastAppliedId == None
      && next.engine.state != Live && next.conn == Reading
      && next.retryCount == 0 && next.pendingSnapshots == c.pendingSnapshots + 1
  {
  }

  /** Whether a snapshot was applied since the last subscribe on a new connection, given whether one
      was before the run. */
  ghost predicate LoadedSinceSubscribed(h: History, limit: int, c: Client, loaded: bool, run: seq<Action>)
    requires AllowedRun(h, limit, c, run)
    decreases |run|
  {
    if run == [] then loaded
    else
      var now := run[0] != Subscribed && (loaded || (run[0].SnapshotPush? && AppliedBy(c, run[0])));
      LoadedSinceSubscribed(h, limit, Step(limit, c, run[0]), now, run[1..])
  }

  /** So after every run the engine is LIVE only if a snapshot was applied since then. */
  lemma {:induction false} LiveOnlyIfLoaded(h: History, limit: int, c: Client, loaded: bool, run: seq<Action>)
    requires AllowedRun(h, limit, c, run) && (c.engine.state == Live ==> loaded)
    ensures After(h, limit, c, run).engine.state == Live ==> LoadedSinceSubscribed(h, limit, c, loaded, run)
    decreases |run|
  {
    if run != [] {
      var now := run[0] != Subscribed && (loaded || (run[0].SnapshotPush? && AppliedBy(c, run[0])));
      if Step(limit, c, run[0]).engine.state == Live {
        LoadMakesLive(limit, c, run[0]);
      }
      LiveOnlyIfLoaded(h, limit, Step(limit, c, run[0]), now, run[1..]);
    }
  }

  lemma LoadMakesLive(limit: int, c: Client, a: Action)
    requires Enabled(c, a) && Step(limit, c, a).engine.state == Live
    ensures a != Subscribed && (c.engine.state == Live || (a.SnapshotPush? && AppliedBy(c, a)))
  {
    if a.SnapshotPush? && c.engine.state != Live {
      LoadOutcomeExact(c.engine, a.snapshot);
    }
  }

  /** A snapshot that was loaded and not accepted. */
  predicate Refused(c: Client, a: Action) {
    a.SnapshotPush? && c.engine.state != Live && LoadSnapshot(c.engine, a.snapshot).1 != Returned(Applied)
  }

  /** How many snapshots in a row were refused, since the subscribe or the last accepted one. */
  ghost function RefusedInARow(h: History, limit: int, c: Client, before: int, run: seq<Action>): int
    requires AllowedRun(h, limit, c, run)
    decreases |run|
  {
    if run == [] then before
    else
      var now :=
        if run[0] == Subscribed || (run[0].SnapshotPush? && AppliedBy(c, run[0])) then 0
        else if Refused(c, run[0]) then before + 1
        else before;
      RefusedInARow(h, limit, Step(limit, c, run[0]), now, run[1..])
  }

  /** That is what the retry counter counts, over every run. */
  lemma {:induction false} RetriesAreRefusals(h: History, limit: int, c: Client, run: seq<Action>)
    requires AllowedRun(h, limit, c, run)
    ensures After(h, limit, c, run).retryCount == RefusedInARow(h, limit, c, c.retryCount, run)
    decreases |run|
  {
    if run != [] {
      if run[0].SnapshotPush? && c.engine.state != Live {
        LoadOutcomeExact(c.engine, run[0].snapshot);
      }
      RetriesAreRefusals(h, limit, Step(limit, c, run[0]), run[1..]);
    }
  }

  /** A refusal leads to another resubscribe exactly while the retries last, and then to a close. */
  lemma RefusalRetriesOrCloses(limit: int, c: Client, a: Action)
    requires Enabled(c, a) && Refused(c, a)
    ensures var next := Step(limit, c, a);
      if c.retryCount + 1 < limit then next.resyncNeeded && next.closedByClient == c.closedByClient
      else
        && next.resyncNeeded == c.resyncNeeded
        && (a.closes && c.currentWs.Some? ==> next.closedByClient == c.closedByClient + {c.currentWs.value})
  {
    LoadOutcomeExact(c.engine, a.snapshot);
  }

  /** The worker is told for a reason, and hears each signal once. */
  lemma SignalledForCause(limit: int, c: Client, a: Action)
    requires Enabled(c, a)
    ensures a.Update? && ApplyEvent(c.engine, a.event).1 == GapDetected ==> Step(limit, c, a).resyncNeeded
    ensures !c.resyncNeeded && Step(limit, c, a).resyncNeeded ==>
      (a.Update? && ApplyEvent(c.engine, a.event).1 == GapDetected) || (Refused(c, a) && c.retryCount + 1 < limit)
    ensures c.resyncNeeded && !Step(limit, c, a).resyncNeeded <==> a.WorkerWakes? && c.resyncNeeded
  {
    if a.SnapshotPush? && c.engine.state != Live {
      LoadOutcomeExact(c.engine, a.snapshot);
    }
  }

  /** A signalled worker resubscribes on the socket that is current once the throttle is over, unless the
      engine is LIVE; it asks for a snapshot only by a send that reaches the socket being read. */
  lemma WorkerResubscribes(limit: int, c: Client, a: Action)
    requires Enabled(c, a) && (a.WorkerWakes? || a.ThrottleOver? || a.SendDone?)
    ensures var next := Step(limit, c, a);
      match a
      case SendDone(arrived) =>
        next.worker == Idle &&
        next.pendingSnapshots - c.pendingSnapshots ==
          if arrived && c.currentWs == Some(c.worker.ws) && (c.conn == Reading || c.conn == Subscribing) then 1 else 0
      case _ =>
        next.pendingSnapshots == c.pendingSnapshots &&
        if a.WorkerWakes? && c.engine.state == Live then next.worker == Idle
        else if a == WorkerWakes(true) then next.worker == Throttled
        else if c.currentWs.Some? then next.worker == Sending(c.currentWs.value)
        else next.worker == Idle
  {
  }

  /** A load that raises, like any other disconnect, ends run() or backs off towards a new connection. */
  lemma DisconnectEndsOrReconnects(limit: int, c: Client, a: Action)
    requires Enabled(c, a)
    requires match a
             case ConnectFailed(_) => true
             case Disconnected(_) => true
             case SnapshotPush(_, _, _, _) => c.engine.state == Live
             case _ => false
    ensures var next := Step(limit, c, a);
      if a.escalate then next.conn == Ended && forall later :: !Enabled(next, later)
      else
        && next.conn == Backoff && next.currentWs == c.currentWs && Enabled(next, BackoffOver)
        && Enabled(Step(limit, next, BackoffOver), Handshake) && Step(limit, next, BackoffOver).currentWs == None
  {
  }

  /** A push about to be loaded into an engine that is LIVE: load_snapshot raises, and the error
      costs the connection. */
  ghost predicate LoadsWhileLive(c: Client, a: Action) {
    a.SnapshotPush? && c.engine.state == Live
  }

  ghost predicate SomeLoadWhileLive(h: History, limit: int, c: Client, run: seq<Action>)
    requires AllowedRun(h, limit, c, run)
    decreases |run|
  {
    run != [] &&
    (LoadsWhileLive(c, run[0]) || SomeLoadWhileLive(h, limit, Step(limit, c, run[0]), run[1..]))
  }

  /** The snapshots the current connection has coming: pushes already asked for, and requests that
      will still reach it. */
  function Coming(c: Client): nat {
    c.pendingSnapshots
    + (if c.resyncNeeded then 1 else 0)
    + (if c.worker == Throttled || (c.worker.Sending? && c.currentWs == Some(c.worker.ws)) then 1 else 0)
    + (if c.conn == Subscribing then 1 else 0)
  }

  /** At most one snapshot is coming, and none once the engine is LIVE. */
  predicate OneAtATime(c: Client) {
    && (c.conn == Reading || c.conn == Subscribing ==> Coming(c) <= 1)
    && (c.conn == Reading && c.engine.state == Live ==> Coming(c) == 0)
  }

  lemma OneAtATimeKept(h: History, cover: Option<Band>, limit: int, c: Client, a: Action)
    requires Inv(h, cover, c) && Allowed(h, c, a) && OneAtATime(c)
    requires a == Handshake ==> !c.resyncNeeded && c.worker != Throttled
    ensures OneAtATime(Step(limit, c, a)) && !LoadsWhileLive(c, a)
  {
    match a
    case SnapshotPush(snapshot, own, _, _) =>
      if c.engine.state != Live { LoadSnapshotSafe(h, own, c.engine, snapshot); }
    case _ =>
  }

  predicate NoHandshake(run: seq<Action>) {
    Handshake !in run
  }

  lemma {:induction false} OneAtATimeOverConnection(h: History, cover: Option<Band>, limit: int, c: Client,
                                                    run: seq<Action>)
    requires Inv(h, cover, c) && OneAtATime(c) && AllowedRun(h, limit, c, run) && NoHandshake(run)
    ensures !SomeLoadWhileLive(h, limit, c, run)
    decreases |run|
  {
    if run != [] {
      assert run[0] in run && forall a :: a in run[1..] ==> a in run;
      OneAtATimeKept(h, cover, limit, c, run[0]);
      StepKeepsInv(h, cover, limit, c, run[0]);
      OneAtATimeOverConnection(h, CoverNext(c, cover, run[0]), limit, Step(limit, c, run[0]), run[1..]);
    }
  }

  /** The run of one connection: from its handshake to the next. */
  ghost predicate FailsWithin(h: History, limit: int, c: Client, run: seq<Action>) {
    && AllowedRun(h, limit, c, [Handshake] + run) && NoHandshake(run)
    && SomeLoadWhileLive(h, limit, c, [Handshake] + run)
  }

  lemma Prepend(h: History, limit: int, c: Client, a: Action, run: seq<Action>)
    requires Allowed(h, c, a) && AllowedRun(h, limit, Step(limit, c, a), run)
    ensures AllowedRun(h, limit, c, [a] + run)
    ensures SomeLoadWhileLive(h, limit, Step(limit, c, a), run) ==> SomeLoadWhileLive(h, limit, c, [a] + run)
  {
    assert ([a] + run)[1..] == run;
  }

  /** Two pushes pending on one connection: the first makes the engine LIVE, the second raises. */
  lemma TwoPendingFail(h: History, limit: int, c: Client, snapshot: SnapshotEvent, own: Band)
    returns (run: seq<Action>)
    requires TrueSnapshot(h, own, snapshot)
    requires c.conn == Reading && c.pendingSnapshots >= 2 && c.engine.state != Live && c.engine.buffer == []
    ensures AllowedRun(h, limit, c, run) && SomeLoadWhileLive(h, limit, c, run) && NoHandshake(run)
  {
    LoadOfNewestSnapshot(c.engine, snapshot);
    var push := SnapshotPush(snapshot, own, false, true);
    var live := Step(limit, c, push);
    assert AllowedRun(h, limit, Step(limit, live, push), []);
    Prepend(h, limit, live, push, []);
    Prepend(h, limit, c, push, [push] + []);
    run := [push] + ([push] + []);
  }

  /** A fresh connection with its own snapshot still pending. */
  ghost predicate FreshlyRead(h: History, c: Client, snapshot: SnapshotEvent, own: Band) {
    && TrueSnapshot(h, own, snapshot)
    && c.conn == Reading && c.pendingSnapshots >= 1 && c.engine.state != Live && c.engine.buffer == []
    && c.currentWs.Some?
  }

  lemma SendingFails(h: History, limit: int, c: Client, snapshot: SnapshotEvent, own: Band)
    returns (run: seq<Action>)
    requires FreshlyRead(h, c, snapshot, own) && c.worker == Sending(c.currentWs.value)
    ensures AllowedRun(h, limit, c, run) && SomeLoadWhileLive(h, limit, c, run) && NoHandshake(run)
  {
    var rest := TwoPendingFail(h, limit, Step(limit, c, SendDone(true)), snapshot, own);
    Prepend(h, limit, c, SendDone(true), rest);
    run := [SendDone(true)] + rest;
  }

  lemma PendingResubscribeFails(h: History, limit: int, c: Client, snapshot: SnapshotEvent, own: Band)
    returns (run: seq<Action>)
    requires FreshlyRead(h, c, snapshot, own) && (c.worker == Throttled || c.resyncNeeded)
    ensures AllowedRun(h, limit, c, run) && SomeLoadWhileLive(h, limit, c, run) && NoHandshake(run)
    decreases if c.worker.Sending? then 1 else 0
  {
    var next: Action := match c.worker case Throttled => ThrottleOver case Idle => WorkerWakes(false)
                        case _ => SendDone(false);
    var rest: seq<Action>;
    if c.worker.Sending? {
      rest := PendingResubscribeFails(h, limit, Step(limit, c, next), snapshot, own);
    } else {
      rest := SendingFails(h, limit, Step(limit, c, next), snapshot, own);
    }
    Prepend(h, limit, c, next, rest);
    run := [next] + rest;
  }

  lemma LeftOverFails(h: History, limit: int, c: Client, snapshot: SnapshotEvent, own: Band)
    returns (run: seq<Action>)
    requires c.conn == Connecting && TrueSnapshot(h, own, snapshot) && (c.resyncNeeded || c.worker == Throttled)
    ensures FailsWithin(h, limit, c, run)
  {
    var c1 := Step(limit, c, Handshake);
    var rest := PendingResubscribeFails(h, limit, Step(limit, c1, Subscribed), snapshot, own);
    Prepend(h, limit, c1, Subscribed, rest);
    run := [Subscribed] + rest;
    Prepend(h, limit, c, Handshake, run);
  }

  /** Exactly when a new connection can run into that error: when it is made while a resubscribe for
      the previous one is still signalled or throttled. */
  lemma ConnectionCanFailIffResubscribeLeftOver(h: History, cover: Option<Band>, limit: int, c: Client,
                                                snapshot: SnapshotEvent, own: Band)
    requires Inv(h, cover, c) && c.conn == Connecting && TrueSnapshot(h, own, snapshot)
    ensures (exists run :: FailsWithin(h, limit, c, run)) <==> c.resyncNeeded || c.worker == Throttled
  {
    if c.resyncNeeded || c.worker == Throttled {
      var run := LeftOverFails(h, limit, c, snapshot, own);
    } else {
      var c1 := Step(limit, c, Handshake);
      StepKeepsInv(h, cover, limit, c, Handshake);
      forall run | AllowedRun(h, limit, c, [Handshake] + run) && NoHandshake(run)
        ensures !FailsWithin(h, limit, c, run)
      {
        assert ([Handshake] + run)[1..] == run;
        OneAtATimeOverConnection(h, cover, limit, c1, run);
      }
    }
  }

  /** Nor is this only a possibility: from the start, a gap whose resubscribe is still throttled when
      the connection drops leads, on the next connection, to a load that raises. */
  lemma StartCanFail(h: History, limit: int, snapshot: SnapshotEvent, own: Band, event: DiffEvent)
    returns (run: seq<Action>)
    requires TrueSnapshot(h, own, snapshot) && Faithful(h, event) && event.prevId != snapshot.lastUpdateId
    ensures AllowedRun(h, limit, START, run) && SomeLoadWhileLive(h, limit, START, run)
  {
    var push := SnapshotPush(snapshot, own, false, true);
    var c1 := Step(limit, START, Handshake);
    var c2 := Step(limit, c1, Subscribed);
    LoadOfNewestSnapshot(c2.engine, snapshot);
    var c3 := Step(limit, c2, push);
    var c4 := Step(limit, c3, Update(event));
    var c5 := Step(limit, c4, WorkerWakes(true));
    var c6 := Step(limit, c5, Disconnected(false));
    var c7 := Step(limit, c6, BackoffOver);
    var rest := LeftOverFails(h, limit, c7, snapshot, own);
    rest := [Handshake] + rest;
    Prepend(h, limit, c6, BackoffOver, rest);
    Prepend(h, limit, c5, Disconnected(false), [BackoffOver] + rest);
    rest := [Disconnected(false)] + ([BackoffOver] + rest);
    Prepend(h, limit, c4, WorkerWakes(true), rest);
    Prepend(h, limit, c3, Update(event), [WorkerWakes(true)] + rest);
    rest := [Update(event)] + ([WorkerWakes(true)] + rest);
    Prepend(h, limit, c2, push, rest);
    Prepend(h, limit, c1, Subscribed, [push] + rest);
    rest := [Subscribed] + ([push] + rest);
    Prepend(h, limit, START, Handshake, rest);
    run := [Handshake] + rest;
  }

  /** Connected and out of sync: then a snapshot is still coming, or the client has closed the socket. */
  predicate NoLostWakeup(c: Client) {
    c.conn == Reading && c.engine.state != Live ==>
      Coming(c) >= 1 || (c.currentWs.Some? && c.currentWs.value in c.closedByClient)
  }

  /** The steps that lose a snapshot asked for: a push that does not parse, a subscribe that is refused,
      and a resubscribe that fails on the socket being read. */
  predicate LosesSnapshot(c: Client, a: Action) {
    || a == MalformedSnapshotPush
    || a == SubscribeRefused
    || (a == SendDone(false) && c.conn == Reading && c.worker.Sending? && c.currentWs == Some(c.worker.ws))
  }

  /** A snapshot that is not accepted for the last time, and the close that was to force the reconnect
      fails. */
  predicate LosesReconnect(limit: int, c: Client, a: Action) {
    && a.SnapshotPush? && !a.closes && c.engine.state != Live && c.retryCount + 1 >= limit
    && LoadSnapshot(c.engine, a.snapshot).1 != Returned(Applied)
  }

  /** One of these steps, with nothing else to bring the client back in sync. */
  predicate LosesWakeup(limit: int, c: Client, a: Action) {
    && (LosesSnapshot(c, a) || LosesReconnect(limit, c, a))
    && c.conn == Reading && c.engine.state != Live && Coming(c) == 1
    && !(c.currentWs.Some? && c.currentWs.value in c.closedByClient)
  }

  ghost predicate NothingLost(h: History, limit: int, c: Client, run: seq<Action>)
    requires AllowedRun(h, limit, c, run)
    decreases |run|
  {
    run == [] || (!LosesWakeup(limit, c, run[0]) && NothingLost(h, limit, Step(limit, c, run[0]), run[1..]))
  }

  /** Exactly which steps lose a wakeup. */
  lemma WakeupLostIff(h: History, cover: Option<Band>, limit: int, c: Client, a: Action)
    requires Inv(h, cover, c) && Allowed(h, c, a) && NoLostWakeup(c)
    ensures NoLostWakeup(Step(limit, c, a)) <==> !LosesWakeup(limit, c, a)
  {
    if a.SnapshotPush? && c.engine.state != Live {
      LoadSnapshotSafe(h, a.cover, c.engine, a.snapshot);
    }
  }

  /** Over every run without such a step, no wakeup is lost. */
  lemma {:induction false} NoWakeupLostOverRun(h: History, cover: Option<Band>, limit: int, c: Client, run: seq<Action>)
    requires Inv(h, cover, c) && NoLostWakeup(c) && AllowedRun(h, limit, c, run) && NothingLost(h, limit, c, run)
    ensures NoLostWakeup(After(h, limit, c, run))
    decreases |run|
  {
    if run != [] {
      WakeupLostIff(h, cover, limit, c, run[0]);
      StepKeepsInv(h, cover, limit, c, run[0]);
      NoWakeupLostOverRun(h, CoverNext(c, cover, run[0]), limit, Step(limit, c, run[0]), run[1..]);
    }
  }

  lemma StartSatisfiesInv(h: History)
    ensures Inv(h, None, START) && NoLostWakeup(START) && OneAtATime(START)
  {
  }

  predicate AppliedBy(c: Client, a: Action) {
    match a
    case Update(event) => ApplyEvent(c.engine, event).1 == Applied
    case SnapshotPush(snapshot, _, _, _) => LoadSnapshot(c.engine, snapshot).1 == Returned(Applied)
    case _ => false
  }

  /** The rows put on the queue along the run, with any timestamps: one for every event or snapshot
      that was applied, built from the engine right after it. */
  ghost predicate Emits(h: History, limit: int, c: Client, cover: Option<Band>, run: seq<Action>,
                        emitted: seq<Emitted>, depth: int)
    requires AllowedRun(h, limit, c, run)
    decreases |run|
  {
    if run == [] then emitted == []
    else
      var next, nextCover := Step(limit, c, run[0]), CoverNext(c, cover, run[0]);
      if AppliedBy(c, run[0]) then
        && emitted != [] && IsRowOf(emitted[0].row, next.engine, depth) && emitted[0].cover == nextCover
        && Emits(h, limit, next, nextCover, run[1..], emitted[1..], depth)
      else Emits(h, limit, next, nextCover, run[1..], emitted, depth)
  }

  lemma AppliedIsLive(h: History, cover: Option<Band>, limit: int, c: Client, a: Action)
    requires Inv(h, cover, c) && Allowed(h, c, a) && AppliedBy(c, a)
    ensures Step(limit, c, a).engine.state == Live
  {
    if a.SnapshotPush? {
      LoadSnapshotSafe(h, a.cover, c.engine, a.snapshot);
    }
  }

  /** Every event and every snapshot that was applied is written, in order, and nothing else is. */
  lemma {:induction false} EveryAppliedInputIsWritten(h: History, limit: int, c: Client, cover: Option<Band>,
                                                      run: seq<Action>, emitted: seq<Emitted>, depth: int)
    requires AllowedRun(h, limit, c, run) && Emits(h, limit, c, cover, run, emitted, depth)
    ensures RowIds(emitted) == AppliedIds(c.engine, AllInputs(run))
    decreases |run|
  {
    if run != [] {
      var a, next, nextCover := run[0], Step(limit, c, run[0]), CoverNext(c, cover, run[0]);
      StepRunsOnInputs(limit, c, a);
      FirstInput(c.engine, InputsOf(a), AllInputs(run[1..]));
      assert AppliedBy(c, a) <==> InputsOf(a) != [] && IsApplied(c.engine, InputsOf(a)[0]);
      if AppliedBy(c, a) {
        assert next.engine == Handle(c.engine, InputsOf(a)[0]);
        EveryAppliedInputIsWritten(h, limit, next, nextCover, run[1..], emitted[1..], depth);
      } else {
        EveryAppliedInputIsWritten(h, limit, next, nextCover, run[1..], emitted, depth);
      }
    }
  }

  /** Every row a run emits is the exchange's own top of book at the row's id, as far as the snapshot
      reaches that the book was loaded from. */
  lemma {:induction false} EmittedRowsAreTrue(h: History, limit: int, c: Client, cover: Option<Band>, run: seq<Action>,
                                              emitted: seq<Emitted>, depth: int)
    requires Inv(h, cover, c) && AllowedRun(h, limit, c, run) && Emits(h, limit, c, cover, run, emitted, depth)
    ensures forall e :: e in emitted ==> EmittedExact(h, e, depth)
    decreases |run|
  {
    if run != [] {
      var next, nextCover := Step(limit, c, run[0]), CoverNext(c, cover, run[0]);
      StepKeepsInv(h, cover, limit, c, run[0]);
      if AppliedBy(c, run[0]) {
        AppliedIsLive(h, cover, limit, c, run[0]);
        RowIsExactOnItsBand(h, nextCover.value, next.engine, emitted[0].row, depth);
        EmittedRowsAreTrue(h, limit, next, nextCover, run[1..], emitted[1..], depth);
        assert emitted == [emitted[0]] + emitted[1..];
      } else {
        EmittedRowsAreTrue(h, limit, next, nextCover, run[1..], emitted, depth);
      }
    }
  }

  lemma {:induction false} NothingComingNeverLive(h: History, cover: Option<Band>, limit: int, c: Client,
                                                  run: seq<Action>)
    requires Inv(h, cover, c) && AllowedRun(h, limit, c, run) && NoHandshake(run)
    requires c.engine.state != Live && c.conn != Subscribing && (c.conn == Reading ==> Coming(c) == 0)
    ensures After(h, limit, c, run).engine.state != Live
    decreases |run|
  {
    if run != [] {
      assert run[0] in run && forall a :: a in run[1..] ==> a in run;
      StepKeepsInv(h, cover, limit, c, run[0]);
      NothingComingNeverLive(h, CoverNext(c, cover, run[0]), limit, Step(limit, c, run[0]), run[1..]);
    }
  }

  ghost predicate RecoversWithin(h: History, limit: int, c: Client, run: seq<Action>) {
    AllowedRun(h, limit, c, run) && NoHandshake(run) && After(h, limit, c, run).engine.state == Live
  }

  lemma ComingRecovers(h: History, limit: int, c: Client, snapshot: SnapshotEvent, own: Band)
    returns (run: seq<Action>)
    requires c.conn == Reading && c.currentWs.Some? && c.engine.state != Live && Coming(c) >= 1
    requires TrueSnapshot(h, own, snapshot)
    requires forall e :: e in c.engine.buffer ==> e.finalId <= snapshot.lastUpdateId
    ensures RecoversWithin(h, limit, c, run)
    decreases c.pendingSnapshots == 0,
              (if c.resyncNeeded then 4 else 0)
              + (match c.worker case Throttled => 2 case Sending(_) => 1 case Idle => 0)
  {
    if c.pendingSnapshots > 0 {
      LoadOfNewestSnapshot(c.engine, snapshot);
      var push := SnapshotPush(snapshot, own, false, true);
      assert AllowedRun(h, limit, Step(limit, c, push), []);
      Prepend(h, limit, c, push, []);
      run := [push] + [];
      assert run[1..] == [];
    } else {
      var next := match c.worker case Throttled => ThrottleOver case Idle => WorkerWakes(false)
                  case Sending(ws) => SendDone(c.currentWs == Some(ws));
      var rest := ComingRecovers(h, limit, Step(limit, c, next), snapshot, own);
      Prepend(h, limit, c, next, rest);
      run := [next] + rest;
      assert run[1..] == rest;
    }
  }

  /** Exactly when a connection that is out of sync can become LIVE without a reconnect: when a
      snapshot is still coming. */
  lemma RecoverableIffSnapshotComing(h: History, cover: Option<Band>, limit: int, c: Client,
                                     snapshot: SnapshotEvent, own: Band)
    requires Inv(h, cover, c) && c.conn == Reading && c.engine.state != Live && TrueSnapshot(h, own, snapshot)
    requires forall e :: e in c.engine.buffer ==> e.finalId <= snapshot.lastUpdateId
    ensures (exists run :: RecoversWithin(h, limit, c, run)) <==> Coming(c) >= 1
  {
    if Coming(c) >= 1 {
      var run := ComingRecovers(h, limit, c, snapshot, own);
    } else {
      forall run | AllowedRun(h, limit, c, run) && NoHandshake(run)
        ensures !RecoversWithin(h, limit, c, run)
      {
        NothingComingNeverLive(h, cover, limit, c, run);
      }
    }
  }

  /** One malformed snapshot push, or one refused subscribe, strands a connection right from the start. */
  lemma LostSnapshotStrands(limit: int, lost: Action)
    requires lost == MalformedSnapshotPush || lost == SubscribeRefused
    ensures var c := Step(limit, Step(limit, Step(limit, START, Handshake), Subscribed), lost);
      c.conn == Reading && c.engine.state != Live && !NoLostWakeup(c) && Coming(c) == 0
  {
  }

  /** So does a resubscribe that fails on the connection being read. */
  lemma FailedSendStrands(h: History, limit: int, snapshot: SnapshotEvent, own: Band, event: DiffEvent)
    returns (run: seq<Action>)
    requires TrueSnapshot(h, own, snapshot) && Faithful(h, event) && event.prevId != snapshot.lastUpdateId
    ensures AllowedRun(h, limit, START, run)
    ensures var c := After(h, limit, START, run);
      c.conn == Reading && c.engine.state != Live && !NoLostWakeup(c) && Coming(c) == 0
  {
    var push := SnapshotPush(snapshot, own, false, true);
    var c1 := Step(limit, START, Handshake);
    var c2 := Step(limit, c1, Subscribed);
    LoadOfNewestSnapshot(c2.engine, snapshot);
    var c3 := Step(limit, c2, push);
    var c4 := Step(limit, c3, Update(event));
    var c5 := Step(limit, c4, WorkerWakes(false));
    var c6 := Step(limit, c5, SendDone(false));
    assert AllowedRun(h, limit, c6, []) && After(h, limit, c6, []) == c6;
    AfterPrepend(h, limit, c5, SendDone(false), []);
    run := [SendDone(false)] + [];
    AfterPrepend(h, limit, c4, WorkerWakes(false), run);
    run := [WorkerWakes(false)] + run;
    AfterPrepend(h, limit, c3, Update(event), run);
    run := [Update(event)] + run;
    AfterPrepend(h, limit, c2, push, run);
    run := [push] + run;
    AfterPrepend(h, limit, c1, Subscribed, run);
    run := [Subscribed] + run;
    AfterPrepend(h, limit, START, Handshake, run);
    run := [Handshake] + run;
  }

  lemma AfterPrepend(h: History, limit: int, c: Client, a: Action, run: seq<Action>)
    requires Allowed(h, c, a) && AllowedRun(h, limit, Step(limit, c, a), run)
    ensures AllowedRun(h, limit, c, [a] + run)
    ensures After(h, limit, c, [a] + run) == After(h, limit, Step(limit, c, a), run)
  {
    assert ([a] + run)[1..] == run;
  }
}
