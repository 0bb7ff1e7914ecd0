// BinanceFeedClient (src/l2_pipeline/feeds/binance.py): the connection loop, the reader loop and the
// resync worker as the atomic steps between their awaits, interleaved in any order.
module BinanceResync {
  import opened BookTypes
  import opened Engine
  import opened Synchronisation
  import opened SnapshotOutcome
  import opened Envelope

  /** Where run() and its reader loop are. While it backs off, the dead socket is still current. */
  datatype Conn = Connecting | Reading | Backoff | Ended

  /** Where the resync worker is: waiting for the event, inside the given snapshot attempt and HTTP
      attempt, awaiting close() of a socket, or killed by an exception nothing catches. */
  datatype Worker = Idle | Fetching(attempt: int, httpAttempt: int) | Closing(ws: int) | Dead

  datatype Limits = Limits(snapshotRetries: int, httpRetries: int)

  datatype Client = Client(
    engine: EngineState, conn: Conn, worker: Worker, resyncNeeded: bool,
    currentWs: Option<int>, wsCount: int, closedByWorker: set<int>)

  const START := Client(INITIAL, Connecting, Idle, false, None, 0, {})

  /** The Retry-After header of a reply; NotANumber is whatever float() or the sleep refuses. */
  datatype RetryAfter = Absent | Seconds(value: real) | NotANumber

  /** A body that parses, with the band of prices its depth-limited snapshot is complete for. */
  datatype Body = Parsed(snapshot: SnapshotEvent, cover: Band) | Unparseable

  /** What becomes of one HTTP attempt. */
  datatype Reply = NetworkError | Response(status: int, retryAfter: RetryAfter, body: Body)

  predicate RateLimited(status: int) {
    status == 429 || status == 418
  }

  /** raise_for_status lets nothing but success pass. */
  predicate Success(status: int) {
    200 <= status < 300
  }

  /** The replies that raise where nothing catches it. */
  predicate Raises(reply: Reply) {
    reply.Response? &&
    if RateLimited(reply.status) then reply.retryAfter == NotANumber
    else !Success(reply.status) || reply.body == Unparseable
  }

  predicate Retryable(reply: Reply) {
    reply == NetworkError || (RateLimited(reply.status) && reply.retryAfter != NotANumber)
  }

  /** The replies that carry a snapshot to load: neither a retry nor an error. */
  predicate Delivers(reply: Reply) {
    reply.Response? && Success(reply.status) && reply.body.Parsed?
  }

  /** One atomic step. A close may fail, which the worker suppresses. Disconnecting either backs off or,
      with the reconnect budget exhausted, ends run(), which also cancels the worker. */
  datatype Action =
    | Connected
    | ConnectFailed(escalate: bool)
    | Message(event: DiffEvent)
    | Disconnected(escalate: bool)
    | BackoffOver
    | WorkerWakes
    | HttpReply(reply: Reply)
    | CloseDone(closed: bool)

  predicate Enabled(c: Client, a: Action) {
    match a
    case Connected => c.conn == Connecting
    case ConnectFailed(_) => c.conn == Connecting
    case Message(_) => c.conn == Reading
    case Disconnected(_) => c.conn == Reading
    case BackoffOver => c.conn == Backoff
    case WorkerWakes => c.conn != Ended && c.worker == Idle && c.resyncNeeded
    case HttpReply(_) => c.conn != Ended && c.worker.Fetching?
    case CloseDone(_) => c.conn != Ended && c.worker.Closing?
  }

  /** Out of retries: force a reconnect by closing the current socket, if there is one. */
  function GiveUp(c: Client): Client {
    match c.currentWs
    case None => c.(worker := Idle)
    case Some(ws) => c.(worker := Closing(ws))
  }

  function BeginAttempt(l: Limits, c: Client, attempt: int): Client {
    if attempt < l.snapshotRetries && 0 < l.httpRetries then c.(worker := Fetching(attempt, 0)) else GiveUp(c)
  }

  /** The rest of _fetch_snapshot, and _perform_resync behind it, branch by branch. */
  function TakeReply(l: Limits, c: Client, reply: Reply): Client
    requires c.worker.Fetching?
  {
    match reply
    case NetworkError => RetryFetch(l, c)
    case Response(status, retryAfter, body) =>
      if RateLimited(status) then
        if retryAfter == NotANumber then c.(worker := Dead) else RetryFetch(l, c)
      else if !Success(status) then c.(worker := Dead)
      else
        match body
        case Unparseable => c.(worker := Dead)
        case Parsed(snapshot, _) =>
          var (engine, outcome) := LoadSnapshot(c.engine, snapshot);
          var loaded := c.(engine := engine);
          if outcome == RaisedWhileLive then loaded.(worker := Dead)
          else if outcome == Returned(Applied) then loaded.(worker := Idle)
          else BeginAttempt(l, loaded, c.worker.attempt + 1)
  }

  /** The next HTTP attempt, or HttpRetryLimitExceeded. */
  function RetryFetch(l: Limits, c: Client): Client
    requires c.worker.Fetching?
  {
    if c.worker.httpAttempt + 1 < l.httpRetries
    then c.(worker := c.worker.(httpAttempt := c.worker.httpAttempt + 1))
    else GiveUp(c)
  }

  function Step(l: Limits, c: Client, a: Action): Client
    requires Enabled(c, a)
  {
    match a
    case Connected =>
      c.(conn := Reading, currentWs := Some(c.wsCount), wsCount := c.wsCount + 1,
         engine := Invalidate(c.engine), resyncNeeded := true)
    case ConnectFailed(escalate) => c.(conn := if escalate then Ended else Backoff)
    case Message(event) =>
      var (engine, status) := ApplyEvent(c.engine, event);
      c.(engine := engine, resyncNeeded := c.resyncNeeded || status == GapDetected)
    case Disconnected(escalate) => c.(conn := if escalate then Ended else Backoff)
    case BackoffOver => c.(conn := Connecting, currentWs := None)
    case WorkerWakes =>
      var cleared := c.(resyncNeeded := false);
      if c.engine.state == Live then cleared else BeginAttempt(l, cleared, 0)
    case HttpReply(reply) => TakeReply(l, c, reply)
    case CloseDone(closed) =>
      c.(worker := Idle, closedByWorker := c.closedByWorker + if closed then {c.worker.ws} else {})
  }

  ghost predicate Allowed(h: History, c: Client, a: Action) {
    && Enabled(c, a)
    && (a.Message? ==> Faithful(h, a.event))
    && (a.HttpReply? && Delivers(a.reply) ==> TrueSnapshot(h, a.reply.body.cover, a.reply.body.snapshot))
  }

  ghost predicate AllowedRun(h: History, l: Limits, c: Client, run: seq<Action>)
    decreases |run|
  {
    run == [] || (Allowed(h, c, run[0]) && AllowedRun(h, l, Step(l, c, run[0]), run[1..]))
  }

  ghost function After(h: History, l: Limits, c: Client, run: seq<Action>): Client
    requires AllowedRun(h, l, c, run)
    decreases |run|
  {
    if run == [] then c else After(h, l, Step(l, c, run[0]), run[1..])
  }

  /** The band of the snapshot the book was loaded from. */
  function CoverNext(c: Client, cover: Option<Band>, a: Action): Option<Band> {
    if LoadingStep(a) then NextCover(c.engine, cover, Fetch(a.reply.body.snapshot, a.reply.body.cover)) else cover
  }

  ghost function CoverAfter(h: History, l: Limits, c: Client, cover: Option<Band>, run: seq<Action>): Option<Band>
    requires AllowedRun(h, l, c, run)
    decreases |run|
  {
    if run == [] then cover else CoverAfter(h, l, Step(l, c, run[0]), CoverNext(c, cover, run[0]), run[1..])
  }

  ghost predicate Inv(h: History, cover: Option<Band>, l: Limits, c: Client) {
    && SafeOn(h, cover, c.engine)
    && (c.worker.Fetching? ==>
          && c.engine.state != Live
          && 0 <= c.worker.attempt < l.snapshotRetries && 0 <= c.worker.httpAttempt < l.httpRetries)
    && (c.conn == Reading ==> c.currentWs.Some?)
    && (c.conn == Connecting ==> c.currentWs == None)
    && (c.currentWs.Some? ==> c.currentWs.value < c.wsCount)
    && (c.worker.Closing? ==> c.worker.ws < c.wsCount)
    && (forall ws :: ws in c.closedByWorker ==> ws < c.wsCount)
  }

  /** Connected, out of sync and with a worker that is not fetching: then the worker has been told, or
      it has closed the socket or is about to, and a reconnect will tell it. */
  predicate NoLostWakeup(c: Client) {
    c.conn == Reading && c.engine.state != Live && (c.worker.Idle? || c.worker.Closing?) ==>
      || c.resyncNeeded
      || (c.currentWs.Some? && (c.currentWs.value in c.closedByWorker || c.worker == Closing(c.currentWs.value)))
  }

  /** The one step that loses a wakeup: the close that was to force the reconnect fails. */
  predicate LosesWakeup(c: Client, a: Action) {
    && a == CloseDone(false) && c.conn == Reading && c.engine.state != Live && !c.resyncNeeded
    && c.worker.Closing? && c.currentWs == Some(c.worker.ws) && c.worker.ws !in c.closedByWorker
  }

  predicate RaisingStep(a: Action) {
    a.HttpReply? && Raises(a.reply)
  }

  predicate LoadingStep(a: Action) {
    a.HttpReply? && Delivers(a.reply)
  }

  lemma ReplyKeepsInv(h: History, cover: Option<Band>, l: Limits, c: Client, reply: Reply)
    requires Inv(h, cover, l, c) && Allowed(h, c, HttpReply(reply))
    ensures Inv(h, CoverNext(c, cover, HttpReply(reply)), l, TakeReply(l, c, reply))
    ensures TakeReply(l, c, reply).worker == Dead <==> Raises(reply)
    ensures NoLostWakeup(TakeReply(l, c, reply))
  {
    if Delivers(reply) {
      FetchSafe(h, cover, c.engine, reply.body.snapshot, reply.body.cover);
      LoadSnapshotSafe(h, reply.body.cover, c.engine, reply.body.snapshot);
    }
  }

  /** Every step keeps the invariant, and a wakeup is lost exactly when a close fails. */
  lemma StepKeepsInv(h: History, cover: Option<Band>, l: Limits, c: Client, a: Action)
    requires Inv(h, cover, l, c) && Allowed(h, c, a)
    ensures Inv(h, CoverNext(c, cover, a), l, Step(l, c, a))
    ensures LoadingStep(a) ==> c.engine.state != Live
    ensures Step(l, c, a).worker == Dead <==> c.worker == Dead || RaisingStep(a)
    ensures NoLostWakeup(c) ==> (NoLostWakeup(Step(l, c, a)) <==> !LosesWakeup(c, a))
  {
    match a
    case Message(event) => DeliverSafe(h, cover, c.engine, event);
    case HttpReply(reply) => ReplyKeepsInv(h, cover, l, c, reply);
    case _ =>
  }

  /** No reply along the run is loaded while the engine is LIVE, where load_snapshot would raise. */
  ghost predicate LoadsOnlyWhileWaiting(h: History, l: Limits, c: Client, run: seq<Action>)
    requires AllowedRun(h, l, c, run)
    decreases |run|
  {
    run == [] ||
    ((LoadingStep(run[0]) ==> c.engine.state != Live) && LoadsOnlyWhileWaiting(h, l, Step(l, c, run[0]), run[1..]))
  }

  /** Every interleaving: whenever the engine is LIVE its book is the exchange's, on the band of the
      snapshot it was loaded from, and a snapshot is never loaded into a LIVE engine. */
  lemma {:induction false} EveryInterleaving(h: History, cover: Option<Band>, l: Limits, c: Client, run: seq<Action>)
    requires Inv(h, cover, l, c) && AllowedRun(h, l, c, run)
    ensures Inv(h, CoverAfter(h, l, c, cover, run), l, After(h, l, c, run)) && LoadsOnlyWhileWaiting(h, l, c, run)
    decreases |run|
  {
    if run != [] {
      StepKeepsInv(h, cover, l, c, run[0]);
      EveryInterleaving(h, CoverNext(c, cover, run[0]), l, Step(l, c, run[0]), run[1..]);
    }
  }

  ghost predicate NoWakeupLosing(h: History, l: Limits, c: Client, run: seq<Action>)
    requires AllowedRun(h, l, c, run)
    decreases |run|
  {
    run == [] || (!LosesWakeup(c, run[0]) && NoWakeupLosing(h, l, Step(l, c, run[0]), run[1..]))
  }

  /** Over every run in which that close does not fail, no wakeup is lost. */
  lemma {:induction false} NoWakeupLostUnlessCloseFails(h: History, cover: Option<Band>, l: Limits, c: Client,
                                                        run: seq<Action>)
    requires Inv(h, cover, l, c) && NoLostWakeup(c) && AllowedRun(h, l, c, run) && NoWakeupLosing(h, l, c, run)
    ensures NoLostWakeup(After(h, l, c, run))
    decreases |run|
  {
    if run != [] {
      StepKeepsInv(h, cover, l, c, run[0]);
      NoWakeupLostUnlessCloseFails(h, CoverNext(c, cover, run[0]), l, Step(l, c, run[0]), run[1..]);
    }
  }

  /** Such a run from the start, with one attempt of each kind: the fetch fails, and so does the close. */
  lemma FailedCloseLosesWakeup(h: History) returns (run: seq<Action>)
    ensures AllowedRun(h, Limits(1, 1), START, run) && !NoLostWakeup(After(h, Limits(1, 1), START, run))
  {
    var l, failed := Limits(1, 1), HttpReply(NetworkError);
    run := [Connected, WorkerWakes, failed, CloseDone(false)];
    var c1 := Step(l, START, Connected);
    var c2 := Step(l, c1, WorkerWakes);
    var c3 := Step(l, c2, failed);
    var c4 := Step(l, c3, CloseDone(false));
    assert run[1..] == [WorkerWakes, failed, CloseDone(false)] && run[1..][1..] == [failed, CloseDone(false)];
    assert run[1..][1..][1..] == [CloseDone(false)];
    assert AllowedRun(h, l, c4, []) && After(h, l, c4, []) == c4;
    assert AllowedRun(h, l, c3, [CloseDone(false)]) && After(h, l, c3, [CloseDone(false)]) == c4;
    assert AllowedRun(h, l, c2, run[1..][1..]) && After(h, l, c2, run[1..][1..]) == c4;
    assert AllowedRun(h, l, c1, run[1..]) && After(h, l, c1, run[1..]) == c4;
  }

  predicate SomeRaise(run: seq<Action>)
    decreases |run|
  {
    run != [] && (RaisingStep(run[0]) || SomeRaise(run[1..]))
  }

  /** Exactly which runs kill the worker: those in which some reply raises, by its status, its
      Retry-After or its body. */
  lemma {:induction false} WorkerDiesIffReplyRaises(h: History, cover: Option<Band>, l: Limits, c: Client,
                                                    run: seq<Action>)
    requires Inv(h, cover, l, c) && AllowedRun(h, l, c, run)
    ensures After(h, l, c, run).worker == Dead <==> c.worker == Dead || SomeRaise(run)
    decreases |run|
  {
    if run != [] {
      StepKeepsInv(h, cover, l, c, run[0]);
      WorkerDiesIffReplyRaises(h, CoverNext(c, cover, run[0]), l, Step(l, c, run[0]), run[1..]);
    }
  }

  /** The three kinds of reply, status by status. */
  lemma RepliesSpelledOut(status: int, retryAfter: RetryAfter, body: Body)
    ensures var reply := Response(status, retryAfter, body);
      if status == 429 || status == 418 then
        if retryAfter == NotANumber then Raises(reply) else Retryable(reply)
      else if status < 200 || status >= 300 || body == Unparseable then Raises(reply)
      else Delivers(reply)
    ensures Retryable(NetworkError) && !Raises(NetworkError) && !Delivers(NetworkError)
  {
  }

  /** A reply does exactly one of three things. */
  lemma EveryReplyIsClassified(reply: Reply)
    ensures Raises(reply) || Retryable(reply) || Delivers(reply)
    ensures !(Raises(reply) && Retryable(reply)) && !(Raises(reply) && Delivers(reply))
    ensures !(Retryable(reply) && Delivers(reply))
  {
  }

  /** What a step feeds to the engine: a connection resets it, a message is delivered, and a reply that
      parses is fetched. */
  function InputsOf(a: Action): seq<Input> {
    match a
    case Connected => [Reset]
    case Message(event) => [Deliver(event)]
    case HttpReply(Response(status, _, Parsed(snapshot, cover))) =>
      if 200 <= status < 300 then [Fetch(snapshot, cover)] else []
    case _ => []
  }

  function AllInputs(run: seq<Action>): seq<Input> {
    if run == [] then [] else InputsOf(run[0]) + AllInputs(run[1..])
  }

  /** The client adds nothing to the engine and takes nothing from it: along every interleaving it is
      the engine run on these inputs, in this order. */
  lemma {:induction false} EngineRunsOnInputs(h: History, l: Limits, c: Client, run: seq<Action>)
    requires AllowedRun(h, l, c, run)
    ensures After(h, l, c, run).engine == Run(c.engine, AllInputs(run))
    decreases |run|
  {
    if run != [] {
      StepRunsOnInputs(l, c, run[0]);
      EngineRunsOnInputs(h, l, Step(l, c, run[0]), run[1..]);
      RunConcat(c.engine, InputsOf(run[0]), AllInputs(run[1..]));
    }
  }

  lemma StepRunsOnInputs(l: Limits, c: Client, a: Action)
    requires Enabled(c, a)
    ensures Step(l, c, a).engine == Run(c.engine, InputsOf(a))
  {
    if InputsOf(a) != [] {
      assert InputsOf(a)[1..] == [];
      assert Run(c.engine, InputsOf(a)) == Run(Handle(c.engine, InputsOf(a)[0]), []);
    }
  }

  /** The coupling rule: a new connection starts from nothing, whatever the engine held, and tells the
      worker. */
  lemma ConnectionStartsOver(l: Limits, c: Client)
    requires c.conn == Connecting
    ensures var next := Step(l, c, Connected);
      && next.engine.book == EMPTY_BOOK && next.engine.buffer == [] && next.engine.lastAppliedId == None
      && next.engine.state != Live && next.resyncNeeded && next.conn == Reading && next.currentWs == Some(c.wsCount)
  {
  }

  /** Whether a snapshot was applied since the last connection, given whether one was before the run. */
  ghost predicate LoadedSinceConnected(h: History, l: Limits, c: Client, loaded: bool, run: seq<Action>)
    requires AllowedRun(h, l, c, run)
    decreases |run|
  {
    if run == [] then loaded
    else
      var now := run[0] != Connected && (loaded || (LoadingStep(run[0]) && AppliedBy(c, run[0])));
      LoadedSinceConnected(h, l, Step(l, c, run[0]), now, run[1..])
  }

  /** So after every run the engine is LIVE only if a snapshot was applied since the last connection. */
  lemma {:induction false} LiveOnlyIfLoaded(h: History, l: Limits, c: Client, loaded: bool, run: seq<Action>)
    requires AllowedRun(h, l, c, run) && (c.engine.state == Live ==> loaded)
    ensures After(h, l, c, run).engine.state == Live ==> LoadedSinceConnected(h, l, c, loaded, run)
    decreases |run|
  {
    if run != [] {
      var now := run[0] != Connected && (loaded || (LoadingStep(run[0]) && AppliedBy(c, run[0])));
      if Step(l, c, run[0]).engine.state == Live {
        LoadMakesLive(l, c, run[0]);
      }
      LiveOnlyIfLoaded(h, l, Step(l, c, run[0]), now, run[1..]);
    }
  }

  lemma LoadMakesLive(l: Limits, c: Client, a: Action)
    requires Enabled(c, a) && Step(l, c, a).engine.state == Live
    ensures a != Connected && (c.engine.state == Live || (LoadingStep(a) && AppliedBy(c, a)))
  {
    if a.HttpReply? && Delivers(a.reply) && c.engine.state != Live {
      LoadOutcomeExact(c.engine, a.reply.body.snapshot);
    }
  }

  /** The worker is told for a reason, and hears each signal once. */
  lemma SignalledForCause(l: Limits, c: Client, a: Action)
    requires Enabled(c, a)
    ensures !c.resyncNeeded && Step(l, c, a).resyncNeeded ==>
      a == Connected || (a.Message? && ApplyEvent(c.engine, a.event).1 == GapDetected)
    ensures a == Connected || (a.Message? && ApplyEvent(c.engine, a.event).1 == GapDetected) ==>
      Step(l, c, a).resyncNeeded
    ensures c.resyncNeeded && !Step(l, c, a).resyncNeeded <==> a == WorkerWakes
  {
  }

  /** Once the reconnect budget is exhausted, run() has ended for good. */
  lemma EscalationEnds(l: Limits, c: Client, a: Action, later: Action)
    requires Enabled(c, a) && (a == Disconnected(true) || a == ConnectFailed(true))
    ensures Step(l, c, a).conn == Ended && !Enabled(Step(l, c, a), later)
  {
  }

  /** Otherwise the client backs off, keeps the dead socket until it connects again, and then does. */
  lemma BackoffLeadsToConnecting(l: Limits, c: Client, a: Action)
    requires Enabled(c, a) && (a == Disconnected(false) || a == ConnectFailed(false))
    ensures var waiting := Step(l, c, a);
      && waiting.conn == Backoff && waiting.currentWs == c.currentWs && Enabled(waiting, BackoffOver)
      && Enabled(Step(l, waiting, BackoffOver), Connected) && Step(l, waiting, BackoffOver).currentWs == None
  {
  }

  function AfterReplies(l: Limits, c: Client, replies: seq<Reply>): Client
    requires c.worker.Fetching? && c.conn != Ended
    decreases |replies|
  {
    if replies == [] then c
    else
      var next := Step(l, c, HttpReply(replies[0]));
      if next.worker.Fetching? then AfterReplies(l, next, replies[1..]) else next
  }

  /** The worker that has given up closes the current socket, if there is one. */
  predicate GaveUp(before: Client, after: Client) {
    after.worker == match before.currentWs case None => Idle case Some(ws) => Closing(ws)
  }

  /** A fetch is retried exactly until its attempts are used up, and then the whole resync gives up. */
  lemma {:induction false} FetchGivesUpAtLimit(l: Limits, c: Client, replies: seq<Reply>)
    requires c.worker.Fetching? && c.conn != Ended && c.worker.httpAttempt + |replies| <= l.httpRetries
    requires forall r :: r in replies ==> Retryable(r)
    requires replies != []
    ensures var end := AfterReplies(l, c, replies);
      && end.engine == c.engine
      && if c.worker.httpAttempt + |replies| < l.httpRetries
         then end.worker == Fetching(c.worker.attempt, c.worker.httpAttempt + |replies|)
         else GaveUp(c, end)
    decreases |replies|
  {
    assert replies[0] in replies && forall r :: r in replies[1..] ==> r in replies;
    if |replies| > 1 {
      FetchGivesUpAtLimit(l, Step(l, c, HttpReply(replies[0])), replies[1..]);
    }
  }

  /** Each of these snapshots, loaded in turn, is not accepted. */
  predicate AllRefused(s: EngineState, snapshots: seq<SnapshotEvent>)
    decreases |snapshots|
  {
    snapshots == [] ||
    (&& s.state != Live && LoadSnapshot(s, snapshots[0]).1 != Returned(Applied)
     && AllRefused(LoadSnapshot(s, snapshots[0]).0, snapshots[1..]))
  }

  function Replies(snapshots: seq<SnapshotEvent>, cover: Band): seq<Reply> {
    if snapshots == [] then []
    else [Response(200, Absent, Parsed(snapshots[0], cover))] + Replies(snapshots[1..], cover)
  }

  /** A resync is retried with fresh snapshots exactly until its attempts are used up. */
  lemma {:induction false} ResyncGivesUpAtLimit(l: Limits, c: Client, snapshots: seq<SnapshotEvent>, cover: Band)
    requires c.worker.Fetching? && c.conn != Ended && c.worker.attempt + |snapshots| <= l.snapshotRetries
    requires 0 < l.httpRetries && snapshots != [] && AllRefused(c.engine, snapshots)
    ensures var end := AfterReplies(l, c, Replies(snapshots, cover));
      if c.worker.attempt + |snapshots| < l.snapshotRetries
      then end.worker == Fetching(c.worker.attempt + |snapshots|, 0)
      else GaveUp(c, end)
    decreases |snapshots|
  {
    var replies := Replies(snapshots, cover);
    var next := Step(l, c, HttpReply(replies[0]));
    assert replies[1..] == Replies(snapshots[1..], cover);
    LoadOutcomeExact(c.engine, snapshots[0]);
    if |snapshots| > 1 {
      ResyncGivesUpAtLimit(l, next, snapshots[1..], cover);
    } else {
      assert next.worker.Fetching? ==> AfterReplies(l, next, []) == next;
    }
  }

  /** A signalled worker starts with the first attempt of each kind, unless the engine is LIVE. */
  lemma WokenWorkerStartsFetching(l: Limits, c: Client)
    requires Enabled(c, WorkerWakes) && l.snapshotRetries >= 1 && l.httpRetries >= 1
    ensures Step(l, c, WorkerWakes).worker == if c.engine.state == Live then Idle else Fetching(0, 0)
  {
  }

  predicate AppliedBy(c: Client, a: Action) {
    match a
    case Message(event) => ApplyEvent(c.engine, event).1 == Applied
    case HttpReply(reply) => Delivers(reply) && LoadSnapshot(c.engine, reply.body.snapshot).1 == Returned(Applied)
    case _ => false
  }

  /** The rows put on the queue along the run, with any timestamps: one for every event or snapshot
      that was applied, built from the engine right after it. */
  ghost predicate Emits(h: History, l: Limits, c: Client, cover: Option<Band>, run: seq<Action>,
                        emitted: seq<Emitted>, depth: int)
    requires AllowedRun(h, l, c, run)
    decreases |run|
  {
    if run == [] then emitted == []
    else
      var next, nextCover := Step(l, c, run[0]), CoverNext(c, cover, run[0]);
      if AppliedBy(c, run[0]) then
        && emitted != [] && IsRowOf(emitted[0].row, next.engine, depth) && emitted[0].cover == nextCover
        && Emits(h, l, next, nextCover, run[1..], emitted[1..], depth)
      else Emits(h, l, next, nextCover, run[1..], emitted, depth)
  }

  /** Every row a run emits is the exchange's own top of book at the row's id, as far as the snapshot
      reaches that the book was loaded from. */
  lemma {:induction false} EmittedRowsAreTrue(h: History, l: Limits, c: Client, cover: Option<Band>, run: seq<Action>,
                                              emitted: seq<Emitted>, depth: int)
    requires Inv(h, cover, l, c) && AllowedRun(h, l, c, run) && Emits(h, l, c, cover, run, emitted, depth)
    ensures forall e :: e in emitted ==> EmittedExact(h, e, depth)
    decreases |run|
  {
    if run != [] {
      var next, nextCover := Step(l, c, run[0]), CoverNext(c, cover, run[0]);
      StepKeepsInv(h, cover, l, c, run[0]);
      if AppliedBy(c, run[0]) {
        AppliedIsLive(h, cover, l, c, run[0]);
        RowIsExactOnItsBand(h, nextCover.value, next.engine, emitted[0].row, depth);
        EmittedRowsAreTrue(h, l, next, nextCover, run[1..], emitted[1..], depth);
        assert emitted == [emitted[0]] + emitted[1..];
      } else {
        EmittedRowsAreTrue(h, l, next, nextCover, run[1..], emitted, depth);
      }
    }
  }

  /** Every event and every snapshot that was applied is written, in order, and nothing else is. */
  lemma {:induction false} EveryAppliedInputIsWritten(h: History, l: Limits, c: Client, cover: Option<Band>,
                                                      run: seq<Action>, emitted: seq<Emitted>, depth: int)
    requires AllowedRun(h, l, c, run) && Emits(h, l, c, cover, run, emitted, depth)
    ensures RowIds(emitted) == AppliedIds(c.engine, AllInputs(run))
    decreases |run|
  {
    if run != [] {
      var a, next, nextCover := run[0], Step(l, c, run[0]), CoverNext(c, cover, run[0]);
      StepRunsOnInputs(l, c, a);
      FirstInput(c.engine, InputsOf(a), AllInputs(run[1..]));
      assert AppliedBy(c, a) <==> InputsOf(a) != [] && IsApplied(c.engine, InputsOf(a)[0]);
      if AppliedBy(c, a) {
        assert next.engine == Handle(c.engine, InputsOf(a)[0]);
        EveryAppliedInputIsWritten(h, l, next, nextCover, run[1..], emitted[1..], depth);
      } else {
        EveryAppliedInputIsWritten(h, l, next, nextCover, run[1..], emitted, depth);
      }
    }
  }

  lemma AppliedIsLive(h: History, cover: Option<Band>, l: Limits, c: Client, a: Action)
    requires Inv(h, cover, l, c) && Allowed(h, c, a) && AppliedBy(c, a)
    ensures Step(l, c, a).engine.state == Live
  {
    if a.HttpReply? {
      LoadSnapshotSafe(h, a.reply.body.cover, c.engine, a.reply.body.snapshot);
    }
  }

  /** The client as constructed satisfies the invariant, so the theorems cover every run of it. */
  lemma StartSatisfiesInv(h: History, l: Limits)
    ensures Inv(h, None, l, START) && NoLostWakeup(START)
  {
  }

  /** Once a reply has raised inside the worker, an engine that is not LIVE stays so for good,
      through every later message and reconnect. */
  lemma {:induction false} DeadWorkerNeverRecovers(h: History, l: Limits, c: Client, run: seq<Action>)
    requires c.worker == Dead && c.engine.state != Live && AllowedRun(h, l, c, run)
    ensures After(h, l, c, run).engine.state != Live && After(h, l, c, run).worker == Dead
    decreases |run|
  {
    if run != [] {
      DeadWorkerNeverRecovers(h, l, Step(l, c, run[0]), run[1..]);
    }
  }

  ghost predicate LeadsToLive(h: History, l: Limits, c: Client, run: seq<Action>) {
    AllowedRun(h, l, c, run) && After(h, l, c, run).engine.state == Live
  }

  lemma Prepend(h: History, l: Limits, c: Client, a: Action, run: seq<Action>)
    requires Allowed(h, c, a) && LeadsToLive(h, l, Step(l, c, a), run)
    ensures LeadsToLive(h, l, c, [a] + run)
  {
    assert ([a] + run)[1..] == run;
  }

  /** The snapshot is a true one, at least as new as everything the engine has buffered. */
  ghost predicate Newest(h: History, s: EngineState, snapshot: SnapshotEvent, cover: Band) {
    TrueSnapshot(h, cover, snapshot) && forall e :: e in s.buffer ==> e.finalId <= snapshot.lastUpdateId
  }

  lemma FetchingRecovers(h: History, l: Limits, c: Client, snapshot: SnapshotEvent, cover: Band)
    returns (run: seq<Action>)
    requires c.worker.Fetching? && c.conn != Ended && c.engine.state != Live && Newest(h, c.engine, snapshot, cover)
    ensures LeadsToLive(h, l, c, run)
  {
    LoadOfNewestSnapshot(c.engine, snapshot);
    var a := HttpReply(Response(200, Absent, Parsed(snapshot, cover)));
    assert LeadsToLive(h, l, Step(l, c, a), []);
    Prepend(h, l, c, a, []);
    run := [a] + [];
  }

  lemma ToldWorkerRecovers(h: History, l: Limits, c: Client, snapshot: SnapshotEvent, cover: Band)
    returns (run: seq<Action>)
    requires l.snapshotRetries >= 1 && l.httpRetries >= 1 && Newest(h, c.engine, snapshot, cover)
    requires c.worker == Idle && c.resyncNeeded && c.conn != Ended && c.engine.state != Live
    ensures LeadsToLive(h, l, c, run)
  {
    var rest := FetchingRecovers(h, l, Step(l, c, WorkerWakes), snapshot, cover);
    Prepend(h, l, c, WorkerWakes, rest);
    run := [WorkerWakes] + rest;
  }

  /** A reconnect repairs every state in which the worker is at rest. */
  lemma ReconnectRecovers(h: History, l: Limits, c: Client, snapshot: SnapshotEvent, cover: Band)
    returns (run: seq<Action>)
    requires l.snapshotRetries >= 1 && l.httpRetries >= 1 && TrueSnapshot(h, cover, snapshot)
    requires c.worker == Idle && c.conn != Ended
    ensures LeadsToLive(h, l, c, run)
    decreases match c.conn case Reading => 2 case Backoff => 1 case _ => 0
  {
    match c.conn
    case Connecting =>
      var rest := ToldWorkerRecovers(h, l, Step(l, c, Connected), snapshot, cover);
      Prepend(h, l, c, Connected, rest);
      run := [Connected] + rest;
    case Backoff =>
      var rest := ReconnectRecovers(h, l, Step(l, c, BackoffOver), snapshot, cover);
      Prepend(h, l, c, BackoffOver, rest);
      run := [BackoffOver] + rest;
    case Reading =>
      var rest := ReconnectRecovers(h, l, Step(l, c, Disconnected(false)), snapshot, cover);
      Prepend(h, l, c, Disconnected(false), rest);
      run := [Disconnected(false)] + rest;
  }

  /** Exactly which out-of-sync clients can still become LIVE: those whose worker is alive. */
  lemma RecoverableIffWorkerAlive(h: History, l: Limits, c: Client, snapshot: SnapshotEvent, cover: Band,
                                  current: Option<Band>)
    requires Inv(h, current, l, c) && c.engine.state != Live && c.conn != Ended
    requires l.snapshotRetries >= 1 && l.httpRetries >= 1 && Newest(h, c.engine, snapshot, cover)
    ensures (exists run :: LeadsToLive(h, l, c, run)) <==> c.worker != Dead
  {
    match c.worker
    case Dead =>
      forall run | AllowedRun(h, l, c, run) ensures !LeadsToLive(h, l, c, run) {
        DeadWorkerNeverRecovers(h, l, c, run);
      }
    case Fetching(_, _) =>
      var run := FetchingRecovers(h, l, c, snapshot, cover);
    case Idle =>
      var run := ReconnectRecovers(h, l, c, snapshot, cover);
    case Closing(_) =>
      var rest := ReconnectRecovers(h, l, Step(l, c, CloseDone(true)), snapshot, cover);
      Prepend(h, l, c, CloseDone(true), rest);
  }

  /** The worker can really die: after the first connection, any reply that raises is enough, and it
      leaves the client connected, out of sync and without a worker. */
  lemma RaisingReplyStrandsClient(h: History, l: Limits, reply: Reply) returns (run: seq<Action>)
    requires l.snapshotRetries >= 1 && l.httpRetries >= 1 && Raises(reply)
    ensures AllowedRun(h, l, START, run)
    ensures var end := After(h, l, START, run);
      end.worker == Dead && end.conn == Reading && end.engine.state != Live
  {
    var fatal := HttpReply(reply);
    run := [Connected, WorkerWakes, fatal];
    var c1 := Step(l, START, Connected);
    var c2 := Step(l, c1, WorkerWakes);
    assert run[1..] == [WorkerWakes, fatal] && run[1..][1..] == [fatal];
    var c3 := Step(l, c2, fatal);
    assert AllowedRun(h, l, c3, []) && After(h, l, c3, []) == c3 && c3.worker == Dead;
    assert AllowedRun(h, l, c2, [fatal]) && After(h, l, c2, [fatal]) == c3;
    assert AllowedRun(h, l, c1, run[1..]) && After(h, l, c1, run[1..]) == c3;
  }

  /** Binance's fields: the spot stream gives the first and the last id of an event. */
  function FromWire(first: int, last: int, bids: seq<PriceLevel>, asks: seq<PriceLevel>): DiffEvent {
    DiffEvent(first - 1, last, bids, asks)
  }

  /** The engine's straddle test is the rule for the first event after a snapshot: first <= id + 1 <= last. */
  lemma StraddleIsFirstEventRule(first: int, last: int, bids: seq<PriceLevel>, asks: seq<PriceLevel>, id: int)
    ensures Straddles(FromWire(first, last, bids, asks), id) <==> first <= id + 1 <= last
  {
  }
}
