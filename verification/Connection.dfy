/**
 The connection actor: one message at a time over a cached handle, and the node
 connection behind it that selects a node, asks for its features and gives up after
 a bounded number of discovery attempts.
 */
module Connection {
  import opened Wrappers
  import opened CoreTypes

  const NIL: Uuid := 0

  datatype ServerInfo = ServerInfo(features: set<string>)

  datatype HandleInfo = HandleInfo(id: Uuid, endpoint: Endpoint, serverInfo: ServerInfo)

  datatype NodeRequest = NodeRequest(correlation: Uuid, endpoint: Endpoint)

  datatype ConnectionError = Grpc | MaxDiscoveryAttemptReached(attempts: nat)

  /** What asking a node for its features can come to. */
  datatype FeatureReply = Features(info: ServerInfo) | Unsupported | Unexpected | TimedOut {
    /** Replies a connection is made on: missing features are no failure. */
    predicate Welcomes() {
      Features? || Unsupported?
    }

    function Info(): ServerInfo {
      if Features? then info else ServerInfo({})
    }
  }

  datatype Settings = Settings(hosts: seq<Endpoint>, clusterMode: bool, maxDiscoverAttempts: nat)

  /**
   What the network answers in one discovery: what the k-th node selection finds, and
   what the node tried after it replies (round 0 is the seed, before any selection).
   */
  datatype Answers = Answers(selection: nat -> Option<Endpoint>, reply: nat -> FeatureReply)

  // ---------------------------------------------------------------- what a discovery comes to

  /** The node tried in round k. */
  function Candidate(settings: Settings, seed: Option<Endpoint>, answers: Answers, k: nat): Option<Endpoint> {
    if k == 0 then seed
    else if settings.clusterMode then answers.selection(k)
    else if settings.hosts != [] then Some(settings.hosts[0])
    else None
  }

  /** A node was tried in round k and replied in time. */
  predicate Replies(settings: Settings, seed: Option<Endpoint>, answers: Answers, k: nat) {
    Candidate(settings, seed, answers, k).Some? && !answers.reply(k).TimedOut?
  }

  /** The first round with a reply. */
  ghost predicate FirstReply(settings: Settings, seed: Option<Endpoint>, answers: Answers, k: nat) {
    Replies(settings, seed, answers, k) && forall j: nat | j < k :: !Replies(settings, seed, answers, j)
  }

  /** The first reply comes within the attempts allowed, and is one to connect on. */
  ghost predicate Connects(settings: Settings, seed: Option<Endpoint>, answers: Answers) {
    exists k: nat ::
      && FirstReply(settings, seed, answers, k)
      && (k == 0 || k < settings.maxDiscoverAttempts)
      && answers.reply(k).Welcomes()
  }

  /** A refusal is the first reply within the attempts allowed. */
  ghost predicate Refuses(settings: Settings, seed: Option<Endpoint>, answers: Answers) {
    exists k: nat ::
      && FirstReply(settings, seed, answers, k)
      && (k == 0 || k < settings.maxDiscoverAttempts)
      && answers.reply(k).Unexpected?
  }

  /** Which node a handle leads to: the seed, the node the last selection found, or the first host. */
  ghost predicate ConnectedTo(settings: Settings, seed: Option<Endpoint>, answers: Answers, selections: nat,
                              handle: HandleInfo)
  {
    && (selections == 0 ==> seed == Some(handle.endpoint))
    && (selections > 0 && settings.clusterMode ==> answers.selection(selections) == Some(handle.endpoint))
    && (selections > 0 && !settings.clusterMode ==> settings.hosts != [] && handle.endpoint == settings.hosts[0])
    && match answers.reply(selections)
       case Features(info) => handle.serverInfo == info
       case Unsupported => handle.serverInfo.features == {}
       case _ => false
  }

  /** Every node found before the last selection, and the seed before any, timed out. */
  ghost predicate Deciding(settings: Settings, seed: Option<Endpoint>, answers: Answers, selections: nat) {
    && (selections > 0 && seed.Some? ==> answers.reply(0).TimedOut?)
    && (forall k: nat | 0 < k < selections && settings.clusterMode && answers.selection(k).Some? ::
          answers.reply(k).TimedOut?)
    && (forall k: nat | 0 < k < selections && !settings.clusterMode && settings.hosts != [] ::
          answers.reply(k).TimedOut?)
  }

  lemma SilenceDecides(settings: Settings, seed: Option<Endpoint>, answers: Answers, selections: nat)
    requires forall j: nat | j < selections :: !Replies(settings, seed, answers, j)
    ensures Deciding(settings, seed, answers, selections)
  {
    assert selections > 0 ==> !Replies(settings, seed, answers, 0);
    forall k: nat | 0 < k < selections
      ensures Candidate(settings, seed, answers, k).Some? ==> answers.reply(k).TimedOut?
    {
      assert !Replies(settings, seed, answers, k);
    }
  }

  // ---------------------------------------------------------------- the connection

  /** What `next` did, counted. */
  datatype Effort = Effort(selections: nat, tries: nat)

  /** The cached handle is returned untouched: a seed is only followed for the current handle's id. */
  predicate ReturnsCached(id: Uuid, handle: Option<HandleInfo>, request: Option<NodeRequest>) {
    handle.Some? && (request.None? || request.value.correlation != id)
  }

  function SeedOf(request: Option<NodeRequest>): Option<Endpoint> {
    if request.Some? then Some(request.value.endpoint) else None
  }

  class NodeConnection {
    var id: Uuid
    var handle: Option<HandleInfo>
    /** Every id handed out so far; a fresh id is none of them. */
    var issued: seq<Uuid>
    const settings: Settings

    ghost predicate Valid()
      reads this
    {
      && (forall i, j | 0 <= i < j < |issued| :: issued[i] != issued[j])
      && NIL !in issued
      && (id == NIL || id in issued)
      && (handle.Some? ==> handle.value.id == id && id in issued)
    }

    constructor (settings: Settings)
      ensures Valid() && handle.None? && id == NIL && issued == [] && this.settings == settings
    {
      this.settings := settings;
      id := NIL;
      handle := None;
      issued := [];
    }

    method FreshId() returns (unused: Uuid)
      ensures unused !in issued && unused != NIL
    {
      unused := 1;
      for i := 0 to |issued|
        invariant unused > NIL && forall j | 0 <= j < i :: issued[j] < unused
      {
        if issued[i] >= unused { unused := issued[i] + 1; }
      }
    }

    /** One connection attempt; no result means the features call timed out. */
    method Connect(node: Endpoint, reply: FeatureReply) returns (r: Option<Result<HandleInfo, ConnectionError>>)
      requires Valid() && handle.None?
      modifies this
      ensures Valid()
      ensures r.None? <==> reply.TimedOut?
      ensures r.Some? && r.value.Failure? <==> reply.Unexpected?
      ensures r.None? || r.value.Failure? ==>
        id == old(id) && handle.None? && issued == old(issued) && (r.Some? ==> r.value.error == Grpc)
      ensures r.Some? && r.value.Success? ==>
        && handle == Some(r.value.value) && r.value.value == HandleInfo(id, node, reply.Info())
        && id != NIL && id !in old(issued) && issued == old(issued) + [id]
    {
      var info: ServerInfo;
      match reply {
        case Features(features) => info := features;
        case Unsupported => info := ServerInfo({});
        case Unexpected => return Some(Failure(Grpc));
        case TimedOut => return None;
      }
      id := FreshId();
      issued := issued + [id];
      handle := Some(HandleInfo(id, node, info));
      return Some(Success(handle.value));
    }

    /**
     The discovery loop, entered with no cached handle.  It ends for every pattern of
     failed selections and timeouts, and its result is fixed by the first reply.
     */
    method Discover(seed: Option<Endpoint>, answers: Answers)
      returns (r: Result<HandleInfo, ConnectionError>, ghost effort: Effort)
      requires Valid() && handle.None?
      modifies this
      ensures Valid()
      ensures r.Success? <==> Connects(settings, seed, answers)
      ensures r == Failure(Grpc) <==> Refuses(settings, seed, answers)
      ensures r.Failure? ==> r.error == Grpc || r.error == MaxDiscoveryAttemptReached(settings.maxDiscoverAttempts)
      ensures r.Success? ==>
        && FirstReply(settings, seed, answers, effort.selections)
        && r.value == HandleInfo(id, Candidate(settings, seed, answers, effort.selections).value,
                                 answers.reply(effort.selections).Info())
        && handle == Some(r.value) && id != NIL && id !in old(issued) && issued == old(issued) + [id]
      ensures r.Success? ==> ConnectedTo(settings, seed, answers, effort.selections, r.value)
      ensures Deciding(settings, seed, answers, effort.selections)
      ensures seed.Some? && !answers.reply(0).TimedOut? ==>
        effort.selections == 0 && (r.Success? <==> answers.reply(0).Features? || answers.reply(0).Unsupported?)
      ensures r.Failure? ==> handle.None? && issued == old(issued) && id == old(id)
      ensures r == Failure(Grpc) ==> FirstReply(settings, seed, answers, effort.selections)
      ensures r.Failure? && r.error != Grpc ==>
        effort.selections == if settings.maxDiscoverAttempts > 1 then settings.maxDiscoverAttempts else 1
      ensures effort.selections <= if settings.maxDiscoverAttempts > 1 then settings.maxDiscoverAttempts else 1
      ensures effort.tries <= (if settings.maxDiscoverAttempts > 1 then settings.maxDiscoverAttempts - 1 else 0)
                            + (if seed.Some? then 1 else 0)
    {
      var selectedNode := seed;
      var attempts := 1;
      effort := Effort(0, 0);
      while true
        invariant Valid() && handle.None? && issued == old(issued) && id == old(id)
        invariant 1 <= attempts && (attempts == 1 || attempts <= settings.maxDiscoverAttempts)
        invariant effort.selections == attempts - 1
        invariant forall j: nat | j < attempts - 1 :: !Replies(settings, seed, answers, j)
        invariant selectedNode.Some? ==> selectedNode == Candidate(settings, seed, answers, attempts - 1)
        invariant selectedNode.None? ==> !Replies(settings, seed, answers, attempts - 1)
        invariant effort.tries + (if selectedNode.Some? then 1 else 0)
               <= attempts - 1 + (if seed.Some? then 1 else 0)
        decreases settings.maxDiscoverAttempts + 1 - attempts, selectedNode.Some?
      {
        if selectedNode.Some? {
          var node := selectedNode.value;
          selectedNode := None;
          effort := effort.(tries := effort.tries + 1);
          var outcome := Connect(node, answers.reply(attempts - 1));
          if outcome.None? { continue; }
          assert FirstReply(settings, seed, answers, attempts - 1);
          SilenceDecides(settings, seed, answers, attempts - 1);
          return outcome.value, effort;
        } else if settings.clusterMode {
          var node := answers.selection(attempts);
          if node.Some? { selectedNode := node; }
        } else {
          selectedNode := if settings.hosts != [] then Some(settings.hosts[0]) else None;
        }
        effort := effort.(selections := effort.selections + 1);

        attempts := attempts + 1;
        if attempts <= settings.maxDiscoverAttempts { continue; }
        SilenceDecides(settings, seed, answers, attempts - 1);
        return Failure(MaxDiscoveryAttemptReached(settings.maxDiscoverAttempts)), effort;
      }
    }

    /** The next handle: the cached one, or a newly discovered one. */
    method Next(request: Option<NodeRequest>, answers: Answers)
      returns (r: Result<HandleInfo, ConnectionError>, ghost effort: Effort)
      requires Valid()
      modifies this
      ensures Valid()
      ensures ReturnsCached(old(id), old(handle), request) ==>
        && r == Success(old(handle).value)
        && id == old(id) && handle == old(handle) && issued == old(issued)
        && effort == Effort(0, 0)
      ensures !ReturnsCached(old(id), old(handle), request) ==>
        && (r.Success? <==> Connects(settings, SeedOf(request), answers))
        && (r == Failure(Grpc) <==> Refuses(settings, SeedOf(request), answers))
      ensures r.Failure? ==> r.error == Grpc || r.error == MaxDiscoveryAttemptReached(settings.maxDiscoverAttempts)
      ensures !ReturnsCached(old(id), old(handle), request) && r.Success? ==>
        && FirstReply(settings, SeedOf(request), answers, effort.selections)
        && r.value == HandleInfo(id, Candidate(settings, SeedOf(request), answers, effort.selections).value,
                                 answers.reply(effort.selections).Info())
        && handle == Some(r.value) && id != NIL && id !in old(issued) && issued == old(issued) + [id]
      ensures !ReturnsCached(old(id), old(handle), request) ==>
        && Deciding(settings, SeedOf(request), answers, effort.selections)
        && (r.Success? ==> ConnectedTo(settings, SeedOf(request), answers, effort.selections, r.value))
      ensures r.Failure? ==> handle.None? && issued == old(issued) && id == old(id)
      ensures effort.selections <= if settings.maxDiscoverAttempts > 1 then settings.maxDiscoverAttempts else 1
      ensures effort.tries <= (if settings.maxDiscoverAttempts > 1 then settings.maxDiscoverAttempts - 1 else 0)
                            + (if request.Some? then 1 else 0)
    {
      if request.Some? {
        if id != request.value.correlation && handle.Some? {
          return Success(handle.value), Effort(0, 0);
        }
        handle := None;
        r, effort := Discover(Some(request.value.endpoint), answers);
      } else if handle.Some? {
        return Success(handle.value), Effort(0, 0);
      } else {
        r, effort := Discover(None, answers);
      }
    }
  }

  // ---------------------------------------------------------------- corollaries of Discover

  /**
   Corollary of `Discover`, which succeeds exactly when `Connects` holds: a network whose
   first reply comes after n selections, and is one to connect on, is found exactly by a
   client allowed more than n attempts, the last selection's node never being tried.
   */
  lemma ConnectsInTime(settings: Settings, seed: Option<Endpoint>, answers: Answers, n: nat)
    requires FirstReply(settings, seed, answers, n) && answers.reply(n).Welcomes()
    ensures Connects(settings, seed, answers) <==> n == 0 || n < settings.maxDiscoverAttempts
  {
    if Connects(settings, seed, answers) {
      var k: nat :| FirstReply(settings, seed, answers, k) && (k == 0 || k < settings.maxDiscoverAttempts);
      assert k == n;
    }
  }

  /**
   Corollary of the last: with a healthy network, where every selection finds a node that answers, an unseeded
   discovery succeeds if and only if at least two attempts are configured; with fewer it
   fails whatever the network does.
   */
  lemma UnseededNeedsTwoAttempts(settings: Settings, answers: Answers)
    ensures settings.maxDiscoverAttempts < 2 ==> !Connects(settings, None, answers)
    ensures Candidate(settings, None, answers, 1).Some? && answers.reply(1).Welcomes() ==>
      (Connects(settings, None, answers) <==> settings.maxDiscoverAttempts >= 2)
  {
    if Candidate(settings, None, answers, 1).Some? && answers.reply(1).Welcomes() {
      ConnectsInTime(settings, None, answers, 1);
    }
  }

  // ---------------------------------------------------------------- the actor

  datatype Msg = GetChannel | CreateChannel(id: Uuid, seed: Option<Endpoint>)

  /** The actor's whole memory between two messages. */
  datatype ActorState = ActorState(
    id: Uuid,
    handle: Option<HandleInfo>,
    cached: Option<HandleInfo>,
    issued: seq<Uuid>,
    running: bool)

  const IDLE := ActorState(NIL, None, None, [], true)

  /** Whether processing this message goes to the network at all. */
  predicate Reconnects(s: ActorState, msg: Msg) {
    match msg
    case GetChannel => s.cached.None? && s.handle.None?
    case CreateChannel(id, seed) => s.handle.None? || (seed.Some? && id == s.id)
  }

  function SeedIn(msg: Msg): Option<Endpoint> {
    if msg.CreateChannel? then msg.seed else None
  }

  /**
   One processed message.  `outcome` is what a reconnection, if there is one, came to:
   the new handle, whose id is fresh, or a failure.
   */
  function Process(s: ActorState, msg: Msg, outcome: Option<HandleInfo>): ActorState {
    if !s.running then s
    else if !Reconnects(s, msg) then
      if msg.GetChannel? && s.cached.Some? then s else s.(cached := s.handle)
    else
      match outcome
      case Some(info) => s.(id := info.id, handle := Some(info), cached := Some(info), issued := s.issued + [info.id])
      case None => s.(handle := None, running := false)
  }

  /** What the network may answer: ids are fresh. */
  predicate Admissible(s: ActorState, outcome: Option<HandleInfo>) {
    outcome.Some? ==> outcome.value.id != NIL && outcome.value.id !in s.issued
  }

  class Actor {
    const connection: NodeConnection
    var cached: Option<HandleInfo>
    var running: bool

    function State(): ActorState
      reads this, connection
    {
      ActorState(connection.id, connection.handle, cached, connection.issued, running)
    }

    ghost predicate Valid()
      reads this, connection
    {
      connection.Valid() && Agrees(State())
    }

    constructor (settings: Settings)
      ensures Valid() && State() == IDLE && connection.settings == settings
    {
      connection := new NodeConnection(settings);
      cached := None;
      running := true;
    }

    /** Receives one message; the reply to a GetChannel, if there is one. */
    method Receive(msg: Msg, answers: Answers)
      returns (reply: Option<Result<HandleInfo, ConnectionError>>, ghost outcome: Option<HandleInfo>)
      requires Valid() && running
      modifies this, connection
      ensures Valid()
      ensures Admissible(old(State()), outcome)
      ensures State() == Process(old(State()), msg, outcome)
      ensures outcome.Some? <==>
        Reconnects(old(State()), msg) && Connects(connection.settings, SeedIn(msg), answers)
      ensures reply.Some? <==> msg.GetChannel?
      ensures reply.Some? && running ==> reply.value.Success? && Some(reply.value.value) == cached
      ensures reply.Some? && !running ==> reply.value.Failure?
    {
      outcome := None;
      reply := None;
      match msg {
        case GetChannel =>
          if cached.Some? {
            reply := Some(Success(cached.value));
            return;
          }
          ghost var reconnects := Reconnects(State(), msg);
          var r, _ := connection.Next(None, answers);
          if r.Failure? {
            running := false;
          } else {
            cached := Some(r.value);
            if reconnects { outcome := cached; }
          }
          reply := Some(r);
        case CreateChannel(id, seed) =>
          ghost var reconnects := Reconnects(State(), msg);
          var request := if seed.Some? then Some(NodeRequest(id, seed.value)) else None;
          var r, _ := connection.Next(request, answers);
          if r.Failure? {
            running := false;
          } else {
            cached := Some(r.value);
            if reconnects { outcome := cached; }
          }
      }
    }
  }

  /** The cached handle is the connection's handle, under the connection's id. */
  ghost predicate Agrees(s: ActorState) {
    && (s.running ==> s.cached == s.handle)
    && (s.handle.Some? ==> s.handle.value.id == s.id && s.id in s.issued)
    && (s.id == NIL || s.id in s.issued)
    && (forall i, j | 0 <= i < j < |s.issued| :: s.issued[i] != s.issued[j])
    && NIL !in s.issued
    && (s.running && s.handle.None? ==> s.issued == [] && s.id == NIL)
    && (s.issued != [] ==> s.id == s.issued[|s.issued| - 1])
  }

  // ---------------------------------------------------------------- runs

  datatype Step = Step(msg: Msg, outcome: Option<HandleInfo>)

  function Run(steps: seq<Step>): ActorState {
    if steps == [] then IDLE
    else
      var last := steps[|steps| - 1];
      Process(Run(steps[..|steps| - 1]), last.msg, last.outcome)
  }

  /** Every reconnection of the run got a fresh id. */
  predicate FreshIds(steps: seq<Step>) {
    steps != [] ==>
      && FreshIds(steps[..|steps| - 1])
      && Admissible(Run(steps[..|steps| - 1]), steps[|steps| - 1].outcome)
  }

  /** After every processed message the actor's handle and the connection's agree. */
  lemma {:induction false} AlwaysAgrees(steps: seq<Step>)
    requires FreshIds(steps)
    ensures Agrees(Run(steps))
  {
    if steps != [] {
      AlwaysAgrees(steps[..|steps| - 1]);
    }
  }

  /** Step k replaced the connection that carried this id. */
  predicate Supersedes(steps: seq<Step>, k: nat, id: Uuid)
    requires k < |steps|
  {
    Run(steps[..k]).id == id && Run(steps[..k + 1]).id != id
  }

  lemma {:induction false} IssuedGrows(steps: seq<Step>, k: nat)
    requires FreshIds(steps) && k <= |steps|
    ensures FreshIds(steps[..k])
    ensures Run(steps[..k]).issued <= Run(steps).issued
  {
    if k < |steps| {
      assert steps[..|steps| - 1][..k] == steps[..k];
      IssuedGrows(steps[..|steps| - 1], k);
    } else {
      assert steps[..k] == steps;
    }
  }

  /**
   However many operations report not-leader against one handle, in whatever order,
   that handle is replaced at most once: an id is never current again after it was
   superseded.
   */
  lemma SupersededOnce(steps: seq<Step>, j: nat, k: nat, id: Uuid)
    requires FreshIds(steps) && j < k < |steps|
    requires Supersedes(steps, j, id)
    ensures !Supersedes(steps, k, id)
  {
    var replaced, before := steps[..j + 1], steps[..k];
    IssuedGrows(steps, j);
    IssuedGrows(steps, j + 1);
    IssuedGrows(steps, k);
    assert before[..j + 1] == replaced;
    IssuedGrows(before, j + 1);
    AlwaysAgrees(steps[..j]);
    AlwaysAgrees(replaced);
    AlwaysAgrees(before);
    assert replaced[..j] == steps[..j];
    var s, t, u := Run(steps[..j]), Run(replaced), Run(before);
    assert t.issued == s.issued + [t.id];
    assert u.issued[|s.issued|] == t.id;
  }

  /** Every new handle of the run was discovered: some answers of the network lead to it. */
  ghost predicate Discovered(settings: Settings, steps: seq<Step>) {
    forall k | 0 <= k < |steps| && steps[k].outcome.Some? ::
      exists answers :: Connects(settings, SeedIn(steps[k].msg), answers)
  }

  /**
   A client configured with fewer than two attempts never connects in any run, whatever
   its cluster does, until somebody names a leader to it.
   */
  lemma {:induction false} OneAttemptNeverConnects(settings: Settings, steps: seq<Step>)
    requires settings.maxDiscoverAttempts < 2 && Discovered(settings, steps)
    requires forall k | 0 <= k < |steps| :: SeedIn(steps[k].msg).None?
    ensures Run(steps).handle.None? && Run(steps).cached.None? && Run(steps).issued == []
  {
    if steps != [] {
      var last := steps[|steps| - 1];
      OneAttemptNeverConnects(settings, steps[..|steps| - 1]);
      if last.outcome.Some? {
        var answers :| Connects(settings, SeedIn(last.msg), answers);
        UnseededNeedsTwoAttempts(settings, answers);
      }
    }
  }

  /**
   A report without a seed never replaces a live connection, although it is sent to
   start a node selection: exactly the reports that name a leader, against the
   current id, do.
   */
  lemma OnlySeededReportsReplace(steps: seq<Step>, msg: Msg, outcome: Option<HandleInfo>)
    requires FreshIds(steps) && Run(steps).running && Run(steps).handle.Some?
    requires Admissible(Run(steps), outcome)
    ensures Process(Run(steps), msg, outcome) != Run(steps)
       <==> msg.CreateChannel? && msg.seed.Some? && msg.id == Run(steps).id
  {
    AlwaysAgrees(steps);
  }
}
