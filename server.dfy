/**
 * The in-memory cluster behind the web services (crates/cl0_node/src/server.rs):
 * pools with their nodes, a global node index, one REPL session per scope,
 * and the system-tree broadcast. Shared `Arc` sessions are identified by
 * their key; every broadcast channel is an event log that sends append to.
 * Output ids and timestamps are parameters.
 */
module Server {
  import opened Wrappers

  /** The kinds of scope a request can address. */
  datatype Kind = Unspecified | ControlPlane | NodePool | Node

  datatype Scope = Scope(kind: Kind, id: string)

  /** One transcript entry. */
  datatype Output = Output(id: string, scope: Option<Scope>, userId: string, stdout: string, unixTs: int)

  /** What a session broadcasts, and what a subscriber receives. */
  datatype ServerEvent =
    | History(scope: Option<Scope>, items: seq<Output>, done: bool)
    | Notice(scope: Option<Scope>, text: string)
    | OutputEvent(output: Output)

  /** A REPL session: its transcript, and the events broadcast on it. */
  datatype Session = Session(history: seq<Output>, events: seq<ServerEvent>)

  /** A node's status: the scope it describes (its rule and variable lists start, and stay, empty). */
  datatype StatusSnapshot = StatusSnapshot(scope: Option<Scope>)

  datatype NodeSession = NodeSession(repl: Session, status: StatusSnapshot)

  /** A pool: its session, the ids of its nodes, and its display name. */
  datatype PoolSession = PoolSession(repl: Session, nodes: set<string>, name: string)

  datatype NodeDescriptor = NodeDescriptor(id: string, name: string)

  datatype PoolDescriptor = PoolDescriptor(id: string, name: string, nodes: set<NodeDescriptor>)

  /** The topology as broadcast; the source lists pools and nodes in map order, which is unspecified. */
  datatype SystemTree = SystemTree(controlPlaneId: string, nodePools: set<PoolDescriptor>)

  /** The cluster as a value; `trees` is what the tree channel has broadcast. */
  datatype ClusterState = ClusterState(
    controlPlaneId: string,
    control: Session,
    pools: map<string, PoolSession>,
    nodesIndex: map<string, NodeSession>,
    trees: seq<SystemTree>)

  /** Which session a scope resolves to. */
  datatype SessionRef = ControlSession | PoolRepl(poolId: string) | NodeRepl(nodeId: string)

  datatype Status = InvalidArgument(message: string)

  datatype Input = Input(userId: string, scope: Option<Scope>, code: string)

  datatype Join = Join(userId: string, scope: Option<Scope>, sinceId: string)

  datatype Ack = Ack(inputEcho: string, outputId: string)

  /** How many entries a lagging subscriber is resent. */
  const ResyncLimit := 200

  /** The pool `ensure_node_global` files unknown nodes under. */
  const DefaultPool := "default"

  function EmptySession(): Session {
    Session([], [])
  }

  function NewNodeSession(nodeId: string): NodeSession {
    NodeSession(EmptySession(), StatusSnapshot(Some(Scope(Node, nodeId))))
  }

  function NewPoolSession(name: string): PoolSession {
    PoolSession(EmptySession(), {}, name)
  }

  function NewCluster(controlPlaneId: string): ClusterState {
    ClusterState(controlPlaneId, EmptySession(), map[], map[], [])
  }

  // ------------------------------------------------------------ topology

  /**
   * The cluster's invariant: every pooled node is indexed, every indexed
   * node sits in exactly one pool, and every node's status names the node.
   */
  ghost predicate Valid(st: ClusterState) {
    && (forall p, n :: p in st.pools && n in st.pools[p].nodes ==> n in st.nodesIndex)
    && (forall n :: n in st.nodesIndex ==> exists p :: p in st.pools && n in st.pools[p].nodes)
    && (forall p, q, n :: p in st.pools && q in st.pools && n in st.pools[p].nodes && n in st.pools[q].nodes ==> p == q)
    && (forall n :: n in st.nodesIndex ==> st.nodesIndex[n].status == StatusSnapshot(Some(Scope(Node, n))))
  }

  /** The descriptor of one pool: its id, its name, and each node with id and name both its key. */
  function Describe(id: string, pool: PoolSession): (d: PoolDescriptor)
    ensures d.id == id && d.name == pool.name
    ensures forall nd :: nd in d.nodes <==> nd.id in pool.nodes && nd.name == nd.id
  {
    PoolDescriptor(id, pool.name, set n | n in pool.nodes :: NodeDescriptor(n, n))
  }

  /** `system_tree_snapshot`: one descriptor per pool, holding all of that pool's nodes. */
  function TreeOf(st: ClusterState): (t: SystemTree)
    ensures t.controlPlaneId == st.controlPlaneId
    ensures forall id :: id in st.pools ==> Describe(id, st.pools[id]) in t.nodePools
    ensures forall d :: d in t.nodePools ==> d.id in st.pools && d == Describe(d.id, st.pools[d.id])
  {
    SystemTree(st.controlPlaneId, set id | id in st.pools :: Describe(id, st.pools[id]))
  }

  /** `ensure_pool`: an existing pool is kept; a missing one is created, named after its id. No broadcast. */
  function EnsurePoolSpec(st: ClusterState, poolId: string): ClusterState {
    if poolId in st.pools then st
    else st.(pools := st.pools[poolId := NewPoolSession(poolId)])
  }

  /**
   * `ensure_node`: a node already indexed is left where it is; otherwise it
   * joins the pool (created if missing) and the index, and the new tree is
   * broadcast.
   */
  function EnsureNodeSpec(st: ClusterState, poolId: string, nodeId: string): ClusterState {
    if nodeId in st.nodesIndex then st
    else
      var st1 := EnsurePoolSpec(st, poolId);
      var pool := st1.pools[poolId];
      var st2 := st1.(pools := st1.pools[poolId := pool.(nodes := pool.nodes + {nodeId})],
                      nodesIndex := st1.nodesIndex[nodeId := NewNodeSession(nodeId)]);
      st2.(trees := st2.trees + [TreeOf(st2)])
  }

  /** `ensure_node_global`: an unknown node goes to the default pool. */
  function EnsureNodeGlobalSpec(st: ClusterState, nodeId: string): ClusterState {
    if nodeId in st.nodesIndex then st else EnsureNodeSpec(st, DefaultPool, nodeId)
  }

  /** `upsert_pool`: the pool is created with `name` if missing, and the tree is broadcast either way. */
  function UpsertPoolSpec(st: ClusterState, poolId: string, name: string): ClusterState {
    var st1 := if poolId in st.pools then st else st.(pools := st.pools[poolId := NewPoolSession(name)]);
    st1.(trees := st1.trees + [TreeOf(st1)])
  }

  // ------------------------------------------------------------ sessions

  /** The session a reference names, if it exists. */
  function SessionAt(st: ClusterState, r: SessionRef): Option<Session> {
    match r
    case ControlSession => Some(st.control)
    case PoolRepl(id) => if id in st.pools then Some(st.pools[id].repl) else None
    case NodeRepl(id) => if id in st.nodesIndex then Some(st.nodesIndex[id].repl) else None
  }

  /** Everything but the sessions' contents agrees. */
  ghost predicate SameTopology(a: ClusterState, b: ClusterState) {
    && a.controlPlaneId == b.controlPlaneId
    && a.trees == b.trees
    && a.pools.Keys == b.pools.Keys
    && (forall p :: p in a.pools ==> a.pools[p].nodes == b.pools[p].nodes && a.pools[p].name == b.pools[p].name)
    && a.nodesIndex.Keys == b.nodesIndex.Keys
    && (forall n :: n in a.nodesIndex ==> a.nodesIndex[n].status == b.nodesIndex[n].status)
  }

  /** The cluster with one existing session replaced: no other session and nothing of the topology changes. */
  function WithSession(st: ClusterState, r: SessionRef, s: Session): (st': ClusterState)
    requires SessionAt(st, r).Some?
    ensures SessionAt(st', r) == Some(s)
    ensures forall r2 :: r2 != r ==> SessionAt(st', r2) == SessionAt(st, r2)
    ensures SameTopology(st, st')
  {
    match r
    case ControlSession => st.(control := s)
    case PoolRepl(id) => st.(pools := st.pools[id := st.pools[id].(repl := s)])
    case NodeRepl(id) => st.(nodesIndex := st.nodesIndex[id := st.nodesIndex[id].(repl := s)])
  }

  /**
   * `get_scope_session`: the control plane's session, a pool's (creating the
   * pool) or a node's (creating the node in the default pool); an
   * unspecified kind is refused and changes nothing.
   */
  function ScopeSessionSpec(st: ClusterState, scope: Scope): (res: (ClusterState, Result<SessionRef, Status>))
    ensures res.1.Err? <==> scope.kind == Unspecified
    ensures res.1.Err? ==> res.0 == st
    ensures res.1.Ok? ==> SessionAt(res.0, res.1.value).Some?
  {
    match scope.kind
    case ControlPlane => (st, Ok(ControlSession))
    case NodePool => (EnsurePoolSpec(st, scope.id), Ok(PoolRepl(scope.id)))
    case Node => (EnsureNodeGlobalSpec(st, scope.id), Ok(NodeRepl(scope.id)))
    case Unspecified => (st, Err(InvalidArgument("scope.kind unspecified")))
  }

  /** `get_node_session`: only a node scope is accepted; the node is created if unknown. */
  function NodeSessionSpec(st: ClusterState, scope: Scope): (res: (ClusterState, Result<string, Status>))
    ensures res.1.Err? <==> scope.kind != Node
    ensures res.1.Err? ==> res.0 == st
    ensures res.1.Ok? ==> res.1.value == scope.id && scope.id in res.0.nodesIndex
  {
    if scope.kind == Node then (EnsureNodeGlobalSpec(st, scope.id), Ok(scope.id))
    else (st, Err(InvalidArgument("GetStatus requires NODE scope")))
  }

  // ------------------------------------------------------------ transcript

  /** Rust's `String` order: lexicographic by character (UTF-8 bytes compare as code points do). */
  predicate Below(a: string, b: string) {
    if |a| == 0 then |b| > 0
    else if |b| == 0 then false
    else if a[0] != b[0] then a[0] < b[0]
    else Below(a[1..], b[1..])
  }

  lemma {:induction false} BelowIrreflexive(a: string)
    ensures !Below(a, a)
  {
    if |a| > 0 {
      BelowIrreflexive(a[1..]);
    }
  }

  lemma {:induction false} BelowTransitive(a: string, b: string, c: string)
    requires Below(a, b) && Below(b, c)
    ensures Below(a, c)
  {
    if |a| > 0 && |b| > 0 && |c| > 0 && a[0] == b[0] && b[0] == c[0] {
      BelowTransitive(a[1..], b[1..], c[1..]);
    }
  }

  /** The first position whose id is not below `since` (the length when there is none). */
  function FirstAtLeast(h: seq<Output>, since: string): (i: nat)
    ensures i <= |h|
    ensures forall j :: 0 <= j < i ==> Below(h[j].id, since)
    ensures i < |h| ==> !Below(h[i].id, since)
  {
    if |h| == 0 || !Below(h[0].id, since) then 0
    else 1 + FirstAtLeast(h[1..], since)
  }

  /**
   * The history a subscriber is first sent: everything when `since` is
   * empty, otherwise the suffix from the first entry whose id is at least
   * `since` (that entry included).
   */
  function ReplaySlice(h: seq<Output>, since: string): (items: seq<Output>)
    ensures |items| <= |h| && items == h[|h| - |items|..]
    ensures since == "" ==> items == h
    ensures since != "" ==> forall j :: 0 <= j < |h| - |items| ==> Below(h[j].id, since)
    ensures since != "" && |items| > 0 ==> !Below(items[0].id, since)
  {
    if since == "" then h else h[FirstAtLeast(h, since)..]
  }

  /** The resync sent to a lagging subscriber: the last `ResyncLimit` entries, or all when there are fewer. */
  function ResyncSlice(h: seq<Output>): (items: seq<Output>)
    ensures |items| == if |h| < ResyncLimit then |h| else ResyncLimit
    ensures items == h[|h| - |items|..]
  {
    var take := if |h| >= ResyncLimit then |h| - ResyncLimit else 0;
    h[take..]
  }

  /** The transcript text of a command: the code echoed after ">> ", then the placeholder result. */
  function CommandText(code: string): (text: string)
    ensures |text| == |code| + 24
    ensures text[..3] == ">> " && text[3..3 + |code|] == code
    ensures text[3 + |code|..] == "\n[result placeholder]"
  {
    ">> " + code + "\n[result placeholder]"
  }

  /**
   * `send_command`: the scope is required and must resolve; then one output
   * is appended to that session's history and broadcast on it, and the code
   * is acknowledged with the output's id.
   */
  function SendCommandSpec(st: ClusterState, input: Input, outputId: string, now: int): (ClusterState, Result<Ack, Status>) {
    if input.scope.None? then (st, Err(InvalidArgument("Input.scope required")))
    else
      var (st1, r) := ScopeSessionSpec(st, input.scope.value);
      if r.Err? then (st1, Err(r.error))
      else
        var out := Output(outputId, input.scope, input.userId, CommandText(input.code), now);
        var s := SessionAt(st1, r.value).value;
        (WithSession(st1, r.value, Session(s.history + [out], s.events + [OutputEvent(out)])), Ok(Ack(input.code, outputId)))
  }

  /**
   * `subscribe`, up to the join notice: the scope is required and must
   * resolve; the subscriber is sent the replayed history, then
   * "<user> joined" is broadcast on the session.
   */
  function SubscribeSpec(st: ClusterState, join: Join): (ClusterState, Result<ServerEvent, Status>) {
    if join.scope.None? then (st, Err(InvalidArgument("Join.scope required")))
    else
      var (st1, r) := ScopeSessionSpec(st, join.scope.value);
      if r.Err? then (st1, Err(r.error))
      else
        var s := SessionAt(st1, r.value).value;
        var chunk := History(join.scope, ReplaySlice(s.history, join.sinceId), true);
        (WithSession(st1, r.value, s.(events := s.events + [Notice(join.scope, join.userId + " joined")])), Ok(chunk))
  }

  // ------------------------------------------------------------ the shared object

  /** The cluster, whose maps and logs the services update in place. */
  class Cluster {
    const controlPlaneId: string
    var control: Session
    var pools: map<string, PoolSession>
    var nodesIndex: map<string, NodeSession>
    var trees: seq<SystemTree>

    /** The cluster's fields as one value. */
    function State(): ClusterState
      reads this
    {
      ClusterState(controlPlaneId, control, pools, nodesIndex, trees)
    }

    /** A cluster with no pools and empty sessions. */
    constructor (controlPlaneId: string)
      ensures State() == NewCluster(controlPlaneId)
    {
      this.controlPlaneId := controlPlaneId;
      control := EmptySession();
      pools := map[];
      nodesIndex := map[];
      trees := [];
    }

    method EnsurePool(poolId: string)
      modifies this
      ensures State() == EnsurePoolSpec(old(State()), poolId)
    {
      if poolId !in pools {
        pools := pools[poolId := NewPoolSession(poolId)];
      }
    }

    /** `broadcast_tree`: the current snapshot is sent on the tree channel. */
    method BroadcastTree()
      modifies this
      ensures State() == old(State()).(trees := old(trees) + [TreeOf(old(State()))])
    {
      trees := trees + [TreeOf(State())];
    }

    method EnsureNode(poolId: string, nodeId: string)
      modifies this
      ensures State() == EnsureNodeSpec(old(State()), poolId, nodeId)
    {
      if nodeId in nodesIndex {
        return;
      }
      EnsurePool(poolId);
      var pool := pools[poolId];
      pools := pools[poolId := pool.(nodes := pool.nodes + {nodeId})];
      nodesIndex := nodesIndex[nodeId := NewNodeSession(nodeId)];
      BroadcastTree();
    }

    method EnsureNodeGlobal(nodeId: string)
      modifies this
      ensures State() == EnsureNodeGlobalSpec(old(State()), nodeId)
    {
      if nodeId in nodesIndex {
        return;
      }
      EnsureNode(DefaultPool, nodeId);
    }

    method UpsertPool(poolId: string, name: string)
      modifies this
      ensures State() == UpsertPoolSpec(old(State()), poolId, name)
    {
      if poolId !in pools {
        pools := pools[poolId := NewPoolSession(name)];
      }
      BroadcastTree();
    }

    /** `upsert_node`: the display name is ignored. */
    method UpsertNode(poolId: string, nodeId: string, name: string)
      modifies this
      ensures State() == EnsureNodeSpec(old(State()), poolId, nodeId)
    {
      EnsureNode(poolId, nodeId);
    }

    method GetScopeSession(scope: Scope) returns (r: Result<SessionRef, Status>)
      modifies this
      ensures (State(), r) == ScopeSessionSpec(old(State()), scope)
    {
      match scope.kind {
        case ControlPlane =>
          r := Ok(ControlSession);
        case NodePool =>
          EnsurePool(scope.id);
          r := Ok(PoolRepl(scope.id));
        case Node =>
          EnsureNodeGlobal(scope.id);
          r := Ok(NodeRepl(scope.id));
        case Unspecified =>
          r := Err(InvalidArgument("scope.kind unspecified"));
      }
    }

    method GetNodeSession(scope: Scope) returns (r: Result<string, Status>)
      modifies this
      ensures (State(), r) == NodeSessionSpec(old(State()), scope)
    {
      if scope.kind == Node {
        EnsureNodeGlobal(scope.id);
        r := Ok(scope.id);
      } else {
        r := Err(InvalidArgument("GetStatus requires NODE scope"));
      }
    }

    /** Replaces the history and event log of one existing session, as the history push and channel send of a command or a subscription do. */
    method SetSession(ref: SessionRef, s: Session)
      requires SessionAt(State(), ref).Some?
      modifies this
      ensures State() == WithSession(old(State()), ref, s)
    {
      match ref {
        case ControlSession =>
          control := s;
        case PoolRepl(id) =>
          pools := pools[id := pools[id].(repl := s)];
        case NodeRepl(id) =>
          nodesIndex := nodesIndex[id := nodesIndex[id].(repl := s)];
      }
    }

    method SendCommand(input: Input, outputId: string, now: int) returns (r: Result<Ack, Status>)
      modifies this
      ensures (State(), r) == SendCommandSpec(old(State()), input, outputId, now)
    {
      if input.scope.None? {
        return Err(InvalidArgument("Input.scope required"));
      }
      var ref := GetScopeSession(input.scope.value);
      if ref.Err? {
        return Err(ref.error);
      }
      var out := Output(outputId, input.scope, input.userId, CommandText(input.code), now);
      var s := SessionAt(State(), ref.value).value;
      SetSession(ref.value, Session(s.history + [out], s.events + [OutputEvent(out)]));
      r := Ok(Ack(input.code, outputId));
    }

    method Subscribe(join: Join) returns (r: Result<ServerEvent, Status>)
      modifies this
      ensures (State(), r) == SubscribeSpec(old(State()), join)
    {
      if join.scope.None? {
        return Err(InvalidArgument("Join.scope required"));
      }
      var ref := GetScopeSession(join.scope.value);
      if ref.Err? {
        return Err(ref.error);
      }
      var s := SessionAt(State(), ref.value).value;
      var chunk := History(join.scope, ReplaySlice(s.history, join.sinceId), true);
      SetSession(ref.value, s.(events := s.events + [Notice(join.scope, join.userId + " joined")]));
      r := Ok(chunk);
    }
  }
}
