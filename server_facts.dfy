/** What the cluster's operations promise, proved about their functions in `Server`. */
module ServerFacts {
  import opened Wrappers
  import opened Server

  // ------------------------------------------------------------ topology

  /** `ensure_node` on an indexed node changes nothing, whatever pool is named. */
  lemma EnsureNodeExisting(st: ClusterState, poolId: string, nodeId: string)
    requires nodeId in st.nodesIndex
    ensures EnsureNodeSpec(st, poolId, nodeId) == st
  {
  }

  /**
   * A new node is put in its pool (created and named after its id when
   * missing) and in the index with a fresh session; no other pool and no
   * other node changes; exactly one tree is broadcast, and it lists the node.
   */
  lemma EnsureNodeAdds(st: ClusterState, poolId: string, nodeId: string)
    requires nodeId !in st.nodesIndex
    ensures var st' := EnsureNodeSpec(st, poolId, nodeId);
      && st'.pools.Keys == st.pools.Keys + {poolId}
      && st'.pools[poolId].nodes == (if poolId in st.pools then st.pools[poolId].nodes else {}) + {nodeId}
      && st'.pools[poolId].name == (if poolId in st.pools then st.pools[poolId].name else poolId)
      && (forall p :: p in st.pools && p != poolId ==> st'.pools[p] == st.pools[p])
      && st'.nodesIndex == st.nodesIndex[nodeId := NewNodeSession(nodeId)]
      && st'.control == st.control
      && |st'.trees| == |st.trees| + 1 && st'.trees[..|st.trees|] == st.trees
      && Describe(poolId, st'.pools[poolId]) in st'.trees[|st.trees|].nodePools
      && NodeDescriptor(nodeId, nodeId) in Describe(poolId, st'.pools[poolId]).nodes
  {
    var st' := EnsureNodeSpec(st, poolId, nodeId);
    assert st'.trees[..|st.trees|] == st.trees;
  }

  /** `ensure_pool` broadcasts nothing, keeps an existing pool, and otherwise adds an empty pool named after its id. */
  lemma EnsurePoolQuiet(st: ClusterState, poolId: string)
    ensures var st' := EnsurePoolSpec(st, poolId);
      && st'.trees == st.trees && st'.nodesIndex == st.nodesIndex && st'.control == st.control
      && (poolId in st.pools ==> st' == st)
      && (poolId !in st.pools ==> st'.pools == st.pools[poolId := PoolSession(Session([], []), {}, poolId)])
  {
  }

  /** `upsert_pool` always broadcasts one tree; an existing pool keeps its name and nodes. */
  lemma UpsertPoolBroadcasts(st: ClusterState, poolId: string, name: string)
    ensures var st' := UpsertPoolSpec(st, poolId, name);
      && |st'.trees| == |st.trees| + 1
      && (poolId in st.pools ==> st'.pools == st.pools)
      && (poolId !in st.pools ==> st'.pools[poolId].name == name && st'.pools[poolId].nodes == {})
      && st'.pools[poolId] in st'.pools.Values
      && Describe(poolId, st'.pools[poolId]) in st'.trees[|st.trees|].nodePools
  {
  }

  /** A snapshot depends on the topology only, not on the sessions' contents. */
  lemma SameTopologySameTree(a: ClusterState, b: ClusterState)
    requires SameTopology(a, b)
    ensures TreeOf(a) == TreeOf(b)
  {
    forall d | d in TreeOf(a).nodePools
      ensures d in TreeOf(b).nodePools
    {
      assert Describe(d.id, a.pools[d.id]) == Describe(d.id, b.pools[d.id]);
    }
    forall d | d in TreeOf(b).nodePools
      ensures d in TreeOf(a).nodePools
    {
      assert Describe(d.id, a.pools[d.id]) == Describe(d.id, b.pools[d.id]);
    }
  }

  /** The empty cluster is consistent. */
  lemma NewClusterValid(id: string)
    ensures Valid(NewCluster(id))
  {
  }

  lemma EnsurePoolValid(st: ClusterState, poolId: string)
    requires Valid(st)
    ensures Valid(EnsurePoolSpec(st, poolId))
  {
    var st' := EnsurePoolSpec(st, poolId);
    forall n | n in st'.nodesIndex
      ensures exists p :: p in st'.pools && n in st'.pools[p].nodes
    {
      var p :| p in st.pools && n in st.pools[p].nodes;
      assert p in st'.pools && n in st'.pools[p].nodes;
    }
  }

  lemma EnsureNodeValid(st: ClusterState, poolId: string, nodeId: string)
    requires Valid(st)
    ensures Valid(EnsureNodeSpec(st, poolId, nodeId))
  {
    if nodeId !in st.nodesIndex {
      EnsurePoolValid(st, poolId);
      NewNodePooled(st, poolId, nodeId);
      NewNodeIndexed(st, poolId, nodeId);
      NewNodeInOnePool(st, poolId, nodeId);
    }
  }

  lemma NewNodePooled(st: ClusterState, poolId: string, nodeId: string)
    requires Valid(EnsurePoolSpec(st, poolId)) && nodeId !in st.nodesIndex
    ensures var st' := EnsureNodeSpec(st, poolId, nodeId);
      forall p, n :: p in st'.pools && n in st'.pools[p].nodes ==> n in st'.nodesIndex
  {
  }

  lemma NewNodeIndexed(st: ClusterState, poolId: string, nodeId: string)
    requires Valid(EnsurePoolSpec(st, poolId)) && nodeId !in st.nodesIndex
    ensures var st' := EnsureNodeSpec(st, poolId, nodeId);
      forall n :: n in st'.nodesIndex ==> exists p :: p in st'.pools && n in st'.pools[p].nodes
  {
    var st1 := EnsurePoolSpec(st, poolId);
    var st' := EnsureNodeSpec(st, poolId, nodeId);
    forall n | n in st'.nodesIndex
      ensures exists p :: p in st'.pools && n in st'.pools[p].nodes
    {
      if n == nodeId {
        assert n in st'.pools[poolId].nodes;
      } else {
        var p :| p in st1.pools && n in st1.pools[p].nodes;
        assert n in st'.pools[p].nodes;
      }
    }
  }

  lemma NewNodeInOnePool(st: ClusterState, poolId: string, nodeId: string)
    requires Valid(EnsurePoolSpec(st, poolId)) && nodeId !in st.nodesIndex
    ensures var st' := EnsureNodeSpec(st, poolId, nodeId);
      forall p, q, n :: p in st'.pools && q in st'.pools && n in st'.pools[p].nodes && n in st'.pools[q].nodes ==> p == q
  {
    var st1 := EnsurePoolSpec(st, poolId);
    var st' := EnsureNodeSpec(st, poolId, nodeId);
    forall p, q, n | p in st'.pools && q in st'.pools && n in st'.pools[p].nodes && n in st'.pools[q].nodes
      ensures p == q
    {
      if n != nodeId {
        assert n in st1.pools[p].nodes && n in st1.pools[q].nodes;
      }
    }
  }

  lemma EnsureNodeGlobalValid(st: ClusterState, nodeId: string)
    requires Valid(st)
    ensures Valid(EnsureNodeGlobalSpec(st, nodeId))
  {
    EnsureNodeValid(st, DefaultPool, nodeId);
  }

  lemma UpsertPoolValid(st: ClusterState, poolId: string, name: string)
    requires Valid(st)
    ensures Valid(UpsertPoolSpec(st, poolId, name))
  {
    var st' := UpsertPoolSpec(st, poolId, name);
    forall n | n in st'.nodesIndex
      ensures exists p :: p in st'.pools && n in st'.pools[p].nodes
    {
      var p :| p in st.pools && n in st.pools[p].nodes;
      assert p in st'.pools && n in st'.pools[p].nodes;
    }
  }

  /** Replacing a session's contents keeps the cluster consistent. */
  lemma WithSessionValid(st: ClusterState, r: SessionRef, s: Session)
    requires Valid(st) && SessionAt(st, r).Some?
    ensures Valid(WithSession(st, r, s))
  {
    var st' := WithSession(st, r, s);
    forall n | n in st'.nodesIndex
      ensures exists p :: p in st'.pools && n in st'.pools[p].nodes
    {
      var p :| p in st.pools && n in st.pools[p].nodes;
      assert p in st'.pools && n in st'.pools[p].nodes;
    }
  }

  lemma ScopeSessionValid(st: ClusterState, scope: Scope)
    requires Valid(st)
    ensures Valid(ScopeSessionSpec(st, scope).0)
  {
    match scope.kind
    case NodePool => EnsurePoolValid(st, scope.id);
    case Node => EnsureNodeGlobalValid(st, scope.id);
    case _ =>
  }

  /** Every request keeps the cluster consistent. */
  lemma RequestsKeepValid(st: ClusterState, scope: Scope, input: Input, join: Join, outputId: string, now: int)
    requires Valid(st)
    ensures Valid(ScopeSessionSpec(st, scope).0)
    ensures Valid(NodeSessionSpec(st, scope).0)
    ensures Valid(SendCommandSpec(st, input, outputId, now).0)
    ensures Valid(SubscribeSpec(st, join).0)
  {
    ScopeSessionValid(st, scope);
    if scope.kind == Node {
      EnsureNodeGlobalValid(st, scope.id);
    }
    SendCommandValid(st, input, outputId, now);
    SubscribeValid(st, join);
  }

  lemma SendCommandValid(st: ClusterState, input: Input, outputId: string, now: int)
    requires Valid(st)
    ensures Valid(SendCommandSpec(st, input, outputId, now).0)
  {
    if input.scope.Some? {
      ScopeSessionValid(st, input.scope.value);
      var (st1, r) := ScopeSessionSpec(st, input.scope.value);
      if r.Ok? {
        var s := SessionAt(st1, r.value).value;
        var out := Output(outputId, input.scope, input.userId, CommandText(input.code), now);
        WithSessionValid(st1, r.value, Session(s.history + [out], s.events + [OutputEvent(out)]));
      }
    }
  }

  lemma SubscribeValid(st: ClusterState, join: Join)
    requires Valid(st)
    ensures Valid(SubscribeSpec(st, join).0)
  {
    if join.scope.Some? {
      ScopeSessionValid(st, join.scope.value);
      var (st1, r) := ScopeSessionSpec(st, join.scope.value);
      if r.Ok? {
        var s := SessionAt(st1, r.value).value;
        WithSessionValid(st1, r.value, s.(events := s.events + [Notice(join.scope, join.userId + " joined")]));
      }
    }
  }

  /** A pool scope resolves without a tree broadcast; a node scope broadcasts only when it creates the node. */
  lemma ScopeSessionBroadcasts(st: ClusterState, scope: Scope)
    ensures scope.kind == NodePool ==> ScopeSessionSpec(st, scope).0.trees == st.trees
    ensures scope.kind == Node && scope.id in st.nodesIndex ==> ScopeSessionSpec(st, scope).0 == st
    ensures scope.kind == Node && scope.id !in st.nodesIndex ==>
      |ScopeSessionSpec(st, scope).0.trees| == |st.trees| + 1 && scope.id in ScopeSessionSpec(st, scope).0.pools[DefaultPool].nodes
  {
  }

  // ------------------------------------------------------------ transcript

  /** A command appends exactly one output, with the echoed code and the given id, to its scope's session, and broadcasts it there. */
  lemma SendCommandOutcome(st: ClusterState, input: Input, outputId: string, now: int)
    requires input.scope.Some? && input.scope.value.kind != Unspecified
    ensures var (st1, ref) := ScopeSessionSpec(st, input.scope.value);
      var (st', r) := SendCommandSpec(st, input, outputId, now);
      var out := Output(outputId, input.scope, input.userId, CommandText(input.code), now);
      && ref.Ok?
      && r == Ok(Ack(input.code, outputId))
      && SessionAt(st', ref.value).Some?
      && SessionAt(st', ref.value).value.history == SessionAt(st1, ref.value).value.history + [out]
      && SessionAt(st', ref.value).value.events == SessionAt(st1, ref.value).value.events + [OutputEvent(out)]
      && (forall r2 :: r2 != ref.value ==> SessionAt(st', r2) == SessionAt(st1, r2))
      && SameTopology(st1, st')
  {
  }

  /** A command without a scope, or with an unspecified kind, is refused and changes nothing. */
  lemma SendCommandRefused(st: ClusterState, input: Input, outputId: string, now: int)
    requires input.scope.None? || input.scope.value.kind == Unspecified
    ensures SendCommandSpec(st, input, outputId, now).0 == st
    ensures SendCommandSpec(st, input, outputId, now).1.Err?
  {
  }

  /** Replay is inclusive: an entry whose id equals `since`, with only smaller ids before it, is the first one sent. */
  lemma {:induction false} ReplayInclusive(h: seq<Output>, since: string, k: nat)
    requires since != "" && k < |h| && h[k].id == since
    requires forall j :: 0 <= j < k ==> Below(h[j].id, since)
    ensures ReplaySlice(h, since) == h[k..]
  {
    BelowIrreflexive(since);
  }

  /** Ids in strictly increasing order (as time-ordered ids are). */
  ghost predicate IdsIncreasing(h: seq<Output>) {
    forall i, j :: 0 <= i < j < |h| ==> Below(h[i].id, h[j].id)
  }

  /** With increasing ids, replay sends exactly the entries whose id is at least `since`. */
  lemma ReplayExactlyNewer(h: seq<Output>, since: string)
    requires since != "" && IdsIncreasing(h)
    ensures var items := ReplaySlice(h, since);
      forall k :: 0 <= k < |h| ==> (k >= |h| - |items| <==> !Below(h[k].id, since))
  {
    var items := ReplaySlice(h, since);
    var first := |h| - |items|;
    forall k | first <= k < |h|
      ensures !Below(h[k].id, since)
    {
      if k > first && Below(h[k].id, since) {
        assert h[first] == items[0];
        BelowTransitive(h[first].id, h[k].id, since);
      }
    }
  }

  /** A resync of a short history resends all of it; a long one, exactly its last `ResyncLimit` entries. */
  lemma ResyncCases(h: seq<Output>)
    ensures |h| <= ResyncLimit ==> ResyncSlice(h) == h
    ensures |h| > ResyncLimit ==> ResyncSlice(h) == h[|h| - ResyncLimit..] && |ResyncSlice(h)| == ResyncLimit
  {
  }

  /** After a command, a resync of that session ends with the command's output. */
  lemma ResyncEndsWithLatest(h: seq<Output>, out: Output)
    ensures var items := ResyncSlice(h + [out]);
      |items| > 0 && items[|items| - 1] == out
  {
  }

  /**
   * A subscriber joining the scope of a command just sent, with that
   * output's id as `since`, is sent exactly that output when every earlier
   * entry's id is smaller.
   */
  lemma {:induction false} CatchUpAfterSend(st: ClusterState, input: Input, outputId: string, now: int, user: string)
    requires input.scope.Some? && input.scope.value.kind != Unspecified && outputId != ""
    requires var (st1, ref) := ScopeSessionSpec(st, input.scope.value);
      ref.Ok? && forall o :: o in SessionAt(st1, ref.value).value.history ==> Below(o.id, outputId)
    ensures var st' := SendCommandSpec(st, input, outputId, now).0;
      var reply := SubscribeSpec(st', Join(user, input.scope, outputId)).1;
      reply == Ok(History(input.scope, [Output(outputId, input.scope, input.userId, CommandText(input.code), now)], true))
  {
    var scope := input.scope.value;
    var (st1, ref) := ScopeSessionSpec(st, scope);
    var st' := SendCommandSpec(st, input, outputId, now).0;
    var out := Output(outputId, input.scope, input.userId, CommandText(input.code), now);
    SendCommandOutcome(st, input, outputId, now);
    var h := SessionAt(st1, ref.value).value.history;
    ResolvesAgain(st1, st', scope, ref.value);
    var h' := SessionAt(st', ref.value).value.history;
    assert h' == h + [out];
    forall j | 0 <= j < |h|
      ensures Below(h'[j].id, outputId)
    {
      assert h'[j] == h[j] && h[j] in h;
    }
    ReplayInclusive(h', outputId, |h|);
    assert h'[|h|..] == [out];
  }

  /** A scope that resolved once resolves again to the same session, with no change, once only session contents differ. */
  lemma ResolvesAgain(st1: ClusterState, st': ClusterState, scope: Scope, ref: SessionRef)
    requires ScopeSessionSpec(st1, scope).1 == Ok(ref) && SessionAt(st1, ref).Some?
    requires SameTopology(st1, st')
    ensures ScopeSessionSpec(st', scope) == (st', Ok(ref))
  {
    match scope.kind
    case NodePool =>
      assert scope.id in st'.pools;
    case Node =>
      assert scope.id in st'.nodesIndex;
    case _ =>
  }
}
