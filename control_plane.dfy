/**
 * The control plane's registry (crates/cl0_node/src/control_plane.rs):
 * nodes by id, and pools as lists of node ids. The fresh node id and the
 * clock reading are parameters: the source draws them from a random UUID
 * and the system clock.
 */
module ControlPlane {
  import opened Wrappers

  /** What the registry records about a node. */
  datatype RegisteredNode = RegisteredNode(hostname: string, lastHeartbeat: int, version: string)

  /** A registration request: a node's hostname and version, and the pool it asks for, if any. */
  datatype NodeRegistration = NodeRegistration(hostname: string, version: string, pool: Option<string>)

  /** The error a request can get back. */
  datatype Status = NotFound(message: string)

  /** The registry as a value. */
  datatype CpState = CpState(nodes: map<string, RegisteredNode>, pools: map<string, seq<string>>)

  /** Every id listed in a pool belongs to a registered node. */
  ghost predicate PoolsRegistered(st: CpState) {
    forall name, k :: name in st.pools && 0 <= k < |st.pools[name]| ==> st.pools[name][k] in st.nodes
  }

  /** The pool a registration joins: the one it names, or "pool-" followed by the node's id. */
  function PoolName(reg: NodeRegistration, id: string): (name: string)
    ensures reg.pool.Some? ==> name == reg.pool.value
    ensures reg.pool.None? ==> |name| == |id| + 5 && name[..5] == "pool-" && name[5..] == id
  {
    if reg.pool.Some? then reg.pool.value else "pool-" + id
  }

  /** `register_node`: record the node under `id`, then append `id` to its pool, creating the pool if absent. */
  function RegisterSpec(st: CpState, reg: NodeRegistration, id: string, now: int): CpState {
    var name := PoolName(reg, id);
    var members := if name in st.pools then st.pools[name] else [];
    CpState(st.nodes[id := RegisteredNode(reg.hostname, now, reg.version)], st.pools[name := members + [id]])
  }

  /** `heartbeat`: a known id gets its heartbeat time updated and an acknowledgement; otherwise not found. */
  function HeartbeatSpec(st: CpState, id: Option<string>, now: int): (CpState, Result<(), Status>) {
    if id.Some? && id.value in st.nodes then
      (st.(nodes := st.nodes[id.value := st.nodes[id.value].(lastHeartbeat := now)]), Ok(()))
    else
      (st, Err(NotFound("Node not found")))
  }

  /** Registration adds exactly the new node, with the given hostname, version and time, and keeps every other node. */
  lemma RegisterAddsOne(st: CpState, reg: NodeRegistration, id: string, now: int)
    requires id !in st.nodes
    ensures var st' := RegisterSpec(st, reg, id, now);
      && st'.nodes.Keys == st.nodes.Keys + {id}
      && |st'.nodes| == |st.nodes| + 1
      && st'.nodes[id] == RegisteredNode(reg.hostname, now, reg.version)
      && forall k :: k in st.nodes ==> st'.nodes[k] == st.nodes[k]
  {
    var st' := RegisterSpec(st, reg, id, now);
    assert st'.nodes.Keys - {id} == st.nodes.Keys;
  }

  /** Registration appends the id to its pool (new or existing) and leaves the other pools alone. */
  lemma RegisterJoinsPool(st: CpState, reg: NodeRegistration, id: string, now: int)
    ensures var st' := RegisterSpec(st, reg, id, now);
      var name := PoolName(reg, id);
      && st'.pools.Keys == st.pools.Keys + {name}
      && (name in st.pools ==> st'.pools[name] == st.pools[name] + [id])
      && (name !in st.pools ==> st'.pools[name] == [id])
      && forall other :: other in st.pools && other != name ==> st'.pools[other] == st.pools[other]
  {
  }

  /** A fresh id registered into a consistent registry is listed exactly once, in its own pool only. */
  lemma {:induction false} FreshIdListedOnce(st: CpState, reg: NodeRegistration, id: string, now: int)
    requires PoolsRegistered(st) && id !in st.nodes
    ensures var st' := RegisterSpec(st, reg, id, now);
      && PoolsRegistered(st')
      && (forall name :: name in st'.pools ==> (id in st'.pools[name] <==> name == PoolName(reg, id)))
      && multiset(st'.pools[PoolName(reg, id)])[id] == 1
  {
    var st' := RegisterSpec(st, reg, id, now);
    var name := PoolName(reg, id);
    var members := if name in st.pools then st.pools[name] else [];
    assert id !in members by {
      if name in st.pools {
        forall k | 0 <= k < |members|
          ensures members[k] != id
        {
          assert st.pools[name][k] in st.nodes;
        }
      }
    }
    assert multiset(members)[id] == 0;
    assert multiset(members + [id]) == multiset(members) + multiset{id};
    forall other | other in st'.pools && other != name
      ensures id !in st'.pools[other]
    {
    }
  }

  /** Registration keeps every pooled id registered. */
  lemma RegisterKeeps(st: CpState, reg: NodeRegistration, id: string, now: int)
    requires PoolsRegistered(st)
    ensures PoolsRegistered(RegisterSpec(st, reg, id, now))
  {
    var st' := RegisterSpec(st, reg, id, now);
    var name := PoolName(reg, id);
    forall n, k | n in st'.pools && 0 <= k < |st'.pools[n]|
      ensures st'.pools[n][k] in st'.nodes
    {
      if n == name && name in st.pools && k < |st.pools[name]| {
        assert st'.pools[n][k] == st.pools[name][k];
      } else if n != name {
        assert st'.pools[n][k] == st.pools[n][k];
      }
    }
  }

  /** A heartbeat from a registered node changes that node's heartbeat time and nothing else, and is acknowledged. */
  lemma HeartbeatKnown(st: CpState, id: string, now: int)
    requires id in st.nodes
    ensures var (st', r) := HeartbeatSpec(st, Some(id), now);
      && r.Ok?
      && st'.pools == st.pools
      && st'.nodes.Keys == st.nodes.Keys
      && st'.nodes[id] == RegisteredNode(st.nodes[id].hostname, now, st.nodes[id].version)
      && forall k :: k in st.nodes && k != id ==> st'.nodes[k] == st.nodes[k]
  {
  }

  /** A heartbeat with no id or an unknown one is answered "not found" and changes nothing. */
  lemma HeartbeatUnknown(st: CpState, id: Option<string>, now: int)
    requires id.None? || id.value !in st.nodes
    ensures HeartbeatSpec(st, id, now) == (st, Err(NotFound("Node not found")))
  {
  }

  /** Heartbeats keep every pooled id registered. */
  lemma HeartbeatKeeps(st: CpState, id: Option<string>, now: int)
    requires PoolsRegistered(st)
    ensures PoolsRegistered(HeartbeatSpec(st, id, now).0)
  {
  }

  /** Two nodes registered under distinct ids give two nodes with their own versions, and heartbeats keep both. */
  lemma TwoRegistrations(reg1: NodeRegistration, reg2: NodeRegistration, id1: string, id2: string, t1: int, t2: int, t3: int)
    requires id1 != id2 && t1 > 0 && t2 > 0 && t3 > 0
    ensures var st := HeartbeatSpec(RegisterSpec(RegisterSpec(CpState(map[], map[]), reg1, id1, t1), reg2, id2, t2), Some(id1), t3).0;
      && |st.nodes| == 2
      && st.nodes[id1].version == reg1.version && st.nodes[id2].version == reg2.version
      && st.nodes[id1].lastHeartbeat > 0 && st.nodes[id2].lastHeartbeat > 0
  {
    var st0 := CpState(map[], map[]);
    var st1 := RegisterSpec(st0, reg1, id1, t1);
    RegisterAddsOne(st0, reg1, id1, t1);
    var st2 := RegisterSpec(st1, reg2, id2, t2);
    RegisterAddsOne(st1, reg2, id2, t2);
    HeartbeatKnown(st2, id1, t3);
  }

  /** The shared registry state, updated in place by the two requests. */
  class Registry {
    var nodes: map<string, RegisteredNode>
    var pools: map<string, seq<string>>

    /** The registry's maps as one value. */
    function State(): CpState
      reads this
    {
      CpState(nodes, pools)
    }

    /** An empty registry. */
    constructor ()
      ensures State() == CpState(map[], map[])
    {
      nodes := map[];
      pools := map[];
    }

    /** `register_node`, answering with the new node's id. */
    method RegisterNode(reg: NodeRegistration, id: string, now: int) returns (ack: string)
      modifies this
      ensures State() == RegisterSpec(old(State()), reg, id, now)
      ensures ack == id
    {
      nodes := nodes[id := RegisteredNode(reg.hostname, now, reg.version)];
      var name := PoolName(reg, id);
      if name in pools {
        pools := pools[name := pools[name] + [id]];
      } else {
        assert [] + [id] == [id];
        pools := pools[name := [id]];
      }
      ack := id;
    }

    /** `heartbeat`. */
    method Heartbeat(id: Option<string>, now: int) returns (r: Result<(), Status>)
      modifies this
      ensures (State(), r) == HeartbeatSpec(old(State()), id, now)
    {
      if id.Some? && id.value in nodes {
        nodes := nodes[id.value := nodes[id.value].(lastHeartbeat := now)];
        return Ok(());
      }
      r := Err(NotFound("Node not found"));
    }
  }
}
