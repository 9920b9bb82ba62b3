/**
 * The global presence hub (crates/cl0_node/src/server.rs): one entry per
 * user, and a broadcast of Joined, Moved and Left updates, kept here as an
 * event log.
 */
module Presence {
  import opened Wrappers
  import opened Server

  /** A user's presence; `details` stands for the message's other fields, which the hub never inspects. */
  datatype Presence = Presence(userId: string, scope: Option<Scope>, details: string)

  datatype UpdateKind = Joined | Moved | Left

  datatype PresenceUpdate = PresenceUpdate(kind: UpdateKind, user: Presence)

  /** The hub as a value: users by id, and the updates broadcast so far. */
  datatype HubState = HubState(users: map<string, Presence>, events: seq<PresenceUpdate>)

  /** Every entry is stored under its own user id. */
  ghost predicate Keyed(h: HubState) {
    forall k :: k in h.users ==> h.users[k].userId == k
  }

  /** `join`: the presence replaces the user's entry; Joined for a new user, Moved for a new scope, nothing otherwise. */
  function JoinSpec(h: HubState, p: Presence): HubState {
    var update :=
      if p.userId !in h.users then [PresenceUpdate(Joined, p)]
      else if h.users[p.userId].scope != p.scope then [PresenceUpdate(Moved, p)]
      else [];
    HubState(h.users[p.userId := p], h.events + update)
  }

  /** `leave`: a present user is removed and Left is broadcast with the presence given; an absent one changes nothing. */
  function LeaveSpec(h: HubState, p: Presence): HubState {
    if p.userId in h.users then HubState(h.users - {p.userId}, h.events + [PresenceUpdate(Left, p)])
    else h
  }

  /** The argument check of the join and leave requests: a user id and a scope are required. */
  function CheckPresence(p: Presence): (r: Result<(), Status>)
    ensures r.Ok? <==> p.userId != "" && p.scope.Some?
  {
    if p.userId == "" || p.scope.None? then Err(InvalidArgument("Presence requires user_id and scope"))
    else Ok(())
  }

  /** The join request: checked, then `join`. */
  function ServeJoinSpec(h: HubState, p: Presence): (HubState, Result<(), Status>) {
    var r := CheckPresence(p);
    if r.Err? then (h, r) else (JoinSpec(h, p), r)
  }

  /** The leave request: checked, then `leave`. */
  function ServeLeaveSpec(h: HubState, p: Presence): (HubState, Result<(), Status>) {
    var r := CheckPresence(p);
    if r.Err? then (h, r) else (LeaveSpec(h, p), r)
  }

  /** `snapshot`: every stored presence (in map order, which is unspecified). */
  function SnapshotOf(users: map<string, Presence>): set<Presence> {
    users.Values
  }

  /** `users_in_scope`: the stored presences whose scope is `target`. */
  function UsersInScope(users: map<string, Presence>, target: Scope): (r: set<Presence>)
    ensures forall u :: u in r <==> u in SnapshotOf(users) && u.scope == Some(target)
  {
    set u | u in users.Values && u.scope == Some(target)
  }

  /** After a join the user's entry is the presence given, other users are untouched, and exactly the right update is sent. */
  lemma JoinOutcome(h: HubState, p: Presence)
    ensures var h' := JoinSpec(h, p);
      && h'.users.Keys == h.users.Keys + {p.userId}
      && h'.users[p.userId] == p
      && (forall k :: k in h.users && k != p.userId ==> h'.users[k] == h.users[k])
      && (p.userId !in h.users ==> h'.events == h.events + [PresenceUpdate(Joined, p)])
      && (p.userId in h.users && h.users[p.userId].scope != p.scope ==> h'.events == h.events + [PresenceUpdate(Moved, p)])
      && (p.userId in h.users && h.users[p.userId].scope == p.scope ==> h'.events == h.events)
  {
  }

  /** Joining twice is joining once: the second join finds the same scope and sends nothing. */
  lemma JoinIdempotent(h: HubState, p: Presence)
    ensures JoinSpec(JoinSpec(h, p), p) == JoinSpec(h, p)
  {
    var h1 := JoinSpec(h, p);
    assert h1.users[p.userId := p] == h1.users;
    assert h1.events + [] == h1.events;
  }

  /** A leave removes the user if present and sends Left; otherwise nothing changes. */
  lemma LeaveOutcome(h: HubState, p: Presence)
    ensures var h' := LeaveSpec(h, p);
      && h'.users == h.users - {p.userId}
      && (p.userId in h.users ==> h'.events == h.events + [PresenceUpdate(Left, p)])
      && (p.userId !in h.users ==> h' == h)
  {
    if p.userId !in h.users {
      assert h.users - {p.userId} == h.users;
    }
  }

  /** A join then a leave of the same user leaves the other users as they were, and ends with a Left update. */
  lemma JoinThenLeave(h: HubState, p: Presence)
    ensures var h' := LeaveSpec(JoinSpec(h, p), p);
      && h'.users == h.users - {p.userId}
      && |h'.events| > 0 && h'.events[|h'.events| - 1] == PresenceUpdate(Left, p)
  {
    assert JoinSpec(h, p).users - {p.userId} == h.users - {p.userId};
  }

  /** Join and leave keep every entry under its own user id, so a user has at most one entry. */
  lemma UpdatesKeepKeyed(h: HubState, p: Presence)
    requires Keyed(h)
    ensures Keyed(JoinSpec(h, p)) && Keyed(LeaveSpec(h, p))
  {
  }

  /** In a keyed hub the snapshot holds a presence exactly when it is that user's entry, one per user. */
  lemma {:induction false} SnapshotOnePerUser(h: HubState)
    requires Keyed(h)
    ensures forall u :: u in SnapshotOf(h.users) <==> u.userId in h.users && h.users[u.userId] == u
    ensures |SnapshotOf(h.users)| == |h.users|
  {
    ValuesCount(h.users);
  }

  /** The number of values of a keyed map is its number of keys. */
  lemma {:induction false} ValuesCount(users: map<string, Presence>)
    requires forall k :: k in users ==> users[k].userId == k
    ensures |users.Values| == |users|
    decreases |users|
  {
    if users != map[] {
      var k :| k in users;
      var rest := users - {k};
      ValuesCount(rest);
      forall v | v in users.Values
        ensures v in rest.Values + {users[k]}
      {
        var j :| j in users && users[j] == v;
        if j != k {
          assert rest[j] == v;
        }
      }
      forall v | v in rest.Values
        ensures v in users.Values
      {
        var j :| j in rest && rest[j] == v;
        assert users[j] == v;
      }
      assert users.Values == rest.Values + {users[k]};
      assert users[k] !in rest.Values;
      assert users.Keys == rest.Keys + {k};
    }
  }

  /** A request without a user id or a scope is refused and changes nothing. */
  lemma RequestsRejected(h: HubState, p: Presence)
    requires p.userId == "" || p.scope.None?
    ensures ServeJoinSpec(h, p) == (h, Err(InvalidArgument("Presence requires user_id and scope")))
    ensures ServeLeaveSpec(h, p) == (h, Err(InvalidArgument("Presence requires user_id and scope")))
  {
  }

  /** A joined user is listed in the scope it joined, and only there. */
  lemma JoinedListedInScope(h: HubState, p: Presence, target: Scope)
    requires Keyed(h)
    ensures p in UsersInScope(JoinSpec(h, p).users, target) <==> p.scope == Some(target)
    ensures forall u :: u in UsersInScope(JoinSpec(h, p).users, target) && u.userId == p.userId ==> u == p
  {
    var h' := JoinSpec(h, p);
    UpdatesKeepKeyed(h, p);
    SnapshotOnePerUser(h');
  }

  /** The hub, whose user map and broadcast log the requests update in place. */
  class Hub {
    var users: map<string, Presence>
    var events: seq<PresenceUpdate>

    /** The hub's fields as one value. */
    function State(): HubState
      reads this
    {
      HubState(users, events)
    }

    /** A hub with no users. */
    constructor ()
      ensures State() == HubState(map[], [])
    {
      users := map[];
      events := [];
    }

    method Join(p: Presence)
      modifies this
      ensures State() == JoinSpec(old(State()), p)
    {
      var previous := if p.userId in users then Some(users[p.userId]) else None;
      users := users[p.userId := p];
      if previous.None? {
        events := events + [PresenceUpdate(Joined, p)];
      } else if previous.value.scope != p.scope {
        events := events + [PresenceUpdate(Moved, p)];
      } else {
        assert events + [] == events;
      }
    }

    method Leave(p: Presence)
      modifies this
      ensures State() == LeaveSpec(old(State()), p)
    {
      if p.userId in users {
        users := users - {p.userId};
        events := events + [PresenceUpdate(Left, p)];
      }
    }

    method ServeJoin(p: Presence) returns (r: Result<(), Status>)
      modifies this
      ensures (State(), r) == ServeJoinSpec(old(State()), p)
    {
      r := CheckPresence(p);
      if r.Ok? {
        Join(p);
      }
    }

    method ServeLeave(p: Presence) returns (r: Result<(), Status>)
      modifies this
      ensures (State(), r) == ServeLeaveSpec(old(State()), p)
    {
      r := CheckPresence(p);
      if r.Ok? {
        Leave(p);
      }
    }

    /** `snapshot`: the stored presences, collected one user at a time. */
    method Snapshot() returns (s: set<Presence>)
      ensures s == SnapshotOf(users)
    {
      s := {};
      var left := users.Keys;
      while left != {}
        invariant left <= users.Keys
        invariant forall u :: u in s <==> exists k :: k in users.Keys - left && users[k] == u
        decreases |left|
      {
        var k :| k in left;
        s := s + {users[k]};
        left := left - {k};
      }
    }
  }
}
