/** The handlers of room, session and publish peer, walking their maps in any order. */
module PublishHandlers {
  import opened Wrappers
  import opened PublishRoom

  lemma {:induction false} DropAllLast(r: Room, order: seq<Key>, k: Key)
    requires RefsOk(r)
    ensures DropAll(r, order + [k]) == Drop(DropAll(r, order), k.user, k.pid)
    decreases |order|
  {
    if order == [] {
      assert order + [k] == [k] && [k][1..] == [];
    } else {
      assert (order + [k])[0] == order[0] && (order + [k])[1..] == order[1..] + [k];
      DropAllLast(Drop(r, order[0].user, order[0].pid), order[1..], k);
    }
  }

  /** All of `pubs` but `todo` have been walked. */
  predicate Walked(pubs: map<Name, nat>, u: Name, todo: set<Name>, order: seq<Key>) {
    && todo <= pubs.Keys
    && (forall i :: 0 <= i < |order| ==> order[i].user == u)
    && (forall pid :: pid in pubs && pid !in todo ==> Key(u, pid) in order)
  }

  /** `now` is `d`, from which all but `todo` of session `s` are gone, except that they are still listed as in `r`. */
  predicate Half(r: Room, d: Room, now: Room, s: nat, todo: set<Name>)
    requires s < |r.heap|
  {
    var pubs := r.heap[s].publishers;
    now == d.(heap := r.heap) && d.heap == r.heap[s := r.heap[s].(publishers := pubs - (pubs.Keys - todo))]
  }

  ghost predicate HalfLeft(r: Room, now: Room, s: nat, todo: set<Name>, order: seq<Key>)
    requires RefsOk(r) && s < |r.heap|
  {
    Half(r, DropAll(r, order), now, s, todo)
  }

  /** Stop and Destroy look at the session's owner and at origins, not at what else it lists. */
  function Shut(r: Room, s: nat, pid: Name): (r': Room)
    requires RefsOk(r) && s < |r.heap| && pid in r.heap[s].publishers
    ensures RefsOk(r')
  {
    Close(Stop(r, s, pid), s, pid).(heap := r.heap)
  }

  lemma SameRecipients(d: Room, now: Room)
    requires RefsOk(d) && RefsOk(now) && d.sessions == now.sessions && |d.heap| == |now.heap|
    requires forall i :: 0 <= i < |d.heap| ==> d.heap[i].origin == now.heap[i].origin
    ensures Recipients(d) == Recipients(now)
  {}

  lemma ShutAlike(d: Room, now: Room, s: nat, pid: Name)
    requires RefsOk(d) && RefsOk(now) && d.sessions == now.sessions && |d.heap| == |now.heap| && s < |d.heap|
    requires d.peers == now.peers && d.log == now.log && d.heap[s].user == now.heap[s].user
    requires forall i :: 0 <= i < |d.heap| ==> d.heap[i].origin == now.heap[i].origin
    requires pid in d.heap[s].publishers && pid in now.heap[s].publishers
             && d.heap[s].publishers[pid] == now.heap[s].publishers[pid]
    ensures Shut(now, s, pid) == Close(Stop(d, s, pid), s, pid).(heap := now.heap)
  {
    SameRecipients(d, now);
  }

  lemma DropIs(d: Room, u: Name, s: nat, pid: Name)
    requires RefsOk(d) && u in d.sessions && d.sessions[u] == s && pid in d.heap[s].publishers
    ensures var d' := Drop(d, u, pid);
            && d' == Close(Stop(d, s, pid), s, pid)
            && d'.heap == d.heap[s := d.heap[s].(publishers := d.heap[s].publishers - {pid})]
  {}

  lemma HalfStep(r: Room, d: Room, now: Room, u: Name, s: nat, todo: set<Name>, pid: Name)
    requires RefsOk(d) && RefsOk(now) && s < |r.heap| && Half(r, d, now, s, todo)
    requires u in d.sessions && d.sessions[u] == s && pid in todo && pid in r.heap[s].publishers
    ensures Half(r, Drop(d, u, pid), Shut(now, s, pid), s, todo - {pid})
  {
    ShutAlike(d, now, s, pid);
    DropIs(d, u, s, pid);
    RestOf(r.heap[s].publishers, todo, pid);
  }

  lemma HalfLeftStep(r: Room, now: Room, u: Name, todo: set<Name>, order: seq<Key>, pid: Name)
    requires RefsOk(r) && RefsOk(now) && u in r.sessions && HalfLeft(r, now, r.sessions[u], todo, order)
    requires pid in todo && pid in r.heap[r.sessions[u]].publishers
    ensures HalfLeft(r, Shut(now, r.sessions[u], pid), r.sessions[u], todo - {pid}, order + [Key(u, pid)])
  {
    DropAllLast(r, order, Key(u, pid));
    HalfStep(r, DropAll(r, order), now, u, r.sessions[u], todo, pid);
  }

  lemma WalkedStep(pubs: map<Name, nat>, u: Name, todo: set<Name>, order: seq<Key>, pid: Name)
    requires Walked(pubs, u, todo, order) && pid in todo
    ensures Walked(pubs, u, todo - {pid}, order + [Key(u, pid)])
  {}

  lemma RestOf(pubs: map<Name, nat>, todo: set<Name>, pid: Name)
    requires pid in todo
    ensures (pubs - (pubs.Keys - todo)) - {pid} == pubs - (pubs.Keys - (todo - {pid}))
  {}

  /** Shows, for the sessions of all users but `todo`. */
  predicate ShowsBut(r: Room, shown: seq<Key>, todo: set<Name>)
    requires RefsOk(r)
  {
    && (forall i :: 0 <= i < |shown| ==> Ready(r, shown[i]) && shown[i].user !in todo)
    && (forall i, j :: 0 <= i < j < |shown| ==> shown[i].user != shown[j].user)
    && (forall u, pid ::
          u in r.sessions && u !in todo && pid in r.heap[r.sessions[u]].publishers && Ready(r, Key(u, pid)) ==>
          exists i :: 0 <= i < |shown| && shown[i].user == u)
  }

  /** What is shown does not depend on the log. */
  lemma ShowsSame(r: Room, r': Room, shown: seq<Key>)
    requires RefsOk(r) && RefsOk(r') && r' == r.(log := r'.log) && Shows(r, shown)
    ensures Shows(r', shown)
  {
    assert forall k :: Ready(r', k) == Ready(r, k);
  }

  lemma ShowsNext(r: Room, shown: seq<Key>, todo: set<Name>, u: Name, pid: Option<Name>)
    requires RefsOk(r) && ShowsBut(r, shown, todo) && u in todo && u in r.sessions
    requires match pid
             case Some(q) => Ready(r, Key(u, q))
             case None => forall q :: q in r.heap[r.sessions[u]].publishers ==> !Ready(r, Key(u, q))
    ensures ShowsBut(r, shown + (if pid.Some? then [Key(u, pid.value)] else []), todo - {u})
  {
    var more := shown + if pid.Some? then [Key(u, pid.value)] else [];
    forall v, q | v in r.sessions && v !in todo - {u} && q in r.heap[r.sessions[v]].publishers && Ready(r, Key(v, q))
      ensures exists i :: 0 <= i < |more| && more[i].user == v
    {
      if v == u {
        assert more[|shown|].user == u;
      } else {
        var i :| 0 <= i < |shown| && shown[i].user == v;
        assert more[i].user == v;
      }
    }
  }

  lemma {:induction false} DropAllJoins(r: Room, a: seq<Key>, b: seq<Key>)
    requires RefsOk(r)
    ensures DropAll(r, a + b) == DropAll(DropAll(r, a), b)
    decreases |a|
  {
    if a == [] {
      assert a + b == b;
    } else {
      assert (a + b)[0] == a[0] && (a + b)[1..] == a[1..] + b;
      DropAllJoins(Drop(r, a[0].user, a[0].pid), a[1..], b);
    }
  }

  /** Sessions of other users are not touched. */
  lemma {:induction false} DropAllOthers(r: Room, u: Name, v: Name, order: seq<Key>)
    requires RefsOk(r) && v in r.sessions && v != u && forall i :: 0 <= i < |order| ==> order[i].user == u
    ensures |DropAll(r, order).heap| == |r.heap| && DropAll(r, order).heap[r.sessions[v]] == r.heap[r.sessions[v]]
    decreases |order|
  {
    if order != [] {
      assert r.heap[r.sessions[v]].user == v;
      DropAllOthers(Drop(r, u, order[0].pid), u, v, order[1..]);
    }
  }

  /** Sessions in `todo` are as they were in `r`; the publishers of the others have been walked. */
  predicate LeftBut(r: Room, heap: seq<Session>, todo: set<Name>, order: seq<Key>)
    requires RefsOk(r)
  {
    && |heap| == |r.heap|
    && (forall u :: u in todo && u in r.sessions ==> heap[r.sessions[u]] == r.heap[r.sessions[u]])
    && (forall u, pid :: u in r.sessions && u !in todo && pid in r.heap[r.sessions[u]].publishers ==>
           Key(u, pid) in order)
  }

  lemma LeftNext(r: Room, now: Room, todo: set<Name>, order: seq<Key>, u: Name, walk: seq<Key>)
    requires RefsOk(r) && RefsOk(now) && now.sessions == r.sessions && u in r.sessions && u in todo
             && LeftBut(r, now.heap, todo, order)
    requires Walks(now, u, walk)
    ensures LeftBut(r, DropAll(now, walk).heap, todo - {u}, order + walk)
  {
    DropAllLength(now, walk);
    forall v | v in todo - {u} && v in r.sessions
      ensures DropAll(now, walk).heap[r.sessions[v]] == r.heap[r.sessions[v]]
    {
      DropAllOthers(now, u, v, walk);
    }
  }

  lemma LeaveNext(r: Room, now: Room, todo: set<Name>, order: seq<Key>, u: Name, walk: seq<Key>)
    requires RefsOk(r) && RefsOk(now) && now == DropAll(r, order) && u in r.sessions && u in todo
             && LeftBut(r, now.heap, todo, order) && Walks(now, u, walk)
    ensures DropAll(now, walk) == DropAll(r, order + walk)
    ensures LeftBut(r, DropAll(now, walk).heap, todo - {u}, order + walk)
  {
    DropAllJoins(r, order, walk);
    LeftNext(r, now, todo, order, u, walk);
  }

  lemma {:induction false} DropAllLength(r: Room, order: seq<Key>)
    requires RefsOk(r)
    ensures |DropAll(r, order).heap| == |r.heap|
    decreases |order|
  {
    if order != [] { DropAllLength(Drop(r, order[0].user, order[0].pid), order[1..]); }
  }

  class RoomServer {
    var sessions: map<Name, nat>
    var heap: seq<Session>
    var peers: seq<Peer>
    var log: seq<Note>

    function Value(): Room
      reads this
    {
      Room(sessions, heap, peers, log)
    }

    constructor ()
      ensures Value() == EMPTY_ROOM
    {
      sessions, heap, peers, log := map[], [], [], [];
    }

    /** The users a room-wide notification goes to. */
    method OriginUsers() returns (to: set<Name>)
      requires RefsOk(Value())
      ensures to == Recipients(Value())
    {
      to := {};
      var todo := sessions.Keys;
      while todo != {}
        invariant todo <= sessions.Keys && to == set u | u in sessions && u !in todo && heap[sessions[u]].origin
        decreases |todo|
      {
        var u :| u in todo;
        todo := todo - {u};
        if heap[sessions[u]].origin { to := to + {u}; }
      }
    }

    method NotifyStopPush(origin: bool, sid: Name, pid: Name)
      requires RefsOk(Value())
      modifies this`log
      ensures log == old(log) + [Unpub(sid, pid, Recipients(old(Value())), origin)]
    {
      var to := OriginUsers();
      log := log + [Unpub(sid, pid, to, origin)];
    }

    method OnPublisherReady(origin: bool, sid: Name, pid: Name)
      requires RefsOk(Value())
      modifies this`log
      ensures log == old(log) + [Pub(sid, pid, Recipients(old(Value())), origin)]
    {
      var to := OriginUsers();
      log := log + [Pub(sid, pid, to, origin)];
    }

    /** Reads the flag and clears it. */
    method ShouldNotify(ref: nat) returns (was: bool)
      requires ref < |peers|
      modifies this`peers
      ensures was == old(peers)[ref].shouldNotify && peers == old(peers)[ref := old(peers)[ref].(shouldNotify := false)]
    {
      was := peers[ref].shouldNotify;
      if was {
        peers := peers[ref := peers[ref].(shouldNotify := false)];
      } else {
        assert peers[ref].(shouldNotify := false) == peers[ref];
      }
    }

    method StopPublisher(s: nat, pid: Name)
      requires RefsOk(Value()) && s < |heap| && pid in heap[s].publishers
      modifies this`peers, this`log
      ensures Value() == Stop(old(Value()), s, pid)
    {
      var notify := ShouldNotify(heap[s].publishers[pid]);
      if notify {
        NotifyStopPush(heap[s].origin, heap[s].user, pid);
      }
    }

    /** Shuts the filter down, closes the exit channel and, if it is there, the peer connection. */
    method Destroy(ref: nat)
      requires ref < |peers|
      modifies this`peers
      ensures peers == old(peers)[ref := Destroyed(old(peers)[ref])]
    {
      peers := peers[ref := peers[ref].(filtering := false)];
      peers := peers[ref := peers[ref].(closes := peers[ref].closes + 1)];
      if peers[ref].open { peers := peers[ref := peers[ref].(open := false)]; }
    }

    method ReleasePublisher(u: Name, pid: Name)
      requires RefsOk(Value())
      modifies this
      ensures Value() == Drop(old(Value()), u, pid)
    {
      if u in sessions && pid in heap[sessions[u]].publishers {
        var s := sessions[u];
        StopPublisher(s, pid);
        Destroy(heap[s].publishers[pid]);
        heap := heap[s := heap[s].(publishers := heap[s].publishers - {pid})];
      }
    }

    /** Push and fake offer: whatever publisher was there goes, and a new one comes if it can be created. */
    method HandlePush(u: Name, pid: Name, created: bool)
      requires RefsOk(Value())
      modifies this
      ensures Value() == Step(old(Value()), Push(u, pid, created)) == Step(old(Value()), FakeOffer(u, pid, created))
    {
      if u !in sessions { return; }
      ReleasePublisher(u, pid);
      if !created { return; }
      var s := sessions[u];
      peers := peers + [Peer(u, pid, s, false, false, true, false, 0)];
      heap := heap[s := heap[s].(publishers := heap[s].publishers[pid := |peers| - 1])];
    }

    /** The ICE callback of one peer, with what session and room do about it. */
    method OnIceStateChange(p: nat, state: IceState)
      requires RefsOk(Value()) && p < |peers|
      modifies this
      ensures Value() == Step(old(Value()), Ice(p, state))
    {
      if !peers[p].open || state == Other { return; }
      var peer, s := peers[p], peers[p].session;
      if state == Connected {
        peers := peers[p := peer.(ready := true, shouldNotify := true, filtering := true)];
        if s < |heap| && peer.pid in heap[s].publishers {
          OnPublisherReady(heap[s].origin, peer.user, peer.pid);
        }
      } else {
        peers := peers[p := peer.(ready := false, filtering := false)];
        if s < |heap| && peer.pid in heap[s].publishers {
          if state == Disconnected { StopPublisher(s, peer.pid); } else { ReleasePublisher(peer.user, peer.pid); }
        }
      }
    }

    method ShutPublisher(s: nat, pid: Name)
      requires RefsOk(Value()) && s < |heap| && pid in heap[s].publishers
      modifies this`peers, this`log
      ensures RefsOk(Value()) && Value() == Shut(old(Value()), s, pid)
    {
      StopPublisher(s, pid);
      Destroy(heap[s].publishers[pid]);
    }

    /** The loop of DoLeave: stops and destroys every publisher. */
    method ShutAll(u: Name) returns (ghost order: seq<Key>)
      requires RefsOk(Value()) && u in sessions
      modifies this`peers, this`log
      ensures RefsOk(Value()) && HalfLeft(old(Value()), Value(), sessions[u], {}, order)
      ensures Walked(heap[sessions[u]].publishers, u, {}, order)
    {
      var s := sessions[u];
      ghost var r := Value();
      var todo := heap[s].publishers.Keys;
      order := [];
      assert heap[s].publishers - (heap[s].publishers.Keys - todo) == heap[s].publishers;
      while todo != {}
        invariant RefsOk(Value()) && HalfLeft(r, Value(), s, todo, order) && Walked(heap[s].publishers, u, todo, order)
        decreases |todo|
      {
        var pid :| pid in todo;
        HalfLeftStep(r, Value(), u, todo, order, pid);
        WalkedStep(heap[s].publishers, u, todo, order, pid);
        ShutPublisher(s, pid);
        todo, order := todo - {pid}, order + [Key(u, pid)];
      }
    }

    /** Then the session forgets them all at once. */
    method DoLeave(u: Name) returns (ghost order: seq<Key>)
      requires RefsOk(Value()) && u in sessions
      modifies this
      ensures Walks(old(Value()), u, order) && Value() == DropAll(old(Value()), order)
    {
      var s := sessions[u];
      ghost var pubs := heap[s].publishers;
      order := ShutAll(u);
      heap := heap[s := heap[s].(publishers := map[])];
      assert pubs - (pubs.Keys - {}) == map[];
    }

    method RemoveSession(u: Name) returns (ghost order: seq<Key>)
      requires RefsOk(Value())
      modifies this
      ensures Walks(old(Value()), u, order) && Value() == Leave(old(Value()), u, order)
    {
      order := [];
      if u in sessions {
        order := DoLeave(u);
        sessions := sessions - {u};
      } else {
        assert sessions - {u} == sessions;
      }
    }

    method AddSession(u: Name, origin: bool, podid: Name)
      requires RefsOk(Value())
      modifies this
      ensures Value() == Enter(old(Value()), u, origin, podid)
    {
      heap := heap + [Session(u, origin, podid, map[])];
      sessions := sessions[u := |heap| - 1];
    }

    /** Some ready publisher of the session, if it has one. */
    method HasPublisher(s: nat) returns (pid: Option<Name>)
      requires RefsOk(Value()) && s < |heap|
      ensures pid.Some? ==> pid.value in heap[s].publishers && peers[heap[s].publishers[pid.value]].ready
      ensures pid.None? ==> forall q :: q in heap[s].publishers ==> !peers[heap[s].publishers[q]].ready
    {
      var todo := heap[s].publishers.Keys;
      while todo != {}
        invariant todo <= heap[s].publishers.Keys
        invariant forall q :: q in heap[s].publishers && q !in todo ==> !peers[heap[s].publishers[q]].ready
        decreases |todo|
      {
        var q :| q in todo;
        if peers[heap[s].publishers[q]].ready { return Some(q); }
        todo := todo - {q};
      }
      return None;
    }

    /** Tells the newcomer of one ready publisher of `u`, if there is one. */
    method ReplayNext(newcomer: Name, u: Name, shown: seq<Key>, ghost r: Room, ghost todo: set<Name>)
      returns (more: seq<Key>)
      requires RefsOk(r) && Value() == r.(log := log) && u in sessions && u in todo
      requires ShowsBut(r, shown, todo) && log == r.log + Replays(shown, newcomer)
      modifies this`log
      ensures ShowsBut(r, more, todo - {u}) && log == r.log + Replays(more, newcomer)
    {
      var pid := HasPublisher(sessions[u]);
      ShowsNext(r, shown, todo, u, pid);
      if pid.Some? {
        ReplaysLast(shown, Key(u, pid.value), newcomer);
        more := shown + [Key(u, pid.value)];
        log := log + [Replay(u, pid.value, newcomer)];
      } else {
        assert shown + [] == shown;
        more := shown;
      }
    }

    /** A newcomer is told of one ready publisher in each session. */
    method ReplayPublishers(newcomer: Name) returns (shown: seq<Key>)
      requires RefsOk(Value())
      modifies this`log
      ensures Shows(old(Value()), shown) && log == old(log) + Replays(shown, newcomer)
    {
      shown := [];
      ghost var r := Value();
      var todo := sessions.Keys;
      assert log + [] == log;
      while todo != {}
        invariant todo <= sessions.Keys && Value() == r.(log := log)
        invariant log == r.log + Replays(shown, newcomer) && ShowsBut(r, shown, todo)
        decreases |todo|
      {
        var u :| u in todo;
        shown := ReplayNext(newcomer, u, shown, r, todo);
        todo := todo - {u};
      }
    }

    method HandleLogin(u: Name) returns (ghost e: Event)
      requires RefsOk(Value())
      modifies this
      ensures e.Login? && e.user == u && Possible(old(Value()), e) && Value() == Step(old(Value()), e)
    {
      ghost var order := RemoveSession(u);
      AddSession(u, true, "");
      ghost var r := Value();
      log := log + [Welcome(u)];
      var shown := ReplayPublishers(u);
      ShowsSame(r.(log := r.log + [Welcome(u)]), r, shown);
      e := Login(u, order, shown);
    }

    method HasOriginSession() returns (found: bool)
      requires RefsOk(Value())
      ensures found == HasOrigin(Value())
    {
      var todo := sessions.Keys;
      while todo != {}
        invariant todo <= sessions.Keys && forall u :: u in sessions && u !in todo ==> !heap[sessions[u]].origin
        decreases |todo|
      {
        var u :| u in todo;
        if heap[sessions[u]].origin { return true; }
        todo := todo - {u};
      }
      return false;
    }

    method HandleFakePublish(u: Name, podid: Name) returns (ghost e: Event)
      requires RefsOk(Value())
      modifies this
      ensures e.FakePublish? && e.user == u && e.podid == podid && Possible(old(Value()), e)
              && Value() == Step(old(Value()), e)
    {
      ghost var order := RemoveSession(u);
      e := FakePublish(u, podid, order);
      var origin := HasOriginSession();
      if !origin { return; }
      AddSession(u, false, podid);
    }

    method HandleFakeUnpublish(u: Name, podid: Name) returns (ghost e: Event)
      requires RefsOk(Value())
      modifies this
      ensures e.FakeUnpublish? && e.user == u && e.podid == podid && Possible(old(Value()), e)
              && Value() == Step(old(Value()), e)
    {
      e := FakeUnpublish(u, podid, []);
      if u in sessions && heap[sessions[u]].podid == podid {
        ghost var order := RemoveSession(u);
        e := FakeUnpublish(u, podid, order);
      }
    }

    /** Every session leaves, and only then are they removed. */
    method LeaveAll() returns (ghost e: Event)
      requires RefsOk(Value())
      modifies this
      ensures e.DestroyRoom? && Possible(old(Value()), e) && Value() == Step(old(Value()), e)
    {
      ghost var r, order: seq<Key> := Value(), [];
      var todo := sessions.Keys;
      while todo != {}
        invariant RefsOk(Value()) && Value() == DropAll(r, order) && todo <= r.sessions.Keys
        invariant LeftBut(r, heap, todo, order)
        decreases |todo|
      {
        var u :| u in todo;
        ghost var now := Value();
        ghost var walk := DoLeave(u);
        LeaveNext(r, now, todo, order, u, walk);
        order := order + walk;
        todo := todo - {u};
      }
      sessions := map[];
      e := DestroyRoom(order);
    }
  }
}
