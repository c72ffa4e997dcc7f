/** Pub and unpub notifications over every run of a room. */
module PublishProofs {
  import opened Wrappers
  import opened PublishRoom

  // ---- What the log says ----

  predicate About(n: Note, u: Name, pid: Name) { (n.Pub? || n.Unpub?) && n.user == u && n.pid == pid }

  /** The last room-wide notification about this publisher was a pub. */
  predicate LastIsPub(log: seq<Note>, u: Name, pid: Name) {
    if log == [] then false
    else
      var n := log[|log| - 1];
      if About(n, u, pid) then n.Pub? else LastIsPub(log[..|log| - 1], u, pid)
  }

  /** Every unpub answers a pub, and a newcomer is told only about publishers last announced by a pub. */
  predicate Alternates(log: seq<Note>) {
    if log == [] then true
    else
      var n := log[|log| - 1];
      Alternates(log[..|log| - 1]) && (n.Unpub? || n.Replay? ==> LastIsPub(log[..|log| - 1], n.user, n.pid))
  }

  lemma Appended(log: seq<Note>, n: Note)
    ensures Alternates(log + [n]) <==> Alternates(log) && (n.Unpub? || n.Replay? ==> LastIsPub(log, n.user, n.pid))
    ensures forall u, pid :: LastIsPub(log + [n], u, pid) == if About(n, u, pid) then n.Pub? else LastIsPub(log, u, pid)
  {
    assert (log + [n])[..|log|] == log;
  }

  // ---- What the room knows ----

  predicate Announced(r: Room, u: Name, pid: Name)
    requires RefsOk(r)
  {
    Slot(r, u, pid).Some? && r.peers[Slot(r, u, pid).value].shouldNotify
  }

  /** Peers with a connection are exactly the publishers in the room, each where it says it is. */
  ghost predicate Wired(r: Room)
    requires RefsOk(r)
  {
    && (forall u, pid :: Slot(r, u, pid).Some? ==>
          var p := r.peers[Slot(r, u, pid).value]; p.user == u && p.pid == pid && p.session == r.sessions[u] && p.open)
    && (forall i :: 0 <= i < |r.peers| && r.peers[i].open ==>
          Slot(r, r.peers[i].user, r.peers[i].pid) == Some(i))
  }

  predicate ReadyIsFlagged(p: Peer) { p.open ==> p.ready == p.shouldNotify }

  /** The filter is between Startup and Shutdown while the peer is open and ready, and the exit channel has been
      closed if it is not open. */
  predicate Sane(p: Peer) { p.filtering == (p.open && p.ready) && p.closes == if p.open then 0 else 1 }

  /** A publisher's flag is set exactly when the last notification about it was a pub. */
  ghost predicate Agrees(r: Room)
    requires RefsOk(r)
  {
    forall u, pid :: LastIsPub(r.log, u, pid) == Announced(r, u, pid)
  }

  ghost predicate Consistent(r: Room) {
    RefsOk(r) && Wired(r) && Agrees(r) && Alternates(r.log) && forall i :: 0 <= i < |r.peers| ==> Sane(r.peers[i])
  }

  ghost predicate Inv(r: Room) {
    Consistent(r) && forall i :: 0 <= i < |r.peers| ==> ReadyIsFlagged(r.peers[i])
  }

  /** Inv, but for the flag of the publisher that is about to be stopped or dropped. */
  ghost predicate InvBut(r: Room, u: Name, pid: Name) {
    Consistent(r) && forall i :: 0 <= i < |r.peers| && Slot(r, u, pid) != Some(i) ==> ReadyIsFlagged(r.peers[i])
  }

  // ---- One publisher ----

  lemma StopKeeps(r: Room, u: Name, pid: Name)
    requires Consistent(r) && Slot(r, u, pid).Some?
    ensures var r' := Stop(r, r.sessions[u], pid);
            && Consistent(r') && !Announced(r', u, pid) && r'.heap == r.heap && r'.sessions == r.sessions
            && Slot(r', u, pid) == Slot(r, u, pid)
  {
    var r' := Stop(r, r.sessions[u], pid);
    Appended(r.log, Unpub(u, pid, Recipients(r), r.heap[r.sessions[u]].origin));
    SameSlots(r, r');
    forall v, q ensures Announced(r', v, q) == (Announced(r, v, q) && !(v == u && q == pid)) {
      if Slot(r, v, q) == Slot(r, u, pid) { assert r.peers[Slot(r, v, q).value].user == v; }
    }
  }

  lemma SameSlots(r: Room, r': Room)
    requires RefsOk(r) && RefsOk(r') && r'.heap == r.heap && r'.sessions == r.sessions
    ensures forall v, q :: Slot(r', v, q) == Slot(r, v, q)
  {}

  lemma CloseKeeps(r: Room, u: Name, pid: Name)
    requires Consistent(r) && Slot(r, u, pid).Some? && !Announced(r, u, pid)
    ensures var r' := Close(r, r.sessions[u], pid);
            && Consistent(r') && r'.sessions == r.sessions
            && forall v, q :: Slot(r', v, q) == if v == u && q == pid then None else Slot(r, v, q)
  {
    var r' := Close(r, r.sessions[u], pid);
    forall v, q ensures Slot(r', v, q) == if v == u && q == pid then None else Slot(r, v, q) {
      if v in r.sessions && v != u { assert r.heap[r.sessions[v]].user == v; }
    }
  }

  /** After a drop the publisher is gone, the others are where they were. */
  lemma DropKeeps(r: Room, u: Name, pid: Name)
    requires InvBut(r, u, pid)
    ensures var r' := Drop(r, u, pid);
            && Inv(r') && r'.sessions == r.sessions
            && forall v, q :: Slot(r', v, q) == if v == u && q == pid then None else Slot(r, v, q)
  {
    if Slot(r, u, pid).Some? {
      StopKeeps(r, u, pid);
      SameSlots(r, Stop(r, r.sessions[u], pid));
      CloseKeeps(Stop(r, r.sessions[u], pid), u, pid);
    }
  }

  lemma CreateKeeps(r: Room, u: Name, pid: Name)
    requires Inv(r) && u in r.sessions && Slot(r, u, pid).None?
    ensures Inv(Create(r, u, pid))
    ensures forall v, q ::
              Slot(Create(r, u, pid), v, q) == if v == u && q == pid then Some(|r.peers|) else Slot(r, v, q)
  {
    var r' := Create(r, u, pid);
    forall v, q ensures Slot(r', v, q) == if v == u && q == pid then Some(|r.peers|) else Slot(r, v, q) {
      if v in r.sessions && v != u { assert r.heap[r.sessions[v]].user == v; }
    }
  }

  lemma RepublishKeeps(r: Room, u: Name, pid: Name, created: bool)
    requires Inv(r)
    ensures Inv(Republish(r, u, pid, created))
  {
    if u in r.sessions {
      DropKeeps(r, u, pid);
      if created { CreateKeeps(Drop(r, u, pid), u, pid); }
    }
  }

  // ---- ICE ----

  lemma ConnectedKeeps(r: Room, p: nat)
    requires Inv(r) && p < |r.peers| && r.peers[p].open
    ensures Inv(OnIce(r, p, Connected))
  {
    var peer, r' := r.peers[p], OnIce(r, p, Connected);
    assert Slot(r, peer.user, peer.pid) == Some(p);
    Appended(r.log, Pub(peer.user, peer.pid, Recipients(r), r.heap[peer.session].origin));
    SameSlots(r, r');
  }

  lemma NotReadyKeeps(r: Room, p: nat)
    requires Inv(r) && p < |r.peers| && r.peers[p].open
    ensures var r' := NotReady(r, p);
            && InvBut(r', r.peers[p].user, r.peers[p].pid) && Slot(r', r.peers[p].user, r.peers[p].pid) == Some(p)
            && !r'.peers[p].ready
  {
    SameSlots(r, NotReady(r, p));
  }

  /** A publisher that is no longer ready stops being announced. */
  lemma DisconnectedKeeps(r: Room, u: Name, pid: Name)
    requires InvBut(r, u, pid) && Slot(r, u, pid).Some? && !r.peers[Slot(r, u, pid).value].ready
    ensures Inv(Stop(r, r.sessions[u], pid))
  {
    StopKeeps(r, u, pid);
  }

  lemma IceKeeps(r: Room, p: nat, state: IceState)
    requires Inv(r) && p < |r.peers|
    ensures Inv(OnIce(r, p, state))
  {
    var peer := r.peers[p];
    if peer.open && state == Connected {
      ConnectedKeeps(r, p);
    } else if peer.open && state != Other {
      NotReadyKeeps(r, p);
      var r1 := NotReady(r, p);
      assert Slot(r, peer.user, peer.pid) == Some(p);
      if state == Disconnected {
        DisconnectedKeeps(r1, peer.user, peer.pid);
      } else {
        DropKeeps(r1, peer.user, peer.pid);
      }
    }
  }

  // ---- Sessions ----

  lemma {:induction false} DropAllKeeps(r: Room, order: seq<Key>)
    requires Inv(r)
    ensures var r' := DropAll(r, order);
            && Inv(r') && r'.sessions == r.sessions
            && forall v, q :: Slot(r', v, q) == if Key(v, q) in order then None else Slot(r, v, q)
    decreases |order|
  {
    if order != [] {
      DropKeeps(r, order[0].user, order[0].pid);
      DropAllKeeps(Drop(r, order[0].user, order[0].pid), order[1..]);
      assert order == [order[0]] + order[1..];
    }
  }

  /** A session without publishers can go. */
  lemma RemoveKeeps(r: Room, gone: set<Name>)
    requires Inv(r) && forall u, pid :: u in gone ==> Slot(r, u, pid).None?
    ensures Inv(r.(sessions := r.sessions - gone))
  {
    var r' := r.(sessions := r.sessions - gone);
    forall v, q ensures Slot(r', v, q) == Slot(r, v, q) {}
  }

  lemma LeaveKeeps(r: Room, u: Name, order: seq<Key>)
    requires Inv(r) && Walks(r, u, order)
    ensures Inv(Leave(r, u, order))
  {
    DropAllKeeps(r, order);
    RemoveKeeps(DropAll(r, order), {u});
  }

  lemma EnterKeeps(r: Room, u: Name, origin: bool, podid: Name)
    requires Inv(r) && u !in r.sessions
    ensures Inv(Enter(r, u, origin, podid))
  {
    var r' := Enter(r, u, origin, podid);
    forall v, q ensures Slot(r', v, q) == Slot(r, v, q) {}
  }

  lemma WelcomeKeeps(r: Room, shown: seq<Key>, newcomer: Name)
    requires Inv(r) && forall i :: 0 <= i < |shown| ==> Ready(r, shown[i])
    ensures Inv(r.(log := r.log + [Welcome(newcomer)] + Replays(shown, newcomer)))
  {
    var r1 := r.(log := r.log + [Welcome(newcomer)]);
    Appended(r.log, Welcome(newcomer));
    SameSlots(r, r1);
    forall i | 0 <= i < |shown| ensures Ready(r1, shown[i]) { assert Ready(r, shown[i]); }
    ReplaysKeep(r1, shown, newcomer);
  }

  lemma ReplayKeeps(r: Room, k: Key, newcomer: Name)
    requires Inv(r) && Ready(r, k)
    ensures var r1 := r.(log := r.log + [Replay(k.user, k.pid, newcomer)]);
            Inv(r1) && forall k' :: Ready(r1, k') == Ready(r, k')
  {
    var n := Replay(k.user, k.pid, newcomer);
    Appended(r.log, n);
    SameSlots(r, r.(log := r.log + [n]));
    assert Announced(r, k.user, k.pid);
  }

  /** Replays leave the last notifications as they are. */
  lemma {:induction false} ReplaysKeep(r: Room, shown: seq<Key>, newcomer: Name)
    requires Inv(r) && forall i :: 0 <= i < |shown| ==> Ready(r, shown[i])
    ensures Inv(r.(log := r.log + Replays(shown, newcomer)))
    decreases |shown|
  {
    if shown == [] {
      assert r.log + [] == r.log;
    } else {
      var n := Replay(shown[0].user, shown[0].pid, newcomer);
      var r1 := r.(log := r.log + [n]);
      ReplayKeeps(r, shown[0], newcomer);
      ReplaysKeep(r1, shown[1..], newcomer);
      assert r.log + [n] + Replays(shown[1..], newcomer) == r.log + Replays(shown, newcomer);
    }
  }

  // ---- Runs ----

  lemma StepKeeps(r: Room, e: Event)
    requires Inv(r) && Possible(r, e)
    ensures Inv(Step(r, e))
  {
    match e {
      case Login(u, order, shown) =>
        LeaveKeeps(r, u, order);
        EnterKeeps(Leave(r, u, order), u, true, "");
        WelcomeKeeps(Enter(Leave(r, u, order), u, true, ""), shown, u);
      case Logout(u, order) => LeaveKeeps(r, u, order);
      case Push(u, pid, created) => RepublishKeeps(r, u, pid, created);
      case StopPush(u, pid) => DropKeeps(r, u, pid);
      case FakePublish(u, podid, order) =>
        LeaveKeeps(r, u, order);
        EnterKeeps(Leave(r, u, order), u, false, podid);
      case FakeUnpublish(u, podid, order) => if Concerns(r, u, podid) { LeaveKeeps(r, u, order); }
      case FakeOffer(u, pid, created) => RepublishKeeps(r, u, pid, created);
      case Ice(p, state) => IceKeeps(r, p, state);
      case DestroyRoom(order) =>
        DropAllKeeps(r, order);
        var r1 := DropAll(r, order);
        RemoveKeeps(r1, r1.sessions.Keys);
        assert r1.sessions - r1.sessions.Keys == map[];
    }
  }

  lemma {:induction false} RunKeeps(r: Room, es: seq<Event>)
    requires Inv(r) && IsRun(r, es)
    ensures Inv(After(r, es))
    decreases |es|
  {
    if es != [] {
      StepKeeps(r, es[0]);
      RunKeeps(Step(r, es[0]), es[1..]);
    }
  }

  /** Run `es` of a new room ends in `r`. */
  ghost predicate Reached(es: seq<Event>, r: Room) {
    IsRun(EMPTY_ROOM, es) && After(EMPTY_ROOM, es) == r
  }

  lemma ReachedInv(es: seq<Event>, r: Room)
    requires Reached(es, r)
    ensures Inv(r)
  {
    RunKeeps(EMPTY_ROOM, es);
  }

  /** After every run, a publisher in the room has its flag set exactly when the last notification about it was
      a pub, and about what is not in the room the last one was not. */
  lemma FlagIsLastNotification(es: seq<Event>, r: Room, u: Name, pid: Name)
    requires Reached(es, r)
    ensures RefsOk(r)
    ensures LastIsPub(r.log, u, pid) == (Slot(r, u, pid).Some? && r.peers[Slot(r, u, pid).value].shouldNotify)
  {
    ReachedInv(es, r);
  }

  /** After every run a peer's exit channel has been closed at most once, never while it is open, and its keyframe
      filter is between Startup and Shutdown exactly while it is open and ready. */
  lemma PeersCloseOnce(es: seq<Event>, r: Room, p: nat)
    requires Reached(es, r) && p < |r.peers|
    ensures r.peers[p].closes == (if r.peers[p].open then 0 else 1)
    ensures r.peers[p].filtering == (r.peers[p].open && r.peers[p].ready)
  {
    ReachedInv(es, r);
    assert Sane(r.peers[p]);
  }

  /** An unpub finds the last notification before it to be a pub, which lies after any earlier unpub. */
  lemma {:induction false} PubBetween(log: seq<Note>, i: nat, j: nat)
    requires Alternates(log) && i < j < |log| && log[j].Unpub? && About(log[i], log[j].user, log[j].pid)
             && log[i].Unpub?
    ensures exists k :: i < k < j && log[k].Pub? && About(log[k], log[j].user, log[j].pid)
    decreases |log|
  {
    var init := log[..|log| - 1];
    if j < |log| - 1 {
      PubBetween(init, i, j);
      var k :| i < k < j && init[k].Pub? && About(init[k], init[j].user, init[j].pid);
      assert log[k] == init[k];
    } else {
      var k := LatestPub(init, log[j].user, log[j].pid, i);
    }
  }

  lemma {:induction false} LatestPub(log: seq<Note>, u: Name, pid: Name, i: nat) returns (k: nat)
    requires LastIsPub(log, u, pid) && i < |log| && About(log[i], u, pid) && log[i].Unpub?
    ensures i < k < |log| && log[k].Pub? && About(log[k], u, pid)
    decreases |log|
  {
    k := |log| - 1;
    if !About(log[k], u, pid) { k := LatestPub(log[..k], u, pid, i); }
  }

  /** No two unpubs of a publisher without a pub between them, in the log of any run. */
  lemma UnpubsAreSeparated(es: seq<Event>, r: Room, i: nat, j: nat)
    requires Reached(es, r) && i < j < |r.log| && r.log[i].Unpub? && r.log[j].Unpub?
    requires r.log[i].user == r.log[j].user && r.log[i].pid == r.log[j].pid
    ensures exists k :: i < k < j && r.log[k].Pub? && About(r.log[k], r.log[j].user, r.log[j].pid)
  {
    ReachedInv(es, r);
    PubBetween(r.log, i, j);
  }

  lemma {:induction false} AnswersAt(log: seq<Note>, k: nat)
    requires Alternates(log) && k < |log| && (log[k].Unpub? || log[k].Replay?)
    ensures LastIsPub(log[..k], log[k].user, log[k].pid)
    decreases |log|
  {
    var init := log[..|log| - 1];
    if k < |log| - 1 {
      AnswersAt(init, k);
      assert init[..k] == log[..k];
    }
  }

  /** An unpub, or a replay to a newcomer, is only ever about a publisher whose last notification was a pub. */
  lemma UnpubAndReplayAnswerPub(es: seq<Event>, r: Room, k: nat)
    requires Reached(es, r) && k < |r.log| && (r.log[k].Unpub? || r.log[k].Replay?)
    ensures LastIsPub(r.log[..k], r.log[k].user, r.log[k].pid)
  {
    ReachedInv(es, r);
    AnswersAt(r.log, k);
  }

  lemma {:induction false} TurnedOff(log: seq<Note>, more: seq<Note>, u: Name, pid: Name)
    requires LastIsPub(log, u, pid) && !LastIsPub(log + more, u, pid)
    ensures exists k :: 0 <= k < |more| && more[k].Unpub? && About(more[k], u, pid)
    decreases |more|
  {
    assert more == [] ==> log + more == log;
    if more != [] {
      var init := more[..|more| - 1];
      assert (log + more)[..|log + more| - 1] == log + init;
      if !About(more[|more| - 1], u, pid) {
        TurnedOff(log, init, u, pid);
        var k :| 0 <= k < |init| && init[k].Unpub? && About(init[k], u, pid);
        assert more[k] == init[k];
      }
    }
  }

  // ---- What one step adds ----

  /** A pub or unpub to these users, or a welcome or replay to `guest`. */
  predicate Told(n: Note, to: set<Name>, guest: Option<Name>) {
    if n.Pub? || n.Unpub? then n.to == to else guest == Some(n.newcomer)
  }

  /** The log grows, pubs and unpubs go to every origin user who was in the room, and a peer once closed stays so. */
  predicate Extends(r: Room, r': Room, guest: Option<Name>)
    requires RefsOk(r)
  {
    && r.log <= r'.log
    && (forall k :: |r.log| <= k < |r'.log| ==> Told(r'.log[k], Recipients(r), guest))
    && |r.peers| <= |r'.peers|
    && (forall i :: 0 <= i < |r.peers| ==> SameIdentity(r.peers[i], r'.peers[i]))
  }

  predicate SameIdentity(p: Peer, p': Peer) { p'.user == p.user && p'.pid == p.pid && (p'.open ==> p.open) }

  predicate NewIsSilent(r: Room, r': Room) {
    forall i :: |r.peers| <= i < |r'.peers| ==> !r'.peers[i].shouldNotify
  }

  lemma StopExtends(r: Room, s: nat, pid: Name)
    requires RefsOk(r) && s < |r.heap| && pid in r.heap[s].publishers
    ensures var r' := Stop(r, s, pid);
            Extends(r, r', None) && |r'.peers| == |r.peers| && Recipients(r') == Recipients(r)
  {}

  lemma DropExtends(r: Room, u: Name, pid: Name)
    requires RefsOk(r)
    ensures var r' := Drop(r, u, pid);
            Extends(r, r', None) && |r'.peers| == |r.peers| && Recipients(r') == Recipients(r)
  {
    if Slot(r, u, pid).Some? {
      StopExtends(r, r.sessions[u], pid);
      var r1 := Stop(r, r.sessions[u], pid);
      assert Recipients(Close(r1, r.sessions[u], pid)) == Recipients(r1);
    }
  }

  lemma {:induction false} DropAllExtends(r: Room, order: seq<Key>)
    requires RefsOk(r)
    ensures var r' := DropAll(r, order); Extends(r, r', None) && |r'.peers| == |r.peers|
    decreases |order|
  {
    if order != [] {
      DropExtends(r, order[0].user, order[0].pid);
      DropAllExtends(Drop(r, order[0].user, order[0].pid), order[1..]);
    }
  }

  lemma NotReadyExtends(r: Room, p: nat, r': Room)
    requires RefsOk(r) && p < |r.peers|
    requires Extends(NotReady(r, p), r', None)
    ensures Extends(r, r', None)
  {
    var r1 := NotReady(r, p);
    assert Recipients(r1) == Recipients(r);
    forall i | 0 <= i < |r.peers| ensures SameIdentity(r.peers[i], r'.peers[i]) {
      assert SameIdentity(r1.peers[i], r'.peers[i]);
    }
  }

  lemma IceExtends(r: Room, p: nat, state: IceState)
    requires RefsOk(r) && p < |r.peers|
    ensures Extends(r, OnIce(r, p, state), None) && |OnIce(r, p, state).peers| == |r.peers|
  {
    var peer := r.peers[p];
    if peer.open && state != Connected && state != Other {
      var r1 := NotReady(r, p);
      if peer.session < |r.heap| && peer.pid in r.heap[peer.session].publishers {
        StopExtends(r1, peer.session, peer.pid);
        DropExtends(r1, peer.user, peer.pid);
      }
      NotReadyExtends(r, p, OnIce(r, p, state));
    }
  }

  lemma {:induction false} ReplaysOnly(shown: seq<Key>, newcomer: Name, k: nat)
    requires k < |shown|
    ensures Replays(shown, newcomer)[k] == Replay(shown[k].user, shown[k].pid, newcomer)
  {
    if k > 0 { ReplaysOnly(shown[1..], newcomer, k - 1); }
  }

  lemma ReplayExtends(r: Room, r1: Room, shown: seq<Key>, u: Name)
    requires RefsOk(r) && Extends(r, r1, None)
    ensures Extends(r, r1.(log := r1.log + [Welcome(u)] + Replays(shown, u)), Some(u))
  {
    var log := r1.log + [Welcome(u)] + Replays(shown, u);
    forall k | |r.log| <= k < |log| ensures Told(log[k], Recipients(r), Some(u)) {
      if k > |r1.log| {
        ReplaysOnly(shown, u, k - |r1.log| - 1);
      } else if k < |r1.log| {
        assert Told(r1.log[k], Recipients(r), None);
      }
    }
  }

  lemma LoginExtends(r: Room, u: Name, order: seq<Key>, shown: seq<Key>)
    requires RefsOk(r) && Possible(r, Login(u, order, shown))
    ensures var r' := Step(r, Login(u, order, shown)); Extends(r, r', Some(u)) && NewIsSilent(r, r')
  {
    DropAllExtends(r, order);
    ReplayExtends(r, Enter(Leave(r, u, order), u, true, ""), shown, u);
  }

  function Guest(e: Event): Option<Name> { if e.Login? then Some(e.user) else None }

  lemma LeaveExtends(r: Room, u: Name, order: seq<Key>)
    requires RefsOk(r)
    ensures var r' := Leave(r, u, order); Extends(r, r', None) && |r'.peers| == |r.peers|
  {
    DropAllExtends(r, order);
  }

  lemma RepublishExtends(r: Room, u: Name, pid: Name, created: bool)
    requires RefsOk(r)
    ensures var r' := Republish(r, u, pid, created); Extends(r, r', None) && NewIsSilent(r, r')
  {
    DropExtends(r, u, pid);
  }

  lemma StepExtends(r: Room, e: Event)
    requires RefsOk(r) && Possible(r, e)
    ensures Extends(r, Step(r, e), Guest(e)) && NewIsSilent(r, Step(r, e))
  {
    match e {
      case Login(u, order, shown) => LoginExtends(r, u, order, shown);
      case Logout(u, order) => LeaveExtends(r, u, order);
      case Push(u, pid, created) => RepublishExtends(r, u, pid, created);
      case StopPush(u, pid) => DropExtends(r, u, pid);
      case FakePublish(u, podid, order) => LeaveExtends(r, u, order);
      case FakeUnpublish(u, podid, order) => LeaveExtends(r, u, order);
      case FakeOffer(u, pid, created) => RepublishExtends(r, u, pid, created);
      case Ice(p, state) => IceExtends(r, p, state);
      case DestroyRoom(order) => DropAllExtends(r, order);
    }
  }

  lemma NoLongerAnnounced(r: Room, r': Room, guest: Option<Name>, u: Name, pid: Name)
    requires Inv(r) && Inv(r') && Extends(r, r', guest) && NewIsSilent(r, r') && Slot(r', u, pid) != Slot(r, u, pid)
    ensures !Announced(r', u, pid)
  {}

  lemma UnpubAdded(r: Room, r': Room, guest: Option<Name>, u: Name, pid: Name)
    requires Inv(r) && Inv(r') && Extends(r, r', guest) && Announced(r, u, pid) && !Announced(r', u, pid)
    ensures exists k ::
              |r.log| <= k < |r'.log| && r'.log[k].Unpub? && About(r'.log[k], u, pid) && r'.log[k].to == Recipients(r)
  {
    var more := r'.log[|r.log|..];
    assert r.log + more == r'.log;
    TurnedOff(r.log, more, u, pid);
    var k :| 0 <= k < |more| && more[k].Unpub? && About(more[k], u, pid);
    assert r'.log[|r.log| + k] == more[k];
  }

  lemma StepAnnounces(r: Room, e: Event, u: Name, pid: Name)
    requires Inv(r) && Possible(r, e) && Announced(r, u, pid) && Slot(Step(r, e), u, pid) != Slot(r, u, pid)
    ensures var log := Step(r, e).log;
            exists k :: |r.log| <= k < |log| && log[k].Unpub? && About(log[k], u, pid) && log[k].to == Recipients(r)
  {
    StepKeeps(r, e);
    StepExtends(r, e);
    NoLongerAnnounced(r, Step(r, e), Guest(e), u, pid);
    UnpubAdded(r, Step(r, e), Guest(e), u, pid);
  }

  /** Whatever takes an announced publisher out of the room, or puts another in its place, tells every origin
      user that was in the room. */
  lemma RemovalIsAnnounced(es: seq<Event>, r: Room, e: Event, u: Name, pid: Name)
    requires Reached(es, r) && RefsOk(r) && Possible(r, e)
    requires Announced(r, u, pid) && Slot(Step(r, e), u, pid) != Slot(r, u, pid)
    ensures var log := Step(r, e).log;
            exists k :: |r.log| <= k < |log| && log[k].Unpub? && About(log[k], u, pid) && log[k].to == Recipients(r)
  {
    ReachedInv(es, r);
    StepAnnounces(r, e, u, pid);
  }
}
