/** What each event does to the publishers of a room, and what it tells whom. */
module PublishEffects {
  import opened Wrappers
  import opened PublishRoom
  import opened PublishProofs
  import opened PublishViews

  /** Exactly the users in the room whose session is an origin. */
  ghost predicate AreOrigins(r: Room, to: set<Name>)
    requires RefsOk(r)
  {
    forall w :: w in to <==> w in r.sessions && r.heap[r.sessions[w]].origin
  }

  predicate IsOrigin(r: Room, u: Name)
    requires RefsOk(r)
  {
    u in r.sessions && r.heap[r.sessions[u]].origin
  }

  /** `n` tells every origin user of the room about this publisher, and other clusters exactly if its user is one. */
  ghost predicate TellsAll(r: Room, n: Note, u: Name, pid: Name)
    requires RefsOk(r)
  {
    About(n, u, pid) && AreOrigins(r, n.to) && n.abroad == IsOrigin(r, u)
  }

  /** The log grows by one pub. */
  ghost predicate LogsPub(r: Room, log: seq<Note>, u: Name, pid: Name)
    requires RefsOk(r)
  {
    |log| == |r.log| + 1 && log[..|r.log|] == r.log && log[|r.log|].Pub? && TellsAll(r, log[|r.log|], u, pid)
  }

  /** The log grows by one unpub if the publisher was announced, and stays as it is if not. */
  ghost predicate LogsUnpub(r: Room, log: seq<Note>, u: Name, pid: Name)
    requires RefsOk(r)
  {
    if Announced(r, u, pid)
    then |log| == |r.log| + 1 && log[..|r.log|] == r.log && log[|r.log|].Unpub? && TellsAll(r, log[|r.log|], u, pid)
    else log == r.log
  }

  /** No session and no other publisher is touched. */
  ghost predicate Only(r: Room, r': Room, u: Name, pid: Name)
    requires RefsOk(r) && RefsOk(r')
  {
    && r'.sessions == r.sessions && |r.peers| <= |r'.peers|
    && (forall v :: v in r.sessions ==>
          r'.heap[r'.sessions[v]] == r.heap[r.sessions[v]].(publishers := r'.heap[r'.sessions[v]].publishers))
    && (forall v, q :: v != u || q != pid ==> Slot(r', v, q) == Slot(r, v, q))
    && (forall i :: 0 <= i < |r.peers| && Slot(r, u, pid) != Some(i) ==> r'.peers[i] == r.peers[i])
  }

  // ---- One publisher ----

  lemma StopEffect(r: Room, u: Name, pid: Name)
    requires RefsOk(r) && Slot(r, u, pid).Some?
    ensures var r', p := Stop(r, r.sessions[u], pid), Slot(r, u, pid).value;
            && LogsUnpub(r, r'.log, u, pid) && Only(r, r', u, pid) && |r'.peers| == |r.peers|
            && r'.peers[p] == r.peers[p].(shouldNotify := false) && Slot(r', u, pid) == Some(p)
  {
    SameSlots(r, Stop(r, r.sessions[u], pid));
  }

  lemma DropEffect(r: Room, u: Name, pid: Name)
    requires Consistent(r) && Slot(r, u, pid).Some?
    ensures var r', p := Drop(r, u, pid), Slot(r, u, pid).value;
            && LogsUnpub(r, r'.log, u, pid) && Only(r, r', u, pid) && |r'.peers| == |r.peers|
            && r'.peers[p] == Destroyed(r.peers[p].(shouldNotify := false)) && Slot(r', u, pid).None?
  {
    StopKeeps(r, u, pid);
    StopEffect(r, u, pid);
    CloseKeeps(Stop(r, r.sessions[u], pid), u, pid);
  }

  lemma DropOrNothing(r: Room, u: Name, pid: Name)
    requires Consistent(r)
    ensures var r' := Drop(r, u, pid);
            && LogsUnpub(r, r'.log, u, pid) && Only(r, r', u, pid) && |r'.peers| == |r.peers| && Slot(r', u, pid).None?
  {
    if Slot(r, u, pid).Some? { DropEffect(r, u, pid); }
  }

  // ---- ICE ----

  /** Connecting announces a publisher: one pub, to every origin user and, for an origin, abroad; the publisher is
      ready from then on, and every origin user in the room sees it. Nothing else changes. */
  lemma ConnectedIsAnnounced(es: seq<Event>, r: Room, p: nat)
    requires Reached(es, r) && p < |r.peers| && r.peers[p].open
    ensures RefsOk(r)
    ensures var u, pid, r' := r.peers[p].user, r.peers[p].pid, Step(r, Ice(p, Connected));
            && LogsPub(r, r'.log, u, pid) && Only(r, r', u, pid)
            && Slot(r', u, pid) == Slot(r, u, pid) == Some(p) && Announced(r', u, pid)
            && r'.peers[p] == r.peers[p].(ready := true, shouldNotify := true, filtering := true)
            && (forall w :: IsOrigin(r, w) ==> Sees(r'.log, w, u, pid))
  {
    ReachedInv(es, r);
    var u, pid, r' := r.peers[p].user, r.peers[p].pid, Step(r, Ice(p, Connected));
    assert Slot(r, u, pid) == Some(p);
    SameSlots(r, r');
    forall w | IsOrigin(r, w) ensures Sees(r'.log, w, u, pid) { SeesAppended(r.log, r'.log[|r.log|], w); }
  }

  /** Once a publisher has been withdrawn, no origin user sees it. */
  lemma WithdrawnIsUnseen(es: seq<Event>, r: Room, log: seq<Note>, u: Name, pid: Name, w: Name)
    requires Reached(es, r) && RefsOk(r) && LogsUnpub(r, log, u, pid) && IsOrigin(r, w)
    ensures !Sees(log, w, u, pid)
  {
    if Announced(r, u, pid) {
      SeesAppended(r.log, log[|r.log|], w);
      assert log == r.log + [log[|r.log|]];
    } else if Sees(log, w, u, pid) {
      ViewIsAnnounced(es, r, w, u, pid);
    }
  }

  lemma NotReadyIsSilent(r: Room, r1: Room, p: nat)
    requires Inv(r) && p < |r.peers| && r.peers[p].open && r1 == NotReady(r, p)
    ensures var u, pid := r.peers[p].user, r.peers[p].pid;
            && Consistent(r1) && Slot(r, u, pid) == Slot(r1, u, pid) == Some(p) && Recipients(r1) == Recipients(r)
            && Announced(r1, u, pid) == Announced(r, u, pid) && Only(r, r1, u, pid) && u in r.sessions
            && r.peers[p].session == r.sessions[u]
  {
    NotReadyKeeps(r, p);
    SameSlots(r, r1);
  }

  /** Only, twice. */
  lemma OnlyJoins(r: Room, r1: Room, r': Room, u: Name, pid: Name)
    requires RefsOk(r) && RefsOk(r1) && RefsOk(r') && Slot(r1, u, pid) == Slot(r, u, pid)
    requires Only(r, r1, u, pid) && Only(r1, r', u, pid)
    ensures Only(r, r', u, pid)
  {}

  /** What is logged about the publisher after it stopped being ready is what would have been logged before. */
  lemma LogsSame(r: Room, r1: Room, log: seq<Note>, u: Name, pid: Name)
    requires RefsOk(r) && RefsOk(r1) && r1.log == r.log && r1.sessions == r.sessions && r1.heap == r.heap
    requires Announced(r1, u, pid) == Announced(r, u, pid) && LogsUnpub(r1, log, u, pid)
    ensures LogsUnpub(r, log, u, pid)
  {
    if Announced(r, u, pid) {
      var n := log[|r.log|];
      assert TellsAll(r1, n, u, pid);
      assert AreOrigins(r, n.to) by {
        forall w ensures w in n.to <==> w in r.sessions && r.heap[r.sessions[w]].origin {}
      }
    }
  }

  lemma DisconnectedEffect(r: Room, p: nat, u: Name, pid: Name, r1: Room, r': Room)
    requires Inv(r) && p < |r.peers| && r.peers[p].open && u == r.peers[p].user && pid == r.peers[p].pid
    requires r1 == NotReady(r, p) && r' == OnIce(r, p, Disconnected)
    ensures && LogsUnpub(r, r'.log, u, pid) && Only(r, r', u, pid)
            && Slot(r', u, pid) == Slot(r, u, pid) == Some(p) && |r'.peers| == |r.peers|
            && r'.peers[p] == r.peers[p].(ready := false, shouldNotify := false, filtering := false)
  {
    NotReadyIsSilent(r, r1, p);
    StopEffect(r1, u, pid);
    OnlyJoins(r, r1, r', u, pid);
    LogsSame(r, r1, r'.log, u, pid);
  }

  /** Disconnecting leaves a publisher in its place, but not ready and not announced: an unpub answers the pub that
      announced it, and no origin user sees it any more. */
  lemma DisconnectedIsWithdrawn(es: seq<Event>, r: Room, p: nat)
    requires Reached(es, r) && p < |r.peers| && r.peers[p].open
    ensures RefsOk(r)
    ensures var u, pid, r' := r.peers[p].user, r.peers[p].pid, Step(r, Ice(p, Disconnected));
            && LogsUnpub(r, r'.log, u, pid) && Only(r, r', u, pid)
            && Slot(r', u, pid) == Slot(r, u, pid) == Some(p) && !Announced(r', u, pid)
            && r'.peers[p] == r.peers[p].(ready := false, shouldNotify := false, filtering := false)
            && (forall w :: IsOrigin(r, w) ==> !Sees(r'.log, w, u, pid))
  {
    ReachedInv(es, r);
    var u, pid, r' := r.peers[p].user, r.peers[p].pid, Step(r, Ice(p, Disconnected));
    DisconnectedEffect(r, p, u, pid, NotReady(r, p), r');
    forall w | IsOrigin(r, w) ensures !Sees(r'.log, w, u, pid) { WithdrawnIsUnseen(es, r, r'.log, u, pid, w); }
  }

  lemma FailedEffect(r: Room, p: nat, u: Name, pid: Name, r1: Room, r': Room, state: IceState)
    requires Inv(r) && p < |r.peers| && r.peers[p].open && u == r.peers[p].user && pid == r.peers[p].pid
    requires r1 == NotReady(r, p) && r' == OnIce(r, p, state) && (state == Failed || state == Closed)
    ensures && LogsUnpub(r, r'.log, u, pid) && Only(r, r', u, pid)
            && Slot(r, u, pid) == Some(p) && Slot(r', u, pid).None? && |r'.peers| == |r.peers|
            && !r'.peers[p].open && !r'.peers[p].filtering && r'.peers[p].closes == 1
  {
    assert Sane(r.peers[p]);
    NotReadyIsSilent(r, r1, p);
    DropEffect(r1, u, pid);
    OnlyJoins(r, r1, r', u, pid);
    LogsSame(r, r1, r'.log, u, pid);
  }

  /** Failing and closing take a publisher out of the room and destroy its peer. */
  lemma FailedIsRemoved(es: seq<Event>, r: Room, p: nat, state: IceState)
    requires Reached(es, r) && p < |r.peers| && r.peers[p].open && (state == Failed || state == Closed)
    ensures RefsOk(r)
    ensures var u, pid, r' := r.peers[p].user, r.peers[p].pid, Step(r, Ice(p, state));
            && LogsUnpub(r, r'.log, u, pid) && Only(r, r', u, pid)
            && Slot(r, u, pid) == Some(p) && Slot(r', u, pid).None?
            && !r'.peers[p].open && !r'.peers[p].filtering && r'.peers[p].closes == 1
            && (forall w :: IsOrigin(r, w) ==> !Sees(r'.log, w, u, pid))
  {
    ReachedInv(es, r);
    var u, pid, r' := r.peers[p].user, r.peers[p].pid, Step(r, Ice(p, state));
    FailedEffect(r, p, u, pid, NotReady(r, p), r', state);
    forall w | IsOrigin(r, w) ensures !Sees(r'.log, w, u, pid) { WithdrawnIsUnseen(es, r, r'.log, u, pid, w); }
  }

  // ---- Push, stop-push and fake offer ----

  lemma CreateEffect(r: Room, u: Name, pid: Name)
    requires Inv(r) && u in r.sessions && Slot(r, u, pid).None?
    ensures var r' := Create(r, u, pid);
            && Only(r, r', u, pid) && r'.log == r.log && |r'.peers| == |r.peers| + 1
            && Slot(r', u, pid) == Some(|r.peers|)
            && r'.peers[|r.peers|] == Peer(u, pid, r.sessions[u], false, false, true, false, 0)
  {
    CreateKeeps(r, u, pid);
  }

  /** A push, or a fake offer, of a user in the room withdraws what was published under that name and, if the connection
      could be set up, puts a new peer in its place: open, not ready and not announced. For others it does nothing. */
  lemma PushReplaces(es: seq<Event>, r: Room, u: Name, pid: Name, created: bool, e: Event)
    requires Reached(es, r) && (e == Push(u, pid, created) || e == FakeOffer(u, pid, created))
    ensures RefsOk(r) && Possible(r, e)
    ensures var r' := Step(r, e);
            if u !in r.sessions then r' == r
            else
              && LogsUnpub(r, r'.log, u, pid) && Only(r, r', u, pid)
              && |r'.peers| == |r.peers| + (if created then 1 else 0)
              && Slot(r', u, pid) == (if created then Some(|r.peers|) else None)
              && (created ==> r'.peers[|r.peers|] == Peer(u, pid, r.sessions[u], false, false, true, false, 0))
              && (forall w :: IsOrigin(r, w) ==> !Sees(r'.log, w, u, pid))
  {
    ReachedInv(es, r);
    if u in r.sessions {
      var r1, r' := Drop(r, u, pid), Step(r, e);
      DropKeeps(r, u, pid);
      DropOrNothing(r, u, pid);
      if created { CreateEffect(r1, u, pid); }
      forall w | IsOrigin(r, w) ensures !Sees(r'.log, w, u, pid) { WithdrawnIsUnseen(es, r, r'.log, u, pid, w); }
    }
  }

  /** Stopping empties the publisher's place. */
  lemma StopPushEmpties(es: seq<Event>, r: Room, u: Name, pid: Name)
    requires Reached(es, r)
    ensures RefsOk(r)
    ensures var r' := Step(r, StopPush(u, pid));
            && LogsUnpub(r, r'.log, u, pid) && Only(r, r', u, pid) && |r'.peers| == |r.peers|
            && Slot(r', u, pid).None?
            && (Slot(r, u, pid).Some? ==> var p := r'.peers[Slot(r, u, pid).value]; !p.open && p.closes == 1)
            && (forall w :: IsOrigin(r, w) ==> !Sees(r'.log, w, u, pid))
  {
    ReachedInv(es, r);
    var r' := Step(r, StopPush(u, pid));
    DropOrNothing(r, u, pid);
    if Slot(r, u, pid).Some? {
      DropEffect(r, u, pid);
      assert Sane(r.peers[Slot(r, u, pid).value]);
    }
    forall w | IsOrigin(r, w) ensures !Sees(r'.log, w, u, pid) { WithdrawnIsUnseen(es, r, r'.log, u, pid, w); }
  }

  // ---- Sessions ----

  /** The session of every user but `u` is where it was, with its publishers. */
  ghost predicate OthersStay(r: Room, r': Room, u: Name)
    requires RefsOk(r) && RefsOk(r')
  {
    && (forall v :: v != u ==> (v in r'.sessions <==> v in r.sessions))
    && (forall v :: v != u && v in r.sessions ==>
          r'.sessions[v] == r.sessions[v] && r'.heap[r'.sessions[v]].origin == r.heap[r.sessions[v]].origin
          && r'.heap[r'.sessions[v]].podid == r.heap[r.sessions[v]].podid)
    && (forall v, q :: v != u ==> Slot(r', v, q) == Slot(r, v, q))
  }

  /** A new session, without publishers. */
  predicate Entered(r: Room, u: Name, origin: bool, podid: Name)
    requires RefsOk(r)
  {
    u in r.sessions && r.heap[r.sessions[u]] == Session(u, origin, podid, map[])
  }

  lemma {:induction false} DropAllSessions(r: Room, order: seq<Key>)
    requires RefsOk(r)
    ensures var r' := DropAll(r, order);
            && |r'.heap| == |r.heap|
            && forall s :: 0 <= s < |r.heap| ==>
                 r'.heap[s].origin == r.heap[s].origin && r'.heap[s].podid == r.heap[s].podid
    decreases |order|
  {
    if order != [] { DropAllSessions(Drop(r, order[0].user, order[0].pid), order[1..]); }
  }

  lemma OthersStayTwice(r: Room, r1: Room, r': Room, u: Name)
    requires RefsOk(r) && RefsOk(r1) && RefsOk(r') && OthersStay(r, r1, u) && OthersStay(r1, r', u)
    ensures OthersStay(r, r', u)
  {}

  lemma DropAllEffect(r: Room, u: Name, order: seq<Key>, r': Room)
    requires Inv(r) && Walks(r, u, order) && r' == DropAll(r, order)
    ensures OthersStay(r, r', u)
  {
    DropAllKeeps(r, order);
    DropAllSessions(r, order);
  }

  lemma RemoveEffect(r: Room, u: Name)
    requires RefsOk(r)
    ensures OthersStay(r, r.(sessions := r.sessions - {u}), u)
  {}

  lemma LeaveEffect(r: Room, u: Name, order: seq<Key>)
    requires Inv(r) && Walks(r, u, order)
    ensures var r' := Leave(r, u, order); u !in r'.sessions && OthersStay(r, r', u)
  {
    var r1 := DropAll(r, order);
    DropAllEffect(r, u, order, r1);
    RemoveEffect(r1, u);
    OthersStayTwice(r, r1, Leave(r, u, order), u);
  }

  lemma EnterEffect(r: Room, u: Name, origin: bool, podid: Name)
    requires Inv(r) && u !in r.sessions
    ensures var r' := Enter(r, u, origin, podid); Entered(r', u, origin, podid) && OthersStay(r, r', u)
  {}

  lemma LoginEffect(r: Room, u: Name, order: seq<Key>, r1: Room, r2: Room)
    requires Inv(r) && Walks(r, u, order) && r1 == Leave(r, u, order) && r2 == Enter(r1, u, true, "")
    ensures Entered(r2, u, true, "") && OthersStay(r, r2, u)
  {
    LeaveEffect(r, u, order);
    LeaveKeeps(r, u, order);
    EnterEffect(r1, u, true, "");
    OthersStayTwice(r, r1, r2, u);
  }

  /** Logging in gives the user a new origin session without publishers. */
  lemma LoginEnters(es: seq<Event>, r: Room, u: Name, order: seq<Key>, shown: seq<Key>)
    requires Reached(es, r) && RefsOk(r) && Possible(r, Login(u, order, shown))
    ensures var r' := Step(r, Login(u, order, shown)); Entered(r', u, true, "") && OthersStay(r, r', u)
  {
    ReachedInv(es, r);
    var r1 := Leave(r, u, order);
    var r2, r' := Enter(r1, u, true, ""), Step(r, Login(u, order, shown));
    LoginEffect(r, u, order, r1, r2);
    SameSlots(r2, r');
  }

  /** Logging out takes the session away. */
  lemma LogoutLeaves(es: seq<Event>, r: Room, u: Name, order: seq<Key>)
    requires Reached(es, r) && RefsOk(r) && Possible(r, Logout(u, order))
    ensures var r' := Step(r, Logout(u, order)); u !in r'.sessions && OthersStay(r, r', u)
  {
    ReachedInv(es, r);
    LeaveEffect(r, u, order);
  }

  predicate OtherOrigin(r: Room, u: Name)
    requires RefsOk(r)
  {
    exists v :: v in r.sessions && v != u && IsOrigin(r, v)
  }

  lemma OriginsLeft(r: Room, r1: Room, u: Name)
    requires RefsOk(r) && RefsOk(r1) && u !in r1.sessions && OthersStay(r, r1, u)
    ensures HasOrigin(r1) <==> OtherOrigin(r, u)
  {
    if v :| v in r1.sessions && r1.heap[r1.sessions[v]].origin { assert IsOrigin(r, v); }
    if v :| v in r.sessions && v != u && IsOrigin(r, v) { assert r1.heap[r1.sessions[v]].origin; }
  }

  /** A user published by another cluster gets a new session from that pod exactly if some other origin user is in the
      room, and is out of the room otherwise. */
  lemma FakePublishEnters(es: seq<Event>, r: Room, u: Name, podid: Name, order: seq<Key>)
    requires Reached(es, r) && RefsOk(r) && Possible(r, FakePublish(u, podid, order))
    ensures var r' := Step(r, FakePublish(u, podid, order));
            && OthersStay(r, r', u)
            && if OtherOrigin(r, u) then Entered(r', u, false, podid) else u !in r'.sessions
  {
    ReachedInv(es, r);
    LeaveEffect(r, u, order);
    LeaveKeeps(r, u, order);
    var r1 := Leave(r, u, order);
    OriginsLeft(r, r1, u);
    EnterEffect(r1, u, false, podid);
    OthersStayTwice(r, r1, Enter(r1, u, false, podid), u);
  }

  /** It leaves the room again exactly if the same pod takes it back. */
  lemma FakeUnpublishLeaves(es: seq<Event>, r: Room, u: Name, podid: Name, order: seq<Key>)
    requires Reached(es, r) && RefsOk(r) && Possible(r, FakeUnpublish(u, podid, order))
    ensures var r' := Step(r, FakeUnpublish(u, podid, order));
            if u in r.sessions && r.heap[r.sessions[u]].podid == podid then u !in r'.sessions && OthersStay(r, r', u)
            else r' == r
  {
    ReachedInv(es, r);
    if Concerns(r, u, podid) { LeaveEffect(r, u, order); }
  }

  /** Destroying the room closes every peer. */
  lemma DestroyedRoomIsEmpty(es: seq<Event>, r: Room, order: seq<Key>)
    requires Reached(es, r) && RefsOk(r) && Possible(r, DestroyRoom(order))
    ensures var r' := Step(r, DestroyRoom(order));
            r'.sessions == map[] && forall i :: 0 <= i < |r'.peers| ==> !r'.peers[i].open
  {
    ReachedInv(es, r);
    StepKeeps(r, DestroyRoom(order));
    var r' := Step(r, DestroyRoom(order));
    forall i | 0 <= i < |r'.peers| ensures !r'.peers[i].open {
      assert Slot(r', r'.peers[i].user, r'.peers[i].pid) != Some(i);
    }
  }
}
