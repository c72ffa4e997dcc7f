/** Publishers of a room and the notifications about them. */
module PublishRoom {
  // References to sessions and peers are indices into `heap` and `peers`; both only grow, so a reference
  // outlives the removal of what it points to, as in the program. Handlers and the callbacks they start are
  // single steps.

  import opened Wrappers

  type Name = string

  /** A publish peer; `open` says that it still has its peer connection, `filtering` that its keyframe filter is
      between Startup and Shutdown, and `closes` counts the times its exit channel was closed: a second close would
      panic. */
  datatype Peer = Peer(user: Name, pid: Name, session: nat, ready: bool, shouldNotify: bool, open: bool,
                       filtering: bool, closes: nat)

  datatype Session = Session(user: Name, origin: bool, podid: Name, publishers: map<Name, nat>)

  /** A pub or unpub goes to every origin user in the room, and to other clusters if the session is an origin;
      a user who logs in gets a welcome and then a replay for each publisher shown to them. */
  datatype Note =
    | Pub(user: Name, pid: Name, to: set<Name>, abroad: bool)
    | Unpub(user: Name, pid: Name, to: set<Name>, abroad: bool)
    | Welcome(newcomer: Name)
    | Replay(user: Name, pid: Name, newcomer: Name)

  datatype Room = Room(sessions: map<Name, nat>, heap: seq<Session>, peers: seq<Peer>, log: seq<Note>)

  predicate RefsOk(r: Room) {
    && (forall u :: u in r.sessions ==> r.sessions[u] < |r.heap| && r.heap[r.sessions[u]].user == u)
    && (forall i, pid :: 0 <= i < |r.heap| && pid in r.heap[i].publishers ==> r.heap[i].publishers[pid] < |r.peers|)
  }

  /** The publisher a user in the room has under this identifier. */
  function Slot(r: Room, u: Name, pid: Name): Option<nat>
    requires RefsOk(r)
  {
    if u in r.sessions && pid in r.heap[r.sessions[u]].publishers
    then Some(r.heap[r.sessions[u]].publishers[pid]) else None
  }

  function Recipients(r: Room): set<Name>
    requires RefsOk(r)
  {
    set u | u in r.sessions && r.heap[r.sessions[u]].origin
  }

  // ---- Operations on one publisher ----

  /** ShouldNotify, and notifyStopPush if it says so. */
  function Stop(r: Room, s: nat, pid: Name): (r': Room)
    requires RefsOk(r) && s < |r.heap| && pid in r.heap[s].publishers
    ensures RefsOk(r')
  {
    var ref := r.heap[s].publishers[pid];
    if r.peers[ref].shouldNotify then
      r.(peers := r.peers[ref := r.peers[ref].(shouldNotify := false)],
         log := r.log + [Unpub(r.heap[s].user, pid, Recipients(r), r.heap[s].origin)])
    else r
  }

  function Destroyed(p: Peer): Peer { p.(open := false, filtering := false, closes := p.closes + 1) }

  /** Destroy, and removal from the session. */
  function Close(r: Room, s: nat, pid: Name): (r': Room)
    requires RefsOk(r) && s < |r.heap| && pid in r.heap[s].publishers
    ensures RefsOk(r')
  {
    var ref := r.heap[s].publishers[pid];
    r.(peers := r.peers[ref := Destroyed(r.peers[ref])],
       heap := r.heap[s := r.heap[s].(publishers := r.heap[s].publishers - {pid})])
  }

  /** The block shared by push, stop-push, fake offer, release and leave. */
  function Drop(r: Room, u: Name, pid: Name): (r': Room)
    requires RefsOk(r)
    ensures RefsOk(r') && r'.sessions == r.sessions
  {
    if Slot(r, u, pid).None? then r else Close(Stop(r, r.sessions[u], pid), r.sessions[u], pid)
  }

  function Create(r: Room, u: Name, pid: Name): (r': Room)
    requires RefsOk(r) && u in r.sessions
    ensures RefsOk(r')
  {
    var s := r.sessions[u];
    r.(peers := r.peers + [Peer(u, pid, s, false, false, true, false, 0)],
       heap := r.heap[s := r.heap[s].(publishers := r.heap[s].publishers[pid := |r.peers|])])
  }

  // ---- ICE state changes ----

  datatype IceState = Connected | Disconnected | Failed | Closed | Other

  function NotReady(r: Room, p: nat): (r': Room)
    requires RefsOk(r) && p < |r.peers|
    ensures RefsOk(r')
  {
    r.(peers := r.peers[p := r.peers[p].(ready := false, filtering := false)])
  }

  /** The callback of peer `p`; a destroyed peer has lost its connection and ignores it. */
  function OnIce(r: Room, p: nat, state: IceState): (r': Room)
    requires RefsOk(r) && p < |r.peers|
    ensures RefsOk(r')
  {
    var peer := r.peers[p];
    var s := peer.session;
    if !peer.open || state == Other then r
    else if state == Connected then
      var r1 := r.(peers := r.peers[p := peer.(ready := true, shouldNotify := true, filtering := true)]);
      if s < |r.heap| && peer.pid in r.heap[s].publishers
      then r1.(log := r.log + [Pub(peer.user, peer.pid, Recipients(r), r.heap[s].origin)]) else r1
    else
      var r1 := NotReady(r, p);
      if s >= |r.heap| || peer.pid !in r.heap[s].publishers then r1
      else if state == Disconnected then Stop(r1, s, peer.pid)
      else Drop(r1, peer.user, peer.pid)
  }

  // ---- Sessions ----

  datatype Key = Key(user: Name, pid: Name)

  /** Publishers dropped one after the other, in the order the map happens to be walked. */
  function DropAll(r: Room, order: seq<Key>): (r': Room)
    requires RefsOk(r)
    ensures RefsOk(r') && r'.sessions == r.sessions
    decreases |order|
  {
    if order == [] then r else DropAll(Drop(r, order[0].user, order[0].pid), order[1..])
  }

  /** DoLeave of the user's session, if there is one, and its removal from the room. */
  function Leave(r: Room, u: Name, order: seq<Key>): (r': Room)
    requires RefsOk(r)
    ensures RefsOk(r') && u !in r'.sessions
  {
    var r1 := DropAll(r, order);
    r1.(sessions := r1.sessions - {u})
  }

  function Enter(r: Room, u: Name, origin: bool, podid: Name): (r': Room)
    requires RefsOk(r)
    ensures RefsOk(r')
  {
    r.(sessions := r.sessions[u := |r.heap|], heap := r.heap + [Session(u, origin, podid, map[])])
  }

  function Replays(shown: seq<Key>, newcomer: Name): (notes: seq<Note>)
    ensures |notes| == |shown|
  {
    if shown == [] then [] else [Replay(shown[0].user, shown[0].pid, newcomer)] + Replays(shown[1..], newcomer)
  }

  lemma {:induction false} ReplaysLast(shown: seq<Key>, k: Key, newcomer: Name)
    ensures Replays(shown + [k], newcomer) == Replays(shown, newcomer) + [Replay(k.user, k.pid, newcomer)]
  {
    if shown == [] {
      assert shown + [k] == [k] && [k][1..] == [];
    } else {
      assert (shown + [k])[0] == shown[0] && (shown + [k])[1..] == shown[1..] + [k];
      ReplaysLast(shown[1..], k, newcomer);
    }
  }

  // ---- Events ----

  /** `order` is the order in which publishers are walked, `shown` the ready publishers shown to a newcomer and
      `created` whether the peer connection could be set up. */
  datatype Event =
    | Login(user: Name, order: seq<Key>, shown: seq<Key>)
    | Logout(user: Name, order: seq<Key>)
    | Push(user: Name, pid: Name, created: bool)
    | StopPush(user: Name, pid: Name)
    | FakePublish(user: Name, podid: Name, order: seq<Key>)
    | FakeUnpublish(user: Name, podid: Name, order: seq<Key>)
    | FakeOffer(user: Name, pid: Name, created: bool)
    | Ice(peer: nat, state: IceState)
    | DestroyRoom(order: seq<Key>)

  /** Walks exactly the publishers of `u`. */
  predicate Walks(r: Room, u: Name, order: seq<Key>)
    requires RefsOk(r)
  {
    && (forall i :: 0 <= i < |order| ==> order[i].user == u)
    && (u in r.sessions ==> forall pid :: pid in r.heap[r.sessions[u]].publishers ==> Key(u, pid) in order)
  }

  predicate WalksAll(r: Room, order: seq<Key>)
    requires RefsOk(r)
  {
    forall u, pid :: u in r.sessions && pid in r.heap[r.sessions[u]].publishers ==> Key(u, pid) in order
  }

  predicate Ready(r: Room, k: Key)
    requires RefsOk(r)
  {
    Slot(r, k.user, k.pid).Some? && r.peers[Slot(r, k.user, k.pid).value].ready
  }

  /** One ready publisher for each session that has one. */
  predicate Shows(r: Room, shown: seq<Key>)
    requires RefsOk(r)
  {
    && (forall i :: 0 <= i < |shown| ==> Ready(r, shown[i]))
    && (forall i, j :: 0 <= i < j < |shown| ==> shown[i].user != shown[j].user)
    && (forall u, pid :: u in r.sessions && pid in r.heap[r.sessions[u]].publishers && Ready(r, Key(u, pid)) ==>
          exists i :: 0 <= i < |shown| && shown[i].user == u)
  }

  predicate HasOrigin(r: Room)
    requires RefsOk(r)
  {
    exists u :: u in r.sessions && r.heap[r.sessions[u]].origin
  }

  /** The user's session comes from that pod. */
  predicate Concerns(r: Room, u: Name, podid: Name)
    requires RefsOk(r)
  {
    u in r.sessions && r.heap[r.sessions[u]].podid == podid
  }

  ghost predicate Possible(r: Room, e: Event)
    requires RefsOk(r)
  {
    match e
    case Login(u, order, shown) => Walks(r, u, order) && Shows(Enter(Leave(r, u, order), u, true, ""), shown)
    case Logout(u, order) => Walks(r, u, order)
    case FakePublish(u, _, order) => Walks(r, u, order)
    case FakeUnpublish(u, podid, order) => Concerns(r, u, podid) ==> Walks(r, u, order)
    case Ice(p, _) => p < |r.peers|
    case DestroyRoom(order) => WalksAll(r, order)
    case _ => true
  }

  function Republish(r: Room, u: Name, pid: Name, created: bool): (r': Room)
    requires RefsOk(r)
    ensures RefsOk(r')
  {
    if u !in r.sessions then r
    else
      var r1 := Drop(r, u, pid);
      if created then Create(r1, u, pid) else r1
  }

  function Step(r: Room, e: Event): (r': Room)
    requires RefsOk(r) && Possible(r, e)
    ensures RefsOk(r')
  {
    match e
    case Login(u, order, shown) =>
      var r1 := Enter(Leave(r, u, order), u, true, "");
      r1.(log := r1.log + [Welcome(u)] + Replays(shown, u))
    case Logout(u, order) => Leave(r, u, order)
    case Push(u, pid, created) => Republish(r, u, pid, created)
    case StopPush(u, pid) => Drop(r, u, pid)
    case FakePublish(u, podid, order) =>
      var r1 := Leave(r, u, order);
      if HasOrigin(r1) then Enter(r1, u, false, podid) else r1
    case FakeUnpublish(u, podid, order) =>
      if Concerns(r, u, podid) then Leave(r, u, order) else r
    case FakeOffer(u, pid, created) => Republish(r, u, pid, created)
    case Ice(p, state) => OnIce(r, p, state)
    case DestroyRoom(order) => DropAll(r, order).(sessions := map[])
  }

  const EMPTY_ROOM := Room(map[], [], [], [])

  ghost predicate IsRun(r: Room, es: seq<Event>)
    requires RefsOk(r)
    decreases |es|
  {
    es == [] || (Possible(r, es[0]) && IsRun(Step(r, es[0]), es[1..]))
  }

  ghost function After(r: Room, es: seq<Event>): (r': Room)
    requires RefsOk(r) && IsRun(r, es)
    ensures RefsOk(r')
    decreases |es|
  {
    if es == [] then r else After(Step(r, es[0]), es[1..])
  }
}
