/** What each user of a room has been told about the publishers in it. */
module PublishViews {
  import opened Wrappers
  import opened PublishRoom
  import opened PublishProofs

  /** By what was sent to `w` since their last login, the user `u` publishes `pid`. */
  predicate Sees(log: seq<Note>, w: Name, u: Name, pid: Name) {
    if log == [] then false
    else
      var n, init := log[|log| - 1], log[..|log| - 1];
      match n
      case Welcome(newcomer) => newcomer != w && Sees(init, w, u, pid)
      case Replay(v, q, newcomer) => (newcomer == w && v == u && q == pid) || Sees(init, w, u, pid)
      case _ => if About(n, u, pid) && w in n.to then n.Pub? else Sees(init, w, u, pid)
  }

  lemma SeesAppended(log: seq<Note>, n: Note, w: Name)
    ensures forall u, pid ::
              Sees(log + [n], w, u, pid) ==
              if n.Welcome? && n.newcomer == w then false
              else if n.Replay? && n.newcomer == w && n.user == u && n.pid == pid then true
              else if About(n, u, pid) && w in n.to then n.Pub?
              else Sees(log, w, u, pid)
  {
    assert (log + [n])[..|log|] == log;
  }

  predicate Mentioned(notes: seq<Note>, u: Name, pid: Name) {
    exists k :: 0 <= k < |notes| && About(notes[k], u, pid)
  }

  /** Everything in `notes` was sent to `w` too, and none of it is a reply to their login. */
  predicate Heard(notes: seq<Note>, w: Name) {
    forall k :: 0 <= k < |notes| ==>
      if notes[k].Pub? || notes[k].Unpub? then w in notes[k].to else notes[k].newcomer != w
  }

  lemma MentionedJoins(a: seq<Note>, b: seq<Note>, u: Name, pid: Name)
    ensures Mentioned(a + b, u, pid) <==> Mentioned(a, u, pid) || Mentioned(b, u, pid)
  {
    if k :| 0 <= k < |a| && About(a[k], u, pid) { assert About((a + b)[k], u, pid); }
    if k :| 0 <= k < |b| && About(b[k], u, pid) { assert About((a + b)[|a| + k], u, pid); }
  }

  lemma {:induction false} HearingAgrees(log: seq<Note>, more: seq<Note>, w: Name, u: Name, pid: Name)
    requires Heard(more, w)
    ensures Mentioned(more, u, pid) ==> Sees(log + more, w, u, pid) == LastIsPub(log + more, u, pid)
    ensures !Mentioned(more, u, pid) ==>
              && Sees(log + more, w, u, pid) == Sees(log, w, u, pid)
              && LastIsPub(log + more, u, pid) == LastIsPub(log, u, pid)
    decreases |more|
  {
    if more == [] {
      assert log + more == log;
    } else {
      var n, init := more[|more| - 1], more[..|more| - 1];
      assert log + more == log + init + [n];
      HearingAgrees(log, init, w, u, pid);
      SeesAppended(log + init, n, w);
      Appended(log + init, n);
      MentionedJoins(init, [n], u, pid);
      assert more == init + [n];
    }
  }

  // ---- Over a run ----

  /** Nobody in the room believes in a publisher that is not announced. */
  ghost predicate Sound(r: Room)
    requires RefsOk(r)
  {
    forall w, u, pid :: w in Recipients(r) && Sees(r.log, w, u, pid) ==> LastIsPub(r.log, u, pid)
  }

  lemma IceRecipients(r: Room, p: nat, state: IceState)
    requires RefsOk(r) && p < |r.peers|
    ensures Recipients(OnIce(r, p, state)) == Recipients(r)
  {
    var peer, r1 := r.peers[p], NotReady(r, p);
    assert Recipients(r1) == Recipients(r);
    if peer.session < |r.heap| && peer.pid in r.heap[peer.session].publishers {
      StopExtends(r1, peer.session, peer.pid);
      DropExtends(r1, peer.user, peer.pid);
    }
  }

  lemma LeaveRecipients(r: Room, u: Name, order: seq<Key>)
    requires RefsOk(r)
    ensures Recipients(Leave(r, u, order)) <= Recipients(r)
  {
    DropAllRecipients(r, order);
  }

  lemma EnterRecipients(r: Room, u: Name, origin: bool, podid: Name)
    requires RefsOk(r)
    ensures Recipients(Enter(r, u, origin, podid)) <= Recipients(r) + if origin then {u} else {}
  {}

  lemma RepublishRecipients(r: Room, u: Name, pid: Name, created: bool)
    requires RefsOk(r)
    ensures Recipients(Republish(r, u, pid, created)) == Recipients(r)
  {
    DropExtends(r, u, pid);
    var r1 := Drop(r, u, pid);
    if u in r.sessions { assert Recipients(Create(r1, u, pid)) == Recipients(r1); }
  }

  lemma LoginRecipients(r: Room, u: Name, order: seq<Key>, shown: seq<Key>)
    requires RefsOk(r) && Possible(r, Login(u, order, shown))
    ensures Recipients(Step(r, Login(u, order, shown))) <= Recipients(r) + {u}
  {
    LeaveRecipients(r, u, order);
    EnterRecipients(Leave(r, u, order), u, true, "");
    var r1 := Enter(Leave(r, u, order), u, true, "");
    assert Recipients(Step(r, Login(u, order, shown))) == Recipients(r1);
  }

  /** Nobody joins the origin users but by logging in. */
  lemma StepRecipients(r: Room, e: Event)
    requires RefsOk(r) && Possible(r, e)
    ensures Recipients(Step(r, e)) <= Recipients(r) + if e.Login? then {e.user} else {}
  {
    match e {
      case Login(u, order, shown) => LoginRecipients(r, u, order, shown);
      case Logout(u, order) => LeaveRecipients(r, u, order);
      case Push(u, pid, created) => RepublishRecipients(r, u, pid, created);
      case StopPush(u, pid) => DropExtends(r, u, pid);
      case FakePublish(u, podid, order) =>
        LeaveRecipients(r, u, order);
        EnterRecipients(Leave(r, u, order), u, false, podid);
      case FakeUnpublish(u, podid, order) => LeaveRecipients(r, u, order);
      case FakeOffer(u, pid, created) => RepublishRecipients(r, u, pid, created);
      case Ice(p, state) => IceRecipients(r, p, state);
      case DestroyRoom(order) =>
    }
  }

  lemma {:induction false} DropAllRecipients(r: Room, order: seq<Key>)
    requires RefsOk(r)
    ensures Recipients(DropAll(r, order)) == Recipients(r)
    decreases |order|
  {
    if order != [] {
      DropExtends(r, order[0].user, order[0].pid);
      DropAllRecipients(Drop(r, order[0].user, order[0].pid), order[1..]);
    }
  }

  /** What a step logs is heard by everyone who was there, unless the step is their own login. */
  lemma StepHeard(r: Room, e: Event, w: Name)
    requires RefsOk(r) && Possible(r, e) && w in Recipients(r) && Guest(e) != Some(w)
    ensures r.log <= Step(r, e).log && Heard(Step(r, e).log[|r.log|..], w)
  {
    StepExtends(r, e);
    var log := Step(r, e).log;
    forall k | 0 <= k < |log| - |r.log| ensures Told(log[|r.log|..][k], Recipients(r), Guest(e)) {
      assert Told(log[|r.log| + k], Recipients(r), Guest(e));
    }
  }

  lemma {:induction false} SeesShown(log: seq<Note>, shown: seq<Key>, w: Name, u: Name, pid: Name)
    ensures Sees(log + [Welcome(w)] + Replays(shown, w), w, u, pid) <==> Key(u, pid) in shown
    decreases |shown|
  {
    if shown == [] {
      assert log + [Welcome(w)] + Replays(shown, w) == log + [Welcome(w)];
      SeesAppended(log, Welcome(w), w);
    } else {
      var k, init := shown[|shown| - 1], shown[..|shown| - 1];
      assert shown == init + [k];
      ReplaysLast(init, k, w);
      SeesShown(log, init, w, u, pid);
      SeesAppended(log + [Welcome(w)] + Replays(init, w), Replay(k.user, k.pid, w), w);
      assert log + [Welcome(w)] + Replays(shown, w)
          == log + [Welcome(w)] + Replays(init, w) + [Replay(k.user, k.pid, w)];
    }
  }

  /** A user who just logged in sees what was shown to them. */
  lemma LoginSees(r: Room, w: Name, order: seq<Key>, shown: seq<Key>, u: Name, pid: Name)
    requires Inv(r) && Possible(r, Login(w, order, shown))
    ensures var r' := Step(r, Login(w, order, shown));
            && Inv(r') && (Sees(r'.log, w, u, pid) <==> Key(u, pid) in shown)
            && (Announced(r', u, pid) <==> Ready(r', Key(u, pid))) && Shows(r', shown)
  {
    var e := Login(w, order, shown);
    StepKeeps(r, e);
    var r1 := Enter(Leave(r, w, order), w, true, "");
    SeesShown(r1.log, shown, w, u, pid);
    assert forall k :: Ready(Step(r, e), k) == Ready(r1, k);
  }

  /** What is said, everyone who hears it knows; about the rest nothing changes. */
  lemma LogAgrees(r: Room, r': Room, w: Name, u: Name, pid: Name)
    requires Inv(r) && Inv(r') && r.log <= r'.log && Heard(r'.log[|r.log|..], w)
    ensures if Mentioned(r'.log[|r.log|..], u, pid) then Sees(r'.log, w, u, pid) == Announced(r', u, pid)
            else Sees(r'.log, w, u, pid) == Sees(r.log, w, u, pid) && Announced(r', u, pid) == Announced(r, u, pid)
  {
    HearingAgrees(r.log, r'.log[|r.log|..], w, u, pid);
    assert r.log + r'.log[|r.log|..] == r'.log;
  }

  lemma StepSound(r: Room, e: Event)
    requires Inv(r) && Possible(r, e) && Sound(r)
    ensures Inv(Step(r, e)) && Sound(Step(r, e))
  {
    StepKeeps(r, e);
    StepRecipients(r, e);
    var r' := Step(r, e);
    forall w, u, pid | w in Recipients(r') && Sees(r'.log, w, u, pid) ensures LastIsPub(r'.log, u, pid) {
      if Guest(e) == Some(w) {
        LoginSees(r, w, e.order, e.shown, u, pid);
      } else {
        StepHeard(r, e, w);
        LogAgrees(r, r', w, u, pid);
      }
    }
  }

  lemma {:induction false} RunSound(r: Room, es: seq<Event>)
    requires Inv(r) && Sound(r) && IsRun(r, es)
    ensures Inv(After(r, es)) && Sound(After(r, es))
    decreases |es|
  {
    if es != [] {
      StepSound(r, es[0]);
      RunSound(Step(r, es[0]), es[1..]);
    }
  }

  /** After every run, what an origin user in the room has been told is published is an announced publisher. */
  lemma ViewIsAnnounced(es: seq<Event>, r: Room, w: Name, u: Name, pid: Name)
    requires Reached(es, r) && RefsOk(r) && w in Recipients(r) && Sees(r.log, w, u, pid)
    ensures Announced(r, u, pid)
  {
    RunSound(EMPTY_ROOM, es);
  }

  // ---- What a newcomer is not told ----

  predicate TwoReady(r: Room, u: Name, p: Name, q: Name)
    requires RefsOk(r)
  {
    p != q && Ready(r, Key(u, p)) && Ready(r, Key(u, q))
  }

  ghost predicate SeesAll(r: Room, w: Name)
    requires RefsOk(r)
  {
    forall u, pid :: Announced(r, u, pid) ==> Sees(r.log, w, u, pid)
  }

  lemma ShownIsOnly(r: Room, shown: seq<Key>, u: Name, pid: Name)
    requires RefsOk(r) && Shows(r, shown) && Ready(r, Key(u, pid)) && Key(u, pid) !in shown
    ensures exists q :: TwoReady(r, u, pid, q)
  {
    var i :| 0 <= i < |shown| && shown[i].user == u;
    assert Ready(r, shown[i]) && shown[i] == Key(u, shown[i].pid);
    assert TwoReady(r, u, pid, shown[i].pid);
  }

  lemma OneIsHidden(shown: seq<Key>, u: Name, p: Name, q: Name)
    requires p != q && forall i, j :: 0 <= i < j < |shown| ==> shown[i].user != shown[j].user
    ensures Key(u, p) !in shown || Key(u, q) !in shown
  {
    if i :| 0 <= i < |shown| && shown[i] == Key(u, p) {
      forall j | 0 <= j < |shown| ensures shown[j] != Key(u, q) {
        assert i < j || j < i || shown[j] == Key(u, p);
      }
    }
  }

  /** A login shows the newcomer all announced publishers if and only if no user has two that are ready. */
  lemma LoginCompleteWhenSingle(es: seq<Event>, r: Room, w: Name, order: seq<Key>, shown: seq<Key>)
    requires Reached(es, r) && RefsOk(r) && Possible(r, Login(w, order, shown))
    ensures var r' := Step(r, Login(w, order, shown));
            SeesAll(r', w) <==> !exists u, p, q :: TwoReady(r', u, p, q)
  {
    ReachedInv(es, r);
    var r' := Step(r, Login(w, order, shown));
    LoginSees(r, w, order, shown, "", "");
    if u, p, q :| TwoReady(r', u, p, q) {
      LoginSees(r, w, order, shown, u, p);
      LoginSees(r, w, order, shown, u, q);
      OneIsHidden(shown, u, p, q);
    } else {
      forall u, pid | Announced(r', u, pid) ensures Sees(r'.log, w, u, pid) {
        LoginSees(r, w, order, shown, u, pid);
        if Key(u, pid) !in shown { ShownIsOnly(r', shown, u, pid); }
      }
    }
  }

  /** `w` is an origin user through all of `es` and does not log in again. */
  ghost predicate Stays(r: Room, es: seq<Event>, w: Name)
    requires RefsOk(r) && IsRun(r, es)
    decreases |es|
  {
    w in Recipients(r) && (es != [] ==> Guest(es[0]) != Some(w) && Stays(Step(r, es[0]), es[1..], w))
  }

  predicate Missing(r: Room, w: Name, u: Name, pid: Name)
    requires RefsOk(r)
  {
    Announced(r, u, pid) && !Sees(r.log, w, u, pid)
  }

  lemma StepMissing(r: Room, e: Event, r': Room, w: Name, u: Name, pid: Name)
    requires Inv(r) && Possible(r, e) && w in Recipients(r) && Guest(e) != Some(w) && r' == Step(r, e)
    ensures Inv(r') && r.log <= r'.log
    ensures Missing(r', w, u, pid) <==> Missing(r, w, u, pid) && !Mentioned(r'.log[|r.log|..], u, pid)
  {
    StepKeeps(r, e);
    StepHeard(r, e, w);
    LogAgrees(r, r', w, u, pid);
  }

  lemma MentionedSince(a: seq<Note>, b: seq<Note>, c: seq<Note>, u: Name, pid: Name)
    requires a <= b <= c
    ensures Mentioned(c[|a|..], u, pid) <==> Mentioned(b[|a|..], u, pid) || Mentioned(c[|b|..], u, pid)
  {
    MentionedJoins(b[|a|..], c[|b|..], u, pid);
    assert c[|a|..] == b[|a|..] + c[|b|..];
  }

  lemma {:induction false} RunMissing(r: Room, es: seq<Event>, w: Name, u: Name, pid: Name)
    requires Inv(r) && IsRun(r, es) && Stays(r, es, w)
    ensures var r' := After(r, es);
            && r.log <= r'.log
            && (Missing(r', w, u, pid) <==> Missing(r, w, u, pid) && !Mentioned(r'.log[|r.log|..], u, pid))
    decreases |es|
  {
    if es == [] {
      assert r.log[|r.log|..] == [];
    } else {
      var r1, r' := Step(r, es[0]), After(r, es);
      StepMissing(r, es[0], r1, w, u, pid);
      RunMissing(r1, es[1..], w, u, pid);
      MentionedSince(r.log, r1.log, r'.log, u, pid);
    }
  }

  /** From a login on, what a user who stays has not been told of is exactly what was ready and not shown then, and
      about which nothing has been sent since. */
  lemma MissingIsHiddenAtLogin(es: seq<Event>, r: Room, e: Event, later: seq<Event>, r': Room, u: Name, pid: Name)
    requires Reached(es, r) && RefsOk(r) && e.Login? && Possible(r, e)
    requires IsRun(Step(r, e), later) && Stays(Step(r, e), later, e.user) && After(Step(r, e), later) == r'
    ensures var r1 := Step(r, e);
            && r1.log <= r'.log
            && (Missing(r', e.user, u, pid) <==>
                Ready(r1, Key(u, pid)) && Key(u, pid) !in e.shown && !Mentioned(r'.log[|r1.log|..], u, pid))
  {
    ReachedInv(es, r);
    LoginSees(r, e.user, e.order, e.shown, u, pid);
    RunMissing(Step(r, e), later, e.user, u, pid);
  }
}
