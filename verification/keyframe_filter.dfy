/** The filter that thins out keyframe requests. */
module KeyframeFilters {
  // One request goes out at most every `min`, and from a ticking filter at least one every `max`.

  import opened Wrappers

  /** `armed` is when the timer goes off; `ticked` is a value waiting in its channel, which holds one. */
  datatype Timer = NoTimer | Timer(armed: Option<int>, ticked: bool)

  /** `spawned` counts goroutines about to run requestKeyframeNow. `unserved` and `sends` record history: whether
      a request came after the last send, and when sends happened. Times are in nanoseconds. */
  datatype Filter = Filter(min: int, max: int, tick: bool, timer: Timer, cached: bool, lasttime: int,
                           spawned: nat, unserved: bool, sends: seq<int>)

  function Rearm(f: Filter, now: int, d: int): Filter {
    f.(timer := Timer(Some(now + d), f.timer.Timer? && f.timer.ticked))
  }

  function Startup(min: int, max: int, tick: bool, now: int): Filter {
    var f := Filter(min, max, tick, NoTimer, false, 0, 0, false, []);
    if tick then Rearm(f, now, max) else f
  }

  // ---- Events ----

  /** A request; the timer going off; the waiting goroutine taking the tick; a spawned send running. */
  datatype Event = Request | Fire | Receive | Send

  predicate Enabled(f: Filter, e: Event, now: int) {
    match e
    case Request => true
    case Fire => f.timer.Timer? && f.timer.armed.Some? && f.timer.armed.value <= now
    case Receive => f.timer.Timer? && f.timer.ticked
    case Send => f.spawned > 0
  }

  function Requested(f: Filter, now: int): Filter {
    var g := f.(unserved := true);
    if f.cached then g
    else if now - f.lasttime >= f.min then g.(spawned := f.spawned + 1)
    else Rearm(g.(cached := true), now, f.min - now + f.lasttime)
  }

  function Sent(f: Filter, now: int): Filter
    requires f.spawned > 0
  {
    var g := f.(lasttime := now, cached := false, spawned := f.spawned - 1, unserved := false,
                 sends := f.sends + [now]);
    if f.tick then Rearm(g, now, f.max) else g
  }

  function Step(f: Filter, e: Event, now: int): Filter
    requires Enabled(f, e, now)
  {
    match e
    case Request => Requested(f, now)
    case Fire => f.(timer := Timer(None, true))
    case Receive => f.(timer := f.timer.(ticked := false), spawned := f.spawned + 1)
    case Send => Sent(f, now)
  }

  // ---- Every interleaving ----

  datatype Timed = At(e: Event, now: int)

  predicate Schedule(f: Filter, es: seq<Timed>)
    decreases |es|
  {
    es == [] || (Enabled(f, es[0].e, es[0].now) && Schedule(Step(f, es[0].e, es[0].now), es[1..]))
  }

  function Run(f: Filter, es: seq<Timed>): Filter
    requires Schedule(f, es)
    decreases |es|
  {
    if es == [] then f else Run(Step(f, es[0].e, es[0].now), es[1..])
  }

  /** The timer is set for the end of the minimum interval, or has gone off and waits to be noticed. */
  predicate TimerWillServe(f: Filter) {
    f.timer.Timer? && (f.timer.armed == Some(f.lasttime + f.min) || f.timer.ticked)
  }

  /** Nothing asked for is forgotten. */
  predicate Owed(f: Filter) {
    && (f.unserved ==> f.spawned > 0 || f.cached)
    && (f.cached ==> f.spawned > 0 || TimerWillServe(f))
  }

  lemma {:induction false} OwedAlways(f: Filter, es: seq<Timed>)
    requires Owed(f) && Schedule(f, es)
    ensures Owed(Run(f, es))
    decreases |es|
  {
    if es != [] { OwedAlways(Step(f, es[0].e, es[0].now), es[1..]); }
  }

  /** Whatever happened since Startup, a request not yet served has a send on its way, or is cached with the
      timer set for the end of the minimum interval. */
  lemma UnservedIsOwed(min: int, max: int, tick: bool, start: int, es: seq<Timed>)
    requires Schedule(Startup(min, max, tick, start), es)
    ensures var f := Run(Startup(min, max, tick, start), es);
            f.unserved ==> f.spawned > 0 || (f.cached && TimerWillServe(f))
  {
    OwedAlways(Startup(min, max, tick, start), es);
  }

  lemma EventFirst(f: Filter, t: Timed, es: seq<Timed>)
    requires Enabled(f, t.e, t.now) && Schedule(Step(f, t.e, t.now), es)
    ensures Schedule(f, [t] + es) && Run(f, [t] + es) == Run(Step(f, t.e, t.now), es)
  {
    assert ([t] + es)[1..] == es;
  }

  /** A tick that waits leads to a send. */
  lemma TickServes(f: Filter, now: int)
    requires Enabled(f, Receive, now)
    ensures var es := [At(Receive, now), At(Send, now)];
            Schedule(f, es) && !Run(f, es).unserved && Run(f, es).sends == f.sends + [now]
  {
    var f1 := Step(f, Receive, now);
    EventFirst(f1, At(Send, now), []);
    assert [At(Send, now)] + [] == [At(Send, now)];
    EventFirst(f, At(Receive, now), [At(Send, now)]);
    assert [At(Receive, now)] + [At(Send, now)] == [At(Receive, now), At(Send, now)];
  }

  /** So it can be served without any further request: by at most three events, none of which need wait
      beyond the end of the minimum interval. */
  lemma UnservedCanBeServed(f: Filter, now: int) returns (es: seq<Timed>)
    requires Owed(f) && f.unserved
    ensures 1 <= |es| <= 3 && Schedule(f, es) && !Run(f, es).unserved
            && Run(f, es).sends == f.sends + [es[|es| - 1].now]
    ensures forall i :: 0 <= i < |es| ==>
              es[i].e != Request && (es[i].now == now || es[i].now == f.lasttime + f.min >= now)
  {
    var t := if f.lasttime + f.min >= now then f.lasttime + f.min else now;
    if f.spawned > 0 {
      es := [At(Send, now)];
    } else if f.timer.ticked {
      es := [At(Receive, now), At(Send, now)];
      TickServes(f, now);
    } else {
      es := [At(Receive, t), At(Send, t)];
      TickServes(Step(f, Fire, t), t);
      EventFirst(f, At(Fire, t), es);
      es := [At(Fire, t)] + es;
    }
  }

  /** A request is served at once, by a single send, if none is cached and the minimum interval is over; otherwise it
      waits, cached, and starts no send of its own. */
  lemma RequestIsPromptOrWaits(f: Filter, now: int)
    ensures !f.cached && now - f.lasttime >= f.min ==>
              var es := [At(Request, now), At(Send, now)];
              Schedule(f, es) && Run(f, es).sends == f.sends + [now] && !Run(f, es).unserved
              && Run(f, es).spawned == f.spawned
    ensures f.cached || now - f.lasttime < f.min ==>
              var g := Step(f, Request, now); g.cached && g.unserved && g.spawned == f.spawned && g.sends == f.sends
  {
    if !f.cached && now - f.lasttime >= f.min {
      var g := Step(f, Request, now);
      EventFirst(g, At(Send, now), []);
      assert [At(Send, now)] + [] == [At(Send, now)];
      EventFirst(f, At(Request, now), [At(Send, now)]);
      assert [At(Request, now)] + [At(Send, now)] == [At(Request, now), At(Send, now)];
    }
  }

  // ---- When sends keep the minimum interval ----

  predicate Ticked(f: Filter) { f.timer.Timer? && f.timer.ticked }

  /** The event starts a goroutine that will send. */
  predicate Spawns(f: Filter, e: Event, now: int) {
    e == Receive || (e == Request && !f.cached && now - f.lasttime >= f.min)
  }

  /** Nothing is spawned while a send is pending, and no send runs while a tick waits. */
  predicate Guard(f: Filter, e: Event, now: int) {
    (Spawns(f, e, now) ==> f.spawned == 0) && (e == Send ==> !Ticked(f))
  }

  predicate Guarded(f: Filter, es: seq<Timed>)
    requires Schedule(f, es)
    decreases |es|
  {
    es == [] || (Guard(f, es[0].e, es[0].now) && Guarded(Step(f, es[0].e, es[0].now), es[1..]))
  }

  /** The clock does not run backwards. */
  predicate Monotone(es: seq<Timed>, from: int) {
    es == [] || (from <= es[0].now && Monotone(es[1..], es[0].now))
  }

  predicate Spaced(sends: seq<int>, min: int) {
    forall i, j :: 0 <= i && j == i + 1 < |sends| ==> sends[j] - sends[i] >= min
  }

  function Latest(f: Filter, start: int): int { if f.sends == [] then start else f.sends[|f.sends| - 1] }

  /** Whatever leads to a send lies at or beyond the end of the minimum interval; a filter that does not tick
      has its timer in use only for a cached request. */
  predicate OnTrack(f: Filter, now: int) {
    && f.spawned <= 1 && f.lasttime == Latest(f, 0) && 0 <= f.min <= f.max && f.lasttime <= now
    && (f.spawned == 1 || Ticked(f) ==> now >= f.lasttime + f.min)
    && (f.timer.Timer? && f.timer.armed.Some? ==> f.timer.armed.value >= f.lasttime + f.min)
    && (!f.tick && f.timer.Timer? && (f.timer.armed.Some? || f.timer.ticked) ==>
          f.cached && f.spawned == 0 && !(f.timer.armed.Some? && f.timer.ticked))
    && Spaced(f.sends, f.min)
  }

  lemma OneMoreSend(sends: seq<int>, now: int, min: int)
    requires Spaced(sends, min) && (sends != [] ==> now - sends[|sends| - 1] >= min)
    ensures Spaced(sends + [now], min)
  {}

  lemma GuardedStep(f: Filter, t: Timed, before: int)
    requires OnTrack(f, before) && before <= t.now && Enabled(f, t.e, t.now) && Guard(f, t.e, t.now)
    ensures OnTrack(Step(f, t.e, t.now), t.now)
  {
    if t.e == Send { OneMoreSend(f.sends, t.now, f.min); }
  }

  lemma {:induction false} GuardedKeeps(f: Filter, es: seq<Timed>, before: int)
    requires OnTrack(f, before) && Schedule(f, es) && Monotone(es, before) && Guarded(f, es)
    ensures Spaced(Run(f, es).sends, f.min)
    decreases |es|
  {
    if es != [] {
      GuardedStep(f, es[0], before);
      GuardedKeeps(Step(f, es[0].e, es[0].now), es[1..], es[0].now);
    }
  }

  /** In every interleaving that keeps the guards, consecutive sends are at least `min` apart. */
  lemma GuardedSendsAreSpaced(min: int, max: int, tick: bool, start: int, es: seq<Timed>)
    requires 0 <= min <= max && 0 <= start
    requires Schedule(Startup(min, max, tick, start), es) && Monotone(es, start)
             && Guarded(Startup(min, max, tick, start), es)
    ensures Spaced(Run(Startup(min, max, tick, start), es).sends, min)
  {
    GuardedKeeps(Startup(min, max, tick, start), es, start);
  }

  /** Only sends and ticks being noticed, all at the same moment. */
  predicate AtOnce(es: seq<Timed>, now: int) {
    forall i :: 0 <= i < |es| ==> (es[i].e == Send || es[i].e == Receive) && es[i].now == now
  }

  lemma TwoSends(f: Filter, now: int)
    requires f.spawned >= 2
    ensures var es := [At(Send, now), At(Send, now)]; Schedule(f, es) && Run(f, es).sends == f.sends + [now] + [now]
  {
    var f1 := Step(f, Send, now);
    EventFirst(f1, At(Send, now), []);
    assert [At(Send, now)] + [] == [At(Send, now)];
    EventFirst(f, At(Send, now), [At(Send, now)]);
    assert [At(Send, now)] + [At(Send, now)] == [At(Send, now), At(Send, now)];
  }

  /** From any state, an event that breaks a guard can be followed at once by sends at the same moment. */
  lemma BrokenGuardCrowds(f: Filter, e: Event, now: int) returns (es: seq<Timed>)
    requires Enabled(f, e, now) && !Guard(f, e, now)
    ensures AtOnce(es, now) && Schedule(Step(f, e, now), es)
    ensures Run(Step(f, e, now), es).sends == f.sends + [now] + [now]
  {
    var g := Step(f, e, now);
    if e == Send {
      es := [At(Receive, now), At(Send, now)];
      TickServes(g, now);
    } else {
      es := [At(Send, now), At(Send, now)];
      TwoSends(g, now);
    }
  }

  lemma CrowdedAtEnd(sends: seq<int>, now: int, min: int)
    requires min > 0
    ensures !Spaced(sends + [now] + [now], min)
  {
    var all := sends + [now] + [now];
    assert all[|sends|] == now && all[|sends| + 1] == now;
    var i, j := |sends|, |sends| + 1;
    assert all[j] - all[i] < min;
  }

  lemma StepKeepsMin(f: Filter, es: seq<Timed>)
    requires Schedule(f, es) && es != []
    ensures Step(f, es[0].e, es[0].now).min == f.min
  {}

  /** An interleaving that breaks a guard has a prefix which, continued by sends and noticed ticks at the same
      moment, crowds. */
  lemma {:induction false} UnguardedCrowds(f: Filter, es: seq<Timed>) returns (k: nat, c: seq<Timed>)
    requires Schedule(f, es) && !Guarded(f, es) && f.min > 0
    ensures 1 <= k <= |es| && AtOnce(c, es[k - 1].now)
    ensures Schedule(f, es[..k] + c) && !Spaced(Run(f, es[..k] + c).sends, f.min)
    decreases |es|
  {
    var t, g := es[0], Step(f, es[0].e, es[0].now);
    if !Guard(f, t.e, t.now) {
      k := 1;
      c := BrokenGuardCrowds(f, t.e, t.now);
      CrowdedAtEnd(f.sends, t.now, f.min);
      EventFirst(f, t, c);
      assert es[..1] + c == [t] + c;
    } else {
      StepKeepsMin(f, es);
      var k', c' := UnguardedCrowds(g, es[1..]);
      k, c := k' + 1, c';
      EventFirst(f, t, es[1..][..k'] + c);
      assert es[..k] + c == [t] + (es[1..][..k'] + c);
    }
  }

  /** Two ways to crowd: a second request before the first send has run, and a tick that was waiting while a
      send ran. */
  lemma SendsMayCrowd(start: int)
    requires start >= 2
    ensures var es := [At(Request, start), At(Request, start), At(Send, start), At(Send, start)];
            var f := Startup(2, 30, false, start);
            Schedule(f, es) && Run(f, es).sends == [start, start]
  {
    var f := Startup(2, 30, false, start);
    var f1 := Step(f, Request, start);
    var f2 := Step(f1, Request, start);
    var more := [At(Send, start), At(Send, start)];
    TwoSends(f2, start);
    EventFirst(f1, At(Request, start), more);
    EventFirst(f, At(Request, start), [At(Request, start)] + more);
    assert [At(Request, start)] + ([At(Request, start)] + more)
        == [At(Request, start), At(Request, start), At(Send, start), At(Send, start)];
  }

  lemma StaleTickMayCrowd(start: int, t: int)
    requires start >= 0 && t == start + 30
    ensures var es := [At(Fire, t), At(Request, t), At(Send, t), At(Receive, t), At(Send, t)];
            var f := Startup(2, 30, true, start);
            Schedule(f, es) && Run(f, es).sends == [t, t]
  {
    var f := Startup(2, 30, true, start);
    var f1 := Step(f, Fire, t);
    var f2 := Step(f1, Request, t);
    var f3 := Step(f2, Send, t);
    var more := [At(Receive, t), At(Send, t)];
    TickServes(f3, t);
    EventFirst(f2, At(Send, t), more);
    EventFirst(f1, At(Request, t), [At(Send, t)] + more);
    EventFirst(f, At(Fire, t), [At(Request, t)] + ([At(Send, t)] + more));
    assert [At(Fire, t)] + ([At(Request, t)] + ([At(Send, t)] + more))
        == [At(Fire, t), At(Request, t), At(Send, t), At(Receive, t), At(Send, t)];
  }

  // ---- Prompt runs ----

  /** What happens when every spawned send runs at once and every timer goes off on time. */
  datatype Moment = Ask | Expire | Wait(until: int)

  datatype Clocked = Clocked(f: Filter, now: int)

  predicate Due(c: Clocked) { Enabled(c.f, Fire, c.now) }

  predicate Possible(c: Clocked, m: Moment) {
    match m
    case Ask => true
    case Expire => Due(c)
    case Wait(t) => c.now <= t && (c.f.timer.Timer? && c.f.timer.armed.Some? ==> t <= c.f.timer.armed.value)
  }

  /** Each moment is made of the events above. */
  function Happen(c: Clocked, m: Moment): Clocked
    requires Possible(c, m)
  {
    match m
    case Ask =>
      var f := Step(c.f, Request, c.now);
      c.(f := if f.spawned > 0 then Step(f, Send, c.now) else f)
    case Expire => c.(f := Step(Step(Step(c.f, Fire, c.now), Receive, c.now), Send, c.now))
    case Wait(t) => c.(now := t)
  }

  predicate PromptRun(c: Clocked, ms: seq<Moment>)
    decreases |ms|
  {
    ms == [] || (Possible(c, ms[0]) && PromptRun(Happen(c, ms[0]), ms[1..]))
  }

  function After(c: Clocked, ms: seq<Moment>): Clocked
    requires PromptRun(c, ms)
    decreases |ms|
  {
    if ms == [] then c else After(Happen(c, ms[0]), ms[1..])
  }

  predicate Frequent(sends: seq<int>, max: int) {
    forall i, j :: 0 <= i && j == i + 1 < |sends| ==> sends[j] - sends[i] <= max
  }

  /** When the timer is armed: for the end of the minimum interval if a request is cached, else, if the
      filter ticks, for the end of the maximum interval. */
  predicate Quiet(c: Clocked, start: int) {
    var f := c.f;
    && f.spawned == 0 && (f.timer.Timer? ==> !f.timer.ticked)
    && f.lasttime == Latest(f, 0) && Latest(f, start) <= c.now
    && (if f.cached then f.timer.Timer? && f.timer.armed == Some(f.lasttime + f.min)
        else if f.tick then f.timer.Timer? && f.timer.armed == Some(Latest(f, start) + f.max)
        else f.timer.Timer? ==> f.timer.armed.None?)
    && (f.timer.Timer? && f.timer.armed.Some? ==> c.now <= f.timer.armed.value)
  }

  predicate Good(c: Clocked, start: int) {
    && Quiet(c, start)
    && Spaced(c.f.sends, c.f.min)
    && (c.f.tick ==> Frequent(c.f.sends, c.f.max) && (c.f.sends != [] ==> c.f.sends[0] - start <= c.f.max))
  }

  lemma Appended(sends: seq<int>, now: int, min: int, max: int)
    ensures Spaced(sends, min) && (sends != [] ==> now - sends[|sends| - 1] >= min) ==> Spaced(sends + [now], min)
    ensures Frequent(sends, max) && (sends != [] ==> now - sends[|sends| - 1] <= max) ==> Frequent(sends + [now], max)
  {}

  predicate SameSettings(f: Filter, g: Filter) { f.min == g.min && f.max == g.max && f.tick == g.tick }

  /** A send at `now`, at least `min` and for a ticking filter at most `max` after the last. */
  lemma SendKeeps(c: Clocked, f: Filter, start: int)
    requires Good(c, start) && 0 <= c.f.min <= c.f.max
    requires SameSettings(c.f, f) && f.spawned == 1 && f.sends == c.f.sends && (f.timer.Timer? ==> !f.timer.ticked)
    requires f.tick || f.timer.NoTimer? || f.timer.armed.None?
    requires c.f.sends != [] ==> c.now - Latest(c.f, start) >= c.f.min
    requires c.f.tick ==> c.now - Latest(c.f, start) <= c.f.max
    ensures Good(c.(f := Sent(f, c.now)), start)
  {
    Appended(c.f.sends, c.now, c.f.min, c.f.max);
  }

  /** Under Good the last send is never longer ago than `max`. */
  lemma NeverLate(c: Clocked, start: int)
    requires Good(c, start) && 0 <= c.f.min <= c.f.max && 0 <= start && c.f.tick
    ensures c.now - Latest(c.f, start) <= c.f.max
  {}

  lemma AskKeeps(c: Clocked, start: int)
    requires Good(c, start) && 0 <= c.f.min <= c.f.max && 0 <= start
    ensures Good(Happen(c, Ask), start)
  {
    if c.f.tick { NeverLate(c, start); }
    var f := Requested(c.f, c.now);
    if f.spawned > 0 { SendKeeps(c, f, start); }
  }

  lemma ExpireKeeps(c: Clocked, start: int)
    requires Good(c, start) && 0 <= c.f.min <= c.f.max && 0 <= start && Due(c)
    ensures Good(Happen(c, Expire), start)
  {
    if c.f.tick { NeverLate(c, start); }
    SendKeeps(c, Step(Step(c.f, Fire, c.now), Receive, c.now), start);
  }

  lemma MomentKeeps(c: Clocked, m: Moment, start: int)
    requires Good(c, start) && Possible(c, m) && 0 <= c.f.min <= c.f.max && 0 <= start
    ensures Good(Happen(c, m), start) && SameSettings(c.f, Happen(c, m).f)
  {
    match m {
      case Ask => AskKeeps(c, start);
      case Expire => ExpireKeeps(c, start);
      case Wait(t) =>
    }
  }

  lemma {:induction false} PromptKeeps(c: Clocked, ms: seq<Moment>, start: int)
    requires Good(c, start) && PromptRun(c, ms) && 0 <= c.f.min <= c.f.max && 0 <= start
    ensures Good(After(c, ms), start) && SameSettings(c.f, After(c, ms).f)
    decreases |ms|
  {
    if ms != [] {
      MomentKeeps(c, ms[0], start);
      PromptKeeps(Happen(c, ms[0]), ms[1..], start);
    }
  }

  /** Consecutive sends are at least `min` apart; for a ticking filter at most `max`, and never is the last
      send, or Startup, longer ago than that. */
  lemma SendsAreSpaced(min: int, max: int, tick: bool, start: int, ms: seq<Moment>)
    requires 0 <= min <= max && 0 <= start && PromptRun(Clocked(Startup(min, max, tick, start), start), ms)
    ensures var c := After(Clocked(Startup(min, max, tick, start), start), ms);
            && Spaced(c.f.sends, min)
            && (tick ==> Frequent(c.f.sends, max) && c.now - Latest(c.f, start) <= max)
  {
    PromptKeeps(Clocked(Startup(min, max, tick, start), start), ms, start);
  }

  // ---- The object ----

  /** The clock is a parameter of each method; a started goroutine is one more in `spawned`, or the one that
      waits on the timer. */
  class KeyframeFilter {
    const minInterval: int := 2_000_000_000
    const maxInterval: int := 30_000_000_000
    const tick: bool
    var timer: Timer
    var cached: bool
    var lasttime: int
    var spawned: nat
    var started: bool
    ghost var unserved: bool
    ghost var sends: seq<int>

    ghost function Value(): Filter
      reads this
    {
      Filter(minInterval, maxInterval, tick, timer, cached, lasttime, spawned, unserved, sends)
    }

    constructor (tick: bool)
      ensures this.tick == tick && !started && Value() == Startup(minInterval, maxInterval, false, 0).(tick := tick)
    {
      this.tick, timer, cached, lasttime, spawned, started := tick, NoTimer, false, 0, 0, false;
      unserved, sends := false, [];
    }

    method StartDelayTimer(now: int, d: int)
      modifies this`timer
      ensures timer == Timer(Some(now + d), false)
    {
      timer := Timer(Some(now + d), false);
    }

    /** A ticking filter gets a new timer; from the initial state this is the start of every run. */
    method Start(now: int)
      modifies this`started, this`timer
      ensures started && timer == if tick then Timer(Some(now + maxInterval), false) else old(timer)
      ensures old(Value()) == Startup(minInterval, maxInterval, false, 0).(tick := tick) ==>
                Value() == Startup(minInterval, maxInterval, tick, now)
    {
      started := true;
      if tick { StartDelayTimer(now, maxInterval); }
    }

    /** The callback is dropped only if there is a timer. Sends already spawned stay so. */
    method Shutdown()
      modifies this`started, this`timer, this`cached, this`lasttime
      ensures !cached && lasttime == 0 && timer.NoTimer? && started == (old(started) && old(timer).NoTimer?)
    {
      if timer.Timer? {
        started := false;
        timer := NoTimer;
      }
      cached, lasttime := false, 0;
    }

    /** Does nothing when there is nothing to call any more. */
    method RefreshMaxIntervalTimer(now: int, d: int)
      modifies this`timer
      ensures Value() == if started then Rearm(old(Value()), now, d) else old(Value())
    {
      if !started { return; }
      if timer.NoTimer? {
        StartDelayTimer(now, d);
      } else {
        timer := timer.(armed := Some(now + d));
      }
    }

    /** Without a callback the timer is left alone. */
    method TryRequestKeyframe(now: int)
      modifies this
      ensures started == old(started)
      ensures Value() == if started then Step(old(Value()), Request, now)
                         else Requested(old(Value()), now).(timer := old(timer))
    {
      unserved := true;
      if !cached {
        if now - lasttime >= minInterval {
          spawned := spawned + 1;
        } else {
          cached := true;
          RefreshMaxIntervalTimer(now, minInterval - now + lasttime);
        }
      }
    }

    /** One of the spawned goroutines runs; with the callback gone the program stops. */
    method RequestKeyframeNow(now: int) returns (stops: bool)
      requires spawned > 0
      modifies this
      ensures stops == !old(started) && started == old(started)
      ensures Value() == if stops then old(Value()) else Step(old(Value()), Send, now)
    {
      if !started { return true; }
      stops := false;
      spawned := spawned - 1;
      unserved, sends := false, sends + [now];
      lasttime := now;
      if cached { cached := false; }
      if tick { RefreshMaxIntervalTimer(now, maxInterval); }
    }
  }
}
