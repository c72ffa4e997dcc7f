/** Allocation of MQTT packet identifiers (section 2.3.1 of MQTT 3.1.1) to tokens. */
module MqttMessageIds {
  // A token stands for an outstanding request.

  import opened Serial
  import opened Wrappers

  type Token = nat

  const MID_MAX := 65535

  /** The `k`th identifier after `last` around the circle 1..65535. */
  function Nth(last: u16, k: nat): u16
    requires 1 <= k <= MID_MAX
  {
    if last + k <= MID_MAX then last + k else last + k - MID_MAX
  }

  predicate InUse(used: set<u16>, last: u16, k: nat) {
    1 <= k <= MID_MAX && Nth(last, k) in used
  }

  /** The first free identifier from the `k`th on, or 0. */
  function Search(used: set<u16>, last: u16, k: nat): u16
    decreases MID_MAX + 1 - k, used
  {
    if InUse(used, last, k) then Search(used, last, k + 1)
    else if 1 <= k <= MID_MAX then Nth(last, k)
    else 0
  }

  /** `k` is the first position after `last` whose identifier is free. */
  predicate FirstFreeAt(used: set<u16>, last: u16, k: nat) {
    && 1 <= k <= MID_MAX && Nth(last, k) !in used
    && forall j :: 1 <= j < k ==> InUse(used, last, j)
  }

  lemma {:induction false} SearchFinds(used: set<u16>, last: u16, from: nat, k: nat)
    requires FirstFreeAt(used, last, k) && 1 <= from <= k
    ensures Search(used, last, from) == Nth(last, k)
    decreases k - from
  {
    if from < k {
      assert InUse(used, last, from);
      SearchFinds(used, last, from + 1, k);
    }
  }

  /** Every identifier has a position. */
  lemma PositionOf(last: u16, id: u16) returns (k: nat)
    requires id != 0
    ensures 1 <= k <= MID_MAX && Nth(last, k) == id
  {
    k := if id > last then id - last else id - last + MID_MAX;
  }

  lemma {:induction false} SearchFails(used: set<u16>, last: u16, from: nat)
    requires 1 <= from && Search(used, last, from) == 0
    ensures forall j :: from <= j <= MID_MAX ==> InUse(used, last, j)
    decreases MID_MAX + 1 - from
  {
    if from <= MID_MAX { SearchFails(used, last, from + 1); }
  }

  lemma {:induction false} SearchPosition(used: set<u16>, last: u16, from: nat) returns (k: nat)
    requires Search(used, last, from) != 0 && 1 <= from && forall j :: 1 <= j < from ==> InUse(used, last, j)
    ensures FirstFreeAt(used, last, k) && Search(used, last, from) == Nth(last, k)
    decreases MID_MAX + 1 - from
  {
    k := from;
    if InUse(used, last, from) { k := SearchPosition(used, last, from + 1); }
  }

  /** 0 exactly when every identifier is in use; otherwise the first free one after `last`. */
  lemma SearchMeaning(used: set<u16>, last: u16)
    ensures Search(used, last, 1) == 0 <==> forall id: u16 :: id != 0 ==> id in used
    ensures forall k :: FirstFreeAt(used, last, k) ==> Search(used, last, 1) == Nth(last, k)
    ensures Search(used, last, 1) != 0 ==> exists k :: FirstFreeAt(used, last, k)
  {
    if Search(used, last, 1) == 0 {
      SearchFails(used, last, 1);
      forall id: u16 | id != 0 ensures id in used {
        var k := PositionOf(last, id);
        assert InUse(used, last, k);
      }
    } else {
      var k := SearchPosition(used, last, 1);
    }
    forall k | FirstFreeAt(used, last, k) ensures Search(used, last, 1) == Nth(last, k) {
      SearchFinds(used, last, 1, k);
    }
  }

  /** An identifier that has just been freed is handed out again only if no other is free. */
  lemma ReusedOnlyAsLastResort(used: set<u16>, last: u16, id: u16)
    requires last != 0 && Search(used, last, 1) == last && id != 0 && id != last
    ensures id in used
  {
    SearchMeaning(used, last);
    var k := SearchPosition(used, last, 1);
    var j := PositionOf(last, id);
    assert k == MID_MAX && j < k;
    assert InUse(used, last, j);
  }

  // ---- Runs ----

  /** `live` lists the grants not yet given back: who was given which identifier. */
  datatype Grant = Grant(id: u16, token: Token)
  datatype State = State(index: map<u16, Token>, last: u16, live: seq<Grant>)

  datatype Op = Get(token: Token) | Free(id: u16) | Claim(token: Token, id: u16) | CleanUp

  function Without(live: seq<Grant>, id: u16): seq<Grant> {
    if live == [] then [] else (if live[0].id == id then [] else [live[0]]) + Without(live[1..], id)
  }

  /** The effect of each method on the object, and on the outstanding grants: a get adds one, a free ends
      those for its identifier, a claim ends the holder's and starts its own. */
  function Step(s: State, op: Op): State {
    match op
    case Get(t) =>
      var id := Search(s.index.Keys, s.last, 1);
      if id == 0 then s else State(s.index[id := t], id, s.live + [Grant(id, t)])
    case Free(id) => State(s.index - {id}, s.last, Without(s.live, id))
    case Claim(t, id) =>
      State(s.index[id := t], if id > s.last then id else s.last, Without(s.live, id) + [Grant(id, t)])
    case CleanUp => State(map[], s.last, [])
  }

  const INITIAL := State(map[], 0, [])

  /** What the next get issues; 0 if nothing is free. */
  function Next(s: State): u16 { Search(s.index.Keys, s.last, 1) }

  /** An identifier that was just issued, or claimed beyond the last one issued, and then given back is not issued next
      unless every other one is in use. */
  lemma NotReissuedAtOnce(s: State, op: Op, id: u16)
    requires (op.Get? && id == Next(s) != 0) || (op.Claim? && op.id == id > s.last)
    ensures var s' := Step(Step(s, op), Free(id));
            && id !in s'.index && (forall other :: other != id ==> (other in s'.index <==> other in s.index))
            && (Next(s') == id ==> forall other: u16 :: other != id && other != 0 ==> other in s.index)
  {
    var s' := Step(Step(s, op), Free(id));
    if Next(s') == id {
      forall other: u16 | other != id && other != 0 ensures other in s.index {
        ReusedOnlyAsLastResort(s'.index.Keys, s'.last, other);
      }
    }
  }

  function Run(s: State, ops: seq<Op>): State
    decreases |ops|
  {
    if ops == [] then s else Run(Step(s, ops[0]), ops[1..])
  }

  predicate Distinct(live: seq<Grant>) {
    forall i, j :: 0 <= i < j < |live| ==> live[i].id != live[j].id
  }

  predicate Holds(index: map<u16, Token>, g: Grant) { g.id in index && index[g.id] == g.token }

  /** No two live grants share an identifier, the index holds exactly the live grants, and none is above lastIssuedID
      while that is still 0. */
  ghost predicate Inv(s: State) {
    && Distinct(s.live)
    && (forall i :: 0 <= i < |s.live| ==> Holds(s.index, s.live[i]))
    && (forall id :: id in s.index ==> Grant(id, s.index[id]) in s.live)
    && (s.last == 0 ==> s.index.Keys <= {0})
  }

  /** Identifier 0 is in use only after a claim of it. */
  predicate Claims0(ops: seq<Op>) { exists k :: 0 <= k < |ops| && ops[k].Claim? && ops[k].id == 0 }

  lemma {:induction false} WithoutIs(live: seq<Grant>, id: u16)
    requires Distinct(live)
    ensures forall g :: g in Without(live, id) <==> g in live && g.id != id
    ensures Distinct(Without(live, id))
  {
    if live != [] {
      WithoutIs(live[1..], id);
      assert live == [live[0]] + live[1..];
      var rest := Without(live[1..], id);
      forall j | 0 <= j < |rest| ensures rest[j].id != live[0].id {
        assert rest[j] in live[1..];
      }
    }
  }

  lemma GetKeeps(s: State, t: Token)
    requires Inv(s)
    ensures Inv(Step(s, Get(t)))
  {
    SearchMeaning(s.index.Keys, s.last);
    var id := Search(s.index.Keys, s.last, 1);
    if id != 0 {
      var k := SearchPosition(s.index.Keys, s.last, 1);
      Added(s.index, s.live, Grant(id, t), id);
    }
  }

  lemma FreeKeeps(s: State, id: u16)
    requires Inv(s)
    ensures Inv(Step(s, Free(id)))
  {
    var s' := Step(s, Free(id));
    WithoutIs(s.live, id);
    forall i | 0 <= i < |s'.live| ensures Holds(s'.index, s'.live[i]) { assert s'.live[i] in s.live; }
  }

  /** A claim is a free, followed by a grant. */
  lemma ClaimKeeps(s: State, t: Token, id: u16)
    requires Inv(s)
    ensures Inv(Step(s, Claim(t, id)))
  {
    var s', freed := Step(s, Claim(t, id)), Step(s, Free(id));
    FreeKeeps(s, id);
    Added(freed.index, freed.live, Grant(id, t), s'.last);
    assert freed.index[id := t] == s'.index;
  }

  lemma StepKeeps(s: State, op: Op)
    requires Inv(s)
    ensures Inv(Step(s, op))
  {
    match op {
      case Get(t) => GetKeeps(s, t);
      case Free(id) => FreeKeeps(s, id);
      case Claim(t, id) => ClaimKeeps(s, t, id);
      case CleanUp =>
    }
  }

  lemma Added(index: map<u16, Token>, live: seq<Grant>, g: Grant, last: u16)
    requires Inv(State(index, last, live)) && g.id <= last && g.id !in index
    ensures Inv(State(index[g.id := g.token], last, live + [g]))
  {
    forall i | 0 <= i < |live| ensures live[i].id != g.id { assert Holds(index, live[i]); }
    forall id | id in index ensures Grant(id, index[id]) in live + [g] {}
    assert g in live + [g];
  }

  lemma {:induction false} RunKeeps(s: State, ops: seq<Op>)
    requires Inv(s)
    ensures Inv(Run(s, ops))
    decreases |ops|
  {
    if ops != [] {
      StepKeeps(s, ops[0]);
      RunKeeps(Step(s, ops[0]), ops[1..]);
    }
  }

  /** After every run, live tokens hold different identifiers, and each is found under its own. */
  lemma LiveTokensNeverShare(ops: seq<Op>, i: nat, j: nat)
    requires i < |Run(INITIAL, ops).live| && j < |Run(INITIAL, ops).live|
    ensures var s := Run(INITIAL, ops);
            && (i != j ==> s.live[i].id != s.live[j].id)
            && Holds(s.index, s.live[i])
  {
    RunKeeps(INITIAL, ops);
    assert Holds(Run(INITIAL, ops).index, Run(INITIAL, ops).live[i]);
  }

  lemma {:induction false} ZeroStays(s: State, ops: seq<Op>)
    requires 0 !in s.index && !Claims0(ops)
    ensures 0 !in Run(s, ops).index
    decreases |ops|
  {
    if ops != [] {
      forall k | 0 <= k < |ops[1..]| ensures !(ops[1..][k].Claim? && ops[1..][k].id == 0) {
        assert ops[1..][k] == ops[k + 1];
      }
      assert !(ops[0].Claim? && ops[0].id == 0);
      ZeroStays(Step(s, ops[0]), ops[1..]);
    }
  }

  /** No live token holds 0, the identifier MQTT forbids, in a run that never claims it. */
  lemma LiveIdsAreValid(ops: seq<Op>, i: nat)
    requires !Claims0(ops) && i < |Run(INITIAL, ops).live|
    ensures Run(INITIAL, ops).live[i].id != 0
  {
    LiveTokensNeverShare(ops, i, i);
    ZeroStays(INITIAL, ops);
  }

  /** claimID does not look at the identifier. */
  lemma ClaimOf0IsLive(ops: seq<Op>, t: Token)
    ensures Grant(0, t) in Run(INITIAL, ops + [Claim(t, 0)]).live
  {
    RunAppends(INITIAL, ops, Claim(t, 0));
    var live := Without(Run(INITIAL, ops).live, 0);
    assert (live + [Grant(0, t)])[|live|] == Grant(0, t);
  }

  lemma {:induction false} RunAppends(s: State, ops: seq<Op>, op: Op)
    ensures Run(s, ops + [op]) == Step(Run(s, ops), op)
    decreases |ops|
  {
    if ops == [] {
      assert ops + [op] == [op];
    } else {
      assert (ops + [op])[1..] == ops[1..] + [op];
      RunAppends(Step(s, ops[0]), ops[1..], op);
    }
  }

  predicate ValidIds(s: State) { forall i :: 0 <= i < |s.live| ==> s.live[i].id != 0 }

  /** All through a run live identifiers are valid if and only if it never claims 0. */
  lemma ValidUnless0IsClaimed(ops: seq<Op>)
    ensures (forall n :: 0 <= n <= |ops| ==> ValidIds(Run(INITIAL, ops[..n]))) <==> !Claims0(ops)
  {
    if k :| 0 <= k < |ops| && ops[k].Claim? && ops[k].id == 0 {
      ClaimOf0IsLive(ops[..k], ops[k].token);
      assert ops[..k + 1] == ops[..k] + [ops[k]];
      assert !ValidIds(Run(INITIAL, ops[..k + 1]));
    } else {
      forall n | 0 <= n <= |ops| ensures ValidIds(Run(INITIAL, ops[..n])) {
        forall i | 0 <= i < |Run(INITIAL, ops[..n]).live| ensures Run(INITIAL, ops[..n]).live[i].id != 0 {
          assert !Claims0(ops[..n]);
          LiveIdsAreValid(ops[..n], i);
        }
      }
    }
  }

  // ---- The object ----

  class MessageIds {
    var index: map<u16, Token>
    var lastIssuedID: u16
    ghost var live: seq<Grant>

    ghost function Value(): State
      reads this
    {
      State(index, lastIssuedID, live)
    }

    constructor ()
      ensures Value() == INITIAL
    {
      index, lastIssuedID, live := map[], 0, [];
    }

    method FreeID(id: u16)
      modifies this
      ensures Value() == Step(old(Value()), Free(id))
    {
      index := index - {id};
      live := Without(live, id);
    }

    /** Takes the identifier over; the token that held it, if any, is completed. */
    method ClaimID(token: Token, id: u16) returns (completed: Option<Token>)
      modifies this
      ensures Value() == Step(old(Value()), Claim(token, id))
      ensures completed == if id in old(index) then Some(old(index)[id]) else None
    {
      if id !in index {
        completed := None;
        index := index[id := token];
      } else {
        completed := Some(index[id]);
        index := index[id := token];
      }
      if id > lastIssuedID { lastIssuedID := id; }
      live := Without(live, id) + [Grant(id, token)];
    }

    /** The loop ends, having found what Search says. */
    method GetID(t: Token) returns (id: u16)
      modifies this
      ensures id == Search(old(index).Keys, old(lastIssuedID), 1)
      ensures Value() == Step(old(Value()), Get(t))
    {
      var i, looped := lastIssuedID, false;
      ghost var k := 0;
      while true
        invariant k < MID_MAX && i == (if k == 0 then lastIssuedID else Nth(lastIssuedID, k))
        invariant looped <==> lastIssuedID + k > MID_MAX
        invariant Search(index.Keys, lastIssuedID, k + 1) == Search(index.Keys, lastIssuedID, 1)
        invariant Value() == old(Value())
        decreases MID_MAX - k
      {
        i := if i == MID_MAX then 0 else i + 1;
        if i == 0 {
          i := i + 1;
          looped := true;
        }
        k := k + 1;
        if i !in index {
          index := index[i := t];
          lastIssuedID := i;
          live := live + [Grant(i, t)];
          return i;
        }
        assert InUse(index.Keys, lastIssuedID, k);
        if (looped && i == lastIssuedID) || (lastIssuedID == 0 && i == MID_MAX) {
          return 0;
        }
      }
    }

    /** Completes every token and forgets them. */
    method CleanUpAll() returns (completed: set<Token>)
      modifies this
      ensures Value() == Step(old(Value()), CleanUp)
      ensures completed == old(index).Values
    {
      completed := index.Values;
      index, live := map[], [];
    }
  }
}
