/** Choosing the minter of a credential read: affinity order, capacity, retirement and the breaker's
    claim, together. */
module Selection {
  import opened Order
  import opened Affinity
  import opened Common
  import opened Recovery
  import Capacity

  /** `buildable` says whether a client can be made of the minter's token. */
  datatype MinterState = MinterState(retired: bool, buildable: bool, breaker: Breaker)

  type States = map<string, MinterState>

  datatype Choice = Selected(id: string) | PoolExhausted | Unavailable | NotLoaded

  /** What walking a preference order does: whom it selects, whether it passed a full minter, and
      the claims it leaves behind. */
  datatype Walked = Walked(choice: Option<string>, atCapacity: bool, states: States)

  predicate Offers(ms: MinterState, now: Time) {
    !ms.retired && Grants(ms.breaker, now)
  }

  predicate Serves(ms: MinterState, hasRoom: bool, now: Time) {
    hasRoom && Offers(ms, now) && ms.buildable
  }

  function Claimed(ms: MinterState, now: Time): MinterState {
    ms.(breaker := AfterAcquire(ms.breaker, now))
  }

  function Walk(order: seq<string>, states: States, capacity: Capacity.State, now: Time): Walked
    decreases |order|
  {
    if order == [] then Walked(None, false, states)
    else
      var id := order[0];
      if !capacity.HasRoom(id) then Walk(order[1..], states, capacity, now).(atCapacity := true)
      else if id !in states || !Offers(states[id], now) then Walk(order[1..], states, capacity, now)
      else
        var claimed := states[id := Claimed(states[id], now)];
        if states[id].buildable then Walked(Some(id), false, claimed)
        else Walk(order[1..], claimed, capacity, now)
  }

  class Backend {
    const weigh: Weigh
    var minterSets: map<string, States>

    constructor (w: Weigh)
      ensures weigh == w && minterSets == map[]
    {
      weigh := w;
      minterSets := map[];
    }

    /** The claim and the check that precede a mint. */
    method TryMinter(setName: string, id: string, now: Time) returns (granted: bool)
      requires setName in minterSets && id in minterSets[setName]
      modifies this
      ensures granted == Offers(old(minterSets[setName][id]), now)
      ensures minterSets == if granted
                            then old(minterSets)
                                 [setName := old(minterSets[setName])[id := Claimed(old(minterSets[setName][id]), now)]]
                            else old(minterSets)
    {
      var ms := minterSets[setName][id];
      granted := !ms.retired && Grants(ms.breaker, now);
      if granted {
        minterSets := minterSets[setName := minterSets[setName][id := Claimed(ms, now)]];
      }
    }

    method SelectMinter(setName: string, key: string, capacity: Capacity.State, now: Time, dice: seq<nat>)
      returns (choice: Choice, ghost order: seq<string>)
      modifies this
      ensures setName !in old(minterSets) ==> choice == NotLoaded && minterSets == old(minterSets)
      ensures setName in old(minterSets) ==>
                var states := old(minterSets[setName]);
                && Distinct(order) && (forall id :: id in order <==> id in states)
                && (key != "" ==> order == Preference(weigh, key, states.Keys))
                && var walk := Walk(order, states, capacity, now);
                   && minterSets == old(minterSets)[setName := walk.states]
                   && choice == ChoiceOf(walk)
      ensures setName in old(minterSets) ==>
                Answers(old(minterSets[setName]), order, capacity, now, choice, minterSets[setName])
    {
      hide Walk, Offers, Answers, Grants, AfterAcquire;
      order := [];
      if setName !in minterSets { return NotLoaded, []; }
      ghost var sets, states := minterSets, minterSets[setName];
      var ids := OrderKeys(weigh, key, minterSets[setName], dice);
      order := ids;
      WalkAnswers(ids, states, capacity, now);
      ghost var all := Walk(ids, states, capacity, now);
      assert ids[0..] == ids;
      var atCapacity := false;
      for i := 0 to |ids|
        invariant setName in minterSets && minterSets[setName] == states && minterSets == sets[setName := states]
        invariant Coming(all, ids, i, states, capacity, now, atCapacity)
      {
        ComingNext(all, ids, i, states, capacity, now, atCapacity);
        var id := ids[i];
        assert id in ids;
        if !capacity.HasRoom(id) {
          atCapacity := true;
          continue;
        }
        var granted := TryMinter(setName, id, now);
        if granted {
          Overwritten(sets, setName, states, states[id := Claimed(states[id], now)]);
          states := states[id := Claimed(states[id], now)];
          if minterSets[setName][id].buildable { return Selected(id), order; }
        }
      }
      ComingEnds(all, ids, states, capacity, now, atCapacity);
      return if atCapacity then PoolExhausted else Unavailable, order;
    }
  }

  // ----- the choice in the minters' own fields -------------------------------------------

  /** An active minter in service, out of its cooldown, that nobody else is probing. */
  predicate Ready(ms: MinterState, now: Time) {
    && !ms.retired && ms.breaker.state in {Healthy, TransientFailing} && now >= ms.breaker.cooldownUntil
    && (ms.breaker.rateLimitStrikes == 0 || now >= ms.breaker.probeUntil)
  }

  predicate Full(capacity: Capacity.State, id: string) {
    capacity.limit > 0 && id in capacity.used && capacity.used[id] >= capacity.limit
  }

  predicate Fit(states: States, capacity: Capacity.State, id: string, now: Time) {
    id in states && Ready(states[id], now) && states[id].buildable && !Full(capacity, id)
  }

  /** What a choice means: the first fit minter in the order, and the claim a half-open one needs; or
      that there is none, and whether some minter of the set is full. What is not chosen changes by
      a claim at most, and only if it was ready. */
  ghost predicate Answers(states: States, order: seq<string>, capacity: Capacity.State, now: Time, choice: Choice,
                          after: States)
  {
    && (match choice
        case Selected(id) =>
          && Fit(states, capacity, id, now)
          && (exists i :: 0 <= i < |order| && order[i] == id
                          && forall j :: 0 <= j < i ==> !Fit(states, capacity, order[j], now))
          && id in after
          && (states[id].breaker.rateLimitStrikes > 0 ==> after[id].breaker.probeUntil == now + PROBE_GRACE)
        case PoolExhausted =>
          && (forall id :: id in states ==> !Fit(states, capacity, id, now))
          && (exists id :: id in states && Full(capacity, id))
        case Unavailable =>
          forall id :: id in states ==> !Fit(states, capacity, id, now) && !Full(capacity, id)
        case NotLoaded => false)
    && after.Keys == states.Keys
    && (forall id :: id in states && after[id] != states[id] ==>
          && Ready(states[id], now) && !Full(capacity, id) && states[id].breaker.rateLimitStrikes > 0
          && after[id] == states[id].(breaker := states[id].breaker.(probeUntil := now + PROBE_GRACE)))
  }

  lemma {:induction false} HeadIsFirst(p: string -> bool, order: seq<string>)
    ensures Filter(p, order) == [] ==> forall id :: id in order ==> !p(id)
    ensures Filter(p, order) != [] ==>
              exists i :: 0 <= i < |order| && order[i] == Filter(p, order)[0] && p(order[i])
                          && forall j :: 0 <= j < i ==> !p(order[j])
  {
    if order != [] {
      HeadIsFirst(p, order[1..]);
      if p(order[0]) {
        assert order[0] == Filter(p, order)[0];
      } else if Filter(p, order[1..]) != [] {
        var i :| 0 <= i < |order[1..]| && order[1..][i] == Filter(p, order[1..])[0] && p(order[1..][i])
                 && forall j :: 0 <= j < i ==> !p(order[1..][j]);
        assert order[i + 1] == Filter(p, order)[0];
        forall j | 0 <= j < i + 1 ensures !p(order[j]) { if j > 0 { assert order[j] == order[1..][j - 1]; } }
      }
    }
  }

  lemma Overwritten<K, V>(m: map<K, V>, key: K, first: V, second: V)
    ensures m[key := first][key := second] == m[key := second]
  {}

  /** A walk that has come to position `i` with nothing selected. */
  ghost predicate Coming(all: Walked, order: seq<string>, i: nat, states: States, capacity: Capacity.State,
                         now: Time, atCapacity: bool)
  {
    && i <= |order| && (forall id :: id in order ==> id in states)
    && var rest := Walk(order[i..], states, capacity, now);
       && all.choice == rest.choice && all.states == rest.states
       && (rest.choice.None? ==> all.atCapacity == (atCapacity || rest.atCapacity))
  }

  lemma ComingEnds(all: Walked, order: seq<string>, states: States, capacity: Capacity.State, now: Time,
                   atCapacity: bool)
    requires Coming(all, order, |order|, states, capacity, now, atCapacity)
    ensures all == Walked(None, atCapacity, states)
  {
    assert order[|order|..] == [];
  }

  lemma ComingNext(all: Walked, order: seq<string>, i: nat, states: States, capacity: Capacity.State,
                   now: Time, atCapacity: bool)
    requires i < |order| && Coming(all, order, i, states, capacity, now, atCapacity)
    ensures var id := order[i];
            if !capacity.HasRoom(id) then Coming(all, order, i + 1, states, capacity, now, true)
            else if !Offers(states[id], now) then Coming(all, order, i + 1, states, capacity, now, atCapacity)
            else if states[id].buildable then
              all.choice == Some(id) && all.states == states[id := Claimed(states[id], now)]
            else Coming(all, order, i + 1, states[id := Claimed(states[id], now)], capacity, now, atCapacity)
  {
    assert order[i..][1..] == order[i + 1..] && order[i..][0] == order[i];
  }

  // ----- what is chosen ------------------------------------------------------------------

  function Serving(states: States, capacity: Capacity.State, now: Time): string -> bool {
    (id: string) => id in states && Serves(states[id], capacity.HasRoom(id), now)
  }

  function Head(ids: seq<string>): Option<string> {
    if ids == [] then None else Some(ids[0])
  }

  /** What coming to one minter does to it. */
  function Passed(states: States, id: string, capacity: Capacity.State, now: Time): States {
    if id in states && capacity.HasRoom(id) && Offers(states[id], now)
    then states[id := Claimed(states[id], now)] else states
  }

  lemma WalkStep(order: seq<string>, states: States, capacity: Capacity.State, now: Time)
    requires order != []
    ensures var walk := Walk(order, states, capacity, now);
            var next := Passed(states, order[0], capacity, now);
            if Serving(states, capacity, now)(order[0]) then walk == Walked(Some(order[0]), false, next)
            else
              var rest := Walk(order[1..], next, capacity, now);
              && walk.choice == rest.choice && walk.states == rest.states
              && walk.atCapacity == (rest.atCapacity || !capacity.HasRoom(order[0]))
  {}

  /** The walk selects the first minter in order that has room, is active, is granted and can be
      built, and nothing when there is none: the claims it makes on the way do not matter. */
  lemma {:induction false} FirstThatServes(order: seq<string>, states: States, capacity: Capacity.State, now: Time)
    requires Distinct(order)
    ensures Walk(order, states, capacity, now).choice == Head(Filter(Serving(states, capacity, now), order))
    decreases |order|
  {
    if order != [] {
      var next := Passed(states, order[0], capacity, now);
      WalkStep(order, states, capacity, now);
      hide Walk;
      if !Serving(states, capacity, now)(order[0]) {
        FirstThatServes(order[1..], next, capacity, now);
        assert order[0] !in order[1..];
        FilterSame(Serving(states, capacity, now), Serving(next, capacity, now), order[1..]);
        assert Filter(Serving(states, capacity, now), order) == [] + Filter(Serving(states, capacity, now), order[1..]);
      }
    }
  }

  /** With nobody to serve, the pool is reported exhausted exactly when some minter of the set is
      full, retired ones included, whatever is wrong with the others. */
  lemma {:induction false} ExhaustedWhenAnyIsFull(order: seq<string>, states: States, capacity: Capacity.State,
                                                  now: Time)
    requires Walk(order, states, capacity, now).choice.None?
    ensures Walk(order, states, capacity, now).atCapacity <==> exists id :: id in order && !capacity.HasRoom(id)
    decreases |order|
  {
    if order != [] {
      assert order == [order[0]] + order[1..];
      WalkStep(order, states, capacity, now);
      hide Walk;
      ExhaustedWhenAnyIsFull(order[1..], Passed(states, order[0], capacity, now), capacity, now);
    }
  }

  /** Full minters, retired ones and ones whose breaker refuses are left as they were. */
  lemma {:induction false} OnlyOffersAreClaimed(order: seq<string>, states: States, capacity: Capacity.State,
                                                now: Time, id: string)
    requires Distinct(order) && id in states
    ensures var walk := Walk(order, states, capacity, now);
            && walk.states.Keys == states.Keys
            && (walk.states[id] == states[id] || (id in order && walk.states[id]
                == Passed(states, id, capacity, now)[id]))
    decreases |order|
  {
    if order != [] {
      var first, rest := order[0], order[1..];
      var next := Passed(states, first, capacity, now);
      assert order == [first] + rest && first !in rest;
      WalkStep(order, states, capacity, now);
      hide Walk, Offers, Claimed;
      if !Serving(states, capacity, now)(first) {
        OnlyOffersAreClaimed(rest, next, capacity, now, id);
      }
    }
  }

  /** And so is everything behind the minter selected. */
  lemma {:induction false} BehindIsUntouched(order: seq<string>, states: States, capacity: Capacity.State,
                                             now: Time, i: nat, id: string)
    requires Distinct(order) && id in states
    requires i < |order| && Walk(order, states, capacity, now).choice == Some(order[i]) && id !in order[..i + 1]
    ensures id in Walk(order, states, capacity, now).states
    ensures Walk(order, states, capacity, now).states[id] == states[id]
    decreases |order|
  {
    var first, rest := order[0], order[1..];
    var next := Passed(states, first, capacity, now);
    assert first in order[..i + 1];
    WalkStep(order, states, capacity, now);
    if !Serving(states, capacity, now)(first) {
      FirstThatServes(rest, next, capacity, now);
      FilterMembers(Serving(next, capacity, now), rest);
      assert order[i] in rest && first !in rest;
      assert order[..i + 1] == [first] + rest[..i];
      hide Walk, Filter, Offers, Claimed;
      BehindIsUntouched(rest, next, capacity, now, i - 1, id);
    }
  }

  /** A half-open minter that the walk comes to and whose client cannot be built keeps the claim:
      nobody probes it, and nobody else is granted it until the claim runs out. */
  lemma {:induction false} UnbuildableKeepsItsClaim(order: seq<string>, i: nat,
                                                    states: States, capacity: Capacity.State,
                                                    now: Time, later: Time)
    requires Distinct(order) && i < |order| && order[i] in states
    requires forall j :: 0 <= j < i ==> !Serving(states, capacity, now)(order[j])
    requires capacity.HasRoom(order[i]) && Offers(states[order[i]], now) && !states[order[i]].buildable
    requires states[order[i]].breaker.rateLimitStrikes > 0 && now <= later < now + PROBE_GRACE
    ensures var walk := Walk(order, states, capacity, now);
            order[i] in walk.states && !Offers(walk.states[order[i]], later)
    decreases |order|
  {
    var rest, next := order[1..], Passed(states, order[0], capacity, now);
    WalkStep(order, states, capacity, now);
    hide Walk;
    assert order == [order[0]] + rest && order[0] !in rest;
    if i == 0 {
      OnlyOffersAreClaimed(rest, next, capacity, now, order[0]);
    } else {
      assert rest[i - 1] == order[i] && order[i] in rest;
      forall j | 0 <= j < i - 1 ensures !Serving(next, capacity, now)(rest[j]) {
        assert rest[j] == order[j + 1] && rest[j] in rest;
        assert !Serving(states, capacity, now)(order[j + 1]);
      }
      UnbuildableKeepsItsClaim(rest, i - 1, next, capacity, now, later);
    }
  }

  lemma ServingIsFit(states: States, capacity: Capacity.State, now: Time, id: string)
    ensures Serving(states, capacity, now)(id) <==> Fit(states, capacity, id, now)
    ensures capacity.HasRoom(id) <==> !Full(capacity, id)
    ensures id in states ==>
              && (Offers(states[id], now) <==> Ready(states[id], now))
              && (Ready(states[id], now) ==>
                    Claimed(states[id], now) ==
                    (if states[id].breaker.rateLimitStrikes > 0
                     then states[id].(breaker := states[id].breaker.(probeUntil := now + PROBE_GRACE))
                     else states[id]))
  {
    if id in states {
      var ms := states[id];
      assert ms.(breaker := ms.breaker) == ms;
    }
  }

  lemma {:induction false} SelectedIsClaimed(order: seq<string>, states: States, capacity: Capacity.State, now: Time,
                                             id: string)
    requires Distinct(order) && id in states && Walk(order, states, capacity, now).choice == Some(id)
    ensures var walk := Walk(order, states, capacity, now);
            id in walk.states && walk.states[id] == Claimed(states[id], now)
    decreases |order|
  {
    if order != [] {
      var first, rest := order[0], order[1..];
      var next := Passed(states, first, capacity, now);
      WalkStep(order, states, capacity, now);
      if !Serving(states, capacity, now)(first) {
        FirstThatServes(rest, next, capacity, now);
        FilterMembers(Serving(next, capacity, now), rest);
        assert id in rest && first !in rest;
        hide Walk, Offers, Claimed;
        SelectedIsClaimed(rest, next, capacity, now, id);
      }
    }
  }

  function ChoiceOf(walk: Walked): Choice {
    match walk.choice
    case Some(id) => Selected(id)
    case None => if walk.atCapacity then PoolExhausted else Unavailable
  }

  lemma WalkClaims(order: seq<string>, states: States, capacity: Capacity.State, now: Time)
    requires Distinct(order)
    ensures var after := Walk(order, states, capacity, now).states;
            && after.Keys == states.Keys
            && forall id :: id in states && after[id] != states[id] ==>
                 && Ready(states[id], now) && !Full(capacity, id) && states[id].breaker.rateLimitStrikes > 0
                 && after[id] == states[id].(breaker := states[id].breaker.(probeUntil := now + PROBE_GRACE))
  {
    hide Walk, Ready, Full, Offers, Claimed;
    var after := Walk(order, states, capacity, now).states;
    forall id | id in states ensures id in after { OnlyOffersAreClaimed(order, states, capacity, now, id); }
    forall id | id in after ensures id in states { WalkKeepsKeys(order, states, capacity, now); }
    forall id | id in states && after[id] != states[id]
      ensures && Ready(states[id], now) && !Full(capacity, id) && states[id].breaker.rateLimitStrikes > 0
              && after[id] == states[id].(breaker := states[id].breaker.(probeUntil := now + PROBE_GRACE))
    {
      OnlyOffersAreClaimed(order, states, capacity, now, id);
      ServingIsFit(states, capacity, now, id);
    }
  }

  lemma {:induction false} WalkKeepsKeys(order: seq<string>, states: States, capacity: Capacity.State, now: Time)
    ensures Walk(order, states, capacity, now).states.Keys == states.Keys
    decreases |order|
  {
    if order != [] {
      WalkStep(order, states, capacity, now);
      hide Walk, Offers;
      WalkKeepsKeys(order[1..], Passed(states, order[0], capacity, now), capacity, now);
    }
  }

  /** What the walk answers is what the choice means. */
  lemma WalkAnswers(order: seq<string>, states: States, capacity: Capacity.State, now: Time)
    requires Distinct(order) && forall id :: id in order <==> id in states
    ensures var walk := Walk(order, states, capacity, now);
            Answers(states, order, capacity, now, ChoiceOf(walk), walk.states)
  {
    var walk, serving := Walk(order, states, capacity, now), Serving(states, capacity, now);
    WalkClaims(order, states, capacity, now);
    FirstThatServes(order, states, capacity, now);
    HeadIsFirst(serving, order);
    hide Walk, Ready, Full, Filter, Fit;
    forall id ensures serving(id) <==> Fit(states, capacity, id, now) { ServingIsFit(states, capacity, now, id); }
    forall id ensures capacity.HasRoom(id) <==> !Full(capacity, id) { ServingIsFit(states, capacity, now, id); }
    match walk.choice
    case Some(id) =>
      assert Fit(states, capacity, id, now) && id in states by { FitIsLoaded(states, capacity, id, now); }
      SelectedIsClaimed(order, states, capacity, now, id);
      ServingIsFit(states, capacity, now, id);
      assert Ready(states[id], now) by { FitIsLoaded(states, capacity, id, now); }
    case None => ExhaustedWhenAnyIsFull(order, states, capacity, now);
  }

  lemma FitIsLoaded(states: States, capacity: Capacity.State, id: string, now: Time)
    ensures Fit(states, capacity, id, now) ==> id in states && Ready(states[id], now)
  {}

  // ----- with the affinity order ---------------------------------------------------------

  lemma WalkWithout(order: seq<string>, states: States, gone: string, capacity: Capacity.State, now: Time)
    requires Distinct(order)
    requires Walk(order, states, capacity, now).choice != Some(gone)
    ensures Walk(Filter(Other(gone), order), states - {gone}, capacity, now).choice
            == Walk(order, states, capacity, now).choice
  {
    var serving, left := Serving(states, capacity, now), Serving(states - {gone}, capacity, now);
    FilterMembers(Other(gone), order);
    FilterDistinct(Other(gone), order);
    FirstThatServes(order, states, capacity, now);
    FirstThatServes(Filter(Other(gone), order), states - {gone}, capacity, now);
    FilterTwice(Other(gone), left, left, order);
    FilterTwice(serving, Other(gone), left, order);
  }

  /** Taking a minter out of a set changes the choice of no keyed client that was not being served by it:
      clients keep their shards when the set shrinks. */
  lemma RemovalKeepsChoice(w: Weigh, key: string, states: States, gone: string, capacity: Capacity.State,
                           now: Time)
    requires Walk(Preference(w, key, states.Keys), states, capacity, now).choice != Some(gone)
    ensures Walk(Preference(w, key, states.Keys - {gone}), states - {gone}, capacity, now).choice
         == Walk(Preference(w, key, states.Keys), states, capacity, now).choice
  {
    PreferenceFacts(w, key, states.Keys);
    RemovalKeepsOrder(w, key, states.Keys, gone);
    WalkWithout(Preference(w, key, states.Keys), states, gone, capacity, now);
  }
}
