/** Whole runs of one purge, from arming on, while its role goes on issuing: what issuance can add
    to the scope, the accounting, and when repeated passes delete everything deletable. */
module PurgeRuns {
  import opened Common
  import opened Order
  import opened Purge

  /** Tracking records carry whole seconds, of the time their request began, before the credential
      was minted; the cutoff keeps its nanoseconds. */
  function Stamp(t: Time): Time {
    t / SECOND * SECOND
  }

  function Issued(d: Disk, id: string, role: string, minter: string, t: Time): Disk {
    d.(records := d.records[id := Record(role, minter, Stamp(t))], live := d.live + {id})
  }

  function Untracked(d: Disk, id: string): Disk {
    d.(records := d.records - {id}, live := d.live - {id})
  }

  // ----- issuance and the scope ----------------------------------------------------------

  lemma StampOrder(t: Time, cutoff: Time)
    ensures Stamp(t) <= cutoff <==> t / SECOND <= cutoff / SECOND
    ensures Stamp(t) == 0 ==> t / SECOND == 0
  {}

  /** Issuing leaves the scope alone exactly when it is for another role or its request began in a
      later second: a credential requested after the cutoff in the cutoff's own second is in scope,
      and so is one that was in flight when the purge was armed. */
  lemma IssuanceOutsideScope(d: Disk, id: string, role: string, minter: string, t: Time, purged: string, cutoff: Time)
    requires id !in d.records
    ensures Scope(Issued(d, id, role, minter, t).records, purged, cutoff) == Scope(d.records, purged, cutoff)
       <==> role != purged || t / SECOND > cutoff / SECOND
  {
    var e := Issued(d, id, role, minter, t);
    StampOrder(t, cutoff);
    assert InScope(e.records[id], purged, cutoff) <==> role == purged && t / SECOND <= cutoff / SECOND;
    if role != purged || t / SECOND > cutoff / SECOND {
      assert InScopeIds(e, purged, cutoff) == InScopeIds(d, purged, cutoff);
      SameScope(d, e, purged, cutoff);
    } else {
      ScopeMembers(d, purged, cutoff);
      ScopeMembers(e, purged, cutoff);
      assert id in InScopeIds(e, purged, cutoff) && id !in InScopeIds(d, purged, cutoff);
    }
  }

  lemma SameScope(d: Disk, e: Disk, role: string, cutoff: Time)
    requires InScopeIds(d, role, cutoff) == InScopeIds(e, role, cutoff)
    ensures Scope(d.records, role, cutoff) == Scope(e.records, role, cutoff)
  {
    ScopeMembers(d, role, cutoff);
    ScopeMembers(e, role, cutoff);
    AscendingUnique(Scope(d.records, role, cutoff), Scope(e.records, role, cutoff));
  }

  lemma UntrackedScope(d: Disk, id: string, role: string, cutoff: Time)
    ensures var scan, rest := Scope(d.records, role, cutoff), Scope(Untracked(d, id).records, role, cutoff);
            && rest == Filter(Outside([id]), scan)
            && |rest| == |scan| - (if id in scan then 1 else 0)
            && (id !in scan ==> rest == scan)
  {
    var scan := Scope(d.records, role, cutoff);
    assert Elements([id]) == {id};
    ScopeWithout(d, role, cutoff, [id]);
    ScopeMembers(d, role, cutoff);
    if id in scan {
      RemovedCount(scan, [id]);
    } else {
      FilterSame(Outside([id]), Outside([]), scan);
      KeepAll(scan);
    }
  }

  lemma {:induction false} KeepAll(s: seq<string>)
    ensures Filter(Outside([]), s) == s
  {
    if s != [] { KeepAll(s[1..]); }
  }

  // ----- runs of whole passes ------------------------------------------------------------

  datatype Event =
    | Issue(id: string, role: string, minter: string, at: Time)
    | Revoke(id: string)
    | Advance(maxDeletes: int, policy: string -> Policy, faults: Faults)

  /** `lost` counts what passes deleted whose count was not saved, `revoked` the records in scope
      that lease revokes removed. */
  datatype Ledger = Ledger(disk: Disk, ghost lost: nat, ghost revoked: nat)

  ghost predicate Armed(d: Disk, role: string) {
    role in d.intents && d.intents[role].role == role
  }

  ghost function ScopeOn(d: Disk, role: string): seq<string>
    requires Armed(d, role)
  {
    Scope(d.records, role, d.intents[role].cutoff)
  }

  /** Ids are never reused, and what is issued for the role was requested in a later second than the
      cutoff's. */
  ghost predicate Admissible(d: Disk, role: string, e: Event)
    requires Armed(d, role)
  {
    e.Issue? ==> e.id !in d.records && (e.role != role || e.at / SECOND > d.intents[role].cutoff / SECOND)
  }

  ghost predicate Saves(d: Disk, role: string, e: Event)
    requires Armed(d, role) && e.Advance?
  {
    !e.faults.save && PassFor(d, d.intents[role], e.maxDeletes, e.policy, e.faults.keeps).stranded == []
  }

  ghost function Next(l: Ledger, role: string, e: Event): Ledger
    requires Armed(l.disk, role)
  {
    var d := l.disk;
    match e
    case Issue(id, r, minter, at) => l.(disk := Issued(d, id, r, minter, at))
    case Revoke(id) =>
      Ledger(Untracked(d, id), l.lost, l.revoked + if id in ScopeOn(d, role) then 1 else 0)
    case Advance(maxDeletes, policy, faults) =>
      var i := d.intents[role];
      var after := Replay(d, AdvanceEffects(d, i, maxDeletes, policy, faults));
      if i.complete || faults.scan || Saves(d, role, e) then l.(disk := after)
      else Ledger(after, l.lost + |PassFor(d, i, maxDeletes, policy, faults.keeps).deleted|, l.revoked)
  }

  /** Everything tracked at arming is accounted for, a purge that says it is complete is, and one
      that lost no count says so as soon as it is. */
  ghost predicate Balanced(l: Ledger, role: string, armed: Intent) {
    && Armed(l.disk, role)
    && var i := l.disk.intents[role];
       var left := ScopeOn(l.disk, role);
       && i.cutoff == armed.cutoff && i.tracked == armed.tracked
       && i.deleted + l.lost + l.revoked + |left| == armed.tracked
       && (i.complete ==> left == [])
       && (l.lost == 0 && l.revoked == 0 && left == [] ==> i.complete)
  }

  /** One `Advance` as the ledger sees it. */
  lemma AdvanceOn(d: Disk, role: string, e: Event)
    requires Armed(d, role) && e.Advance?
    ensures var i := d.intents[role];
            var after := Replay(d, AdvanceEffects(d, i, e.maxDeletes, e.policy, e.faults));
            var out := PassFor(d, i, e.maxDeletes, e.policy, e.faults.keeps);
            var idle := i.complete || e.faults.scan;
            && Armed(after, role)
            && after.intents[role] == (if idle || !Saves(d, role, e) then i else AdvancedIntent(d, i, out))
            && ScopeOn(after, role) ==
               (if idle then ScopeOn(d, role) else Filter(Outside(out.deleted), ScopeOn(d, role)))
            && |ScopeOn(after, role)| == |ScopeOn(d, role)| - (if idle then 0 else |out.deleted|)
  {
    var i := d.intents[role];
    AdvanceReplay(d, i, e.maxDeletes, e.policy, e.faults);
    if !i.complete && !e.faults.scan {
      AdvanceShrinksScope(d, i, e.maxDeletes, e.policy, e.faults);
    }
  }

  lemma AdvanceBalances(l: Ledger, role: string, armed: Intent, e: Event)
    requires Balanced(l, role, armed) && e.Advance?
    ensures Balanced(Next(l, role, e), role, armed)
  {
    AdvanceOn(l.disk, role, e);
  }

  lemma StepBalances(l: Ledger, role: string, armed: Intent, e: Event)
    requires Balanced(l, role, armed) && Admissible(l.disk, role, e)
    ensures Balanced(Next(l, role, e), role, armed)
  {
    var cutoff := l.disk.intents[role].cutoff;
    match e
    case Issue(id, r, minter, at) => IssuanceOutsideScope(l.disk, id, r, minter, at, role, cutoff);
    case Revoke(id) => UntrackedScope(l.disk, id, role, cutoff);
    case Advance(_, _, _) => AdvanceBalances(l, role, armed, e);
  }

  /** The ledger after a run, if every event in it is admissible. */
  ghost function Run(l: Ledger, role: string, events: seq<Event>): Option<Ledger>
    requires Armed(l.disk, role)
    decreases |events|
  {
    if events == [] then Some(l)
    else if !Admissible(l.disk, role, events[0]) then None
    else
      var next := Next(l, role, events[0]);
      if Armed(next.disk, role) then Run(next, role, events[1..]) else None
  }

  lemma {:induction false} RunBalances(l: Ledger, role: string, armed: Intent, events: seq<Event>)
    requires Balanced(l, role, armed)
    ensures Run(l, role, events).Some? ==> Balanced(Run(l, role, events).value, role, armed)
    decreases |events|
  {
    if events != [] && Admissible(l.disk, role, events[0]) {
      StepBalances(l, role, armed, events[0]);
      RunBalances(Next(l, role, events[0]), role, armed, events[1..]);
    }
  }

  ghost function JustArmed(d: Disk, role: string, now: Time): (l: Ledger)
    ensures Armed(l.disk, role)
  {
    Ledger(Apply(d, SaveIntent(ArmedIntent(d, role, now))), 0, 0)
  }

  // ----- progress ------------------------------------------------------------------------

  ghost predicate Unthrottled(policy: string -> Policy) {
    forall id :: !policy(id).Throttle?
  }

  /** What a pass leaves of its scan when every record it deletes can be dropped. */
  function Left(scan: seq<string>, budget: int, policy: string -> Policy): seq<string>
    decreases |scan|
  {
    if scan == [] || budget <= 0 then scan
    else (if policy(scan[0]).Allow? then [] else [scan[0]]) + Left(scan[1..], budget - 1, policy)
  }

  lemma {:induction false} PassLeaves(scan: seq<string>, budget: int, policy: string -> Policy)
    requires Unthrottled(policy) && Distinct(scan)
    ensures Filter(Outside(PassOver(scan, budget, policy, {}).deleted), scan) == Left(scan, budget, policy)
    decreases |scan|
  {
    if scan == [] || budget <= 0 {
      KeepAll(scan);
    } else {
      var id, tail := scan[0], scan[1..];
      var all, rest := PassOver(scan, budget, policy, {}).deleted, PassOver(tail, budget - 1, policy, {}).deleted;
      PassLeaves(tail, budget - 1, policy);
      PassDeletesFromScan(tail, budget - 1, policy, {});
      assert id !in tail && id !in rest;
      assert all == if policy(id).Allow? then [id] + rest else rest;
      assert forall x :: x in tail ==> Outside(all)(x) == Outside(rest)(x);
      FilterSame(Outside(all), Outside(rest), tail);
      LeftStep(scan, budget, policy);
      assert Outside(all)(id) <==> !policy(id).Allow?;
    }
  }

  lemma LeftStep(scan: seq<string>, budget: int, policy: string -> Policy)
    requires scan != [] && budget > 0 && Unthrottled(policy)
    ensures var left, rest := Left(scan, budget, policy), Left(scan[1..], budget - 1, policy);
            if policy(scan[0]).Allow? then left == rest
            else
              && left != [] && left[0] == scan[0] && left[1..] == rest
              && Count(Refused(policy), left) == 1 + Count(Refused(policy), rest)
              && Count(Allowed(policy), left) == Count(Allowed(policy), rest)
  {
    assert policy(scan[0]).Allow? || policy(scan[0]).Refuse?;
    if policy(scan[0]).Allow? {
      assert Left(scan, budget, policy) == [] + Left(scan[1..], budget - 1, policy);
    }
  }

  function Count(p: string -> bool, s: seq<string>): nat {
    |Filter(p, s)|
  }

  /** An unthrottled pass with room for `budget` calls deletes at least what the budget has left
      after every refusal in scope, or everything deletable. */
  lemma {:induction false} PassProgress(scan: seq<string>, budget: int, policy: string -> Policy)
    requires Unthrottled(policy) && budget >= 0
    ensures var deletable := Count(Allowed(policy), scan);
            var left := Left(scan, budget, policy);
            && Count(Refused(policy), left) == Count(Refused(policy), scan)
            && (Count(Allowed(policy), left) == 0
                || Count(Allowed(policy), left) <= deletable - (budget - Count(Refused(policy), scan)))
            && Count(Allowed(policy), left) <= deletable
    decreases |scan|
  {
    if scan != [] && budget > 0 {
      PassProgress(scan[1..], budget - 1, policy);
      LeftStep(scan, budget, policy);
    }
  }

  function Passes(scan: seq<string>, budget: nat, policy: string -> Policy, n: nat): seq<string>
    decreases n
  {
    if n == 0 then scan else Passes(Left(scan, budget, policy), budget, policy, n - 1)
  }

  /** With fewer refusals in scope than the budget, `k` passes suffice for `k * (budget - refusals)`
      deletable records. */
  lemma {:induction false} DrainsWithin(scan: seq<string>, budget: nat, policy: string -> Policy, k: nat)
    requires Unthrottled(policy) && Count(Refused(policy), scan) < budget
    requires Count(Allowed(policy), scan) <= Times(k, budget - Count(Refused(policy), scan))
    ensures Count(Allowed(policy), Passes(scan, budget, policy, k)) == 0
    decreases k
  {
    if k > 0 {
      PassProgress(scan, budget, policy);
      DrainsWithin(Left(scan, budget, policy), budget, policy, k - 1);
    }
  }

  /** No deletable record has a budget's worth of refused ones ahead of it. */
  ghost predicate Reachable(scan: seq<string>, budget: int, policy: string -> Policy) {
    forall i :: 0 <= i < |scan| && policy(scan[i]).Allow? ==> Count(Refused(policy), scan[..i]) < budget
  }

  lemma ReachableTail(scan: seq<string>, budget: int, policy: string -> Policy)
    requires scan != [] && Unthrottled(policy)
    ensures Reachable(scan, budget, policy) <==>
              if policy(scan[0]).Allow? then budget > 0 && Reachable(scan[1..], budget, policy)
              else Reachable(scan[1..], budget - 1, policy)
  {
    var tail := scan[1..];
    var cost := if policy(scan[0]).Allow? then 0 else 1;
    assert Count(Refused(policy), scan[..0]) == 0;
    forall i | 0 <= i < |tail|
      ensures scan[i + 1] == tail[i]
              && Count(Refused(policy), scan[..i + 1]) == cost + Count(Refused(policy), tail[..i])
    {
      assert scan[..i + 1][1..] == tail[..i];
    }
    if Reachable(scan, budget, policy) {
      forall i | 0 <= i < |tail| && policy(tail[i]).Allow?
        ensures Count(Refused(policy), tail[..i]) < budget - cost
      {
        assert Count(Refused(policy), scan[..i + 1]) < budget;
      }
    } else {
      var i :| 0 <= i < |scan| && policy(scan[i]).Allow? && !(Count(Refused(policy), scan[..i]) < budget);
      if i > 0 {
        assert policy(tail[i - 1]).Allow? && !(Count(Refused(policy), tail[..i - 1]) < budget - cost);
      }
    }
  }

  /** A pass neither frees nor blocks the records it leaves. */
  lemma {:induction false} PassKeepsReachable(scan: seq<string>, b: int, budget: int, policy: string -> Policy)
    requires Unthrottled(policy) && b <= budget
    ensures Reachable(Left(scan, b, policy), budget, policy) <==> Reachable(scan, budget, policy)
    decreases |scan|
  {
    hide Reachable, Filter;
    if scan != [] && b > 0 {
      ReachableTail(scan, budget, policy);
      LeftStep(scan, b, policy);
      if policy(scan[0]).Allow? {
        PassKeepsReachable(scan[1..], b - 1, budget, policy);
      } else {
        PassKeepsReachable(scan[1..], b - 1, budget - 1, policy);
        ReachableTail(Left(scan, b, policy), budget, policy);
      }
    }
  }

  lemma NoneReachable(scan: seq<string>, policy: string -> Policy)
    requires Reachable(scan, 0, policy)
    ensures Count(Allowed(policy), scan) == 0
  {
    FilterMembers(Allowed(policy), scan);
    forall i | 0 <= i < |scan| ensures scan[i] !in Filter(Allowed(policy), scan) {
      assert Count(Refused(policy), scan[..i]) >= 0;
    }
    if Filter(Allowed(policy), scan) != [] {
      assert Filter(Allowed(policy), scan)[0] in scan;
    }
  }

  lemma {:induction false} ReachableProgress(scan: seq<string>, budget: nat, policy: string -> Policy)
    requires Unthrottled(policy) && Reachable(scan, budget, policy) && Count(Allowed(policy), scan) > 0
    ensures Count(Allowed(policy), Left(scan, budget, policy)) < Count(Allowed(policy), scan)
    decreases |scan|
  {
    ReachableTail(scan, budget, policy);
    if budget > 0 { LeftStep(scan, budget, policy); }
    if budget == 0 {
      NoneReachable(scan, policy);
    } else if policy(scan[0]).Allow? {
      PassProgress(scan[1..], budget - 1, policy);
    } else {
      ReachableProgress(scan[1..], budget - 1, policy);
    }
  }

  lemma {:induction false} ReachableDrains(scan: seq<string>, budget: nat, policy: string -> Policy, n: nat)
    requires Unthrottled(policy) && Reachable(scan, budget, policy) && n >= Count(Allowed(policy), scan)
    ensures Count(Allowed(policy), Passes(scan, budget, policy, n)) == 0
    decreases n
  {
    if n > 0 {
      var left := Left(scan, budget, policy);
      PassKeepsReachable(scan, budget, budget, policy);
      PassProgress(scan, budget, policy);
      if Count(Allowed(policy), scan) > 0 { ReachableProgress(scan, budget, policy); }
      ReachableDrains(left, budget, policy, n - 1);
    }
  }

  lemma {:induction false} DrainedWasReachable(scan: seq<string>, budget: nat, policy: string -> Policy, n: nat)
    requires Unthrottled(policy) && Count(Allowed(policy), Passes(scan, budget, policy, n)) == 0
    ensures Reachable(scan, budget, policy)
    decreases n
  {
    if n > 0 {
      DrainedWasReachable(Left(scan, budget, policy), budget, policy, n - 1);
      PassKeepsReachable(scan, budget, budget, policy);
    } else {
      FilterMembers(Allowed(policy), scan);
      forall i | 0 <= i < |scan| ensures !policy(scan[i]).Allow? {
        assert scan[i] in scan && scan[i] !in Filter(Allowed(policy), scan);
      }
    }
  }

  /** Repeated passes delete everything deletable exactly when no deletable record has a budget's
      worth of refused ones ahead of it; a pass per deletable record is then enough. Otherwise
      the refused ones use up every pass, and the purge never gets past them. */
  lemma PurgeDrainsExactly(scan: seq<string>, budget: nat, policy: string -> Policy)
    requires Unthrottled(policy)
    ensures (exists n: nat :: Count(Allowed(policy), Passes(scan, budget, policy, n)) == 0)
            <==> Reachable(scan, budget, policy)
    ensures Reachable(scan, budget, policy) ==>
              Count(Allowed(policy), Passes(scan, budget, policy, Count(Allowed(policy), scan))) == 0
  {
    if Reachable(scan, budget, policy) {
      ReachableDrains(scan, budget, policy, Count(Allowed(policy), scan));
    }
    if n: nat :| Count(Allowed(policy), Passes(scan, budget, policy, n)) == 0 {
      DrainedWasReachable(scan, budget, policy, n);
    }
  }

  // ----- progress in a run ---------------------------------------------------------------

  /** A run in which storage works, the cloud answers as `policy` says, and leases revoke nothing
      that is in scope. */
  ghost predicate Steady(l: Ledger, role: string, maxDeletes: int, policy: string -> Policy, events: seq<Event>)
    requires Armed(l.disk, role)
    decreases |events|
  {
    events == [] ||
    (&& Admissible(l.disk, role, events[0])
     && (events[0].Revoke? ==> events[0].id !in ScopeOn(l.disk, role))
     && (events[0].Advance? ==>
           events[0].maxDeletes == maxDeletes && events[0].policy == policy && events[0].faults == NO_FAULTS)
     && Armed(Next(l, role, events[0]).disk, role)
     && Steady(Next(l, role, events[0]), role, maxDeletes, policy, events[1..]))
  }

  function Advances(events: seq<Event>): nat {
    if events == [] then 0 else (if events[0].Advance? then 1 else 0) + Advances(events[1..])
  }

  lemma SteadyStep(l: Ledger, role: string, armed: Intent, maxDeletes: int, policy: string -> Policy, e: Event)
    requires Balanced(l, role, armed) && Unthrottled(policy) && Steady(l, role, maxDeletes, policy, [e])
    ensures ScopeOn(Next(l, role, e).disk, role) ==
              if e.Advance? then Left(ScopeOn(l.disk, role), Budget(maxDeletes), policy) else ScopeOn(l.disk, role)
  {
    var d := l.disk;
    var i := d.intents[role];
    match e
    case Issue(id, r, minter, at) => IssuanceOutsideScope(d, id, r, minter, at, role, i.cutoff);
    case Revoke(id) => UntrackedScope(d, id, role, i.cutoff);
    case Advance(_, _, _) =>
      AdvanceOn(d, role, e);
      ScopeMembers(d, role, i.cutoff);
      PassLeaves(ScopeOn(d, role), Budget(maxDeletes), policy);
  }

  lemma {:induction false} SteadyScope(l: Ledger, role: string, armed: Intent, maxDeletes: int,
                                       policy: string -> Policy,
                                       events: seq<Event>)
    requires Balanced(l, role, armed) && Unthrottled(policy) && Steady(l, role, maxDeletes, policy, events)
    ensures Run(l, role, events).Some?
    ensures Armed(Run(l, role, events).value.disk, role)
    ensures ScopeOn(Run(l, role, events).value.disk, role)
         == Passes(ScopeOn(l.disk, role), Budget(maxDeletes), policy, Advances(events))
    decreases |events|
  {
    if events != [] {
      SteadyStep(l, role, armed, maxDeletes, policy, events[0]);
      StepBalances(l, role, armed, events[0]);
      SteadyScope(Next(l, role, events[0]), role, armed, maxDeletes, policy, events[1..]);
    }
  }

  /** In such a run a pass per record deletable at arming leaves nothing deletable in scope, exactly
      when no such record has a budget's worth of refused ones ahead of it. */
  lemma SteadyPurgeDrainsExactly(d: Disk, role: string, now: Time, maxDeletes: int, policy: string -> Policy,
                                 events: seq<Event>)
    requires Unthrottled(policy)
    requires Steady(JustArmed(d, role, now), role, maxDeletes, policy, events)
    requires Advances(events) >= Count(Allowed(policy), Scope(d.records, role, now))
    ensures var end := Run(JustArmed(d, role, now), role, events);
            end.Some? &&
            (Count(Allowed(policy), Scope(end.value.disk.records, role, now)) == 0
             <==> Reachable(Scope(d.records, role, now), Budget(maxDeletes), policy))
  {
    var l := JustArmed(d, role, now);
    var scan, b, n := Scope(d.records, role, now), Budget(maxDeletes), Advances(events);
    assert Balanced(l, role, ArmedIntent(d, role, now));
    SteadyScope(l, role, ArmedIntent(d, role, now), maxDeletes, policy, events);
    RunBalances(l, role, ArmedIntent(d, role, now), events);
    if Reachable(scan, b, policy) { ReachableDrains(scan, b, policy, n); }
    if Count(Allowed(policy), Passes(scan, b, policy, n)) == 0 { DrainedWasReachable(scan, b, policy, n); }
  }

  /** Two refused records ahead of a deletable one starve a purge whose budget is two. */
  lemma {:induction false} RefusalsStarve(n: nat)
    ensures var policy := (id: string) => if id == "c" then Allow else Refuse;
            Passes(["a", "b", "c"], 2, policy, n) == ["a", "b", "c"]
  {
    if n > 0 {
      var policy := (id: string) => if id == "c" then Allow else Refuse;
      var s := ["a", "b", "c"];
      assert s[1..] == ["b", "c"] && s[1..][1..] == ["c"];
      assert Left(["c"], 0, policy) == ["c"];
      assert Left(["b", "c"], 1, policy) == ["b"] + ["c"];
      assert Left(s, 2, policy) == s;
      RefusalsStarve(n - 1);
    }
  }

  // ----- progress in any run -------------------------------------------------------------

  lemma ReachableMore(scan: seq<string>, b: int, budget: int, policy: string -> Policy)
    requires Reachable(scan, b, policy) && b <= budget
    ensures Reachable(scan, budget, policy)
  {
    hide Filter;
  }

  /** Taking records out of a scan blocks none of those it leaves. */
  lemma {:induction false} FilterReachable(q: string -> bool, scan: seq<string>, budget: int, policy: string -> Policy)
    requires Unthrottled(policy) && Reachable(scan, budget, policy)
    ensures Reachable(Filter(q, scan), budget, policy)
    decreases |scan|
  {
    if scan != [] {
      var tail := scan[1..];
      var b := if policy(scan[0]).Allow? then budget else budget - 1;
      ReachableTail(scan, budget, policy);
      FilterReachable(q, tail, b, policy);
      if q(scan[0]) {
        assert Filter(q, scan)[1..] == Filter(q, tail);
        ReachableTail(Filter(q, scan), budget, policy);
      } else {
        ReachableMore(Filter(q, tail), b, budget, policy);
        assert Filter(q, scan) == Filter(q, tail);
      }
    }
  }

  lemma {:induction false} FilterCount(p: string -> bool, q: string -> bool, s: seq<string>)
    ensures Count(p, Filter(q, s)) <= Count(p, s)
  {
    if s != [] {
      FilterCount(p, q, s[1..]);
      FilterConcat(p, if q(s[0]) then [s[0]] else [], Filter(q, s[1..]));
    }
  }

  /** A pass whose scan and deletions work, with at least the budget and the answers given. */
  ghost predicate Works(e: Event, budget: nat, policy: string -> Policy) {
    e.Advance? && Budget(e.maxDeletes) >= budget && e.policy == policy && !e.faults.scan && e.faults.keeps == {}
  }

  ghost function Working(events: seq<Event>, budget: nat, policy: string -> Policy): nat {
    if events == [] then 0
    else (if Works(events[0], budget, policy) then 1 else 0) + Working(events[1..], budget, policy)
  }

  /** Any event only takes records out of scope. */
  lemma StepFilters(l: Ledger, role: string, armed: Intent, e: Event) returns (gone: seq<string>)
    requires Balanced(l, role, armed) && Admissible(l.disk, role, e)
    ensures Armed(Next(l, role, e).disk, role)
    ensures ScopeOn(Next(l, role, e).disk, role) == Filter(Outside(gone), ScopeOn(l.disk, role))
  {
    var d := l.disk;
    var i := d.intents[role];
    gone := [];
    KeepAll(ScopeOn(d, role));
    match e
    case Issue(id, r, minter, at) => IssuanceOutsideScope(d, id, r, minter, at, role, i.cutoff);
    case Revoke(id) =>
      UntrackedScope(d, id, role, i.cutoff);
      gone := [id];
    case Advance(maxDeletes, policy, faults) =>
      AdvanceOn(d, role, e);
      if !i.complete && !faults.scan { gone := PassFor(d, i, maxDeletes, policy, faults.keeps).deleted; }
  }

  lemma WorkingStepProgress(l: Ledger, role: string, armed: Intent, e: Event, budget: nat, policy: string -> Policy)
    requires Balanced(l, role, armed) && Unthrottled(policy) && Works(e, budget, policy)
    requires Reachable(ScopeOn(l.disk, role), budget, policy) && Count(Allowed(policy), ScopeOn(l.disk, role)) > 0
    ensures Armed(Next(l, role, e).disk, role)
    ensures Count(Allowed(policy), ScopeOn(Next(l, role, e).disk, role)) < Count(Allowed(policy), ScopeOn(l.disk, role))
  {
    var scan := ScopeOn(l.disk, role);
    AdvanceOn(l.disk, role, e);
    ScopeMembers(l.disk, role, l.disk.intents[role].cutoff);
    PassLeaves(scan, Budget(e.maxDeletes), policy);
    ReachableMore(scan, budget, Budget(e.maxDeletes), policy);
    ReachableProgress(scan, Budget(e.maxDeletes), policy);
  }

  lemma {:induction false} RunDrains(l: Ledger, role: string, armed: Intent, events: seq<Event>, budget: nat,
                                     policy: string -> Policy)
    requires Balanced(l, role, armed) && Run(l, role, events).Some?
    requires Unthrottled(policy) && Reachable(ScopeOn(l.disk, role), budget, policy)
    requires Working(events, budget, policy) >= Count(Allowed(policy), ScopeOn(l.disk, role))
    ensures Armed(Run(l, role, events).value.disk, role)
    ensures Count(Allowed(policy), ScopeOn(Run(l, role, events).value.disk, role)) == 0
    decreases |events|
  {
    if events != [] {
      var next, scan := Next(l, role, events[0]), ScopeOn(l.disk, role);
      var gone := StepFilters(l, role, armed, events[0]);
      StepBalances(l, role, armed, events[0]);
      FilterReachable(Outside(gone), scan, budget, policy);
      FilterCount(Allowed(policy), Outside(gone), scan);
      if Works(events[0], budget, policy) && Count(Allowed(policy), scan) > 0 {
        WorkingStepProgress(l, role, armed, events[0], budget, policy);
      }
      RunDrains(next, role, armed, events[1..], budget, policy);
    }
  }

  /** A purge finishes while its role goes on issuing: whatever else a run holds (leases revoked in
      scope, storage failures, throttled passes, passes with other budgets or answers), as many
      working passes as records were deletable at arming leave nothing deletable in scope, when no
      such record had a budget's worth of refused ones ahead of it. */
  lemma PurgeTerminates(d: Disk, role: string, now: Time, events: seq<Event>, budget: nat, policy: string -> Policy)
    requires Run(JustArmed(d, role, now), role, events).Some?
    requires Unthrottled(policy) && Reachable(Scope(d.records, role, now), budget, policy)
    requires Working(events, budget, policy) >= Count(Allowed(policy), Scope(d.records, role, now))
    ensures var end := Run(JustArmed(d, role, now), role, events).value;
            Count(Allowed(policy), Scope(end.disk.records, role, now)) == 0
  {
    var l, armed := JustArmed(d, role, now), ArmedIntent(d, role, now);
    assert Balanced(l, role, armed);
    RunDrains(l, role, armed, events, budget, policy);
    RunBalances(l, role, armed, events);
  }

  // ----- repeated sweeps -----------------------------------------------------------------

  /** Sweep after sweep, each in the order its listing gave. */
  ghost function AfterSweeps(d: Disk, orders: seq<seq<string>>, maxDeletes: int, policy: string -> Policy,
                             resolvable: set<string>, faults: string -> Faults): Disk
  {
    if orders == [] then d
    else Swept(AfterSweeps(d, orders[..|orders| - 1], maxDeletes, policy, resolvable, faults),
               orders[|orders| - 1], maxDeletes, policy, resolvable, faults)
  }

  /** How much of a role's scope is deletable. */
  ghost function DeletableLeft(d: Disk, role: string, cutoff: Time, policy: string -> Policy): nat {
    Count(Allowed(policy), Scope(d.records, role, cutoff))
  }

  /** A purge that has nothing deletable left, or whose next pass will delete something. */
  ghost predicate Draining(d: Disk, role: string, cutoff: Time, budget: int, policy: string -> Policy) {
    && IntentsKeyed(d) && role in d.intents && d.intents[role].cutoff == cutoff
    && (DeletableLeft(d, role, cutoff, policy) == 0
        || (!d.intents[role].complete && Reachable(Scope(d.records, role, cutoff), budget, policy)))
  }

  /** A sweep takes something deletable out of the scope of every unfinished purge it can read and
      resolve, however many refusals its last pass met. */
  lemma SweepProgress(d: Disk, order: seq<string>, role: string, cutoff: Time, maxDeletes: int,
                      policy: string -> Policy, resolvable: set<string>, faults: string -> Faults)
    requires Distinct(order) && role in order && role in resolvable && !faults(role).scan && faults(role).keeps == {}
    requires Unthrottled(policy) && Draining(d, role, cutoff, Budget(maxDeletes), policy)
    ensures var after := Swept(d, order, maxDeletes, policy, resolvable, faults);
            && Draining(after, role, cutoff, Budget(maxDeletes), policy)
            && DeletableLeft(after, role, cutoff, policy) <= DeletableLeft(d, role, cutoff, policy)
            && (DeletableLeft(d, role, cutoff, policy) > 0 ==>
                  DeletableLeft(after, role, cutoff, policy) < DeletableLeft(d, role, cutoff, policy))
  {
    var i, after := d.intents[role], Swept(d, order, maxDeletes, policy, resolvable, faults);
    var scan := Scope(d.records, role, cutoff);
    SweepIsolatesRoles(d, order, role, maxDeletes, policy, resolvable, faults);
    SweptKeyed(d, order, maxDeletes, policy, resolvable, faults);
    if i.complete {
      ScopeOfSameRole(after, d, role, cutoff);
    } else {
      var e := Advance(maxDeletes, policy, faults(role));
      var alone := Replay(d, AdvanceEffects(d, i, maxDeletes, policy, faults(role)));
      ScopeOfSameRole(after, alone, role, cutoff);
      AdvanceOn(d, role, e);
      ScopeMembers(d, role, cutoff);
      PassLeaves(scan, Budget(maxDeletes), policy);
      var out := PassFor(d, i, maxDeletes, policy, {});
      FilterCount(Allowed(policy), Outside(out.deleted), scan);
      if DeletableLeft(d, role, cutoff, policy) > 0 {
        FilterReachable(Outside(out.deleted), scan, Budget(maxDeletes), policy);
        ReachableProgress(scan, Budget(maxDeletes), policy);
      }
    }
  }

  /** Each sweep lists every stored intent once. */
  ghost predicate Listings(orders: seq<seq<string>>, role: string) {
    forall k :: 0 <= k < |orders| ==> Distinct(orders[k]) && role in orders[k]
  }

  /** Sweeps finish every purge: as many of them as records were deletable leave nothing deletable in
      scope, when no such record has a budget's worth of refused ones ahead of it. Its passes may all
      have met refusals, and the other roles may fail in any way. */
  lemma {:induction false} SweepsDrain(d: Disk, orders: seq<seq<string>>, role: string, cutoff: Time,
      maxDeletes: int, policy: string -> Policy, resolvable: set<string>, faults: string -> Faults)
    requires Listings(orders, role)
    requires role in resolvable && !faults(role).scan && faults(role).keeps == {}
    requires Unthrottled(policy) && Draining(d, role, cutoff, Budget(maxDeletes), policy)
    ensures Draining(AfterSweeps(d, orders, maxDeletes, policy, resolvable, faults), role, cutoff,
                     Budget(maxDeletes), policy)
    ensures var after := AfterSweeps(d, orders, maxDeletes, policy, resolvable, faults);
            var n := DeletableLeft(d, role, cutoff, policy);
            DeletableLeft(after, role, cutoff, policy) <= if n > |orders| then n - |orders| else 0
  {
    hide Draining, DeletableLeft, Swept, Unthrottled;
    if orders != [] {
      var before, order := orders[..|orders| - 1], orders[|orders| - 1];
      assert Listings(before, role);
      SweepsDrain(d, before, role, cutoff, maxDeletes, policy, resolvable, faults);
      SweepProgress(AfterSweeps(d, before, maxDeletes, policy, resolvable, faults), order, role, cutoff, maxDeletes,
                    policy, resolvable, faults);
    }
  }
}
