/** One orphan pass: list what carries this mount's prefix, read what the mount owns, and delete
    the rest under two separate budgets. Instants are nanoseconds and 0 is Go's zero time. */
module Reconciler {
  import opened Common
  import opened Order
  import OwnerTag

  datatype Entity = Entity(id: string, name: string, createdAt: Time, expiresAt: Time)

  datatype Config = Config(maxDeletesPerPass: int, confirmationHold: int, dryRun: bool)

  datatype Result = Result(
    scanned: nat, orphansFound: seq<string>, deleted: nat, hitLimit: bool, expired: nat, errors: seq<string>)

  function Ids(es: seq<Entity>): (r: seq<string>)
    ensures |r| == |es| && forall i :: 0 <= i < |es| ==> r[i] == es[i].id
  {
    seq(|es|, i requires 0 <= i < |es| => es[i].id)
  }

  function Take<T>(s: seq<T>, n: int): seq<T> {
    if n <= 0 then [] else if n >= |s| then s else s[..n]
  }

  function Drop<T>(s: seq<T>, n: int): seq<T> {
    if n <= 0 then s else if n >= |s| then [] else s[n..]
  }

  lemma DropDrop<T>(s: seq<T>, m: nat, n: nat)
    ensures Drop(Drop(s, m), n) == Drop(s, m + n)
  {}

  predicate Inert(e: Entity, now: Time) {
    e.expiresAt != 0 && e.expiresAt < now
  }

  /** What a pass decides by: the owned ids it read, the time it was given and its settings. */
  datatype Pass = Pass(owned: set<string>, now: Time, config: Config) {

    predicate Orphan(e: Entity) {
      && e.id !in owned
      && (config.confirmationHold > 0 ==>
          e.createdAt != 0 && now - e.createdAt >= config.confirmationHold)
    }

    function OfClass(inert: bool): Entity -> bool {
      (e: Entity) => Orphan(e) && Inert(e, now) == inert
    }

    /** The orphans of one class, in listing order. */
    function Orphans(es: seq<Entity>, inert: bool): seq<Entity> {
      Filter(OfClass(inert), es)
    }

    /** The deletions a pass attempts: each orphan that fewer than `maxDeletesPerPass` orphans
        of its own class precede. */
    function Attempts(es: seq<Entity>): seq<Entity> {
      if es == [] || config.dryRun then []
      else
        var before, e := es[..|es| - 1], es[|es| - 1];
        Attempts(before) +
        (if Orphan(e) && |Orphans(before, Inert(e, now))| < config.maxDeletesPerPass then [e] else [])
    }

    predicate OverLimit(es: seq<Entity>, inert: bool) {
      |Orphans(es, inert)| > (if config.maxDeletesPerPass < 0 then 0 else config.maxDeletesPerPass)
    }

    lemma OrphansNext(es: seq<Entity>, n: nat, inert: bool)
      requires n < |es|
      ensures Orphans(es[..n + 1], inert) ==
                Orphans(es[..n], inert) + (if OfClass(inert)(es[n]) then [es[n]] else [])
    {
      assert es[..n + 1] == es[..n] + [es[n]];
      FilterConcat(OfClass(inert), es[..n], [es[n]]);
    }

    lemma AttemptsNext(es: seq<Entity>, n: nat)
      requires n < |es| && !config.dryRun
      ensures Attempts(es[..n + 1]) == Attempts(es[..n]) +
                (if Orphan(es[n]) && |Orphans(es[..n], Inert(es[n], now))| < config.maxDeletesPerPass
                 then [es[n]] else [])
    {
      assert es[..n + 1][..n] == es[..n];
    }

    /** Budget non-interference: of each class a live pass attempts exactly the first
        `maxDeletesPerPass`, in listing order, however many of the other class are mixed in. */
    lemma {:induction false} BudgetsDoNotInterfere(es: seq<Entity>, inert: bool)
      requires !config.dryRun
      ensures Filter(OfClass(inert), Attempts(es)) == Take(Orphans(es, inert), config.maxDeletesPerPass)
    {
      if es != [] {
        var n := |es| - 1;
        assert es[..n + 1] == es;
        BudgetsDoNotInterfere(es[..n], inert);
        OrphansNext(es, n, inert);
        AttemptsNext(es, n);
        var added := Attempts(es)[|Attempts(es[..n])|..];
        assert Attempts(es) == Attempts(es[..n]) + added;
        FilterConcat(OfClass(inert), Attempts(es[..n]), added);
      }
    }

    /** A pass attempts only orphans, and no more of them than the two budgets together. */
    lemma {:induction false} AttemptsAreBounded(es: seq<Entity>)
      ensures forall e :: e in Attempts(es) ==> e in es && Orphan(e)
      ensures |Attempts(es)| == |Filter(OfClass(false), Attempts(es))| + |Filter(OfClass(true), Attempts(es))|
      ensures |Attempts(es)| <= 2 * (if config.maxDeletesPerPass < 0 then 0 else config.maxDeletesPerPass)
    {
      AttemptsAreOrphans(es);
      SplitByClass(Attempts(es));
      if !config.dryRun {
        BudgetsDoNotInterfere(es, false);
        BudgetsDoNotInterfere(es, true);
      }
    }

    lemma {:induction false} AttemptsAreOrphans(es: seq<Entity>)
      ensures forall e :: e in Attempts(es) ==> e in es && Orphan(e)
    {
      if es != [] { AttemptsAreOrphans(es[..|es| - 1]); }
    }

    lemma {:induction false} SplitByClass(es: seq<Entity>)
      requires forall e :: e in es ==> Orphan(e)
      ensures |es| == |Filter(OfClass(false), es)| + |Filter(OfClass(true), es)|
    {
      if es != [] { SplitByClass(es[1..]); }
    }

    // ----- repeated passes --------------------------------------------------------------

    function Attempted(es: seq<Entity>): Entity -> bool {
      (e: Entity) => e.id in Ids(Attempts(es))
    }

    /** What the listing holds after a pass all of whose deletions succeed. */
    function Remaining(es: seq<Entity>): seq<Entity> {
      Filter(e => !Attempted(es)(e), es)
    }

    function AfterPasses(es: seq<Entity>, k: nat): seq<Entity> {
      if k == 0 then es else Remaining(AfterPasses(es, k - 1))
    }

    predicate Drained(es: seq<Entity>) {
      Orphans(es, false) == [] && Orphans(es, true) == []
    }

    lemma AttemptedIsInFront(es: seq<Entity>, inert: bool, i: nat, j: nat)
      requires !config.dryRun && config.maxDeletesPerPass > 0 && Distinct(Ids(es)) && i < |Orphans(es, inert)|
      requires j < |Attempts(es)| && Attempts(es)[j].id == Orphans(es, inert)[i].id
      ensures i < config.maxDeletesPerPass
    {
      var all := Orphans(es, inert);
      BudgetsDoNotInterfere(es, inert);
      AttemptsAreOrphans(es);
      FilterDistinctIds(OfClass(inert), es);
      FilterMembers(OfClass(inert), es);
      FilterMembers(OfClass(inert), Attempts(es));
      hide Filter, Attempts;
      assert all[i] in all;
      SameId(es, Attempts(es)[j], all[i]);
      assert Attempts(es)[j] in Take(all, config.maxDeletesPerPass);
      var k :| 0 <= k < |all| && k < config.maxDeletesPerPass && all[k] == all[i];
      assert Ids(all)[k] == Ids(all)[i];
    }

    /** A pass attempts the front of its class and nothing else of it. */
    lemma FrontIsAttempted(es: seq<Entity>, inert: bool, i: nat)
      requires !config.dryRun && config.maxDeletesPerPass > 0 && Distinct(Ids(es)) && i < |Orphans(es, inert)|
      ensures Attempted(es)(Orphans(es, inert)[i]) <==> i < config.maxDeletesPerPass
    {
      var all := Orphans(es, inert);
      BudgetsDoNotInterfere(es, inert);
      FilterMembers(OfClass(inert), Attempts(es));
      hide Filter, Attempts;
      if i < config.maxDeletesPerPass {
        assert Take(all, config.maxDeletesPerPass)[i] == all[i];
        assert all[i] in Attempts(es);
        var j :| 0 <= j < |Attempts(es)| && Attempts(es)[j] == all[i];
        assert Ids(Attempts(es))[j] == all[i].id;
      }
      if Attempted(es)(all[i]) {
        var j :| 0 <= j < |Attempts(es)| && Ids(Attempts(es))[j] == all[i].id;
        AttemptedIsInFront(es, inert, i, j);
      }
    }

    lemma PassTakesTheFront(es: seq<Entity>, inert: bool)
      requires !config.dryRun && config.maxDeletesPerPass > 0 && Distinct(Ids(es))
      ensures Orphans(Remaining(es), inert) == Drop(Orphans(es, inert), config.maxDeletesPerPass)
      ensures Distinct(Ids(Remaining(es)))
    {
      hide Filter, Attempts, Attempted;
      var left := e => !Attempted(es)(e);
      var all := Orphans(es, inert);
      var m := config.maxDeletesPerPass;
      FiltersCommute(OfClass(inert), left, es);
      FilterDistinctIds(left, es);
      forall i | 0 <= i < |all| ensures Attempted(es)(all[i]) <==> i < m {
        FrontIsAttempted(es, inert, i);
      }
      FilterSuffix(left, all, if m < |all| then m else |all|);
    }

    /** With every delete succeeding at a fixed time, k passes drain the listing exactly when k
        times the limit covers the larger class. */
    lemma {:induction false} DrainsExactly(es: seq<Entity>, k: nat)
      requires !config.dryRun && config.maxDeletesPerPass > 0 && Distinct(Ids(es))
      ensures Drained(AfterPasses(es, k)) <==>
                && k * config.maxDeletesPerPass >= |Orphans(es, false)|
                && k * config.maxDeletesPerPass >= |Orphans(es, true)|
    {
      DrainedBy(es, k, false);
      DrainedBy(es, k, true);
      TimesIsProduct(k, config.maxDeletesPerPass);
    }

    lemma {:induction false} DrainedBy(es: seq<Entity>, k: nat, inert: bool)
      requires !config.dryRun && config.maxDeletesPerPass > 0 && Distinct(Ids(es))
      ensures Distinct(Ids(AfterPasses(es, k)))
      ensures Orphans(AfterPasses(es, k), inert) == Drop(Orphans(es, inert), Times(k, config.maxDeletesPerPass))
    {
      if k > 0 {
        DrainedBy(es, k - 1, inert);
        PassTakesTheFront(AfterPasses(es, k - 1), inert);
        DropDrop(Orphans(es, inert), Times(k - 1, config.maxDeletesPerPass), config.maxDeletesPerPass);
      }
    }
  }

  lemma {:induction false} FiltersCommute(p: Entity -> bool, q: Entity -> bool, es: seq<Entity>)
    ensures Filter(p, Filter(q, es)) == Filter(q, Filter(p, es))
  {
    if es != [] {
      FiltersCommute(p, q, es[1..]);
      FilterConcat(p, if q(es[0]) then [es[0]] else [], Filter(q, es[1..]));
      FilterConcat(q, if p(es[0]) then [es[0]] else [], Filter(p, es[1..]));
    }
  }

  lemma FilterDistinctIds(p: Entity -> bool, es: seq<Entity>)
    requires Distinct(Ids(es))
    ensures Distinct(Ids(Filter(p, es)))
  {
    FilterDistinctBy((e: Entity) => e.id, p, es);
  }

  lemma SameId(es: seq<Entity>, a: Entity, b: Entity)
    requires Distinct(Ids(es)) && a in es && b in es && a.id == b.id
    ensures a == b
  {
    var i :| 0 <= i < |es| && es[i] == a;
    var j :| 0 <= j < |es| && es[j] == b;
    assert Ids(es)[i] == Ids(es)[j];
  }

  lemma {:induction false} FilterSuffix(p: Entity -> bool, es: seq<Entity>, m: nat)
    requires m <= |es| && forall i :: 0 <= i < |es| ==> (p(es[i]) <==> i >= m)
    ensures Filter(p, es) == es[m..]
  {
    if es != [] {
      if m > 0 {
        FilterSuffix(p, es[1..], m - 1);
      } else {
        FilterSuffix(p, es[1..], 0);
        assert p(es[0]);
      }
    }
  }

  function Without(gone: set<string>): Entity -> bool {
    (e: Entity) => e.id !in gone
  }

  lemma {:induction false} WithoutNone(es: seq<Entity>)
    ensures Filter(Without({}), es) == es
  {
    if es != [] { WithoutNone(es[1..]); }
  }

  /** When the account refuses nothing, the listing after a pass is exactly `Remaining`. */
  lemma CleanPassLeavesRemaining(p: Pass, instanceId: string, clients: seq<Entity>)
    ensures var owns := (e: Entity) => OwnerTag.Owns(instanceId, e.name);
            var listing := Filter(owns, clients);
            Filter(owns, Filter(Without(Gone(p, listing, {})), clients)) == p.Remaining(listing)
  {
    var owns := (e: Entity) => OwnerTag.Owns(instanceId, e.name);
    var listing := Filter(owns, clients);
    var left := e => !p.Attempted(listing)(e);
    FiltersCommute(owns, Without(Gone(p, listing, {})), clients);
    var gone := Gone(p, listing, {});
    forall x: Entity | x in listing ensures Without(gone)(x) <==> left(x) {
      assert x.id in gone <==> x.id in Ids(p.Attempts(listing));
      assert p.Attempted(listing)(x) <==> x.id in Ids(p.Attempts(listing));
    }
    FilterTwice(left, left, Without(gone), listing);
    FilterTwice(left, left, left, listing);
  }

  // ----- the pass itself -------------------------------------------------------------------

  /** The cloud account a lister reads and deletes from. `undeletable` is the ids whose delete
      the cloud refuses; a 404 counts as success. */
  class CloudAccount {
    var clients: seq<Entity>
    ghost var attempts: seq<string>
    const instanceId: string
    const undeletable: set<string>
    const listFails: bool

    constructor (clients: seq<Entity>, instanceId: string, undeletable: set<string>, listFails: bool)
      ensures this.clients == clients && attempts == [] && this.instanceId == instanceId
      ensures this.undeletable == undeletable && this.listFails == listFails
    {
      this.clients, this.instanceId, this.undeletable, this.listFails :=
        clients, instanceId, undeletable, listFails;
      attempts := [];
    }

    ghost function Tagged(): seq<Entity>
      reads this
    {
      Filter((e: Entity) => OwnerTag.Owns(instanceId, e.name), clients)
    }

    method ListTaggedEntities() returns (r: Option<seq<Entity>>)
      ensures r == if listFails then None else Some(Tagged())
    {
      if listFails { return None; }
      var entities: seq<Entity> := [];
      ghost var owns := (e: Entity) => OwnerTag.Owns(instanceId, e.name);
      for i := 0 to |clients|
        invariant entities == Filter(owns, clients[..i])
      {
        assert clients[..i + 1] == clients[..i] + [clients[i]];
        FilterConcat(owns, clients[..i], [clients[i]]);
        if OwnerTag.Owns(instanceId, clients[i].name) {
          entities := entities + [clients[i]];
        }
      }
      assert clients[..|clients|] == clients;
      return Some(entities);
    }

    method DeleteEntity(id: string) returns (ok: bool)
      modifies this
      ensures attempts == old(attempts) + [id]
      ensures ok == (id !in undeletable)
      ensures clients == if ok then Filter(Without({id}), old(clients)) else old(clients)
    {
      attempts := attempts + [id];
      ok := id !in undeletable;
      if ok {
        clients := Filter(Without({id}), clients);
      }
    }
  }

  class DeleteBudget {
    const limit: int
    var live: nat
    var inert: nat

    constructor (limit: int)
      ensures this.limit == limit && live == 0 && inert == 0
    {
      this.limit, live, inert := limit, 0, 0;
    }

    method Claim(inertClass: bool) returns (claimed: bool)
      modifies this
      ensures claimed == ((if inertClass then old(inert) else old(live)) < limit)
      ensures live == old(live) + (if claimed && !inertClass then 1 else 0)
      ensures inert == old(inert) + (if claimed && inertClass then 1 else 0)
    {
      var spent := if inertClass then inert else live;
      if spent >= limit { return false; }
      if inertClass { inert := inert + 1; } else { live := live + 1; }
      return true;
    }
  }

  function OrphanIn(p: Pass): Entity -> bool {
    (e: Entity) => p.Orphan(e)
  }

  function Failing(undeletable: set<string>): Entity -> bool {
    (e: Entity) => e.id in undeletable
  }

  function Expired(p: Pass, undeletable: set<string>): Entity -> bool {
    (e: Entity) => e.id !in undeletable && Inert(e, p.now)
  }

  /** What the result of a pass over `es` reports, when the cloud refuses `undeletable`. */
  ghost predicate ResultMatches(p: Pass, es: seq<Entity>, undeletable: set<string>, r: Result) {
    && r.scanned == |es|
    && r.orphansFound == Ids(Filter(OrphanIn(p), es))
    && r.errors == Ids(Filter(Failing(undeletable), p.Attempts(es)))
    && r.deleted + |r.errors| == |p.Attempts(es)|
    && r.expired == |Filter(Expired(p, undeletable), p.Attempts(es))|
    && (r.hitLimit <==> !p.config.dryRun && (p.OverLimit(es, false) || p.OverLimit(es, true)))
  }

  function Capped(n: nat, limit: int): nat {
    if limit < 0 then 0 else if n <= limit then n else limit
  }

  lemma IdsConcat(a: seq<Entity>, b: seq<Entity>)
    ensures Ids(a + b) == Ids(a) + Ids(b)
  {}

  lemma FilterIdsNext(p: Entity -> bool, es: seq<Entity>, e: Entity)
    ensures Ids(Filter(p, es + [e])) == Ids(Filter(p, es)) + (if p(e) then [e.id] else [])
    ensures |Filter(p, es + [e])| == |Filter(p, es)| + (if p(e) then 1 else 0)
  {
    FilterConcat(p, es, [e]);
    assert Filter(p, [e]) == if p(e) then [e] else [];
    IdsConcat(Filter(p, es), Filter(p, [e]));
  }

  /** The ids a pass over `es` removes from an account that refuses `undeletable`. */
  function Gone(p: Pass, es: seq<Entity>, undeletable: set<string>): set<string> {
    set id | id in Ids(p.Attempts(es)) && id !in undeletable
  }

  /** What one entity adds to a pass, given how many orphans of its class went before. */
  function NextResult(p: Pass, earlier: nat, e: Entity, undeletable: set<string>, r: Result): Result {
    var scanned := r.(scanned := r.scanned + 1);
    if !p.Orphan(e) then scanned
    else
      var found := scanned.(orphansFound := r.orphansFound + [e.id]);
      if p.config.dryRun then found
      else if earlier >= p.config.maxDeletesPerPass then found.(hitLimit := true)
      else if e.id in undeletable then found.(errors := r.errors + [e.id])
      else found.(deleted := r.deleted + 1, expired := r.expired + (if Inert(e, p.now) then 1 else 0))
  }

  lemma OverLimitNext(p: Pass, es: seq<Entity>, n: nat, inert: bool)
    requires n < |es|
    ensures p.OverLimit(es[..n + 1], inert) <==>
              || p.OverLimit(es[..n], inert)
              || (p.OfClass(inert)(es[n]) && |p.Orphans(es[..n], inert)| >= p.config.maxDeletesPerPass)
  {
    p.OrphansNext(es, n, inert);
  }

  predicate Attempted(p: Pass, before: seq<Entity>, e: Entity) {
    && !p.config.dryRun && p.Orphan(e)
    && |p.Orphans(before, Inert(e, p.now))| < p.config.maxDeletesPerPass
  }

  lemma NextAttempts(p: Pass, es: seq<Entity>, n: nat)
    requires n < |es|
    ensures p.Attempts(es[..n + 1]) == if Attempted(p, es[..n], es[n]) then p.Attempts(es[..n]) + [es[n]]
                                       else p.Attempts(es[..n])
  {
    if p.config.dryRun {
      assert p.Attempts(es[..n + 1]) == [] && p.Attempts(es[..n]) == [];
    } else {
      p.AttemptsNext(es, n);
    }
  }

  lemma NextResultMatches(p: Pass, es: seq<Entity>, n: nat, undeletable: set<string>, r: Result)
    requires n < |es| && ResultMatches(p, es[..n], undeletable, r)
    ensures ResultMatches(p, es[..n + 1], undeletable,
                          NextResult(p, |p.Orphans(es[..n], Inert(es[n], p.now))|, es[n], undeletable, r))
  {
    hide Filter;
    var e, before := es[n], es[..n];
    assert es[..n + 1] == before + [e];
    FilterIdsNext(OrphanIn(p), before, e);
    OverLimitNext(p, es, n, false);
    OverLimitNext(p, es, n, true);
    NextAttempts(p, es, n);
    var attempts := p.Attempts(before);
    if Attempted(p, before, e) {
      FilterIdsNext(Failing(undeletable), attempts, e);
      FilterIdsNext(Expired(p, undeletable), attempts, e);
    }
  }

  lemma BudgetNext(p: Pass, es: seq<Entity>, n: nat, inert: bool)
    requires n < |es| && !p.config.dryRun
    ensures var limit := p.config.maxDeletesPerPass;
            Capped(|p.Orphans(es[..n + 1], inert)|, limit) == Capped(|p.Orphans(es[..n], inert)|, limit) +
              (if p.OfClass(inert)(es[n]) && |p.Orphans(es[..n], inert)| < limit then 1 else 0)
  {
    p.OrphansNext(es, n, inert);
  }

  ghost predicate SpentMatches(p: Pass, es: seq<Entity>, n: nat, live: nat, inert: nat)
    requires n <= |es|
  {
    && live == Capped(|p.Orphans(es[..n], false)|, p.config.maxDeletesPerPass)
    && inert == Capped(|p.Orphans(es[..n], true)|, p.config.maxDeletesPerPass)
  }

  predicate Charged(p: Pass, spent: nat, e: Entity) {
    !p.config.dryRun && p.Orphan(e) && spent < p.config.maxDeletesPerPass
  }

  /** The state of a pass that has visited the first `n` entities. */
  datatype Progress = Progress(attempts: seq<string>, clients: seq<Entity>, live: nat, inert: nat, result: Result)

  ghost predicate Visited(p: Pass, es: seq<Entity>, n: nat, undeletable: set<string>, start: Progress, g: Progress)
    requires n <= |es|
  {
    && g.attempts == start.attempts + Ids(p.Attempts(es[..n]))
    && g.clients == Filter(Without(Gone(p, es[..n], undeletable)), start.clients)
    && (!p.config.dryRun ==> SpentMatches(p, es, n, g.live, g.inert))
    && ResultMatches(p, es[..n], undeletable, g.result)
  }

  function Spent(p: Pass, e: Entity, g: Progress): nat {
    if Inert(e, p.now) then g.inert else g.live
  }

  /** What visiting one entity does. */
  function VisitOne(p: Pass, e: Entity, undeletable: set<string>, g: Progress): Progress {
    var inert := Inert(e, p.now);
    var charged := Charged(p, Spent(p, e, g), e);
    Progress(
      if charged then g.attempts + [e.id] else g.attempts,
      if charged && e.id !in undeletable then Filter(Without({e.id}), g.clients) else g.clients,
      if charged && !inert then g.live + 1 else g.live,
      if charged && inert then g.inert + 1 else g.inert,
      NextResult(p, Spent(p, e, g), e, undeletable, g.result))
  }

  lemma GoneNext(p: Pass, es: seq<Entity>, n: nat, undeletable: set<string>, clients: seq<Entity>)
    requires n < |es|
    ensures Filter(Without(Gone(p, es[..n + 1], undeletable)), clients) ==
              var now := Filter(Without(Gone(p, es[..n], undeletable)), clients);
              if Attempted(p, es[..n], es[n]) && es[n].id !in undeletable
              then Filter(Without({es[n].id}), now) else now
  {
    NextAttempts(p, es, n);
    var before, after := Gone(p, es[..n], undeletable), Gone(p, es[..n + 1], undeletable);
    if Attempted(p, es[..n], es[n]) {
      IdsConcat(p.Attempts(es[..n]), [es[n]]);
      assert Ids(p.Attempts(es[..n + 1])) == Ids(p.Attempts(es[..n])) + [es[n].id];
      if es[n].id !in undeletable {
        assert after == before + {es[n].id};
        FilterTwice(Without(before), Without({es[n].id}), Without(after), clients);
      } else {
        assert after == before;
      }
    }
  }

  /** The two counters decide as the orphans seen so far would. */
  lemma ChargedExactly(p: Pass, es: seq<Entity>, n: nat, undeletable: set<string>, g: Progress)
    requires n < |es| && (!p.config.dryRun ==> SpentMatches(p, es, n, g.live, g.inert))
    ensures Charged(p, Spent(p, es[n], g), es[n]) == Attempted(p, es[..n], es[n])
    ensures var g' := VisitOne(p, es[n], undeletable, g);
            !p.config.dryRun ==> SpentMatches(p, es, n + 1, g'.live, g'.inert)
    ensures NextResult(p, Spent(p, es[n], g), es[n], undeletable, g.result) ==
            NextResult(p, |p.Orphans(es[..n], Inert(es[n], p.now))|, es[n], undeletable, g.result)
  {
    if !p.config.dryRun {
      BudgetNext(p, es, n, false);
      BudgetNext(p, es, n, true);
    }
  }

  lemma VisitKeeps(p: Pass, es: seq<Entity>, n: nat, undeletable: set<string>, start: Progress, g: Progress)
    requires n < |es| && Visited(p, es, n, undeletable, start, g)
    ensures Visited(p, es, n + 1, undeletable, start, VisitOne(p, es[n], undeletable, g))
  {
    ChargedExactly(p, es, n, undeletable, g);
    NextResultMatches(p, es, n, undeletable, g.result);
    NextAttempts(p, es, n);
    IdsConcat(p.Attempts(es[..n]), [es[n]]);
    GoneNext(p, es, n, undeletable, start.clients);
  }

  // ----- a pass in the fields of what it lists ---------------------------------------------

  /** Owned by nothing, and known to be older than the hold. */
  function Reclaimable(owned: set<string>, hold: int, now: Time): Entity -> bool {
    (e: Entity) => e.id !in owned && (hold <= 0 || (e.createdAt > 0 && e.createdAt + hold <= now))
  }

  /** Still good as far as anyone knows: its expiry is unknown or not past. */
  function Usable(now: Time): Entity -> bool {
    (e: Entity) => e.expiresAt == 0 || e.expiresAt >= now
  }

  function RanOut(now: Time): Entity -> bool {
    (e: Entity) => 0 < e.expiresAt < now
  }

  function Both<T>(p: T -> bool, q: T -> bool): T -> bool {
    (x: T) => p(x) && q(x)
  }

  lemma {:induction false} FilterNone(p: Entity -> bool, es: seq<Entity>)
    requires forall e :: e in es ==> !p(e)
    ensures Filter(p, es) == []
  {
    if es != [] { FilterNone(p, es[1..]); }
  }

  lemma {:induction false} FilterEvery(p: Entity -> bool, es: seq<Entity>)
    requires forall e :: e in es ==> p(e)
    ensures Filter(p, es) == es
  {
    if es != [] { FilterEvery(p, es[1..]); }
  }

  /** What a pass attempts of a listing: what still works is charged to one budget and what has run
      out to the other, and each budget goes to the first reclaimable entities of its kind. */
  lemma AttemptsOnFields(p: Pass, es: seq<Entity>)
    ensures p.config.dryRun ==> p.Attempts(es) == []
    ensures var orphan := Reclaimable(p.owned, p.config.confirmationHold, p.now);
            var limit := p.config.maxDeletesPerPass;
            !p.config.dryRun ==>
              && Filter(Usable(p.now), p.Attempts(es)) == Take(Filter(Both(orphan, Usable(p.now)), es), limit)
              && Filter(RanOut(p.now), p.Attempts(es)) == Take(Filter(Both(orphan, RanOut(p.now)), es), limit)
  {
    var orphan := Reclaimable(p.owned, p.config.confirmationHold, p.now);
    if p.config.dryRun {
      assert p.Attempts(es) == [];
    } else {
      p.BudgetsDoNotInterfere(es, false);
      p.BudgetsDoNotInterfere(es, true);
      p.AttemptsAreOrphans(es);
      FilterSame(p.OfClass(false), Both(orphan, Usable(p.now)), es);
      FilterSame(p.OfClass(true), Both(orphan, RanOut(p.now)), es);
      FilterSame(p.OfClass(false), Usable(p.now), p.Attempts(es));
      FilterSame(p.OfClass(true), RanOut(p.now), p.Attempts(es));
    }
  }

  lemma {:induction false} ExpiredAreDeleted(p: Pass, es: seq<Entity>, undeletable: set<string>)
    ensures |Filter(Expired(p, undeletable), es)| + |Filter(Failing(undeletable), es)| <= |es|
    ensures (forall e :: e in es ==> 0 < e.expiresAt < p.now) ==>
              |Filter(Expired(p, undeletable), es)| + |Filter(Failing(undeletable), es)| == |es|
  {
    if es != [] { ExpiredAreDeleted(p, es[1..], undeletable); }
  }

  /** What the result of a pass says of the entities it listed. */
  lemma ResultOnFields(p: Pass, es: seq<Entity>, undeletable: set<string>, r: Result)
    requires ResultMatches(p, es, undeletable, r)
    ensures var limit := p.config.maxDeletesPerPass;
            var cap := if limit < 0 then 0 else limit;
            var orphan := Reclaimable(p.owned, p.config.confirmationHold, p.now);
            && r.orphansFound == Ids(Filter(orphan, es))
            && r.expired <= r.deleted
            && (r.hitLimit <==> !p.config.dryRun
                                && (|| |Filter(Both(orphan, Usable(p.now)), es)| > cap
                                    || |Filter(Both(orphan, RanOut(p.now)), es)| > cap))
            && r.expired == |Filter(Both(Without(undeletable), RanOut(p.now)), p.Attempts(es))|
  {
    var orphan := Reclaimable(p.owned, p.config.confirmationHold, p.now);
    FilterSame(OrphanIn(p), orphan, es);
    FilterSame(p.OfClass(false), Both(orphan, Usable(p.now)), es);
    FilterSame(p.OfClass(true), Both(orphan, RanOut(p.now)), es);
    FilterSame(Expired(p, undeletable), Both(Without(undeletable), RanOut(p.now)), p.Attempts(es));
    ExpiredAreDeleted(p, p.Attempts(es), undeletable);
  }

  /** A listing in which nothing has run out, as one that never reports an expiry, is reclaimed under
      the one conservative limit; a listing of nothing but expired entities is all housekeeping. */
  lemma OneKindOnly(p: Pass, es: seq<Entity>, undeletable: set<string>, r: Result)
    requires ResultMatches(p, es, undeletable, r)
    ensures var hold, limit := p.config.confirmationHold, p.config.maxDeletesPerPass;
            (forall e :: e in es ==> e.expiresAt == 0 || e.expiresAt >= p.now) ==>
              && r.expired == 0 && r.deleted <= (if limit < 0 then 0 else limit)
              && p.Attempts(es) ==
                 if p.config.dryRun then [] else Take(Filter(Reclaimable(p.owned, hold, p.now), es), limit)
    ensures (forall e :: e in es ==> 0 < e.expiresAt < p.now) ==> r.expired == r.deleted
  {
    var orphan := Reclaimable(p.owned, p.config.confirmationHold, p.now);
    p.AttemptsAreOrphans(es);
    AttemptsOnFields(p, es);
    if forall e :: e in es ==> e.expiresAt == 0 || e.expiresAt >= p.now {
      FilterEvery(Usable(p.now), p.Attempts(es));
      FilterNone(Expired(p, undeletable), p.Attempts(es));
      FilterSame(Both(orphan, Usable(p.now)), orphan, es);
    }
    if forall e :: e in es ==> 0 < e.expiresAt < p.now { ExpiredAreDeleted(p, p.Attempts(es), undeletable); }
  }

  lemma VisitStarts(p: Pass, es: seq<Entity>, undeletable: set<string>, start: Progress)
    requires start.result == Result(0, [], 0, false, 0, []) && start.live == 0 && start.inert == 0
    ensures Visited(p, es, 0, undeletable, start, start)
  {
    WithoutNone(start.clients);
    assert Gone(p, es[..0], undeletable) == {};
  }

  lemma VisitEnds(p: Pass, es: seq<Entity>, undeletable: set<string>, start: Progress, g: Progress)
    requires Visited(p, es, |es|, undeletable, start, g)
    ensures g.attempts == start.attempts + Ids(p.Attempts(es))
    ensures g.clients == Filter(Without(Gone(p, es, undeletable)), start.clients)
    ensures ResultMatches(p, es, undeletable, g.result)
    ensures p.config.dryRun ==> g.attempts == start.attempts && g.clients == start.clients
    ensures (forall e :: e in es ==> e.expiresAt == 0 || e.expiresAt >= p.now) ==>
              && g.result.expired == 0
              && g.result.deleted <= (if p.config.maxDeletesPerPass < 0 then 0 else p.config.maxDeletesPerPass)
    ensures (forall e :: e in es ==> 0 < e.expiresAt < p.now) ==> g.result.expired == g.result.deleted
  {
    assert es[..|es|] == es;
    OneKindOnly(p, es, undeletable, g.result);
    AttemptsOnFields(p, es);
    if p.config.dryRun {
      assert Gone(p, es, undeletable) == {};
      WithoutNone(start.clients);
    }
  }

  /** One iteration of the pass. */
  method Visit(p: Pass, entity: Entity, cloud: CloudAccount, budget: DeleteBudget, r: Result)
    returns (next: Result)
    requires budget.limit == p.config.maxDeletesPerPass
    modifies cloud, budget
    ensures Progress(cloud.attempts, cloud.clients, budget.live, budget.inert, next) ==
              VisitOne(p, entity, cloud.undeletable,
                       old(Progress(cloud.attempts, cloud.clients, budget.live, budget.inert, r)))
  {
    hide Filter;
    next := r.(scanned := r.scanned + 1);
    if entity.id in p.owned { return; }
    if p.config.confirmationHold > 0 {
      if entity.createdAt == 0 || p.now - entity.createdAt < p.config.confirmationHold { return; }
    }
    next := next.(orphansFound := next.orphansFound + [entity.id]);
    if p.config.dryRun { return; }
    var inert := Inert(entity, p.now);
    var claimed := budget.Claim(inert);
    if !claimed {
      next := next.(hitLimit := true);
      return;
    }
    var ok := cloud.DeleteEntity(entity.id);
    if !ok {
      next := next.(errors := next.errors + [entity.id]);
      return;
    }
    next := next.(deleted := next.deleted + 1);
    if inert { next := next.(expired := next.expired + 1); }
  }

  /** One pass. An unreadable listing or owned set deletes nothing. */
  method Run(config: Config, cloud: CloudAccount, ownedIds: Option<set<string>>, now: Time)
    returns (r: Option<Result>)
    modifies cloud
    ensures r.None? <==> cloud.listFails || ownedIds.None?
    ensures r.None? ==> cloud.attempts == old(cloud.attempts) && cloud.clients == old(cloud.clients)
    ensures r.Some? ==>
              var p := Pass(ownedIds.value, now, config);
              && cloud.attempts == old(cloud.attempts) + Ids(p.Attempts(old(cloud.Tagged())))
              && cloud.clients == Filter(Without(Gone(p, old(cloud.Tagged()), cloud.undeletable)), old(cloud.clients))
              && ResultMatches(p, old(cloud.Tagged()), cloud.undeletable, r.value)
    ensures config.dryRun ==> cloud.attempts == old(cloud.attempts) && cloud.clients == old(cloud.clients)
    ensures r.Some? && (forall e :: e in old(cloud.Tagged()) ==> e.expiresAt == 0 || e.expiresAt >= now) ==>
              && r.value.expired == 0
              && r.value.deleted <= (if config.maxDeletesPerPass < 0 then 0 else config.maxDeletesPerPass)
    ensures r.Some? && (forall e :: e in old(cloud.Tagged()) ==> 0 < e.expiresAt < now) ==>
              r.value.expired == r.value.deleted
  {
    var listed := cloud.ListTaggedEntities();
    if listed.None? || ownedIds.None? { return None; }
    var entities := listed.value;
    var p := Pass(ownedIds.value, now, config);
    var result := Result(0, [], 0, false, 0, []);
    var budget := new DeleteBudget(config.maxDeletesPerPass);
    ghost var start := Progress(cloud.attempts, cloud.clients, 0, 0, result);
    hide Visited, ResultMatches, Filter, VisitOne;
    VisitStarts(p, entities, cloud.undeletable, start);
    for i := 0 to |entities|
      invariant fresh(budget) && budget.limit == config.maxDeletesPerPass
      invariant Visited(p, entities, i, cloud.undeletable, start,
                        Progress(cloud.attempts, cloud.clients, budget.live, budget.inert, result))
    {
      VisitKeeps(p, entities, i, cloud.undeletable, start,
                 Progress(cloud.attempts, cloud.clients, budget.live, budget.inert, result));
      result := Visit(p, entities[i], cloud, budget, result);
    }
    VisitEnds(p, entities, cloud.undeletable, start,
              Progress(cloud.attempts, cloud.clients, budget.live, budget.inert, result));
    return Some(result);
  }
}
